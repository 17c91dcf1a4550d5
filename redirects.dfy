/** Where the registration and login views send a user. Both read the page the user
 *  was searching from the session ("logout" when there is none), bind their form to
 *  the POST data, and after a successful login redirect: to the substitutes page of
 *  the product a random-product page left in the session, or to the search page. The
 *  login view also has a branch for an explicit `next` URL. Form-field validation and
 *  the credential check are parameters. */
module Redirects {

  datatype Method = Get | Post

  /** The parts of a request the views read. */
  datatype Request = Request(
    verb: Method,
    post: map<string, string>,
    get: map<string, string>,
    session: map<string, string>)

  datatype Target =
    | ProductSubstitutes(pk: string)
    | SearchProduct
    | Next(url: string)

  /** `ServerError` is an exception the view does not catch. */
  datatype Response =
    | Redirect(to: Target)
    | Render(template: string, currentSearch: string)
    | ServerError

  const RegistrationTemplate: string := "openuser/registration.html"
  const LoginTemplate: string := "openuser/connexion.html"
  const DefaultSearch: string := "logout"

  /** The default current search mentions no random product. */
  lemma DefaultSearchNotRandom()
    ensures !Contains(DefaultSearch, "random")
  {
    assert DefaultSearch[..6] != "random" by {
      assert DefaultSearch[..6][0] == 'l';
    }
  }

  /** `currentsearch` from the session, or "logout" when it is absent. */
  function CurrentSearch(session: map<string, string>): (r: string)
    ensures "currentsearch" in session ==> r == session["currentsearch"]
    ensures "currentsearch" !in session ==> r == DefaultSearch
  {
    if "currentsearch" in session then session["currentsearch"] else DefaultSearch
  }

  /** `request.POST or None`: the data the form is bound to. A GET request carries no
   *  POST data, and an empty QueryDict is falsy, so the form is then unbound. */
  function FormData(r: Request): (d: map<string, string>)
    ensures d != map[] ==> r.verb.Post? && d == r.post
  {
    if r.verb == Get then map[] else r.post
  }

  /** `form.is_valid()`: an unbound form is never valid; a bound one is valid when its
   *  fields are. */
  function FormValid(r: Request, fieldsValid: bool): (v: bool)
    ensures v <==> r.verb == Post && r.post != map[] && fieldsValid
  {
    FormData(r) != map[] && fieldsValid
  }

  /** Python's `sub in s` on strings. */
  function Contains(s: string, sub: string): (c: bool)
    ensures c ==> |sub| <= |s|
    ensures sub == [] ==> c
    decreases |s|
  {
    |sub| <= |s| && (s[..|sub|] == sub || (s != [] && Contains(s[1..], sub)))
  }

  /** `sub` occurs in `s` starting at index `i`. */
  predicate OccursAt(s: string, sub: string, i: int)
  {
    0 <= i <= |s| - |sub| && s[i..i + |sub|] == sub
  }

  /** The recursive test agrees with "`sub` occurs somewhere in `s`", both ways. */
  lemma {:induction false} ContainsIff(s: string, sub: string)
    ensures Contains(s, sub) <==> exists i :: OccursAt(s, sub, i)
  {
    if |sub| <= |s| && s[..|sub|] == sub {
      assert OccursAt(s, sub, 0);
    } else if |sub| <= |s| {
      ContainsIff(s[1..], sub);
      if Contains(s[1..], sub) {
        var i :| OccursAt(s[1..], sub, i);
        assert s[1..][i..i + |sub|] == s[i + 1..i + 1 + |sub|];
        assert OccursAt(s, sub, i + 1);
      }
      if exists i :: OccursAt(s, sub, i) {
        var i :| OccursAt(s, sub, i);
        assert i != 0;
        assert s[1..][i - 1..i - 1 + |sub|] == s[i..i + |sub|];
        assert OccursAt(s[1..], sub, i - 1);
      }
    }
  }

  /** The value under `key`, or the empty string. */
  function Lookup(m: map<string, string>, key: string): string
  {
    if key in m then m[key] else ""
  }

  /** `s.replace(pat, "")`: every non-overlapping occurrence of `pat`, scanning from
   *  the left, is removed. */
  function RemoveAll(s: string, pat: string): (r: string)
    requires pat != []
    ensures |r| <= |s|
    decreases |s|
  {
    if |s| < |pat| then s
    else if s[..|pat|] == pat then RemoveAll(s[|pat|..], pat)
    else [s[0]] + RemoveAll(s[1..], pat)
  }

  /** A string without the pattern is left as it is. */
  lemma {:induction false} RemoveAllIdentity(s: string, pat: string)
    requires pat != [] && !Contains(s, pat)
    ensures RemoveAll(s, pat) == s
  {
    if |s| >= |pat| {
      assert s[..|pat|] != pat;
      RemoveAllIdentity(s[1..], pat);
      assert s == [s[0]] + s[1..];
    }
  }

  /** The pattern in front is removed together with any later occurrence. */
  lemma RemoveAllPrefix(pat: string, s: string)
    requires pat != []
    ensures RemoveAll(pat + s, pat) == RemoveAll(s, pat)
  {
    assert (pat + s)[..|pat|] == pat;
    assert (pat + s)[|pat|..] == s;
  }

  /** The redirect after a successful login or registration, from `currentsearch`. */
  function AfterLogin(currentSearch: string): (t: Target)
    ensures t.ProductSubstitutes? <==> Contains(currentSearch, "random")
    ensures t.ProductSubstitutes? ==> t.pk == RemoveAll(currentSearch, "random_")
    ensures !t.Next?
  {
    if Contains(currentSearch, "random") then ProductSubstitutes(RemoveAll(currentSearch, "random_"))
    else SearchProduct
  }

  /** `registration`: with a valid form the user is created. The form does not check
   *  that the username is free, so a taken one makes the creation fail on the unique
   *  username column, an error the view does not catch. When the new credentials
   *  authenticate, the user is logged in and redirected; otherwise the page is shown
   *  again with the current search. */
  function Registration(r: Request, fieldsValid: bool, usernameTaken: bool, authenticated: bool): (resp: Response)
    ensures resp.ServerError? <==> FormValid(r, fieldsValid) && usernameTaken
    ensures resp.Redirect? <==> FormValid(r, fieldsValid) && !usernameTaken && authenticated
    ensures resp.Redirect? ==> resp.to == AfterLogin(CurrentSearch(r.session))
    ensures resp.Render? ==> resp == Render(RegistrationTemplate, CurrentSearch(r.session))
  {
    var cs := CurrentSearch(r.session);
    if FormValid(r, fieldsValid) then
      if usernameTaken then ServerError
      else if authenticated then Redirect(AfterLogin(cs))
      else Render(RegistrationTemplate, cs)
    else Render(RegistrationTemplate, cs)
  }

  /** `log_in` as written: the `next` URL is followed only on a GET request. */
  function LogInAsWritten(r: Request, fieldsValid: bool, authenticated: bool): (resp: Response)
    ensures resp.Render? <==> !(FormValid(r, fieldsValid) && authenticated)
    ensures resp.Render? ==> resp == Render(LoginTemplate, CurrentSearch(r.session))
  {
    var cs := CurrentSearch(r.session);
    if FormValid(r, fieldsValid) && authenticated then
      if r.verb == Get && "next" in r.get then Redirect(Next(Lookup(r.get, "next")))
      else Redirect(AfterLogin(cs))
    else Render(LoginTemplate, cs)
  }

  /** On a GET the form is unbound and so never valid: the `next` branch as written can
   *  never be taken. */
  lemma LogInAsWrittenIgnoresNext(r: Request, fieldsValid: bool, authenticated: bool)
    ensures var resp := LogInAsWritten(r, fieldsValid, authenticated);
      resp.Redirect? ==> resp.to == AfterLogin(CurrentSearch(r.session))
  {
  }

  /** A concrete login that shows it: a valid POST to `?next=/account/` lands on the
   *  search page. */
  lemma LogInAsWrittenExample()
    ensures LogInAsWritten(Request(Post, map["username" := "u"], map["next" := "/account/"], map[]), true, true)
         == Redirect(SearchProduct)
  {
    var r := Request(Post, map["username" := "u"], map["next" := "/account/"], map[]);
    assert "username" in FormData(r);
    DefaultSearchNotRandom();
  }

  /** `log_in` as intended: after a successful login an explicit `next` URL wins, then
   *  the random-product rule, then the search page. */
  function LogIn(r: Request, fieldsValid: bool, authenticated: bool): (resp: Response)
    ensures resp.Render? <==> !(FormValid(r, fieldsValid) && authenticated)
    ensures resp.Render? ==> resp == Render(LoginTemplate, CurrentSearch(r.session))
  {
    var cs := CurrentSearch(r.session);
    if FormValid(r, fieldsValid) && authenticated then
      if "next" in r.get then Redirect(Next(r.get["next"]))
      else Redirect(AfterLogin(cs))
    else Render(LoginTemplate, cs)
  }

  /** A successful login follows an explicit `next` URL. */
  lemma LogInFollowsNext(r: Request, fieldsValid: bool, authenticated: bool)
    requires FormValid(r, fieldsValid) && authenticated && "next" in r.get
    ensures LogIn(r, fieldsValid, authenticated) == Redirect(Next(r.get["next"]))
  {
  }

  /** Without a `next` URL, login and registration under a free username send a
   *  successful user to the same place, and the intended login agrees with the one
   *  as written. */
  lemma LogInAgreesWithRegistration(r: Request, fieldsValid: bool, authenticated: bool)
    requires "next" !in r.get
    ensures LogIn(r, fieldsValid, authenticated).Redirect? <==> Registration(r, fieldsValid, false, authenticated).Redirect?
    ensures LogIn(r, fieldsValid, authenticated).Redirect? ==>
      LogIn(r, fieldsValid, authenticated) == Registration(r, fieldsValid, false, authenticated)
    ensures LogIn(r, fieldsValid, authenticated) == LogInAsWritten(r, fieldsValid, authenticated)
  {
  }

  /** A session without a current search sends a successful user to the search page. */
  lemma DefaultSearchRedirect(session: map<string, string>)
    requires "currentsearch" !in session
    ensures AfterLogin(CurrentSearch(session)) == SearchProduct
  {
    DefaultSearchNotRandom();
  }

  /** A current search `random_<pk>`, with a key that does not itself contain
   *  "random_", sends the user to the substitutes of that very product. */
  lemma RandomRoundTrip(pk: string)
    requires !Contains(pk, "random_")
    ensures AfterLogin("random_" + pk) == ProductSubstitutes(pk)
  {
    assert ("random_" + pk)[..6] == "random";
    RemoveAllPrefix("random_", pk);
    RemoveAllIdentity(pk, "random_");
  }

  /** A current search that mentions "random" without "random_" is passed on whole as
   *  the product key. */
  lemma RandomWithoutUnderscore(cs: string)
    requires Contains(cs, "random") && !Contains(cs, "random_")
    ensures AfterLogin(cs) == ProductSubstitutes(cs)
  {
    RemoveAllIdentity(cs, "random_");
  }
}
