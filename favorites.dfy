/** The favourites views of a logged-in user: adding a product to the profile's
 *  favourites bumps the product's counter, removing it decrements the counter when it
 *  is positive. A profile's favourites are a set of product keys (the many-to-many
 *  relation); the counter is meant to be an upper bound on the number of profiles that
 *  hold the product, which is what keeps the refresh command from deleting it. */
module Favorites {
  import opened Catalog
  import opened Refresh

  const FoundProduct: string := "Y a un produit."
  const NoProduct: string := "Y a PAS d'produit !"

  /** `Product.objects.filter(pk=pk).first()`: the index of the first row with that key. */
  function FindProduct(ps: seq<Product>, pk: nat): (r: Option<nat>)
    ensures r.Some? ==> r.value < |ps| && ps[r.value].pk == pk
    ensures r.Some? ==> forall j :: 0 <= j < r.value ==> ps[j].pk != pk
    ensures r.None? <==> !HasPk(ps, pk)
  {
    if ps == [] then None
    else if ps[0].pk == pk then Some(0)
    else
      match FindProduct(ps[1..], pk)
      case None =>
        assert forall j :: 1 <= j < |ps| ==> ps[j] == ps[1..][j - 1];
        None
      case Some(i) => Some(i + 1)
  }

  /** What `add_to_favorites` leaves behind: the product table, the profile's
   *  favourites, and the context it renders (the product, or none, and the message). */
  datatype AddOutcome = AddOutcome(
    products: seq<Product>,
    favorites: set<nat>,
    product: Option<Product>,
    response: string)

  /** `add_to_favorites`: when the product exists it joins the favourites (a set, so at
   *  most once) and its counter is bumped and saved, whether or not it was already a
   *  favourite; otherwise nothing changes. */
  function Favorite(ps: seq<Product>, favs: set<nat>, pk: nat): (r: AddOutcome)
    ensures r.product.Some? <==> HasPk(ps, pk)
    ensures r.product.None? ==> r.products == ps && r.favorites == favs && r.response == NoProduct
    ensures r.product.Some? ==>
      && r.favorites == favs + {pk} && r.response == FoundProduct
      && r.product.value.pk == pk && |r.products| == |ps|
    ensures r.product.Some? ==>
      exists i :: 0 <= i < |ps| && ps[i].pk == pk
        && r.product.value == ps[i].(favorized := ps[i].favorized + 1)
        && r.products == ps[i := r.product.value]
  {
    match FindProduct(ps, pk)
    case None => AddOutcome(ps, favs, None, NoProduct)
    case Some(i) =>
      var p := ps[i].(favorized := ps[i].favorized + 1);
      AddOutcome(ps[i := p], favs + {pk}, Some(p), FoundProduct)
  }

  /** What `remove_from_favorites` leaves behind. `Failed` is a key that is not among
   *  the profile's favourites: the view then dereferences a missing product and fails,
   *  and nothing was changed. */
  datatype RemoveOutcome =
    | Removed(products: seq<Product>, favorites: set<nat>, product: Product)
    | Failed

  /** `remove_from_favorites`: the product leaves the favourites and its counter is
   *  decremented and saved, but only while it is positive. */
  function Unfavorite(ps: seq<Product>, favs: set<nat>, pk: nat): (r: RemoveOutcome)
    ensures r.Failed? <==> pk !in favs || !HasPk(ps, pk)
    ensures r.Removed? ==> r.favorites == favs - {pk} && r.product.pk == pk && |r.products| == |ps|
    ensures r.Removed? ==>
      exists i :: 0 <= i < |ps| && ps[i].pk == pk && r.products[i] == r.product
        && r.product == (if ps[i].favorized > 0 then ps[i].(favorized := ps[i].favorized - 1) else ps[i])
  {
    if pk !in favs then Failed
    else
      match FindProduct(ps, pk)
      case None => Failed
      case Some(i) =>
        if ps[i].favorized > 0 then
          var p := ps[i].(favorized := ps[i].favorized - 1);
          Removed(ps[i := p], favs - {pk}, p)
        else
          Removed(ps, favs - {pk}, ps[i])
  }

  /** With unique keys, adding bumps the counter of exactly the product with that key
   *  and leaves every other row unchanged. */
  lemma FavoriteEffect(ps: seq<Product>, favs: set<nat>, pk: nat)
    requires PksIncreasing(ps)
    ensures var r := Favorite(ps, favs, pk);
      |r.products| == |ps|
      && forall j :: 0 <= j < |ps| ==>
           r.products[j] == if ps[j].pk == pk then ps[j].(favorized := ps[j].favorized + 1) else ps[j]
  {
  }

  /** With unique keys, removing decrements the counter of exactly the product with
   *  that key, if it is positive, and leaves every other row unchanged. */
  lemma UnfavoriteEffect(ps: seq<Product>, favs: set<nat>, pk: nat)
    requires PksIncreasing(ps)
    ensures var r := Unfavorite(ps, favs, pk);
      r.Removed? ==> forall j :: 0 <= j < |ps| ==>
        r.products[j] == if ps[j].pk == pk && ps[j].favorized > 0
                         then ps[j].(favorized := ps[j].favorized - 1) else ps[j]
  {
  }

  /** The favourites count shown on the account page grows by one exactly when an
   *  existing product that was not yet a favourite is added. */
  lemma FavoriteCount(ps: seq<Product>, favs: set<nat>, pk: nat)
    ensures |Favorite(ps, favs, pk).favorites| == |favs| + if HasPk(ps, pk) && pk !in favs then 1 else 0
  {
    if HasPk(ps, pk) {
      if pk in favs {
        assert favs + {pk} == favs;
      } else {
        assert |favs + {pk}| == |favs| + |{pk}|;
      }
    }
  }

  /** A successful removal shrinks the favourites count by exactly one. */
  lemma UnfavoriteCount(ps: seq<Product>, favs: set<nat>, pk: nat)
    ensures var r := Unfavorite(ps, favs, pk); r.Removed? ==> |r.favorites| == |favs| - 1
  {
    if pk in favs {
      assert favs == (favs - {pk}) + {pk};
      assert |favs| == |favs - {pk}| + |{pk}|;
    }
  }

  /** Adding a product that exists and is not yet a favourite, then removing it,
   *  restores the table and the favourites as they were. */
  lemma AddThenRemove(ps: seq<Product>, favs: set<nat>, pk: nat)
    requires PksIncreasing(ps) && HasPk(ps, pk) && pk !in favs
    requires forall j :: 0 <= j < |ps| ==> ps[j].favorized >= 0
    ensures var a := Favorite(ps, favs, pk); var r := Unfavorite(a.products, a.favorites, pk);
      r.Removed? && r.products == ps && r.favorites == favs
  {
    var i := FindProduct(ps, pk).value;
    var a := Favorite(ps, favs, pk);
    assert a.products == ps[i := ps[i].(favorized := ps[i].favorized + 1)];
    assert a.products[i].pk == pk;
    var found := FindProduct(a.products, pk);
    assert found.Some?;
    assert a.products[found.value].pk == ps[found.value].pk;
    assert found == Some(i);
    assert a.products[i := ps[i]] == ps;
    assert a.favorites - {pk} == favs;
  }

  /** Adding the same product twice counts it twice, though the profile holds it once:
   *  the counter over-counts holders. */
  lemma AddTwiceOvercounts(ps: seq<Product>, favs: set<nat>, pk: nat, i: nat)
    requires PksIncreasing(ps) && i < |ps| && ps[i].pk == pk
    ensures var a := Favorite(ps, favs, pk); var b := Favorite(a.products, a.favorites, pk);
      b.favorites == favs + {pk} && b.products[i].favorized == ps[i].favorized + 2
  {
    var a := Favorite(ps, favs, pk);
    FavoriteEffect(ps, favs, pk);
    assert PksIncreasing(a.products);
    FavoriteEffect(a.products, a.favorites, pk);
  }

  // ------------------------------------------------------ counter invariant

  /** The number of profiles whose favourites hold the key. */
  function Holders(profiles: seq<set<nat>>, pk: nat): nat
  {
    if profiles == [] then 0
    else (if pk in profiles[0] then 1 else 0) + Holders(profiles[1..], pk)
  }

  /** Replacing one profile's favourites changes the holder count of a key by that
   *  profile's contribution only. */
  lemma {:induction false} HoldersUpdate(profiles: seq<set<nat>>, u: nat, s: set<nat>, pk: nat)
    requires u < |profiles|
    ensures Holders(profiles[u := s], pk)
         == Holders(profiles, pk) - (if pk in profiles[u] then 1 else 0) + (if pk in s then 1 else 0)
  {
    if u > 0 {
      HoldersUpdate(profiles[1..], u - 1, s, pk);
      assert profiles[u := s][1..] == profiles[1..][u - 1 := s];
    } else {
      assert profiles[u := s][1..] == profiles[1..];
    }
  }

  /** A key that some profile holds has at least one holder. */
  lemma {:induction false} HoldersPositive(profiles: seq<set<nat>>, u: nat, pk: nat)
    requires u < |profiles| && pk in profiles[u]
    ensures Holders(profiles, pk) >= 1
  {
    if u > 0 {
      HoldersPositive(profiles[1..], u - 1, pk);
    }
  }

  /** A key that no profile holds has no holder. */
  lemma {:induction false} HoldersZero(profiles: seq<set<nat>>, pk: nat)
    requires forall j :: 0 <= j < |profiles| ==> pk !in profiles[j]
    ensures Holders(profiles, pk) == 0
  {
    if profiles != [] {
      assert forall j :: 0 <= j < |profiles[1..]| ==> profiles[1..][j] == profiles[j + 1];
      HoldersZero(profiles[1..], pk);
    }
  }

  /** Every favourite is an existing product, and every product's counter is at least
   *  the number of profiles that hold it. */
  predicate Covered(ps: seq<Product>, profiles: seq<set<nat>>)
  {
    && (forall j, pk :: 0 <= j < |profiles| && pk in profiles[j] ==> HasPk(ps, pk))
    && (forall i :: 0 <= i < |ps| ==> ps[i].favorized >= Holders(profiles, ps[i].pk))
  }

  /** Tables with the same keys row by row have the same keys. */
  lemma SamePks(ps: seq<Product>, qs: seq<Product>)
    requires |ps| == |qs| && forall i :: 0 <= i < |ps| ==> ps[i].pk == qs[i].pk
    ensures forall pk :: HasPk(ps, pk) ==> HasPk(qs, pk)
  {
    forall pk | HasPk(ps, pk) ensures HasPk(qs, pk) {
      var i :| 0 <= i < |ps| && ps[i].pk == pk;
      assert qs[i].pk == pk;
    }
  }

  /** Adding a favourite keeps every counter at or above its holder count. */
  lemma FavoriteKeepsCovered(ps: seq<Product>, profiles: seq<set<nat>>, u: nat, pk: nat)
    requires PksIncreasing(ps) && Covered(ps, profiles) && u < |profiles|
    ensures var r := Favorite(ps, profiles[u], pk); Covered(r.products, profiles[u := r.favorites])
  {
    var r := Favorite(ps, profiles[u], pk);
    var profiles' := profiles[u := r.favorites];
    FavoriteEffect(ps, profiles[u], pk);
    if r.product.None? {
      assert profiles' == profiles;
    } else {
      SamePks(ps, r.products);
      forall j, q | 0 <= j < |profiles'| && q in profiles'[j] ensures HasPk(r.products, q) {
        assert HasPk(ps, q);
      }
      forall i | 0 <= i < |r.products|
        ensures r.products[i].favorized >= Holders(profiles', r.products[i].pk)
      {
        HoldersUpdate(profiles, u, r.favorites, ps[i].pk);
      }
    }
  }

  /** While the counters cover their holders, removing a favourite never meets a zero
   *  counter: the guard always lets the decrement through. */
  lemma UnfavoriteNeverClamps(ps: seq<Product>, profiles: seq<set<nat>>, u: nat, pk: nat, i: nat)
    requires Covered(ps, profiles) && u < |profiles| && pk in profiles[u]
    requires i < |ps| && ps[i].pk == pk
    ensures ps[i].favorized > 0
  {
    HoldersPositive(profiles, u, pk);
  }

  /** One row after a removal: its counter still covers its holders. */
  lemma UnfavoriteRowCovered(ps: seq<Product>, profiles: seq<set<nat>>, u: nat, pk: nat, i: nat)
    requires PksIncreasing(ps) && Covered(ps, profiles) && u < |profiles| && i < |ps|
    requires Unfavorite(ps, profiles[u], pk).Removed?
    ensures var r := Unfavorite(ps, profiles[u], pk);
      r.products[i].favorized >= Holders(profiles[u := r.favorites], r.products[i].pk)
  {
    var r := Unfavorite(ps, profiles[u], pk);
    UnfavoriteEffect(ps, profiles[u], pk);
    HoldersUpdate(profiles, u, r.favorites, ps[i].pk);
    if ps[i].pk == pk {
      UnfavoriteNeverClamps(ps, profiles, u, pk, i);
    }
  }

  /** Removing a favourite keeps every counter at or above its holder count. */
  lemma UnfavoriteKeepsCovered(ps: seq<Product>, profiles: seq<set<nat>>, u: nat, pk: nat)
    requires PksIncreasing(ps) && Covered(ps, profiles) && u < |profiles|
    ensures var r := Unfavorite(ps, profiles[u], pk);
      r.Removed? ==> Covered(r.products, profiles[u := r.favorites])
  {
    var r := Unfavorite(ps, profiles[u], pk);
    if r.Removed? {
      UnfavoriteEffect(ps, profiles[u], pk);
      var profiles' := profiles[u := r.favorites];
      SamePks(ps, r.products);
      forall j, q | 0 <= j < |profiles'| && q in profiles'[j] ensures HasPk(r.products, q) {
        assert HasPk(ps, q);
      }
      forall i | 0 <= i < |r.products|
        ensures r.products[i].favorized >= Holders(profiles', r.products[i].pk)
      {
        UnfavoriteRowCovered(ps, profiles, u, pk, i);
      }
    }
  }

  /** While the counters cover their holders, `empty` deletes no favourite: every
   *  favourite survives, and the counters still cover their holders. */
  lemma PurgeKeepsFavorites(t: Tables, profiles: seq<set<nat>>)
    requires Covered(t.products, profiles)
    ensures forall j, pk :: 0 <= j < |profiles| && pk in profiles[j] ==> pk !in PkSet(Unfavorized(t.products))
    ensures Covered(Purge(t).products, profiles)
  {
    var kept := Kept(t.products);
    forall j, pk | 0 <= j < |profiles| && pk in profiles[j]
      ensures pk !in PkSet(Unfavorized(t.products)) && HasPk(kept, pk)
    {
      HoldersPositive(profiles, j, pk);
      assert HasPk(t.products, pk);
      var k :| 0 <= k < |t.products| && t.products[k].pk == pk;
      assert t.products[k] in t.products;
      assert t.products[k] in kept;
      var m :| 0 <= m < |kept| && kept[m] == t.products[k];
    }
    forall i | 0 <= i < |kept| ensures kept[i].favorized >= Holders(profiles, kept[i].pk) {
      assert kept[i] in t.products;
    }
  }

  /** Every key a profile holds was assigned already: it is below the next key. */
  lemma HeldKeysAssigned(t: Tables, profiles: seq<set<nat>>)
    requires WellFormed(t) && Covered(t.products, profiles)
    ensures forall j, pk :: 0 <= j < |profiles| && pk in profiles[j] ==> pk < t.nextPk
  {
    forall j, pk | 0 <= j < |profiles| && pk in profiles[j] ensures pk < t.nextPk {
      assert HasPk(t.products, pk);
      var m :| 0 <= m < |t.products| && t.products[m].pk == pk;
    }
  }

  /** The rows `register` adds start at 0 and carry keys no profile holds, so
   *  registering a batch keeps the counters covering their holders. */
  lemma RegisterKeepsCovered(t: Tables, recs: seq<Record>, profiles: seq<set<nat>>)
    requires WellFormed(t) && AllRegistrable(recs) && Covered(t.products, profiles)
    ensures Covered(RegisterAll(t, recs).products, profiles)
  {
    var ps := RegisterAll(t, recs).products;
    RegisterAllFreshRows(t, recs);
    forall j, pk | 0 <= j < |profiles| && pk in profiles[j] ensures HasPk(ps, pk) {
      assert HasPk(t.products, pk);
      var k :| 0 <= k < |t.products| && t.products[k].pk == pk;
      assert ps[k] == ps[..|t.products|][k];
    }
    forall i | 0 <= i < |ps| ensures ps[i].favorized >= Holders(profiles, ps[i].pk) {
      if i < |t.products| {
        assert ps[i] == ps[..|t.products|][i];
      } else {
        HeldKeysAssigned(t, profiles);
        HoldersZero(profiles, ps[i].pk);
      }
    }
  }

  // ----------------------------------------------------------------- views

  /** A user's profile: its favourite product keys. */
  class Profile {
    var products: set<nat>

    constructor ()
      ensures products == {}
    {
      products := {};
    }

    /** `user_account`: the number of favourites shown on the account page. */
    function FavoritesNumber(): (n: nat)
      reads this
      ensures n == |products|
    {
      |products|
    }
  }

  /** `add_to_favorites` on the profile and the product table. */
  method AddToFavorites(db: Database, profile: Profile, pk: nat) returns (product: Option<Product>, response: string)
    requires db.Valid()
    modifies db`products, profile`products
    ensures var r := Favorite(old(db.products), old(profile.products), pk);
      db.products == r.products && profile.products == r.favorites
      && product == r.product && response == r.response
    ensures db.Valid()
  {
    var found := FindProduct(db.products, pk);
    if found.Some? {
      var i := found.value;
      response := FoundProduct;
      profile.products := profile.products + {pk};
      var p := db.products[i].(favorized := db.products[i].favorized + 1);
      UpdateWellFormed(db.Contents(), i, p);
      db.Update(i, p);
      product := Some(p);
    } else {
      product, response := None, NoProduct;
    }
  }

  /** `remove_from_favorites` on the profile and the product table. `None` is the
   *  failing request for a key that is not a favourite; it changes nothing. */
  method RemoveFromFavorites(db: Database, profile: Profile, pk: nat) returns (toDelete: Option<Product>)
    requires db.Valid()
    modifies db`products, profile`products
    ensures var r := Unfavorite(old(db.products), old(profile.products), pk);
      && (r.Failed? ==> toDelete.None? && db.products == old(db.products) && profile.products == old(profile.products))
      && (r.Removed? ==> toDelete == Some(r.product) && db.products == r.products && profile.products == r.favorites)
    ensures db.Valid()
  {
    if pk !in profile.products {
      return None;
    }
    var found := FindProduct(db.products, pk);
    if found.None? {
      return None;
    }
    var i := found.value;
    profile.products := profile.products - {pk};
    var p := db.products[i];
    if p.favorized > 0 {
      p := p.(favorized := p.favorized - 1);
      UpdateWellFormed(db.Contents(), i, p);
      db.Update(i, p);
    }
    toDelete := Some(p);
  }
}
