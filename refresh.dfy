/** The product-import collector: it fetches catalogue records per category and
 *  nutrition grade, keeps a fixed set of fields, and registers the accumulated batch
 *  as product, category and position rows. The search endpoint's answer is a
 *  parameter (a function from category and grade to the returned records). */
module Refresh {
  import opened Catalog

  /** The search endpoint: the records it returns for a category and a grade. */
  type Catalogue = (string, string) -> seq<Record>

  const DefaultUrl: string := "https://fr.openfoodfacts.org/cgi/search.pl"

  const DefaultGrades: seq<(string, int)> :=
    [("a", 150), ("b", 150), ("c", 150), ("d", 150), ("e", 150)]

  const DefaultCategories: seq<string> :=
    ["Salty snacks", "Cheeses", "Beverage", "Sauces", "Biscuits",
     "Frozen foods", "pizzas", "chocolats", "Candies", "Snacks sucrés"]

  /** The fields `fetch` keeps by default; `register` reads all of them. */
  const ProductKeys: seq<string> :=
    ["product_name", "nutrition_grades", "url", "code", "brands", "stores",
     "categories_hierarchy", "image_url"]

  function KeySet(keys: seq<string>): set<string>
  {
    set k | k in keys
  }

  predicate HasKeys(r: Record, keys: seq<string>)
  {
    forall k :: k in keys ==> k in r
  }

  /** The fields `register` reads from a record. */
  predicate Registrable(r: Record)
  {
    && "product_name" in r && "nutrition_grades" in r && "url" in r && "code" in r
    && "brands" in r && "stores" in r && "categories_hierarchy" in r && "image_url" in r
  }

  predicate AllRegistrable(rs: seq<Record>)
  {
    forall i :: 0 <= i < |rs| ==> Registrable(rs[i])
  }

  /** A record with every default key has every field `register` reads. */
  lemma DefaultKeysRegistrable(r: Record)
    requires r.Keys == KeySet(ProductKeys)
    ensures Registrable(r)
  {
    assert ProductKeys[0] in KeySet(ProductKeys) && ProductKeys[1] in KeySet(ProductKeys)
        && ProductKeys[2] in KeySet(ProductKeys) && ProductKeys[3] in KeySet(ProductKeys)
        && ProductKeys[4] in KeySet(ProductKeys) && ProductKeys[5] in KeySet(ProductKeys)
        && ProductKeys[6] in KeySet(ProductKeys) && ProductKeys[7] in KeySet(ProductKeys);
  }

  /** The record restricted to the given keys, built key by key: exactly those keys,
   *  each with the record's own value. */
  function Project(r: Record, keys: seq<string>): (p: Record)
    requires HasKeys(r, keys)
    ensures p.Keys == KeySet(keys)
    ensures forall k :: k in keys ==> p[k] == r[k]
    decreases |keys|
  {
    if keys == [] then map[]
    else
      var init, last := keys[..|keys| - 1], keys[|keys| - 1];
      assert keys == init + [last];
      assert KeySet(keys) == KeySet(init) + {last};
      Project(r, init)[last := r[last]]
  }

  /** Concatenation regroups; stated once so the loop proofs can cite it. */
  lemma SeqAssoc<T>(a: seq<T>, b: seq<T>, c: seq<T>)
    ensures a + b + c == a + (b + c)
  {
  }

  // ---------------------------------------------------------------- fetch

  /** The loop of `fetch`, item by item: a record with every key is projected and
   *  appended to `acc`; after each item the loop stops once `acc` has exactly `n`
   *  records. */
  function FetchFrom(source: seq<Record>, keys: seq<string>, n: int, acc: seq<Record>): (r: seq<Record>)
    ensures |r| <= |acc| + |source|
    decreases |source|
  {
    if source == [] then acc
    else
      var acc' := if HasKeys(source[0], keys) then acc + [Project(source[0], keys)] else acc;
      if |acc'| == n then acc' else FetchFrom(source[1..], keys, n, acc')
  }

  /** The records one `fetch` appends. */
  function Fetched(source: seq<Record>, keys: seq<string>, n: int): (r: seq<Record>)
    ensures |r| <= |source|
  {
    FetchFrom(source, keys, n, [])
  }

  /** Reference definition: the projections of the source records that have every
   *  key, in source order. */
  function ValidProjections(source: seq<Record>, keys: seq<string>): seq<Record>
  {
    if source == [] then []
    else
      (if HasKeys(source[0], keys) then [Project(source[0], keys)] else [])
      + ValidProjections(source[1..], keys)
  }

  function Min(a: int, b: int): int
  {
    if a <= b then a else b
  }

  lemma {:induction false} FetchFromBounded(source: seq<Record>, keys: seq<string>, n: int, acc: seq<Record>)
    requires |acc| < n
    ensures FetchFrom(source, keys, n, acc)
         == acc + ValidProjections(source, keys)[..Min(n - |acc|, |ValidProjections(source, keys)|)]
  {
    var vp := ValidProjections(source, keys);
    if source != [] {
      var rest := ValidProjections(source[1..], keys);
      if HasKeys(source[0], keys) {
        var p := Project(source[0], keys);
        assert vp == [p] + rest;
        var acc' := acc + [p];
        assert FetchFrom(source, keys, n, acc) == if |acc'| == n then acc' else FetchFrom(source[1..], keys, n, acc');
        if |acc'| < n {
          FetchFromBounded(source[1..], keys, n, acc');
          var m := Min(n - |acc'|, |rest|);
          assert Min(n - |acc|, |vp|) == m + 1;
          assert vp[..m + 1] == [p] + rest[..m];
          SeqAssoc(acc, [p], rest[..m]);
        } else {
          assert Min(n - |acc|, |vp|) == 1;
          assert vp[..1] == [p];
        }
      } else {
        assert vp == rest;
        FetchFromBounded(source[1..], keys, n, acc);
      }
    }
  }

  lemma {:induction false} FetchFromUnbounded(source: seq<Record>, keys: seq<string>, n: int, acc: seq<Record>)
    requires n < |acc|
    ensures FetchFrom(source, keys, n, acc) == acc + ValidProjections(source, keys)
  {
    if source != [] {
      var rest := ValidProjections(source[1..], keys);
      if HasKeys(source[0], keys) {
        var p := Project(source[0], keys);
        assert FetchFrom(source, keys, n, acc) == FetchFrom(source[1..], keys, n, acc + [p]);
        assert ValidProjections(source, keys) == [p] + rest;
        FetchFromUnbounded(source[1..], keys, n, acc + [p]);
        SeqAssoc(acc, [p], rest);
      } else {
        assert FetchFrom(source, keys, n, acc) == FetchFrom(source[1..], keys, n, acc);
        assert ValidProjections(source, keys) == rest;
        FetchFromUnbounded(source[1..], keys, n, acc);
      }
    }
  }

  /** With a target of at least 1, `fetch` appends the first `min(n, #valid)` valid
   *  records of the source, projected, in source order; so never more than `n`. */
  lemma FetchedIsPrefix(source: seq<Record>, keys: seq<string>, n: int)
    requires n >= 1
    ensures Fetched(source, keys, n)
         == ValidProjections(source, keys)[..Min(n, |ValidProjections(source, keys)|)]
    ensures |Fetched(source, keys, n)| <= n
  {
    FetchFromBounded(source, keys, n, []);
  }

  /** With a negative target the count is never reached: every valid record is kept. */
  lemma FetchedNegativeTarget(source: seq<Record>, keys: seq<string>, n: int)
    requires n < 0
    ensures Fetched(source, keys, n) == ValidProjections(source, keys)
  {
    FetchFromUnbounded(source, keys, n, []);
  }

  /** With a target of 0 the check fires after the first item only when that item was
   *  dropped; otherwise the list already has one record and every valid one is kept. */
  lemma FetchedZeroTarget(source: seq<Record>, keys: seq<string>)
    ensures Fetched(source, keys, 0)
         == if source == [] || !HasKeys(source[0], keys) then [] else ValidProjections(source, keys)
  {
    if source != [] && HasKeys(source[0], keys) {
      var p := Project(source[0], keys);
      assert ValidProjections(source, keys) == [p] + ValidProjections(source[1..], keys);
      assert [] + [p] == [p];
      assert Fetched(source, keys, 0) == FetchFrom(source[1..], keys, 0, [p]);
      FetchFromUnbounded(source[1..], keys, 0, [Project(source[0], keys)]);
    }
  }

  /** Every valid projection has exactly the requested keys, with the values of one
   *  source record that has all of them; a record missing a key contributes nothing. */
  lemma {:induction false} ValidProjectionsShape(source: seq<Record>, keys: seq<string>)
    ensures forall i :: 0 <= i < |ValidProjections(source, keys)| ==>
      ValidProjections(source, keys)[i].Keys == KeySet(keys)
      && exists j :: 0 <= j < |source| && HasKeys(source[j], keys)
           && forall k :: k in keys ==> ValidProjections(source, keys)[i][k] == source[j][k]
  {
    if source != [] {
      ValidProjectionsShape(source[1..], keys);
      var vp := ValidProjections(source, keys);
      var rest := ValidProjections(source[1..], keys);
      var head := if HasKeys(source[0], keys) then [Project(source[0], keys)] else [];
      assert vp == head + rest;
      forall i | 0 <= i < |vp|
        ensures vp[i].Keys == KeySet(keys)
        ensures exists j :: 0 <= j < |source| && HasKeys(source[j], keys)
                  && forall k :: k in keys ==> vp[i][k] == source[j][k]
      {
        if i < |head| {
          assert vp[i] == Project(source[0], keys);
        } else {
          assert vp[i] == rest[i - |head|];
          var j :| 0 <= j < |source[1..]| && HasKeys(source[1..][j], keys)
                   && forall k :: k in keys ==> rest[i - |head|][k] == source[1..][j][k];
          assert source[1..][j] == source[j + 1];
        }
      }
    }
  }

  /** Records that lack a key are dropped whole: inserting one anywhere in the source
   *  does not change the valid projections. */
  lemma {:induction false} InvalidRecordDropped(pre: seq<Record>, bad: Record, post: seq<Record>, keys: seq<string>)
    requires !HasKeys(bad, keys)
    ensures ValidProjections(pre + [bad] + post, keys) == ValidProjections(pre + post, keys)
  {
    if pre == [] {
      assert (pre + [bad] + post)[1..] == post;
      assert pre + post == post;
    } else {
      InvalidRecordDropped(pre[1..], bad, post, keys);
      assert (pre + [bad] + post)[1..] == pre[1..] + [bad] + post;
      assert (pre + post)[1..] == pre[1..] + post;
    }
  }

  /** Every record one `fetch` appends has exactly the requested keys. */
  lemma FetchedHaveKeys(source: seq<Record>, keys: seq<string>, n: int)
    ensures forall i :: 0 <= i < |Fetched(source, keys, n)| ==> Fetched(source, keys, n)[i].Keys == KeySet(keys)
  {
    ValidProjectionsShape(source, keys);
    var vp := ValidProjections(source, keys);
    if n >= 1 {
      FetchedIsPrefix(source, keys, n);
    } else if n < 0 {
      FetchedNegativeTarget(source, keys, n);
    } else {
      FetchedZeroTarget(source, keys);
    }
  }

  // ------------------------------------------------------------- register

  /** The Product row built from a record: code becomes the barcode,
   *  nutrition_grades the grade, brands the brand, stores the store and image_url the
   *  image URL. The key is assigned on save; the counter starts at 0. */
  function RowOf(r: Record): (p: Product)
    requires Registrable(r)
    ensures p.favorized == 0 && p.barcode == r["code"]
  {
    Product(0, r["product_name"], r["nutrition_grades"], r["url"], r["code"],
            r["brands"], r["stores"], r["image_url"], 0)
  }

  /** The characters of a string, each as a one-character string. */
  function Chars(s: string): (r: seq<string>)
    ensures |r| == |s|
    ensures forall i :: 0 <= i < |s| ==> r[i] == [s[i]]
  {
    if s == [] then [] else [[s[0]]] + Chars(s[1..])
  }

  /** Iterating over the hierarchy field: a list gives its items; a string, sliced and
   *  iterated, gives its characters one by one. */
  function Hierarchy(v: Value): (h: seq<string>)
    ensures v.StrList? ==> h == v.items
    ensures v.Str? ==> h == Chars(v.s)
  {
    match v
    case StrList(items) => items
    case Str(s) => Chars(s)
  }

  /** `h[::-1]`: entry i is entry L-1-i of the original. */
  function Reversed(h: seq<string>): (r: seq<string>)
    ensures |r| == |h|
    ensures forall i :: 0 <= i < |h| ==> r[i] == h[|h| - 1 - i]
  {
    if h == [] then [] else Reversed(h[1..]) + [h[0]]
  }

  /** One pass of the inner loop of `register` over the first `|rev|` entries of the
   *  reversed hierarchy: get-or-create the category, then save a position ranked by
   *  its index. */
  function AddPositions(t: Tables, pk: nat, rev: seq<string>): (r: Tables)
    ensures |r.positions| == |t.positions| + |rev|
    decreases |rev|
  {
    if rev == [] then t
    else
      var t0 := AddPositions(t, pk, rev[..|rev| - 1]);
      var (cats, c) := GetOrCreate(t0.categories, rev[|rev| - 1]);
      t0.(categories := cats, positions := t0.positions + [Position(pk, c, |rev| - 1)])
  }

  /** `register` on one record: save its product, then its positions. */
  function RegisterOne(t: Tables, r: Record): (u: Tables)
    requires Registrable(r)
    ensures |u.positions| == |t.positions| + |Hierarchy(r["categories_hierarchy"])|
  {
    AddPositions(Insert(t, RowOf(r)), t.nextPk, Reversed(Hierarchy(r["categories_hierarchy"])))
  }

  /** `register` on a batch, record by record in order. */
  function RegisterAll(t: Tables, recs: seq<Record>): (u: Tables)
    requires AllRegistrable(recs)
    ensures |u.positions| >= |t.positions|
    decreases |recs|
  {
    if recs == [] then t
    else RegisterOne(RegisterAll(t, recs[..|recs| - 1]), recs[|recs| - 1])
  }

  /** The inner loop of `register` only appends: products and keys are untouched,
   *  earlier categories keep their index, one position is added per entry, and
   *  category names stay unique. */
  lemma {:induction false} AddPositionsFrame(t: Tables, pk: nat, rev: seq<string>)
    ensures var r := AddPositions(t, pk, rev);
      && r.products == t.products && r.nextPk == t.nextPk
      && |r.categories| >= |t.categories| && r.categories[..|t.categories|] == t.categories
      && |r.positions| == |t.positions| + |rev| && r.positions[..|t.positions|] == t.positions
      && (NoDup(t.categories) ==> NoDup(r.categories))
  {
    if rev != [] {
      var init := rev[..|rev| - 1];
      AddPositionsFrame(t, pk, init);
      var t0 := AddPositions(t, pk, init);
      var r := AddPositions(t, pk, rev);
      assert r.categories[..|t0.categories|] == t0.categories;
      assert r.categories[..|t.categories|] == t0.categories[..|t.categories|];
      assert r.positions[..|t0.positions|] == t0.positions;
      assert r.positions[..|t.positions|] == t0.positions[..|t.positions|];
    }
  }

  /** The position added for entry i of the reversed hierarchy has rank i and points at
   *  the category named by that entry. */
  lemma {:induction false} AddPositionsRows(t: Tables, pk: nat, rev: seq<string>)
    ensures var r := AddPositions(t, pk, rev);
      |r.positions| == |t.positions| + |rev|
      && forall i :: |t.positions| <= i < |r.positions| ==>
           r.positions[i].product == pk
           && r.positions[i].rank == i - |t.positions|
           && r.positions[i].category < |r.categories|
           && r.categories[r.positions[i].category] == rev[i - |t.positions|]
  {
    if rev != [] {
      var init := rev[..|rev| - 1];
      AddPositionsRows(t, pk, init);
      var t0 := AddPositions(t, pk, init);
      var (cats, c) := GetOrCreate(t0.categories, rev[|rev| - 1]);
      var r := AddPositions(t, pk, rev);
      assert r.categories == cats && r.positions == t0.positions + [Position(pk, c, |rev| - 1)];
      assert |cats| >= |t0.categories| && cats[..|t0.categories|] == t0.categories;
      forall i | |t.positions| <= i < |t0.positions|
        ensures r.positions[i] == t0.positions[i]
        ensures init[i - |t.positions|] == rev[i - |t.positions|]
        ensures cats[t0.positions[i].category] == t0.categories[t0.positions[i].category]
      {
        assert cats[..|t0.categories|][t0.positions[i].category] == cats[t0.positions[i].category];
      }
    }
  }

  /** Every entry of the hierarchy is in the category table afterwards. */
  lemma {:induction false} AddPositionsNames(t: Tables, pk: nat, rev: seq<string>)
    ensures forall name :: name in rev ==> name in AddPositions(t, pk, rev).categories
  {
    if rev != [] {
      var init := rev[..|rev| - 1];
      var last := rev[|rev| - 1];
      AddPositionsNames(t, pk, init);
      var t0 := AddPositions(t, pk, init);
      var (cats, c) := GetOrCreate(t0.categories, last);
      var r := AddPositions(t, pk, rev);
      assert r.categories == cats;
      forall name | name in rev ensures name in r.categories {
        if name != last {
          var k :| 0 <= k < |rev| && rev[k] == name;
          assert init[k] == name;
          assert name in init;
          var m :| 0 <= m < |t0.categories| && t0.categories[m] == name;
          assert cats[..|t0.categories|][m] == cats[m];
        }
      }
    }
  }

  /** `register` on one record appends its product row, with the field mapping and the
   *  next key, and only appends to the category and position tables. */
  lemma RegisterOneFrame(t: Tables, r: Record)
    requires Registrable(r)
    ensures var t' := RegisterOne(t, r);
      && t'.products == t.products + [RowOf(r).(pk := t.nextPk)]
      && t'.nextPk == t.nextPk + 1
      && |t'.categories| >= |t.categories| && t'.categories[..|t.categories|] == t.categories
      && |t'.positions| == |t.positions| + |Hierarchy(r["categories_hierarchy"])|
      && t'.positions[..|t.positions|] == t.positions
      && (NoDup(t.categories) ==> NoDup(t'.categories))
  {
    AddPositionsFrame(Insert(t, RowOf(r)), t.nextPk, Reversed(Hierarchy(r["categories_hierarchy"])));
  }

  /** `register` on one record adds exactly its product row, under the next key. */
  lemma RegisterOneProducts(t: Tables, r: Record)
    requires Registrable(r)
    ensures RegisterOne(t, r).products == t.products + [RowOf(r).(pk := t.nextPk)]
    ensures RegisterOne(t, r).nextPk == t.nextPk + 1
  {
    var t0 := Insert(t, RowOf(r));
    var rev := Reversed(Hierarchy(r["categories_hierarchy"]));
    AddPositionsFrame(t0, t.nextPk, rev);
    assert RegisterOne(t, r) == AddPositions(t0, t.nextPk, rev);
  }

  /** For a hierarchy h of length L, `register` adds L positions for the new product;
   *  the i-th has rank i and names the category h[L-1-i], so the most specific (last)
   *  entry gets rank 0. */
  lemma RegisterOneRanks(t: Tables, r: Record)
    requires Registrable(r)
    ensures var h := Hierarchy(r["categories_hierarchy"]); var t' := RegisterOne(t, r);
      |t'.positions| == |t.positions| + |h|
      && forall i :: |t.positions| <= i < |t'.positions| ==>
           t'.positions[i].product == t.nextPk
           && t'.positions[i].rank == i - |t.positions|
           && t'.positions[i].category < |t'.categories|
           && t'.categories[t'.positions[i].category] == h[|h| - 1 - (i - |t.positions|)]
  {
    var h := Hierarchy(r["categories_hierarchy"]);
    var rev := Reversed(h);
    var t0 := Insert(t, RowOf(r));
    AddPositionsRows(t0, t.nextPk, rev);
    var t' := RegisterOne(t, r);
    assert t' == AddPositions(t0, t.nextPk, rev);
    assert t0.positions == t.positions;
    forall i | |t.positions| <= i < |t'.positions|
      ensures t'.categories[t'.positions[i].category] == h[|h| - 1 - (i - |t.positions|)]
    {
      assert rev[i - |t.positions|] == h[|h| - 1 - (i - |t.positions|)];
    }
  }

  /** Every name of the record's hierarchy is in the category table afterwards. */
  lemma RegisterOneNames(t: Tables, r: Record)
    requires Registrable(r)
    ensures forall name :: name in Hierarchy(r["categories_hierarchy"]) ==> name in RegisterOne(t, r).categories
  {
    var h := Hierarchy(r["categories_hierarchy"]);
    var rev := Reversed(h);
    AddPositionsNames(Insert(t, RowOf(r)), t.nextPk, rev);
    forall name | name in h ensures name in rev {
      var k :| 0 <= k < |h| && h[k] == name;
      assert rev[|h| - 1 - k] == name;
    }
  }

  /** The hierarchy `["A", "B", "C"]`, most general first, gives rank 0 to "C",
   *  rank 1 to "B" and rank 2 to "A". */
  lemma RegisterRanksExample(t: Tables, r: Record)
    requires Registrable(r) && r["categories_hierarchy"] == StrList(["A", "B", "C"])
    ensures var t' := RegisterOne(t, r); var n := |t.positions|;
      && |t'.positions| == n + 3
      && (forall i :: n <= i < n + 3 ==> t'.positions[i].category < |t'.categories|)
      && t'.positions[n].rank == 0 && t'.categories[t'.positions[n].category] == "C"
      && t'.positions[n + 1].rank == 1 && t'.categories[t'.positions[n + 1].category] == "B"
      && t'.positions[n + 2].rank == 2 && t'.categories[t'.positions[n + 2].category] == "A"
  {
    RegisterOneRanks(t, r);
  }

  lemma AllRegistrableInit(recs: seq<Record>)
    requires recs != [] && AllRegistrable(recs)
    ensures AllRegistrable(recs[..|recs| - 1]) && Registrable(recs[|recs| - 1])
  {
    var init := recs[..|recs| - 1];
    forall i | 0 <= i < |init| ensures Registrable(init[i]) {
      assert init[i] == recs[i];
    }
  }

  /** Reference definition of the rows `register` saves for a batch: one per record, in
   *  order, with consecutive keys from `pk`. */
  function Rows(recs: seq<Record>, pk: nat): seq<Product>
    requires AllRegistrable(recs)
    decreases |recs|
  {
    if recs == [] then []
    else
      AllRegistrableInit(recs);
      Rows(recs[..|recs| - 1], pk) + [RowOf(recs[|recs| - 1]).(pk := pk + |recs| - 1)]
  }

  lemma {:induction false} RowsIndex(recs: seq<Record>, pk: nat)
    requires AllRegistrable(recs)
    ensures |Rows(recs, pk)| == |recs|
    ensures forall k :: 0 <= k < |recs| ==> Rows(recs, pk)[k] == RowOf(recs[k]).(pk := pk + k)
  {
    if recs != [] {
      var init := recs[..|recs| - 1];
      AllRegistrableInit(recs);
      RowsIndex(init, pk);
      forall k | 0 <= k < |init| ensures Rows(recs, pk)[k] == RowOf(recs[k]).(pk := pk + k) {
        assert init[k] == recs[k];
      }
    }
  }

  /** `register` appends exactly the reference rows to the product table. */
  lemma {:induction false} RegisterAllRows(t: Tables, recs: seq<Record>)
    requires AllRegistrable(recs)
    ensures RegisterAll(t, recs).products == t.products + Rows(recs, t.nextPk)
    ensures RegisterAll(t, recs).nextPk == t.nextPk + |recs|
  {
    if recs != [] {
      var init := recs[..|recs| - 1];
      AllRegistrableInit(recs);
      var last := recs[|recs| - 1];
      RegisterAllRows(t, init);
      var t0 := RegisterAll(t, init);
      var row := RowOf(last).(pk := t0.nextPk);
      assert Rows(recs, t.nextPk) == Rows(init, t.nextPk) + [row];
      assert RegisterAll(t, recs) == RegisterOne(t0, last);
      RegisterOneProducts(t0, last);
      SeqAssoc(t.products, Rows(init, t.nextPk), [row]);
    }
  }

  /** `register` creates one product per record, in order, with consecutive keys and
   *  no deduplication by barcode. */
  lemma RegisterAllProducts(t: Tables, recs: seq<Record>)
    requires AllRegistrable(recs)
    ensures var t' := RegisterAll(t, recs);
      && |t'.products| == |t.products| + |recs|
      && t'.products[..|t.products|] == t.products
      && t'.nextPk == t.nextPk + |recs|
      && forall k :: 0 <= k < |recs| ==> t'.products[|t.products| + k] == RowOf(recs[k]).(pk := t.nextPk + k)
  {
    RegisterAllRows(t, recs);
    RowsIndex(recs, t.nextPk);
    var t' := RegisterAll(t, recs);
    assert t'.products[..|t.products|] == t.products;
    forall k | 0 <= k < |recs| ensures t'.products[|t.products| + k] == RowOf(recs[k]).(pk := t.nextPk + k) {
      assert t'.products[|t.products| + k] == Rows(recs, t.nextPk)[k];
    }
  }

  /** The rows `register` adds carry keys from the next key on and a counter of 0. */
  lemma RegisterAllFreshRows(t: Tables, recs: seq<Record>)
    requires AllRegistrable(recs)
    ensures var ps := RegisterAll(t, recs).products;
      |ps| >= |t.products| && ps[..|t.products|] == t.products
      && forall i :: |t.products| <= i < |ps| ==> ps[i].pk >= t.nextPk && ps[i].favorized == 0
  {
    RegisterAllRows(t, recs);
    RowsIndex(recs, t.nextPk);
    var ps := RegisterAll(t, recs).products;
    var rows := Rows(recs, t.nextPk);
    assert ps[..|t.products|] == t.products;
    forall i | |t.products| <= i < |ps| ensures ps[i].pk >= t.nextPk && ps[i].favorized == 0 {
      assert ps[i] == rows[i - |t.products|];
    }
  }

  /** After `register`, category names remain unique and earlier categories keep their
   *  index. */
  lemma {:induction false} RegisterAllCategoriesFrame(t: Tables, recs: seq<Record>)
    requires AllRegistrable(recs)
    ensures var t' := RegisterAll(t, recs);
      && (NoDup(t.categories) ==> NoDup(t'.categories))
      && |t'.categories| >= |t.categories| && t'.categories[..|t.categories|] == t.categories
  {
    if recs != [] {
      var init := recs[..|recs| - 1];
      AllRegistrableInit(recs);
      RegisterAllCategoriesFrame(t, init);
      var t0 := RegisterAll(t, init);
      RegisterOneFrame(t0, recs[|recs| - 1]);
      var t' := RegisterAll(t, recs);
      assert t' == RegisterOne(t0, recs[|recs| - 1]);
      assert t'.categories[..|t.categories|] == t0.categories[..|t.categories|];
    }
  }

  /** `register` keeps every earlier position, at its index. */
  lemma {:induction false} RegisterAllKeepsPositions(t: Tables, recs: seq<Record>)
    requires AllRegistrable(recs)
    ensures var t' := RegisterAll(t, recs);
      |t'.positions| >= |t.positions| && t'.positions[..|t.positions|] == t.positions
  {
    if recs != [] {
      var init := recs[..|recs| - 1];
      AllRegistrableInit(recs);
      RegisterAllKeepsPositions(t, init);
      var t0 := RegisterAll(t, init);
      RegisterOneFrame(t0, recs[|recs| - 1]);
      var t' := RegisterAll(t, recs);
      assert t' == RegisterOne(t0, recs[|recs| - 1]);
      assert t'.positions[..|t.positions|] == t0.positions[..|t.positions|];
    }
  }

  /** `register` on one record never loses a category name. */
  lemma RegisterOneKeepsNames(t: Tables, r: Record)
    requires Registrable(r)
    ensures forall name :: name in t.categories ==> name in RegisterOne(t, r).categories
  {
    RegisterOneFrame(t, r);
    var cats := RegisterOne(t, r).categories;
    forall name | name in t.categories ensures name in cats {
      var m :| 0 <= m < |t.categories| && t.categories[m] == name;
      assert cats[..|t.categories|][m] == cats[m];
    }
  }

  /** After `register`, every name of every processed hierarchy is in the category
   *  table. */
  lemma {:induction false} RegisterAllCategories(t: Tables, recs: seq<Record>)
    requires AllRegistrable(recs)
    ensures forall k, name :: 0 <= k < |recs| && name in Hierarchy(recs[k]["categories_hierarchy"]) ==>
      name in RegisterAll(t, recs).categories
  {
    if recs != [] {
      var init := recs[..|recs| - 1];
      var last := recs[|recs| - 1];
      AllRegistrableInit(recs);
      RegisterAllCategories(t, init);
      var t0 := RegisterAll(t, init);
      RegisterOneKeepsNames(t0, last);
      RegisterOneNames(t0, last);
      var cats := RegisterAll(t, recs).categories;
      assert cats == RegisterOne(t0, last).categories;
      forall k, name | 0 <= k < |recs| && name in Hierarchy(recs[k]["categories_hierarchy"])
        ensures name in cats
      {
        if k < |init| {
          assert recs[k] == init[k];
          assert name in t0.categories;
        }
      }
    }
  }

  lemma {:induction false} AddPositionsWellFormed(t: Tables, pk: nat, rev: seq<string>)
    requires WellFormed(t) && HasPk(t.products, pk)
    ensures WellFormed(AddPositions(t, pk, rev))
  {
    if rev != [] {
      var init := rev[..|rev| - 1];
      AddPositionsWellFormed(t, pk, init);
      AddPositionsFrame(t, pk, init);
      var t0 := AddPositions(t, pk, init);
      var (cats, c) := GetOrCreate(t0.categories, rev[|rev| - 1]);
      var r := AddPositions(t, pk, rev);
      forall i | 0 <= i < |r.positions|
        ensures r.positions[i].category < |r.categories| && HasPk(r.products, r.positions[i].product)
      {
        if i < |t0.positions| {
          assert r.positions[i] == t0.positions[i];
        }
      }
    }
  }

  /** `register` keeps the tables well formed. */
  lemma {:induction false} RegisterAllWellFormed(t: Tables, recs: seq<Record>)
    requires WellFormed(t) && AllRegistrable(recs)
    ensures WellFormed(RegisterAll(t, recs))
  {
    if recs != [] {
      var init := recs[..|recs| - 1];
      AllRegistrableInit(recs);
      RegisterAllWellFormed(t, init);
      var t0 := RegisterAll(t, init);
      var t1 := Insert(t0, RowOf(recs[|recs| - 1]));
      assert t1.products[|t0.products|].pk == t0.nextPk;
      InsertWellFormed(t0, RowOf(recs[|recs| - 1]));
      AddPositionsWellFormed(t1, t0.nextPk, Reversed(Hierarchy(recs[|recs| - 1]["categories_hierarchy"])));
    }
  }

  // ------------------------------------------------------------- populate

  lemma AllRegistrableConcat(a: seq<Record>, b: seq<Record>)
    requires AllRegistrable(a) && AllRegistrable(b)
    ensures AllRegistrable(a + b)
  {
    forall i | 0 <= i < |a + b| ensures Registrable((a + b)[i]) {
      if i < |a| { assert (a + b)[i] == a[i]; } else { assert (a + b)[i] == b[i - |a|]; }
    }
  }

  /** Every record one `fetch` with the default keys appends has every field
   *  `register` reads. */
  lemma FetchedRegistrable(source: seq<Record>, n: int)
    ensures AllRegistrable(Fetched(source, ProductKeys, n))
  {
    var f := Fetched(source, ProductKeys, n);
    FetchedHaveKeys(source, ProductKeys, n);
    forall i | 0 <= i < |f| ensures Registrable(f[i]) {
      DefaultKeysRegistrable(f[i]);
    }
  }

  /** The records `populate` fetches for one category, grade tier by grade tier; all of
   *  them can be registered. */
  function FetchGrades(category: string, grades: seq<(string, int)>, catalogue: Catalogue): (r: seq<Record>)
    ensures AllRegistrable(r)
    decreases |grades|
  {
    if grades == [] then []
    else
      var g := grades[|grades| - 1];
      var init := FetchGrades(category, grades[..|grades| - 1], catalogue);
      var f := Fetched(catalogue(category, g.0), ProductKeys, g.1);
      FetchedRegistrable(catalogue(category, g.0), g.1);
      AllRegistrableConcat(init, f);
      init + f
  }

  /** The records `populate` fetches over all categories and grade tiers; all of them
   *  can be registered. */
  function FetchAll(categories: seq<string>, grades: seq<(string, int)>, catalogue: Catalogue): (r: seq<Record>)
    ensures AllRegistrable(r)
    decreases |categories|
  {
    if categories == [] then []
    else
      var init := FetchAll(categories[..|categories| - 1], grades, catalogue);
      var last := FetchGrades(categories[|categories| - 1], grades, catalogue);
      AllRegistrableConcat(init, last);
      init + last
  }

  function SumTargets(grades: seq<(string, int)>): int
  {
    if grades == [] then 0 else SumTargets(grades[..|grades| - 1]) + grades[|grades| - 1].1
  }

  lemma FetchGradesSnoc(category: string, grades: seq<(string, int)>, g: nat, catalogue: Catalogue)
    requires g < |grades|
    ensures FetchGrades(category, grades[..g + 1], catalogue)
         == FetchGrades(category, grades[..g], catalogue)
            + Fetched(catalogue(category, grades[g].0), ProductKeys, grades[g].1)
  {
    assert grades[..g + 1][..g] == grades[..g];
  }

  lemma FetchAllSnoc(categories: seq<string>, grades: seq<(string, int)>, c: nat, catalogue: Catalogue)
    requires c < |categories|
    ensures FetchAll(categories[..c + 1], grades, catalogue)
         == FetchAll(categories[..c], grades, catalogue) + FetchGrades(categories[c], grades, catalogue)
  {
    assert categories[..c + 1][..c] == categories[..c];
  }

  lemma {:induction false} FetchGradesBound(category: string, grades: seq<(string, int)>, catalogue: Catalogue)
    requires forall i :: 0 <= i < |grades| ==> grades[i].1 >= 1
    ensures |FetchGrades(category, grades, catalogue)| <= SumTargets(grades)
  {
    if grades != [] {
      var g := grades[|grades| - 1];
      FetchGradesBound(category, grades[..|grades| - 1], catalogue);
      FetchedIsPrefix(catalogue(category, g.0), ProductKeys, g.1);
    }
  }

  /** With every grade target at least 1, one `populate` fetches at most
   *  (number of categories) * (sum of the grade targets) records. */
  lemma {:induction false} FetchAllBound(categories: seq<string>, grades: seq<(string, int)>, catalogue: Catalogue)
    requires forall i :: 0 <= i < |grades| ==> grades[i].1 >= 1
    ensures |FetchAll(categories, grades, catalogue)| <= |categories| * SumTargets(grades)
  {
    if categories != [] {
      FetchAllBound(categories[..|categories| - 1], grades, catalogue);
      FetchGradesBound(categories[|categories| - 1], grades, catalogue);
      assert |categories| * SumTargets(grades)
          == (|categories| - 1) * SumTargets(grades) + SumTargets(grades);
    }
  }

  // ------------------------------------------------------------ collector

  class Collector {
    const url: string
    const grades: seq<(string, int)>
    const categories: seq<string>
    var products: seq<Record>

    constructor (url: string, grades: seq<(string, int)>, categories: seq<string>)
      ensures this.url == url && this.grades == grades && this.categories == categories
      ensures products == []
    {
      this.url := url;
      this.grades := grades;
      this.categories := categories;
      products := [];
    }

    /** The inner `for key in product_keys` loop with its `KeyError` handler: the
     *  projected record, or nothing when a key is missing. */
    static method ProjectRecord(product: Record, keys: seq<string>) returns (stored: Option<Record>)
      ensures stored.Some? <==> HasKeys(product, keys)
      ensures stored.Some? ==> stored.value.Keys == KeySet(keys)
      ensures stored.Some? ==> forall k :: k in keys ==> stored.value[k] == product[k]
    {
      var productToStore: Record := map[];
      var j := 0;
      while j < |keys|
        invariant 0 <= j <= |keys|
        invariant HasKeys(product, keys[..j])
        invariant productToStore == Project(product, keys[..j])
      {
        var key := keys[j];
        if key !in product {
          return None;
        }
        productToStore := productToStore[key := product[key]];
        assert keys[..j + 1] == keys[..j] + [key];
        j := j + 1;
      }
      assert keys[..j] == keys;
      return Some(productToStore);
    }

    /** `fetch`: the records the endpoint returns for this category and grade, projected
     *  on `productKeys`, up to `productsNumber` of them, are appended to `products`. */
    method Fetch(category: string, grade: string, productsNumber: int, productKeys: seq<string>,
                 catalogue: Catalogue)
      modifies this`products
      ensures products == old(products) + Fetched(catalogue(category, grade), productKeys, productsNumber)
    {
      var source := catalogue(category, grade);
      var productsToStore: seq<Record> := [];
      var i := 0;
      while i < |source|
        invariant 0 <= i <= |source|
        invariant FetchFrom(source[i..], productKeys, productsNumber, productsToStore)
               == Fetched(source, productKeys, productsNumber)
        invariant products == old(products)
      {
        var before := productsToStore;
        var stored := ProjectRecord(source[i], productKeys);
        if stored.Some? {
          assert stored.value == Project(source[i], productKeys);
          productsToStore := productsToStore + [stored.value];
        }
        assert source[i..][0] == source[i] && source[i..][1..] == source[i + 1..];
        assert FetchFrom(source[i..], productKeys, productsNumber, before)
            == if |productsToStore| == productsNumber then productsToStore
               else FetchFrom(source[i + 1..], productKeys, productsNumber, productsToStore);
        if |productsToStore| == productsNumber {
          assert productsToStore == Fetched(source, productKeys, productsNumber);
          break;
        }
        i := i + 1;
      }
      assert i == |source| ==> source[i..] == [];
      assert productsToStore == Fetched(source, productKeys, productsNumber);
      products := products + productsToStore;
    }

    /** The inner loop of `register`: walk the reversed hierarchy, get-or-create each
     *  category and save a position for product `pk` ranked by its index. */
    static method SavePositions(db: Database, pk: nat, hierarchy: seq<string>)
      modifies db`categories, db`positions
      ensures db.Contents() == AddPositions(old(db.Contents()), pk, hierarchy)
    {
      var i := 0;
      while i < |hierarchy|
        invariant 0 <= i <= |hierarchy|
        invariant db.Contents() == AddPositions(old(db.Contents()), pk, hierarchy[..i])
      {
        var category, created := db.GetOrCreateCategory(hierarchy[i]);
        db.SavePosition(Position(pk, category, i));
        assert hierarchy[..i + 1][..i] == hierarchy[..i];
        i := i + 1;
      }
      assert hierarchy[..i] == hierarchy;
    }

    /** The body of the `register` loop for one record: save its product, then its
     *  positions. */
    static method RegisterRecord(db: Database, product: Record)
      requires Registrable(product)
      modifies db`products, db`categories, db`positions, db`nextPk
      ensures db.Contents() == RegisterOne(old(db.Contents()), product)
    {
      var saved := db.Save(RowOf(product));
      SavePositions(db, saved.pk, Reversed(Hierarchy(product["categories_hierarchy"])));
    }

    /** `register`: every accumulated record, in order, becomes a product row with its
     *  positions. */
    method Register(db: Database)
      requires db.Valid() && AllRegistrable(products)
      modifies db`products, db`categories, db`positions, db`nextPk
      ensures db.Valid()
      ensures db.Contents() == RegisterAll(old(db.Contents()), products)
    {
      var k := 0;
      while k < |products|
        invariant 0 <= k <= |products|
        invariant AllRegistrable(products[..k])
        invariant db.Contents() == RegisterAll(old(db.Contents()), products[..k])
      {
        AllRegistrableInit(products[..k + 1]);
        assert products[..k + 1][..k] == products[..k];
        RegisterRecord(db, products[k]);
        k := k + 1;
      }
      assert products[..k] == products;
      RegisterAllWellFormed(old(db.Contents()), products);
    }

    /** `populate`: fetch for every category and every grade tier, then register the
     *  whole accumulated batch once. */
    method Populate(db: Database, catalogue: Catalogue)
      requires db.Valid() && AllRegistrable(products)
      modifies this`products, db`products, db`categories, db`positions, db`nextPk
      ensures products == old(products) + FetchAll(categories, grades, catalogue)
      ensures AllRegistrable(products)
      ensures db.Valid()
      ensures db.Contents() == RegisterAll(old(db.Contents()), products)
    {
      var c := 0;
      while c < |categories|
        invariant 0 <= c <= |categories|
        invariant products == old(products) + FetchAll(categories[..c], grades, catalogue)
        invariant db.Contents() == old(db.Contents())
      {
        ghost var base := products;
        var g := 0;
        while g < |grades|
          invariant 0 <= g <= |grades|
          invariant products == base + FetchGrades(categories[c], grades[..g], catalogue)
          invariant db.Contents() == old(db.Contents())
        {
          ghost var done := FetchGrades(categories[c], grades[..g], catalogue);
          Fetch(categories[c], grades[g].0, grades[g].1, ProductKeys, catalogue);
          ghost var f := Fetched(catalogue(categories[c], grades[g].0), ProductKeys, grades[g].1);
          FetchGradesSnoc(categories[c], grades, g, catalogue);
          SeqAssoc(base, done, f);
          g := g + 1;
        }
        assert grades[..g] == grades;
        FetchAllSnoc(categories, grades, c, catalogue);
        SeqAssoc(old(products), FetchAll(categories[..c], grades, catalogue), FetchGrades(categories[c], grades, catalogue));
        c := c + 1;
      }
      assert categories[..c] == categories;
      AllRegistrableConcat(old(products), FetchAll(categories, grades, catalogue));
      Register(db);
    }

    /** `empty`: delete every product whose counter is 0; report how many were
     *  deleted and the prior total. */
    method Empty(db: Database) returns (deletedNumber: nat, totalProducts: nat)
      requires db.Valid()
      modifies db`products, db`positions
      ensures db.Valid()
      ensures db.Contents() == Purge(old(db.Contents()))
      ensures deletedNumber == |Unfavorized(old(db.products))|
      ensures totalProducts == |old(db.products)|
      ensures deletedNumber + |db.products| == totalProducts
    {
      deletedNumber := |Unfavorized(db.products)|;
      totalProducts := |db.products|;
      PurgeCounts(db.products);
      PurgeWellFormed(db.Contents());
      db.DeleteUnfavorized();
    }
  }

  /** The refresh command: a collector with the default configuration empties the
   *  catalogue of unfavourited products, then populates it. */
  method Handle(db: Database, catalogue: Catalogue)
    requires db.Valid()
    modifies db`products, db`categories, db`positions, db`nextPk
    ensures db.Valid()
    ensures db.Contents()
         == RegisterAll(Purge(old(db.Contents())), FetchAll(DefaultCategories, DefaultGrades, catalogue))
  {
    var collector := new Collector(DefaultUrl, DefaultGrades, DefaultCategories);
    var deleted, total := collector.Empty(db);
    ghost var purged := db.Contents();
    collector.Populate(db, catalogue);
    ghost var fetched := FetchAll(DefaultCategories, DefaultGrades, catalogue);
    assert [] + fetched == fetched;
    assert collector.products == fetched;
    assert db.Contents() == RegisterAll(purged, fetched);
  }
}
