/** The catalogue tables shared by the product import and the favourites views:
 *  products, categories and the ranked positions that join them, held in memory.
 *  The relational database is modelled as a class whose fields are the tables;
 *  each of its methods is one ORM call (save, get_or_create, delete). */
module Catalog {

  datatype Option<T> = None | Some(value: T)

  /** A field value of a catalogue record as the search endpoint returns it:
   *  a string, or a list of strings (the category hierarchy). */
  datatype Value = Str(s: string) | StrList(items: seq<string>)

  /** One catalogue record: field name to value. */
  type Record = map<string, Value>

  /** A row of the product table. `pk` is assigned by the table on insert;
   *  `favorized` is the favourite counter. */
  datatype Product = Product(
    pk: nat,
    productName: Value,
    grade: Value,
    url: Value,
    barcode: Value,
    brand: Value,
    store: Value,
    productImgUrl: Value,
    favorized: int)

  /** A row of the join table: `category` is an index into the category table. */
  datatype Position = Position(product: nat, category: nat, rank: nat)

  /** A snapshot of all tables. `nextPk` is the primary key the next product gets. */
  datatype Tables = Tables(
    products: seq<Product>,
    categories: seq<string>,
    positions: seq<Position>,
    nextPk: nat)

  predicate NoDup(names: seq<string>)
  {
    forall i, j :: 0 <= i < j < |names| ==> names[i] != names[j]
  }

  predicate PksIncreasing(ps: seq<Product>)
  {
    forall i, j :: 0 <= i < j < |ps| ==> ps[i].pk < ps[j].pk
  }

  predicate HasPk(ps: seq<Product>, pk: nat)
  {
    exists i :: 0 <= i < |ps| && ps[i].pk == pk
  }

  function PkSet(ps: seq<Product>): set<nat>
  {
    set p | p in ps :: p.pk
  }

  /** What the database keeps true: primary keys are unique (increasing in insertion
   *  order) and below the next key, counters are non-negative, category names are
   *  unique, and every position points at an existing category and product. */
  predicate WellFormed(t: Tables)
  {
    PksIncreasing(t.products)
    && (forall i :: 0 <= i < |t.products| ==> t.products[i].pk < t.nextPk && t.products[i].favorized >= 0)
    && NoDup(t.categories)
    && (forall i :: 0 <= i < |t.positions| ==>
          t.positions[i].category < |t.categories| && HasPk(t.products, t.positions[i].product))
  }

  /** Index of the category row with the given name, if any. */
  function FindCategory(names: seq<string>, name: string): (r: Option<nat>)
    ensures r.Some? ==> r.value < |names| && names[r.value] == name
    ensures r.Some? ==> forall j :: 0 <= j < r.value ==> names[j] != name
    ensures r.None? <==> name !in names
  {
    if names == [] then None
    else if names[0] == name then Some(0)
    else
      match FindCategory(names[1..], name)
      case None =>
        assert names == [names[0]] + names[1..];
        None
      case Some(i) => Some(i + 1)
  }

  /** `get_or_create` on the category table: the existing row with that name, or a new
   *  row appended at the end. Returns the new table and the row's index. */
  function GetOrCreate(names: seq<string>, name: string): (r: (seq<string>, nat))
    ensures r.1 < |r.0| && r.0[r.1] == name
    ensures name in names ==> r.0 == names
    ensures name !in names ==> r.0 == names + [name] && r.1 == |names|
    ensures NoDup(names) ==> NoDup(r.0)
  {
    match FindCategory(names, name)
    case Some(i) => (names, i)
    case None => (names + [name], |names|)
  }

  /** Saving a new product: it gets the next primary key. */
  function Insert(t: Tables, p: Product): (r: Tables)
    ensures r.nextPk == t.nextPk + 1 && |r.products| == |t.products| + 1
    ensures r.categories == t.categories && r.positions == t.positions
  {
    t.(products := t.products + [p.(pk := t.nextPk)], nextPk := t.nextPk + 1)
  }

  /** A saved product with a non-negative counter keeps the tables well formed. */
  lemma InsertWellFormed(t: Tables, p: Product)
    requires WellFormed(t) && p.favorized >= 0
    ensures WellFormed(Insert(t, p))
  {
    var r := Insert(t, p);
    forall i | 0 <= i < |r.positions|
      ensures HasPk(r.products, r.positions[i].product)
    {
      assert HasPk(t.products, t.positions[i].product);
      var k :| 0 <= k < |t.products| && t.products[k].pk == t.positions[i].product;
      assert r.products[k] == t.products[k];
    }
  }

  /** Saving an existing product row with a non-negative counter, key unchanged, keeps
   *  the tables well formed. */
  lemma UpdateWellFormed(t: Tables, i: nat, p: Product)
    requires WellFormed(t) && i < |t.products| && p.pk == t.products[i].pk && p.favorized >= 0
    ensures WellFormed(t.(products := t.products[i := p]))
  {
    var ps := t.products[i := p];
    forall j | 0 <= j < |t.positions| ensures HasPk(ps, t.positions[j].product) {
      var k :| 0 <= k < |t.products| && t.products[k].pk == t.positions[j].product;
      assert ps[k].pk == t.products[k].pk;
    }
  }

  /** The products whose counter is 0: those `empty` deletes. */
  function Unfavorized(ps: seq<Product>): (r: seq<Product>)
    ensures forall p :: p in r <==> p in ps && p.favorized == 0
  {
    if ps == [] then []
    else (if ps[0].favorized == 0 then [ps[0]] else []) + Unfavorized(ps[1..])
  }

  /** The products whose counter is not 0, in table order: those `empty` keeps. */
  function Kept(ps: seq<Product>): (r: seq<Product>)
    ensures forall p :: p in r <==> p in ps && p.favorized != 0
  {
    if ps == [] then []
    else (if ps[0].favorized != 0 then [ps[0]] else []) + Kept(ps[1..])
  }

  /** The kept rows stay in key order. */
  lemma {:induction false} KeptIncreasing(ps: seq<Product>)
    requires PksIncreasing(ps)
    ensures PksIncreasing(Kept(ps))
  {
    if ps != [] {
      var rest := Kept(ps[1..]);
      assert PksIncreasing(ps[1..]);
      KeptIncreasing(ps[1..]);
      if ps[0].favorized != 0 {
        forall j | 0 <= j < |rest| ensures ps[0].pk < rest[j].pk {
          assert rest[j] in ps[1..];
          var k :| 0 <= k < |ps[1..]| && ps[1..][k] == rest[j];
          assert ps[k + 1] == rest[j];
        }
      }
    }
  }

  /** The position rows left after the products with keys in `gone` are deleted
   *  (the foreign key cascades). */
  function Cascade(positions: seq<Position>, gone: set<nat>): (r: seq<Position>)
    ensures forall x :: x in r <==> x in positions && x.product !in gone
  {
    if positions == [] then []
    else (if positions[0].product !in gone then [positions[0]] else []) + Cascade(positions[1..], gone)
  }

  /** The tables after `Product.objects.filter(favorized=0).delete()`. */
  function Purge(t: Tables): (r: Tables)
    ensures forall p :: p in r.products <==> p in t.products && p.favorized != 0
    ensures forall x :: x in r.positions <==> x in t.positions && x.product !in PkSet(Unfavorized(t.products))
    ensures r.categories == t.categories && r.nextPk == t.nextPk
  {
    t.(products := Kept(t.products),
       positions := Cascade(t.positions, PkSet(Unfavorized(t.products))))
  }

  /** The deleted and the remaining products together are exactly the old table. */
  lemma {:induction false} PurgeCounts(ps: seq<Product>)
    ensures |Unfavorized(ps)| + |Kept(ps)| == |ps|
  {
    if ps != [] {
      PurgeCounts(ps[1..]);
    }
  }

  /** A product that some position still points at after the cascade was not deleted. */
  lemma CascadeTargetKept(t: Tables, x: Position)
    requires WellFormed(t) && x in Cascade(t.positions, PkSet(Unfavorized(t.products)))
    ensures HasPk(Kept(t.products), x.product)
  {
    var j :| 0 <= j < |t.positions| && t.positions[j] == x;
    var k :| 0 <= k < |t.products| && t.products[k].pk == x.product;
    var p := t.products[k];
    assert p in t.products;
    assert p.favorized != 0;
    assert p in Kept(t.products);
    var m :| 0 <= m < |Kept(t.products)| && Kept(t.products)[m] == p;
  }

  /** Purging keeps the tables well formed: in particular every remaining position
   *  still points at a remaining product. */
  lemma PurgeWellFormed(t: Tables)
    requires WellFormed(t)
    ensures WellFormed(Purge(t))
  {
    var r := Purge(t);
    KeptIncreasing(t.products);
    forall i | 0 <= i < |r.positions|
      ensures r.positions[i].category < |r.categories| && HasPk(r.products, r.positions[i].product)
    {
      assert r.positions[i] in r.positions;
      CascadeTargetKept(t, r.positions[i]);
    }
    forall i | 0 <= i < |r.products|
      ensures r.products[i].pk < r.nextPk && r.products[i].favorized >= 0
    {
      assert r.products[i] in t.products;
    }
  }

  /** The database: one field per table. */
  class Database {
    var products: seq<Product>
    var categories: seq<string>
    var positions: seq<Position>
    var nextPk: nat

    constructor ()
      ensures Contents() == Tables([], [], [], 1) && Valid()
    {
      products, categories, positions, nextPk := [], [], [], 1;
    }

    function Contents(): Tables
      reads this
    {
      Tables(products, categories, positions, nextPk)
    }

    ghost predicate Valid()
      reads this
    {
      WellFormed(Contents())
    }

    /** `Model.save()` of a new product row. */
    method Save(p: Product) returns (saved: Product)
      modifies this`products, this`nextPk
      ensures Contents() == Insert(old(Contents()), p)
      ensures saved == p.(pk := old(nextPk))
      ensures products == old(products) + [saved]
    {
      saved := p.(pk := nextPk);
      products := products + [saved];
      nextPk := nextPk + 1;
    }

    /** `Category.objects.get_or_create(category_name=name)`. */
    method GetOrCreateCategory(name: string) returns (category: nat, created: bool)
      modifies this`categories
      ensures (categories, category) == GetOrCreate(old(categories), name)
      ensures created <==> name !in old(categories)
    {
      var found := FindCategory(categories, name);
      if found.Some? {
        category, created := found.value, false;
      } else {
        category, created := |categories|, true;
        categories := categories + [name];
      }
    }

    /** `Model.save()` of an existing product row: the row at index `i` is replaced. */
    method Update(i: nat, p: Product)
      requires i < |products| && p.pk == products[i].pk
      modifies this`products
      ensures products == old(products)[i := p]
    {
      products := products[i := p];
    }

    /** `Model.save()` of a new position row. */
    method SavePosition(pos: Position)
      modifies this`positions
      ensures positions == old(positions) + [pos]
    {
      positions := positions + [pos];
    }

    /** `Product.objects.filter(favorized=0).delete()`. */
    method DeleteUnfavorized()
      modifies this`products, this`positions
      ensures Contents() == Purge(old(Contents()))
    {
      positions := Cascade(positions, PkSet(Unfavorized(products)));
      products := Kept(products);
    }
  }
}
