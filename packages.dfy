/**
 * The records that flow through the delivery system: a package as parsed,
 * the charges pricing attaches to it, and the record dispatch produces.
 */
module Packages {
  import opened Base

  /** The three fields pricing adds to a package (`deliveryCost`, `discount`, `totalCost`). */
  datatype Charges = Charges(deliveryCost: int, discount: int, totalCost: int)

  /**
   * A package: `{id, weight, distance, offerCode}` as parsed, plus the
   * charges once pricing has spread them into the object. An absent offer
   * code (`undefined` or `null`) is `None`.
   */
  datatype Package = Package(
    id: string,
    weight: real,
    distance: real,
    offerCode: Option<string>,
    charges: Option<Charges>)

  /** A dispatched package: every field of the package plus its `eta`. */
  datatype DispatchRecord = DispatchRecord(pkg: Package, eta: real)

  /** No two packages share an identifier. */
  predicate UniqueIds(ps: seq<Package>)
  {
    forall i, j :: 0 <= i < j < |ps| ==> ps[i].id != ps[j].id
  }

  /** The packages of a list of dispatch records, in the same order. */
  function Pkgs(recs: seq<DispatchRecord>): (r: seq<Package>)
    ensures |r| == |recs|
    ensures forall k :: 0 <= k < |recs| ==> r[k] == recs[k].pkg
  {
    seq(|recs|, k requires 0 <= k < |recs| => recs[k].pkg)
  }

  lemma PkgsConcat(a: seq<DispatchRecord>, b: seq<DispatchRecord>)
    ensures Pkgs(a + b) == Pkgs(a) + Pkgs(b)
  {
  }

  /** Two packages with the same identifier in an id-unique list are the same package. */
  lemma SameIdSamePackage(ps: seq<Package>, x: Package, y: Package)
    requires UniqueIds(ps) && x in ps && y in ps && x.id == y.id
    ensures x == y
  {
    var i :| 0 <= i < |ps| && ps[i] == x;
    var j :| 0 <= j < |ps| && ps[j] == y;
    assert i == j;
  }

  /** In an id-unique list the identifier determines the package. */
  lemma IdDeterminesPackage(ps: seq<Package>)
    requires UniqueIds(ps)
    ensures forall x, y :: x in ps && y in ps && x.id == y.id ==> x == y
  {
    forall x, y | x in ps && y in ps && x.id == y.id
      ensures x == y
    {
      SameIdSamePackage(ps, x, y);
    }
  }

  /** In an id-unique list every package occurs exactly once. */
  lemma {:induction false} UniqueCount(ps: seq<Package>, x: Package)
    requires UniqueIds(ps)
    ensures multiset(ps)[x] == if x in ps then 1 else 0
  {
    if ps != [] {
      var last := ps[|ps| - 1];
      var init := ps[..|ps| - 1];
      assert ps == init + [last];
      assert UniqueIds(init);
      UniqueCount(init, x);
      assert forall i :: 0 <= i < |init| ==> init[i].id != last.id;
    }
  }
}
