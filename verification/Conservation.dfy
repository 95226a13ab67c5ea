/** What assembly does with each row: a row is placed exactly once if its owners lead to a
    root, and not at all otherwise. Paths may repeat. */
module Conservation {
  import opened Options
  import opened Text
  import opened Paths
  import opened Assembly

  // ----- how often row `j` occurs in the answer, following the answer's own recursion -----

  ghost function OccursAt(rows: seq<Row>, i: nat, j: nat): nat
    requires Pathed(rows) && i < |rows|
    decreases |rows| - i, 0, 0
  {
    (if i == j then 1 else 0) + OccursUnder(rows, i, Sorted(KidRels(rows, i)), j)
  }

  ghost function OccursUnder(rows: seq<Row>, i: nat, rels: seq<string>, j: nat): nat
    requires Pathed(rows) && i < |rows|
    decreases |rows| - i - 1, 2, |rels|
  {
    if rels == [] then 0
    else
      var last := |rels| - 1;
      KidsComeLater(rows, i, rels[last]);
      OccursUnder(rows, i, rels[..last], j) + OccursIn(rows, Kids(rows, |rows|, i, rels[last]), j, i + 1)
  }

  ghost function OccursIn(rows: seq<Row>, ks: seq<nat>, j: nat, lo: nat): nat
    requires Listing(rows, ks, lo)
    decreases |rows| - lo, 1, |ks|
  {
    if ks == [] then 0
    else
      var last := |ks| - 1;
      OccursIn(rows, ks[..last], j, lo) + OccursAt(rows, ks[last], j)
  }

  /** How often row `j` occurs in the assembled forest. */
  ghost function Occurrences(rows: seq<Row>, j: nat): nat
    requires Pathed(rows)
  {
    OccursIn(rows, Roots(rows, |rows|), j, 0)
  }

  // ----- owners -----

  /** Row `i` is row `j` or one of the rows it hangs from, directly or not. */
  ghost predicate Above(rows: seq<Row>, i: nat, j: nat)
    requires Pathed(rows) && j < |rows|
    decreases j
  {
    i == j || (Owner(rows, j).Some? && Above(rows, i, Owner(rows, j).value))
  }

  /** The row at which the owners of `j` end. */
  ghost function Top(rows: seq<Row>, j: nat): (t: nat)
    requires Pathed(rows) && j < |rows|
    ensures t <= j && Owner(rows, t).None? && Above(rows, t, j)
    decreases j
  {
    if Owner(rows, j).None? then j else Top(rows, Owner(rows, j).value)
  }

  /** The kid of `i` on the way down to `j`. */
  ghost function Toward(rows: seq<Row>, i: nat, j: nat): (k: nat)
    requires Pathed(rows) && j < |rows| && i != j && Above(rows, i, j)
    ensures i < k <= j && Owner(rows, k) == Some(i) && Above(rows, k, j)
    decreases j
  {
    OwnersComeFirst(rows, j);
    if Owner(rows, j).value == i then j else Toward(rows, i, Owner(rows, j).value)
  }

  lemma {:induction false} AboveIsEarlier(rows: seq<Row>, i: nat, j: nat)
    requires Pathed(rows) && j < |rows| && Above(rows, i, j)
    ensures i <= j
    decreases j
  {
    if i != j {
      AboveIsEarlier(rows, i, Owner(rows, j).value);
    }
  }

  /** Only one kid of `i` is above `j`. */
  lemma {:induction false} OneWayDown(rows: seq<Row>, i: nat, k: nat, j: nat)
    requires Pathed(rows) && j < |rows| && k < |rows| && Owner(rows, k) == Some(i) && Above(rows, k, j)
    ensures i != j && Above(rows, i, j) && k == Toward(rows, i, j)
    decreases j
  {
    AboveIsEarlier(rows, k, j);
    OwnersComeFirst(rows, k);
    if k != j {
      OneWayDown(rows, i, k, Owner(rows, j).value);
    }
  }

  /** Only one row without an owner is above `j`. */
  lemma {:induction false} OneTop(rows: seq<Row>, t: nat, j: nat)
    requires Pathed(rows) && j < |rows| && t < |rows| && Owner(rows, t).None? && Above(rows, t, j)
    ensures t == Top(rows, j)
    decreases j
  {
    if t != j {
      OneTop(rows, t, Owner(rows, j).value);
    }
  }

  // ----- counting -----

  ghost function Indicator(b: bool): nat { if b then 1 else 0 }

  /** If `k0` is the only listed row above `j`, then `j` occurs below the list as often as `k0` is listed. */
  lemma {:induction false} OccursInList(rows: seq<Row>, ks: seq<nat>, j: nat, lo: nat, k0: nat)
    requires Listing(rows, ks, lo) && j < |rows|
    requires Increasing(ks)
    requires forall x :: 0 <= x < |ks| ==> (Above(rows, ks[x], j) <==> ks[x] == k0)
    ensures OccursIn(rows, ks, j, lo) == Indicator(k0 in ks)
    decreases |rows| - lo, 1, |ks|
  {
    if ks != [] {
      var last := |ks| - 1;
      OccursInList(rows, ks[..last], j, lo, k0);
      OccursOnce(rows, ks[last], j);
      assert Above(rows, ks[last], j) <==> ks[last] == k0;
      assert k0 in ks <==> k0 in ks[..last] || k0 == ks[last];
    }
  }

  /** `k0` is the only kid of `i` above `j`, if there is one. */
  ghost predicate OnlyWay(rows: seq<Row>, i: nat, j: nat, k0: nat)
    requires Pathed(rows) && j < |rows|
  {
    forall k :: 0 <= k < |rows| && Owner(rows, k) == Some(i) ==> (Above(rows, k, j) <==> k == k0)
  }

  lemma OccursUnderRel(rows: seq<Row>, i: nat, rel: string, j: nat, k0: nat)
    requires Pathed(rows) && i < |rows| && j < |rows| && k0 < |rows| && OnlyWay(rows, i, j, k0)
    ensures Listing(rows, Kids(rows, |rows|, i, rel), i + 1)
    ensures OccursIn(rows, Kids(rows, |rows|, i, rel), j, i + 1) == Indicator(IsKid(rows, i, rel, k0))
    decreases |rows| - i - 1, 2, 0
  {
    hide Kids, Owner, Above, OccursIn;
    var ks := Kids(rows, |rows|, i, rel);
    KidsComeLater(rows, i, rel);
    KidsExact(rows, |rows|, i, rel);
    forall x | 0 <= x < |ks|
      ensures Above(rows, ks[x], j) <==> ks[x] == k0
    {
      assert IsKid(rows, i, rel, ks[x]);
    }
    OccursInList(rows, ks, j, i + 1, k0);
  }

  lemma {:induction false} OccursUnderRels(rows: seq<Row>, i: nat, rels: seq<string>, j: nat, k0: nat)
    requires Pathed(rows) && i < |rows| && j < |rows| && k0 < |rows| && OnlyWay(rows, i, j, k0)
    requires Ascending(rels)
    ensures OccursUnder(rows, i, rels, j) == Indicator(Owner(rows, k0) == Some(i) && rows[k0].rel in rels)
    decreases |rows| - i - 1, 3, |rels|
  {
    if rels != [] {
      var last := |rels| - 1;
      OccursUnderRels(rows, i, rels[..last], j, k0);
      OccursUnderRel(rows, i, rels[last], j, k0);
      LastIsNew(rels);
      assert rows[k0].rel in rels <==> rows[k0].rel in rels[..last] || rows[k0].rel == rels[last];
    }
  }

  lemma LastIsNew(rels: seq<string>)
    requires Ascending(rels) && rels != []
    ensures rels[|rels| - 1] !in rels[..|rels| - 1]
  {
    LessIrreflexive(rels[|rels| - 1]);
  }

  /** Below row `i`, row `j` occurs once if `i` is above it and never otherwise. */
  lemma {:induction false} OccursOnce(rows: seq<Row>, i: nat, j: nat)
    requires Pathed(rows) && i < |rows| && j < |rows|
    ensures OccursAt(rows, i, j) == Indicator(Above(rows, i, j))
    decreases |rows| - i, 0, 0
  {
    var rels := Sorted(KidRels(rows, i));
    var k0 := if i != j && Above(rows, i, j) then Toward(rows, i, j) else i;
    forall k | 0 <= k < |rows| && Owner(rows, k) == Some(i)
      ensures Above(rows, k, j) <==> k == k0
    {
      OwnersComeFirst(rows, k);
      if Above(rows, k, j) {
        OneWayDown(rows, i, k, j);
      }
    }
    OccursUnderRels(rows, i, rels, j, k0);
    if Owner(rows, k0) == Some(i) {
      assert rows[k0].rel in KidRels(rows, i);
    }
  }

  /** Every row occurs in the answer exactly once if the rows it hangs from lead up to a root
      row, and not at all otherwise. This holds for repeated paths too. */
  lemma PlacedOnceOrDropped(rows: seq<Row>, j: nat)
    requires Pathed(rows) && j < |rows|
    ensures Occurrences(rows, j) == Indicator(rows[Top(rows, j)].level == 0)
  {
    var rs := Roots(rows, |rows|);
    RootsExact(rows, |rows|);
    var t := Top(rows, j);
    forall x | 0 <= x < |rs|
      ensures Above(rows, rs[x], j) <==> rs[x] == t
    {
      assert IsRoot(rows, rs[x]);
      if Above(rows, rs[x], j) {
        OneTop(rows, rs[x], j);
      }
    }
    OccursInList(rows, rs, j, 0, t);
    assert t in rs <==> IsRoot(rows, t);
  }

  /** Every row below the root level has an earlier row at its parent path. */
  ghost predicate ParentsPresent(rows: seq<Row>) {
    forall j :: 0 <= j < |rows| && rows[j].level != 0 ==> HasParentBefore(rows, j)
  }

  ghost predicate HasParentBefore(rows: seq<Row>, j: nat)
    requires j < |rows|
  {
    exists i :: 0 <= i < j && rows[i].path == ParentPath(rows[j].path)
  }

  /** Conservation: if no parent row is missing, every row occurs exactly once in the answer. */
  lemma NothingDropped(rows: seq<Row>, j: nat)
    requires Pathed(rows) && ParentsPresent(rows) && j < |rows|
    ensures Occurrences(rows, j) == 1
  {
    PlacedOnceOrDropped(rows, j);
  }
}
