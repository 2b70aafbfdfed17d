/**
 * The edit set as a table or collection view consumes it: index paths
 * instead of bare positions, and updates that merge into one another.
 */
module ViewUpdates {
  import opened IndexUpdates

  /** A position in a sectioned view: item `item` of section `section`. */
  datatype IndexPath = IndexPath(item: int, section: int)

  /** Index paths order by section first, then by item. */
  predicate Precedes(a: IndexPath, b: IndexPath) {
    a.section < b.section || (a.section == b.section && a.item < b.item)
  }

  /** `Precedes` is a strict total order on index paths. */
  lemma PrecedesIsStrictTotalOrder(a: IndexPath, b: IndexPath, c: IndexPath)
    ensures !Precedes(a, a)
    ensures Precedes(a, b) ==> !Precedes(b, a)
    ensures Precedes(a, b) && Precedes(b, c) ==> Precedes(a, c)
    ensures a != b ==> Precedes(a, b) || Precedes(b, a)
  {
  }

  /** Strictly ascending, hence free of duplicates. */
  predicate Ascending(s: seq<IndexPath>) {
    forall p, q :: 0 <= p < q < |s| ==> Precedes(s[p], s[q])
  }

  /** `indexPaths(inSection:)`: each position becomes the path to that item of `section`. */
  function IndexPaths(s: seq<int>, section: int): (r: seq<IndexPath>)
    ensures |r| == |s|
    ensures forall k :: 0 <= k < |s| ==> r[k].item == s[k] && r[k].section == section
  {
    seq(|s|, k requires 0 <= k < |s| => IndexPath(s[k], section))
  }

  /** A path is among the mapped ones exactly when it lies in `section` at a listed position. */
  lemma IndexPathsMembers(s: seq<int>, section: int, p: IndexPath)
    ensures p in IndexPaths(s, section) <==> p.section == section && p.item in s
  {
    var r := IndexPaths(s, section);
    if p.section == section && p.item in s {
      var k :| 0 <= k < |s| && s[k] == p.item;
      assert r[k] == p;
    }
  }

  /** The mapped paths ascend exactly when the positions strictly increase. */
  lemma IndexPathsAscending(s: seq<int>, section: int)
    ensures Ascending(IndexPaths(s, section)) <==> forall p, q :: 0 <= p < q < |s| ==> s[p] < s[q]
  {
    var r := IndexPaths(s, section);
    if Ascending(r) {
      forall p, q | 0 <= p < q < |s|
        ensures s[p] < s[q]
      {
        assert Precedes(r[p], r[q]);
      }
    }
  }

  // ----- `Array(Set(...)).sorted()` -----

  /** Places `p` into an ascending list, unless it is already there. */
  function InsertSorted(s: seq<IndexPath>, p: IndexPath): (r: seq<IndexPath>)
    requires Ascending(s)
    ensures Ascending(r)
    ensures forall q :: q in r <==> q in s || q == p
  {
    if |s| == 0 then [p]
    else if p == s[0] then s
    else if Precedes(p, s[0]) then [p] + s
    else
      var rest := InsertSorted(s[1..], p);
      assert forall q :: q in s <==> q == s[0] || q in s[1..];
      assert forall k :: 0 <= k < |s[1..]| ==> Precedes(s[0], s[1..][k]);
      assert forall k :: 0 <= k < |rest| ==> rest[k] in rest;
      [s[0]] + rest
  }

  /** The distinct paths of `s`, ascending. */
  function SortedSet(s: seq<IndexPath>): (r: seq<IndexPath>)
    ensures Ascending(r)
    ensures forall q :: q in r <==> q in s
  {
    if |s| == 0 then []
    else
      assert forall q :: q in s <==> q == s[0] || q in s[1..];
      InsertSorted(SortedSet(s[1..]), s[0])
  }

  /** An ascending list is determined by its members. */
  lemma {:induction false} AscendingUnique(a: seq<IndexPath>, b: seq<IndexPath>)
    requires Ascending(a) && Ascending(b)
    requires forall q :: q in a <==> q in b
    ensures a == b
    decreases |a|
  {
    assert |a| == 0 || a[0] in a;
    assert |b| == 0 || b[0] in b;
    if |a| > 0 && |b| > 0 {
      assert a[0] in b && b[0] in a;
      assert a[0] == b[0];
      forall q
        ensures q in a[1..] <==> q in b[1..]
      {
        assert q in a[1..] <==> q in a && q != a[0];
        assert q in b[1..] <==> q in b && q != b[0];
      }
      AscendingUnique(a[1..], b[1..]);
    }
  }

  /** Lists with the same members sort and deduplicate to the same list. */
  lemma SortedSetOfSameMembers(s: seq<IndexPath>, t: seq<IndexPath>)
    requires forall q :: q in s <==> q in t
    ensures SortedSet(s) == SortedSet(t)
  {
    AscendingUnique(SortedSet(s), SortedSet(t));
  }

  /** An ascending list is its own sorted set. */
  lemma SortedSetOfAscending(s: seq<IndexPath>)
    requires Ascending(s)
    ensures SortedSet(s) == s
  {
    AscendingUnique(SortedSet(s), s);
  }

  // ----- ViewUpdate -----

  datatype ViewUpdate = ViewUpdate(insertions: seq<IndexPath>, deletions: seq<IndexPath>, reloads: seq<IndexPath>)

  /** `noUpdate`: the memberwise initializer with its defaults. */
  function NoUpdate(): (r: ViewUpdate)
    ensures r.insertions == [] && r.deletions == [] && r.reloads == []
    ensures Canonical(r)
  {
    ViewUpdate([], [], [])
  }

  /** Each of the three lists ascends (the form `+=` leaves behind). */
  predicate Canonical(v: ViewUpdate) {
    Ascending(v.insertions) && Ascending(v.deletions) && Ascending(v.reloads)
  }

  /** `inverse`: what undoes the update; insertions and deletions trade places. */
  function Inverse(v: ViewUpdate): (r: ViewUpdate)
    ensures r.insertions == v.deletions && r.deletions == v.insertions && r.reloads == v.reloads
    ensures Canonical(r) <==> Canonical(v)
  {
    ViewUpdate(v.deletions, v.insertions, v.reloads)
  }

  /** `init(update:section:)`: every list of the edit set mapped into `section`. */
  function FromIndexUpdate(u: IndexUpdate, section: int): (r: ViewUpdate)
    ensures |r.insertions| == |u.insertions| && |r.deletions| == |u.deletions| && |r.reloads| == |u.reloads|
  {
    ViewUpdate(IndexPaths(u.insertions, section), IndexPaths(u.deletions, section), IndexPaths(u.reloads, section))
  }

  /**
   * What `left += right` leaves in `left`: each list is the sorted union of
   * the two, without duplicates.
   */
  function Merged(left: ViewUpdate, right: ViewUpdate): (r: ViewUpdate)
    ensures Canonical(r)
    ensures forall p :: p in r.insertions <==> p in left.insertions || p in right.insertions
    ensures forall p :: p in r.deletions <==> p in left.deletions || p in right.deletions
    ensures forall p :: p in r.reloads <==> p in left.reloads || p in right.reloads
  {
    ViewUpdate(
      SortedSet(left.insertions + right.insertions),
      SortedSet(left.deletions + right.deletions),
      SortedSet(left.reloads + right.reloads))
  }

  /** `+=`: overwrites the three lists of `left` one after the other. */
  method AddAssign(left: ViewUpdate, right: ViewUpdate) returns (result: ViewUpdate)
    ensures result == Merged(left, right)
    ensures Canonical(result)
    ensures forall p :: p in result.insertions <==> p in left.insertions || p in right.insertions
    ensures forall p :: p in result.deletions <==> p in left.deletions || p in right.deletions
    ensures forall p :: p in result.reloads <==> p in left.reloads || p in right.reloads
  {
    result := left;
    result := result.(insertions := SortedSet(result.insertions + right.insertions));
    result := result.(deletions := SortedSet(result.deletions + right.deletions));
    result := result.(reloads := SortedSet(result.reloads + right.reloads));
  }

  /**
   * `append(update:inSection:)`: maps the edit set into `section` and adds
   * it with `+=`.
   */
  method Append(view: ViewUpdate, update: IndexUpdate, section: int) returns (result: ViewUpdate)
    ensures result == Merged(view, FromIndexUpdate(update, section))
    ensures Canonical(result)
    ensures forall p :: p in result.insertions <==> p in view.insertions || (p.section == section && p.item in update.insertions)
    ensures forall p :: p in result.deletions <==> p in view.deletions || (p.section == section && p.item in update.deletions)
    ensures forall p :: p in result.reloads <==> p in view.reloads || (p.section == section && p.item in update.reloads)
  {
    var newInsertions := IndexPaths(update.insertions, section);
    var newDeletions := IndexPaths(update.deletions, section);
    var newReloads := IndexPaths(update.reloads, section);
    var newUpdate := ViewUpdate(newInsertions, newDeletions, newReloads);
    result := AddAssign(view, newUpdate);
    forall p
      ensures p in newInsertions <==> p.section == section && p.item in update.insertions
      ensures p in newDeletions <==> p.section == section && p.item in update.deletions
      ensures p in newReloads <==> p.section == section && p.item in update.reloads
    {
      IndexPathsMembers(update.insertions, section, p);
      IndexPathsMembers(update.deletions, section, p);
      IndexPathsMembers(update.reloads, section, p);
    }
  }

  // ----- Laws of the merge -----

  /** Merging an update into itself changes nothing, once it is in canonical form. */
  lemma MergedIdempotent(v: ViewUpdate)
    requires Canonical(v)
    ensures Merged(v, v) == v
  {
    AscendingUnique(Merged(v, v).insertions, v.insertions);
    AscendingUnique(Merged(v, v).deletions, v.deletions);
    AscendingUnique(Merged(v, v).reloads, v.reloads);
  }

  /** The order in which two updates are merged does not matter. */
  lemma MergedCommutative(a: ViewUpdate, b: ViewUpdate)
    ensures Merged(a, b) == Merged(b, a)
  {
    SortedSetOfSameMembers(a.insertions + b.insertions, b.insertions + a.insertions);
    SortedSetOfSameMembers(a.deletions + b.deletions, b.deletions + a.deletions);
    SortedSetOfSameMembers(a.reloads + b.reloads, b.reloads + a.reloads);
  }

  /** How merges are grouped does not matter. */
  lemma MergedAssociative(a: ViewUpdate, b: ViewUpdate, c: ViewUpdate)
    ensures Merged(Merged(a, b), c) == Merged(a, Merged(b, c))
  {
    var l, r := Merged(Merged(a, b), c), Merged(a, Merged(b, c));
    AscendingUnique(l.insertions, r.insertions);
    AscendingUnique(l.deletions, r.deletions);
    AscendingUnique(l.reloads, r.reloads);
  }

  /** Merging the same update a second time changes nothing. */
  lemma MergedAbsorbs(a: ViewUpdate, b: ViewUpdate)
    ensures Merged(Merged(a, b), b) == Merged(a, b)
  {
    var l, r := Merged(Merged(a, b), b), Merged(a, b);
    AscendingUnique(l.insertions, r.insertions);
    AscendingUnique(l.deletions, r.deletions);
    AscendingUnique(l.reloads, r.reloads);
  }

  /** `noUpdate` is the neutral element of the merge on canonical updates. */
  lemma NoUpdateIsNeutral(v: ViewUpdate)
    requires Canonical(v)
    ensures Merged(NoUpdate(), v) == v && Merged(v, NoUpdate()) == v
  {
    assert NoUpdate().insertions + v.insertions == v.insertions && v.insertions + NoUpdate().insertions == v.insertions;
    assert NoUpdate().deletions + v.deletions == v.deletions && v.deletions + NoUpdate().deletions == v.deletions;
    assert NoUpdate().reloads + v.reloads == v.reloads && v.reloads + NoUpdate().reloads == v.reloads;
    SortedSetOfAscending(v.insertions);
    SortedSetOfAscending(v.deletions);
    SortedSetOfAscending(v.reloads);
  }

  /** The inverse of the inverse is the update itself, and `noUpdate` is its own inverse. */
  lemma InverseInvolution(v: ViewUpdate)
    ensures Inverse(Inverse(v)) == v
    ensures Inverse(NoUpdate()) == NoUpdate()
  {
  }

  /** Inverting a merge is merging the inverses. */
  lemma InverseOfMerged(a: ViewUpdate, b: ViewUpdate)
    ensures Inverse(Merged(a, b)) == Merged(Inverse(a), Inverse(b))
  {
  }

  /** A well-formed edit set maps to a canonical update in any one section. */
  lemma FromWellFormedIsCanonical(u: IndexUpdate, n: int, m: int, section: int)
    requires WellFormed(u, n, m)
    ensures Canonical(FromIndexUpdate(u, section))
  {
    IndexPathsAscending(u.insertions, section);
    IndexPathsAscending(u.deletions, section);
    IndexPathsAscending(u.reloads, section);
  }

  /** Appending a well-formed edit set to `noUpdate` yields the edit set's own view update. */
  lemma AppendToNoUpdate(u: IndexUpdate, n: int, m: int, section: int)
    requires WellFormed(u, n, m)
    ensures Merged(NoUpdate(), FromIndexUpdate(u, section)) == FromIndexUpdate(u, section)
  {
    FromWellFormedIsCanonical(u, n, m, section);
    NoUpdateIsNeutral(FromIndexUpdate(u, section));
  }

  /**
   * Appending two edit sets to `noUpdate` in one section yields the view
   * update of any well-formed edit set whose lists hold exactly the
   * positions of the two.
   */
  lemma AppendTwoIndexUpdates(first: IndexUpdate, second: IndexUpdate, union: IndexUpdate, n: int, m: int, section: int)
    requires WellFormed(union, n, m)
    requires forall k :: k in union.insertions <==> k in first.insertions || k in second.insertions
    requires forall k :: k in union.deletions <==> k in first.deletions || k in second.deletions
    requires forall k :: k in union.reloads <==> k in first.reloads || k in second.reloads
    ensures Merged(Merged(NoUpdate(), FromIndexUpdate(first, section)), FromIndexUpdate(second, section))
         == FromIndexUpdate(union, section)
  {
    var v := Merged(Merged(NoUpdate(), FromIndexUpdate(first, section)), FromIndexUpdate(second, section));
    var w := FromIndexUpdate(union, section);
    FromWellFormedIsCanonical(union, n, m, section);
    forall p
      ensures p in v.insertions <==> p in w.insertions
    {
      IndexPathsMembers(first.insertions, section, p);
      IndexPathsMembers(second.insertions, section, p);
      IndexPathsMembers(union.insertions, section, p);
    }
    forall p
      ensures p in v.deletions <==> p in w.deletions
    {
      IndexPathsMembers(first.deletions, section, p);
      IndexPathsMembers(second.deletions, section, p);
      IndexPathsMembers(union.deletions, section, p);
    }
    forall p
      ensures p in v.reloads <==> p in w.reloads
    {
      IndexPathsMembers(first.reloads, section, p);
      IndexPathsMembers(second.reloads, section, p);
      IndexPathsMembers(union.reloads, section, p);
    }
    AscendingUnique(v.insertions, w.insertions);
    AscendingUnique(v.deletions, w.deletions);
    AscendingUnique(v.reloads, w.reloads);
  }
}
