/**
 * What the comparison promises: the shape of the LCS table, the
 * alignment the walk back produces, its minimality, and the special cases
 * of an unchanged array and of an array whose ids did not change.
 */
module ComparisonProperties {
  import opened IndexUpdates
  import opened Alignment
  import opened Comparison

  // ----- The table -----

  /** Every cell lies between 0 and the shorter of the two prefix lengths. */
  lemma {:induction false} LcsBounds<K, C>(x: seq<Element<K, C>>, y: seq<Element<K, C>>, i: nat, j: nat)
    requires i <= |x| && j <= |y|
    ensures 0 <= Lcs(x, y, i, j) <= i && Lcs(x, y, i, j) <= j
    decreases i + j
  {
    if i > 0 && j > 0 {
      LcsBounds(x, y, i - 1, j - 1);
      LcsBounds(x, y, i - 1, j);
      LcsBounds(x, y, i, j - 1);
    }
  }

  /**
   * One step down or one step right never lowers a cell and raises it by
   * at most one.
   */
  lemma {:induction false} LcsSteps<K, C>(x: seq<Element<K, C>>, y: seq<Element<K, C>>, i: nat, j: nat)
    requires i <= |x| && j <= |y|
    ensures 0 < i ==> Lcs(x, y, i - 1, j) <= Lcs(x, y, i, j) <= Lcs(x, y, i - 1, j) + 1
    ensures 0 < j ==> Lcs(x, y, i, j - 1) <= Lcs(x, y, i, j) <= Lcs(x, y, i, j - 1) + 1
    decreases i + j
  {
    if i > 0 && j > 0 {
      LcsSteps(x, y, i - 1, j);
      LcsSteps(x, y, i, j - 1);
    }
  }

  /** The table is non-decreasing along rows and along columns. */
  lemma {:induction false} LcsMonotone<K, C>(x: seq<Element<K, C>>, y: seq<Element<K, C>>, i: nat, j: nat, i': nat, j': nat)
    requires i <= i' <= |x| && j <= j' <= |y|
    ensures Lcs(x, y, i, j) <= Lcs(x, y, i', j')
    decreases i' - i + j' - j
  {
    if i < i' {
      LcsMonotone(x, y, i, j, i' - 1, j');
      LcsSteps(x, y, i', j');
    } else if j < j' {
      LcsMonotone(x, y, i, j, i', j' - 1);
      LcsSteps(x, y, i', j');
    }
  }

  /**
   * The table `buildTable` produces: row 0 and column 0 hold 0, a cell
   * whose ids match is its diagonal neighbour plus one, any other cell is
   * the larger of its upper and left neighbours, and every cell lies in
   * [0, min(i, j)] and is at least every cell above or to its left.
   */
  lemma TableShape<K, C>(x: seq<Element<K, C>>, y: seq<Element<K, C>>, i: nat, j: nat)
    requires i <= |x| && j <= |y|
    ensures var t := LcsTable(x, y);
      && t[i][0] == 0 && t[0][j] == 0
      && (0 < i && 0 < j && x[i - 1].id == y[j - 1].id ==> t[i][j] == t[i - 1][j - 1] + 1)
      && (0 < i && 0 < j && x[i - 1].id != y[j - 1].id ==> t[i][j] == Max(t[i - 1][j], t[i][j - 1]))
      && 0 <= t[i][j] <= i && t[i][j] <= j
      && (forall a, b :: 0 <= a <= i && 0 <= b <= j ==> t[a][b] <= t[i][j])
  {
    var t := LcsTable(x, y);
    LcsBounds(x, y, i, j);
    forall a, b | 0 <= a <= i && 0 <= b <= j
      ensures t[a][b] <= t[i][j]
    {
      LcsMonotone(x, y, a, b, i, j);
    }
  }

  // ----- Common subsequences and optimality -----

  /**
   * Two ascending index lists of equal length that pick elements with equal
   * ids, pairwise, from x[..i] and y[..j].
   */
  ghost predicate CommonSubsequence<K, C>(x: seq<Element<K, C>>, y: seq<Element<K, C>>, a: seq<int>, b: seq<int>, i: nat, j: nat)
    requires i <= |x| && j <= |y|
  {
    && |a| == |b|
    && AscendingBelow(a, i)
    && AscendingBelow(b, j)
    && (forall k :: 0 <= k < |a| ==> x[a[k]].id == y[b[k]].id)
  }

  /** No common subsequence of x[..i] and y[..j] is longer than the cell (i, j). */
  lemma {:induction false} LcsIsMaximal<K, C>(x: seq<Element<K, C>>, y: seq<Element<K, C>>, a: seq<int>, b: seq<int>, i: nat, j: nat)
    requires i <= |x| && j <= |y|
    requires CommonSubsequence(x, y, a, b, i, j)
    ensures |a| <= Lcs(x, y, i, j)
    decreases i + j
  {
    LcsBounds(x, y, i, j);
    if |a| > 0 {
      var p := |a| - 1;
      LcsSteps(x, y, i, j);
      if a[p] < i - 1 {
        LcsIsMaximal(x, y, a, b, i - 1, j);
      } else if b[p] < j - 1 {
        LcsIsMaximal(x, y, a, b, i, j - 1);
      } else {
        assert CommonSubsequence(x, y, a[..p], b[..p], i - 1, j - 1);
        LcsIsMaximal(x, y, a[..p], b[..p], i - 1, j - 1);
      }
    }
  }

  // ----- What `update(to:)` returns -----

  /** The positions kept of [0, n) ascend. */
  lemma {:induction false} KeptAscending(n: nat, removed: seq<int>)
    ensures AscendingBelow(Kept(n, removed), n)
  {
    if n > 0 {
      KeptAscending(n - 1, removed);
    }
  }

  /** A position is kept of [0, n) exactly when it lies in [0, n) and is not removed. */
  lemma {:induction false} KeptMembers(n: nat, removed: seq<int>, p: int)
    ensures p in Kept(n, removed) <==> 0 <= p < n && p !in removed
  {
    if n > 0 {
      KeptMembers(n - 1, removed, p);
    }
  }

  /**
   * Deleting from the old array and inserting from the new one leaves the
   * same ids in the same order on both sides; every reload is one of the
   * pairs left alone, and such a pair is reloaded exactly when its two
   * elements differ.
   */
  lemma DiffAlignment<K, C>(x: seq<Element<K, C>>, y: seq<Element<K, C>>)
    ensures var u := Diff(x, y);
      var olds, news := Kept(|x|, u.deletions), Kept(|y|, u.insertions);
      && |olds| == |news|
      && (forall k :: 0 <= k < |olds| ==> x[olds[k]].id == y[news[k]].id)
      && (forall k :: 0 <= k < |olds| ==> (olds[k] in u.reloads <==> x[olds[k]] != y[news[k]]))
      && (forall r :: r in u.reloads ==> r in olds)
  {
    var u := Diff(x, y);
    forall r | r in u.reloads
      ensures r in Kept(|x|, u.deletions)
    {
      KeptMembers(|x|, u.deletions, r);
    }
  }

  /** The elements of `s` at the positions not in `removed`, in order. */
  function Surviving<T>(s: seq<T>, removed: seq<int>): (r: seq<T>)
    ensures |r| == |Kept(|s|, removed)|
    ensures forall k :: 0 <= k < |r| ==> r[k] == s[Kept(|s|, removed)[k]]
  {
    var kept := Kept(|s|, removed);
    seq(|kept|, k requires 0 <= k < |kept| => s[kept[k]])
  }

  /** The ids of `s`, in order. */
  function Ids<K, C>(s: seq<Element<K, C>>): (r: seq<K>)
    ensures |r| == |s| && forall k :: 0 <= k < |s| ==> r[k] == s[k].id
  {
    seq(|s|, k requires 0 <= k < |s| => s[k].id)
  }

  /**
   * Applying the diff to the old array: once its deletions are gone, it
   * holds the ids of the new array without its insertions, in the same
   * order, and an element differs from its counterpart exactly when the
   * diff reloads it.
   */
  lemma DiffReproducesNewIds<K, C>(x: seq<Element<K, C>>, y: seq<Element<K, C>>)
    ensures var u := Diff(x, y);
      && Ids(Surviving(x, u.deletions)) == Ids(Surviving(y, u.insertions))
      && forall k :: 0 <= k < |Surviving(x, u.deletions)| ==>
           (Surviving(x, u.deletions)[k] != Surviving(y, u.insertions)[k] <==> Kept(|x|, u.deletions)[k] in u.reloads)
  {
    DiffAlignment(x, y);
  }

  /**
   * The diff deletes every old element outside one longest common
   * subsequence and inserts every new element outside it.
   */
  lemma DiffCounts<K, C>(x: seq<Element<K, C>>, y: seq<Element<K, C>>)
    ensures |Diff(x, y).deletions| == |x| - Lcs(x, y, |x|, |y|)
    ensures |Diff(x, y).insertions| == |y| - Lcs(x, y, |x|, |y|)
  {
    var c := SequenceComparison(LcsTable(x, y), x, y);
    var u := GenerateUpdate(c, |x|, |y|);
    assert c.table[|x|][|y|] == Lcs(x, y, |x|, |y|);
    KeptLength(|x|, u.deletions);
    KeptLength(|y|, u.insertions);
  }

  /**
   * The elements the diff leaves alone form a common subsequence, by id,
   * of the two arrays, and no common subsequence is longer.
   */
  lemma DiffKeepsLongestCommonSubsequence<K, C>(x: seq<Element<K, C>>, y: seq<Element<K, C>>)
    ensures var u := Diff(x, y);
      && CommonSubsequence(x, y, Kept(|x|, u.deletions), Kept(|y|, u.insertions), |x|, |y|)
      && |Kept(|x|, u.deletions)| == Lcs(x, y, |x|, |y|)
  {
    var c := SequenceComparison(LcsTable(x, y), x, y);
    var u := GenerateUpdate(c, |x|, |y|);
    assert c.table[|x|][|y|] == Lcs(x, y, |x|, |y|);
    KeptAscending(|x|, u.deletions);
    KeptAscending(|y|, u.insertions);
  }

  /**
   * No edit set that leaves a common subsequence alone deletes or inserts
   * fewer elements than the diff.
   */
  lemma DiffIsMinimal<K, C>(x: seq<Element<K, C>>, y: seq<Element<K, C>>, a: seq<int>, b: seq<int>)
    requires CommonSubsequence(x, y, a, b, |x|, |y|)
    ensures |Diff(x, y).deletions| <= |x| - |a|
    ensures |Diff(x, y).insertions| <= |y| - |b|
  {
    DiffCounts(x, y);
    LcsIsMaximal(x, y, a, b, |x|, |y|);
  }

  /** The two arrays hold the same ids at the same positions. */
  predicate SameIds<K(==), C>(x: seq<Element<K, C>>, y: seq<Element<K, C>>) {
    |x| == |y| && forall k :: 0 <= k < |x| ==> x[k].id == y[k].id
  }

  /**
   * When no id moved, the diff neither inserts nor deletes, and it reloads
   * exactly the positions whose values changed.
   */
  lemma DiffOfSameIds<K, C>(x: seq<Element<K, C>>, y: seq<Element<K, C>>)
    requires SameIds(x, y)
    ensures Diff(x, y).insertions == [] && Diff(x, y).deletions == []
    ensures forall k :: 0 <= k < |x| ==> (k in Diff(x, y).reloads <==> x[k] != y[k])
  {
    var n := |x|;
    KeptAll(n);
    KeptAscending(n, []);
    assert CommonSubsequence(x, y, Kept(n, []), Kept(n, []), n, n);
    LcsIsMaximal(x, y, Kept(n, []), Kept(n, []), n, n);
    LcsBounds(x, y, n, n);
    DiffCounts(x, y);
    var c := SequenceComparison(LcsTable(x, y), x, y);
    var u := GenerateUpdate(c, n, n);
    assert u.insertions == [] && u.deletions == [];
    forall k | 0 <= k < n
      ensures k in u.reloads <==> x[k] != y[k]
    {
      assert Kept(n, u.deletions)[k] == k && Kept(n, u.insertions)[k] == k;
    }
  }

  /** An array compared with itself yields no changes at all. */
  lemma DiffOfSelf<K, C>(x: seq<Element<K, C>>)
    ensures Diff(x, x) == NoChanges
    ensures !HasChanges(Diff(x, x))
  {
    DiffOfSameIds(x, x);
    var u := Diff(x, x);
    KeptNoneRemoved(|x|, u.reloads);
    KeptLength(|x|, u.reloads);
    KeptAll(|x|);
  }

  /** Removing only positions outside [0, n) keeps all of [0, n). */
  lemma {:induction false} KeptNoneRemoved(n: nat, removed: seq<int>)
    requires forall k :: 0 <= k < n ==> k !in removed
    ensures Kept(n, removed) == Kept(n, [])
  {
    if n > 0 {
      KeptNoneRemoved(n - 1, removed);
    }
  }

  /** An empty diff means the arrays were equal. */
  lemma NoChangesMeansEqual<K, C>(x: seq<Element<K, C>>, y: seq<Element<K, C>>)
    requires Diff(x, y) == NoChanges
    ensures x == y
  {
    DiffCounts(x, y);
    KeptAll(|x|);
    KeptAll(|y|);
    assert |x| == |y|;
    forall k | 0 <= k < |x|
      ensures x[k] == y[k]
    {
      assert Kept(|x|, [])[k] == k && Kept(|y|, [])[k] == k;
    }
  }

  /** `update(to:)` reports changes exactly when the two arrays differ. */
  lemma DiffHasChangesIff<K, C>(x: seq<Element<K, C>>, y: seq<Element<K, C>>)
    ensures HasChanges(Diff(x, y)) <==> x != y
  {
    if x == y {
      DiffOfSelf(x);
    } else if !HasChanges(Diff(x, y)) {
      NoChangesMeansEqual(x, y);
    }
  }
}
