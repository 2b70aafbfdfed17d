/**
 * What an edit set says about the two arrays it was computed from: the
 * old positions it does not delete and the new positions it does not
 * insert pair up in order, each pair shares an id, and exactly the pairs
 * whose values differ are reloaded.
 */
module Alignment {
  import opened IndexUpdates

  /**
   * An element of an updatable array: `id` is its identity across the two
   * snapshots, and equality of the whole value (id and content) is the
   * synthesized equality used to decide on a reload.
   */
  datatype Element<K, C> = Element(id: K, content: C)

  // ----- Positions left alone by an edit set -----

  /** The positions of [0, n) that do not occur in `removed`, ascending. */
  function Kept(n: nat, removed: seq<int>): (r: seq<int>)
    ensures forall k :: 0 <= k < |r| ==> 0 <= r[k] < n
  {
    if n == 0 then []
    else if n - 1 in removed then Kept(n - 1, removed)
    else Kept(n - 1, removed) + [n - 1]
  }

  /** A removed position at or beyond n does not change what is kept of [0, n). */
  lemma {:induction false} KeptIgnoresHigh(n: nat, removed: seq<int>, v: int)
    requires n <= v
    ensures Kept(n, removed + [v]) == Kept(n, removed)
  {
    if n > 0 {
      assert (n - 1 in removed + [v]) <==> (n - 1 in removed);
      KeptIgnoresHigh(n - 1, removed, v);
    }
  }

  /** Removing an ascending list of positions of [0, n) keeps n minus its length. */
  lemma {:induction false} KeptLength(n: nat, removed: seq<int>)
    requires AscendingBelow(removed, n)
    ensures |Kept(n, removed)| == n - |removed|
  {
    assert |removed| == 0 || removed[0] < n;
    if n > 0 {
      if n - 1 in removed {
        var rest := DropLast(n, removed);
        KeptLength(n - 1, rest);
      } else {
        assert AscendingBelow(removed, n - 1);
        KeptLength(n - 1, removed);
      }
    }
  }

  /** An ascending list below n that holds n - 1 ends with it. */
  lemma DropLast(n: nat, removed: seq<int>) returns (rest: seq<int>)
    requires AscendingBelow(removed, n) && n - 1 in removed
    ensures |removed| == |rest| + 1 && AscendingBelow(rest, n - 1)
    ensures Kept(n, removed) == Kept(n - 1, rest)
  {
    var p := |removed| - 1;
    assert removed[p] == n - 1;
    rest := removed[..p];
    assert removed == rest + [n - 1];
    KeptIgnoresHigh(n - 1, rest, n - 1);
  }

  /** Removing nothing keeps every position, in order. */
  lemma {:induction false} KeptAll(n: nat)
    ensures |Kept(n, [])| == n
    ensures forall k :: 0 <= k < n ==> Kept(n, [])[k] == k
  {
    if n > 0 {
      KeptAll(n - 1);
    }
  }

  // ----- The alignment -----

  /**
   * The old positions of x[..i] not deleted and the new positions of
   * y[..j] not inserted pair up in order; each pair shares an id, and an
   * old position is reloaded exactly when its element differs from its
   * partner.
   */
  ghost predicate Aligned<K, C>(x: seq<Element<K, C>>, y: seq<Element<K, C>>, u: IndexUpdate, i: nat, j: nat)
    requires i <= |x| && j <= |y|
  {
    var olds := Kept(i, u.deletions);
    var news := Kept(j, u.insertions);
    && |olds| == |news|
    && (forall k :: 0 <= k < |olds| ==> x[olds[k]].id == y[news[k]].id)
    && (forall k :: 0 <= k < |olds| ==> (olds[k] in u.reloads <==> x[olds[k]] != y[news[k]]))
  }

  /** An insertion of new position j - 1 leaves the pairs of (i, j - 1) as they were. */
  lemma InsertStep<K, C>(x: seq<Element<K, C>>, y: seq<Element<K, C>>, u: IndexUpdate, i: nat, j: nat, kept: int)
    requires i <= |x| && 0 < j <= |y|
    requires Aligned(x, y, u, i, j - 1) && |Kept(i, u.deletions)| == kept
    ensures var r := Plus(u, Insert(j - 1));
      Aligned(x, y, r, i, j) && |Kept(i, r.deletions)| == kept
  {
    var r := Plus(u, Insert(j - 1));
    assert r.insertions == u.insertions + [j - 1] && r.deletions == u.deletions && r.reloads == u.reloads;
    KeptIgnoresHigh(j - 1, u.insertions, j - 1);
    SamePairs(x, y, u, r, i, j - 1, i, j);
  }

  /** A deletion of old position i - 1 leaves the pairs of (i - 1, j) as they were. */
  lemma DeleteStep<K, C>(x: seq<Element<K, C>>, y: seq<Element<K, C>>, u: IndexUpdate, i: nat, j: nat, kept: int)
    requires 0 < i <= |x| && j <= |y|
    requires Aligned(x, y, u, i - 1, j) && |Kept(i - 1, u.deletions)| == kept
    ensures var r := Plus(u, Delete(i - 1));
      Aligned(x, y, r, i, j) && |Kept(i, r.deletions)| == kept
  {
    var r := Plus(u, Delete(i - 1));
    assert r.insertions == u.insertions && r.deletions == u.deletions + [i - 1] && r.reloads == u.reloads;
    KeptIgnoresHigh(i - 1, u.deletions, i - 1);
    SamePairs(x, y, u, r, i - 1, j, i, j);
  }

  /** Two edit sets that keep the same positions and reload the same ones align alike. */
  lemma SamePairs<K, C>(x: seq<Element<K, C>>, y: seq<Element<K, C>>, u: IndexUpdate, r: IndexUpdate, i: nat, j: nat, i': nat, j': nat)
    requires i <= |x| && j <= |y| && i' <= |x| && j' <= |y|
    requires Aligned(x, y, u, i, j)
    requires Kept(i', r.deletions) == Kept(i, u.deletions) && Kept(j', r.insertions) == Kept(j, u.insertions)
    requires r.reloads == u.reloads
    ensures Aligned(x, y, r, i', j')
  {
  }

  /** A reload: the pair (i - 1, j - 1) joins the pairs, reloaded because its elements differ. */
  lemma ReloadStep<K, C>(x: seq<Element<K, C>>, y: seq<Element<K, C>>, u: IndexUpdate, i: nat, j: nat, kept: int)
    requires 0 < i <= |x| && 0 < j <= |y|
    requires x[i - 1].id == y[j - 1].id && x[i - 1] != y[j - 1]
    requires i - 1 !in u.deletions && j - 1 !in u.insertions && i - 1 !in u.reloads
    requires Aligned(x, y, u, i - 1, j - 1) && |Kept(i - 1, u.deletions)| == kept
    ensures var r := Plus(u, Reload(i - 1));
      Aligned(x, y, r, i, j) && |Kept(i, r.deletions)| == kept + 1
  {
    PairJoins(x, y, u, Plus(u, Reload(i - 1)), i, j);
  }

  /** A keep: the pair (i - 1, j - 1) joins the pairs, not reloaded because its elements are equal. */
  lemma KeepStep<K, C>(x: seq<Element<K, C>>, y: seq<Element<K, C>>, u: IndexUpdate, i: nat, j: nat, kept: int)
    requires 0 < i <= |x| && 0 < j <= |y|
    requires x[i - 1] == y[j - 1]
    requires i - 1 !in u.deletions && j - 1 !in u.insertions && i - 1 !in u.reloads
    requires Aligned(x, y, u, i - 1, j - 1) && |Kept(i - 1, u.deletions)| == kept
    ensures Aligned(x, y, u, i, j) && |Kept(i, u.deletions)| == kept + 1
  {
    PairJoins(x, y, u, u, i, j);
  }

  /**
   * The reload and keep steps: the pair (i - 1, j - 1) joins the pairs,
   * and it is reloaded exactly when its two elements differ.
   */
  lemma PairJoins<K, C>(x: seq<Element<K, C>>, y: seq<Element<K, C>>, u: IndexUpdate, r: IndexUpdate, i: nat, j: nat)
    requires 0 < i <= |x| && 0 < j <= |y|
    requires x[i - 1].id == y[j - 1].id
    requires i - 1 !in u.deletions && j - 1 !in u.insertions && i - 1 !in u.reloads
    requires Aligned(x, y, u, i - 1, j - 1)
    requires r.insertions == u.insertions && r.deletions == u.deletions
    requires r.reloads == if x[i - 1] != y[j - 1] then u.reloads + [i - 1] else u.reloads
    ensures Aligned(x, y, r, i, j)
    ensures |Kept(i, r.deletions)| == |Kept(i - 1, u.deletions)| + 1
  {
    var olds, news := Kept(i - 1, u.deletions), Kept(j - 1, u.insertions);
    assert Kept(i, r.deletions) == olds + [i - 1];
    assert Kept(j, r.insertions) == news + [j - 1];
    forall k | 0 <= k < |olds|
      ensures olds[k] in r.reloads <==> olds[k] in u.reloads
    {
      assert olds[k] < i - 1;
    }
  }
}
