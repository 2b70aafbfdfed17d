/**
 * The flat edit set produced by one diff: three lists of positions.
 * Insertions index the new array, deletions and reloads the old one.
 */
module IndexUpdates {

  datatype IndexUpdate = IndexUpdate(insertions: seq<int>, deletions: seq<int>, reloads: seq<int>)

  /** One edit step, as appended to an IndexUpdate by `Plus`. */
  datatype Step = Insert(index: int) | Delete(index: int) | Reload(index: int)

  /** The update with no steps at all (the memberwise initializer with its defaults). */
  const NoChanges := IndexUpdate([], [], [])

  /** Every element of `s` lies in [0, bound) and the elements strictly increase. */
  predicate AscendingBelow(s: seq<int>, bound: int) {
    && (forall k :: 0 <= k < |s| ==> 0 <= s[k] < bound)
    && (forall p, q :: 0 <= p < q < |s| ==> s[p] < s[q])
  }

  /** No position occurs in both lists. */
  predicate Disjoint(a: seq<int>, b: seq<int>) {
    forall p, q :: 0 <= p < |a| && 0 <= q < |b| ==> a[p] != b[q]
  }

  /**
   * The shape of an edit set between an old array of `n` elements and a new
   * one of `m`: insertions ascend within [0, m), deletions and reloads
   * ascend within [0, n), and no old position is both deleted and reloaded.
   */
  predicate WellFormed(u: IndexUpdate, n: int, m: int) {
    && AscendingBelow(u.insertions, m)
    && AscendingBelow(u.deletions, n)
    && AscendingBelow(u.reloads, n)
    && Disjoint(u.reloads, u.deletions)
  }

  /** Inserting position m - 1 after a well-formed update for (n, m - 1). */
  lemma InsertKeepsWellFormed(u: IndexUpdate, n: int, m: int)
    requires WellFormed(u, n, m - 1) && 0 < m
    ensures WellFormed(Plus(u, Insert(m - 1)), n, m)
  {
  }

  /** Deleting position n - 1 after a well-formed update for (n - 1, m). */
  lemma DeleteKeepsWellFormed(u: IndexUpdate, n: int, m: int)
    requires WellFormed(u, n - 1, m) && 0 < n
    ensures WellFormed(Plus(u, Delete(n - 1)), n, m)
  {
  }

  /** Reloading position n - 1 after a well-formed update for (n - 1, m - 1). */
  lemma ReloadKeepsWellFormed(u: IndexUpdate, n: int, m: int)
    requires WellFormed(u, n - 1, m - 1) && 0 < n && 0 < m
    ensures WellFormed(Plus(u, Reload(n - 1)), n, m)
  {
  }

  /** Keeping the last pair leaves a well-formed update well-formed for (n, m). */
  lemma KeepKeepsWellFormed(u: IndexUpdate, n: int, m: int)
    requires WellFormed(u, n - 1, m - 1)
    ensures WellFormed(u, n, m)
  {
  }

  /** A well-formed update for (n, m) mentions neither old position n nor new position m. */
  lemma WellFormedExcludesBounds(u: IndexUpdate, n: int, m: int)
    requires WellFormed(u, n, m)
    ensures n !in u.deletions && n !in u.reloads && m !in u.insertions
  {
  }

  /** Total number of steps recorded in `u`. */
  function StepCount(u: IndexUpdate): nat {
    |u.insertions| + |u.deletions| + |u.reloads|
  }

  /** `hasChanges`: an update has changes exactly when it is not the empty update. */
  function HasChanges(u: IndexUpdate): (r: bool)
    ensures r <==> u != NoChanges
    ensures r <==> StepCount(u) > 0
  {
    !(u.insertions == [] && u.deletions == [] && u.reloads == [])
  }

  /**
   * The `+` operator: the step's index goes at the end of the one list of
   * the step's kind; the other two lists are left as they were.
   */
  function Plus(u: IndexUpdate, step: Step): (r: IndexUpdate)
    ensures StepCount(r) == StepCount(u) + 1
    ensures u.insertions <= r.insertions && u.deletions <= r.deletions && u.reloads <= r.reloads
    ensures step.Insert? ==> |r.insertions| == |u.insertions| + 1 && r.insertions[|u.insertions|] == step.index
    ensures step.Delete? ==> |r.deletions| == |u.deletions| + 1 && r.deletions[|u.deletions|] == step.index
    ensures step.Reload? ==> |r.reloads| == |u.reloads| + 1 && r.reloads[|u.reloads|] == step.index
  {
    match step
    case Insert(i) => u.(insertions := u.insertions + [i])
    case Delete(i) => u.(deletions := u.deletions + [i])
    case Reload(i) => u.(reloads := u.reloads + [i])
  }

  /** Appending a step changes exactly the list of the step's kind. */
  lemma PlusChangesOneList(u: IndexUpdate, step: Step)
    ensures Plus(u, step).insertions == u.insertions <==> !step.Insert?
    ensures Plus(u, step).deletions == u.deletions <==> !step.Delete?
    ensures Plus(u, step).reloads == u.reloads <==> !step.Reload?
    ensures HasChanges(Plus(u, step))
  {
    var r := Plus(u, step);
    if step.Insert? { assert |r.insertions| == |u.insertions| + 1; }
    if step.Delete? { assert |r.deletions| == |u.deletions| + 1; }
    if step.Reload? { assert |r.reloads| == |u.reloads| + 1; }
  }
}
