/**
 * The edit sets the library's own test suite expects, for a small list of
 * national parks keyed by park code, and the merge example it checks.
 */
module Scenarios {
  import opened IndexUpdates
  import opened Alignment
  import opened Comparison
  import opened ViewUpdates

  type Park = Element<string, string>

  const Arches: Park := Element("NPS01", "Arches")
  const GrandCanyon: Park := Element("NPS02", "Grand Canyon")
  const GreatSmoky: Park := Element("NPS03", "Great Smoky Mountains")
  const GreatSmoky2: Park := Element("NPS03", "Great Smokies")
  const Yosemite: Park := Element("NPS04", "Yosemite")
  const Zion: Park := Element("NPS05", "Zion")

  // ----- One step of the walk at a time -----

  /** The walk takes the insert branch at (i, j) when the cell equals its left neighbour. */
  lemma InsertBranch<K, C>(c: SequenceComparison<K, C>, i: nat, j: nat, u: IndexUpdate)
    requires Valid(c) && i <= |c.x| && 0 < j <= |c.y|
    requires c.table[i][j] == c.table[i][j - 1] && GenerateUpdate(c, i, j - 1) == u
    ensures GenerateUpdate(c, i, j) == Plus(u, Insert(j - 1))
  {
  }

  /** The walk takes the delete branch at (i, j) when insert does not apply and the cell equals the one above. */
  lemma DeleteBranch<K, C>(c: SequenceComparison<K, C>, i: nat, j: nat, u: IndexUpdate)
    requires Valid(c) && 0 < i <= |c.x| && j <= |c.y|
    requires !(j > 0 && c.table[i][j] == c.table[i][j - 1])
    requires c.table[i][j] == c.table[i - 1][j] && GenerateUpdate(c, i - 1, j) == u
    ensures GenerateUpdate(c, i, j) == Plus(u, Delete(i - 1))
  {
  }

  /** The walk reloads or keeps the pair at (i, j) when the cell differs from both neighbours. */
  lemma MatchBranch<K, C>(c: SequenceComparison<K, C>, i: nat, j: nat, u: IndexUpdate)
    requires Valid(c) && 0 < i <= |c.x| && 0 < j <= |c.y|
    requires c.table[i][j] != c.table[i][j - 1] && c.table[i][j] != c.table[i - 1][j]
    requires GenerateUpdate(c, i - 1, j - 1) == u
    ensures GenerateUpdate(c, i, j) == if c.x[i - 1] != c.y[j - 1] then Plus(u, Reload(i - 1)) else u
  {
  }

  /** The edit sets of the scenarios below, step by step and spelt out. */
  lemma StepsSpelledOut()
    ensures Plus(Plus(NoChanges, Delete(0)), Delete(2)) == IndexUpdate([], [0, 2], [])
    ensures Plus(Plus(NoChanges, Insert(0)), Insert(2)) == IndexUpdate([0, 2], [], [])
    ensures Plus(NoChanges, Reload(1)) == IndexUpdate([], [], [1])
    ensures Plus(Plus(Plus(Plus(Plus(Plus(NoChanges, Delete(0)), Insert(0)), Insert(1)), Reload(1)), Delete(3)), Insert(4))
         == IndexUpdate([0, 1, 4], [0, 3], [1])
  {
  }

  // ----- Removing parks -----

  /** Dropping the first and third parks deletes old positions 0 and 2. */
  lemma DiffRemovesParks()
    ensures Diff([Arches, GrandCanyon, Yosemite, Zion], [GrandCanyon, Zion]) == IndexUpdate([], [0, 2], [])
  {
    var x, y := [Arches, GrandCanyon, Yosemite, Zion], [GrandCanyon, Zion];
    assert Lcs(x, y, 1, 1) == 0 && Lcs(x, y, 1, 2) == 0;
    assert Lcs(x, y, 2, 1) == 1 && Lcs(x, y, 2, 2) == 1;
    assert Lcs(x, y, 3, 1) == 1 && Lcs(x, y, 3, 2) == 1;
    assert Lcs(x, y, 4, 1) == 1 && Lcs(x, y, 4, 2) == 2;
    RemovesParksWalk(SequenceComparison(LcsTable(x, y), x, y));
    StepsSpelledOut();
  }

  /** Delete, keep, delete, keep: the walk back for the removal scenario. */
  lemma RemovesParksWalk<K, C>(c: SequenceComparison<K, C>)
    requires Valid(c) && |c.x| == 4 && |c.y| == 2 && c.x[1] == c.y[0] && c.x[3] == c.y[1]
    requires c.table[1][1] == 0 && c.table[2][1] == 1 && c.table[3][1] == 1 && c.table[4][1] == 1
    requires c.table[3][2] == 1 && c.table[4][2] == 2
    ensures GenerateUpdate(c, 4, 2) == Plus(Plus(NoChanges, Delete(0)), Delete(2))
  {
    assert c.table[1][0] == 0 && c.table[0][0] == 0 && c.table[2][0] == 0 && c.table[3][0] == 0;
    DeleteBranch(c, 1, 0, NoChanges);
    MatchBranch(c, 2, 1, Plus(NoChanges, Delete(0)));
    DeleteBranch(c, 3, 1, Plus(NoChanges, Delete(0)));
    MatchBranch(c, 4, 2, Plus(Plus(NoChanges, Delete(0)), Delete(2)));
  }

  // ----- Adding parks -----

  /** Adding a park in front and one in the middle inserts new positions 0 and 2. */
  lemma DiffInsertsParks()
    ensures Diff([GrandCanyon, Zion], [Arches, GrandCanyon, Yosemite, Zion]) == IndexUpdate([0, 2], [], [])
  {
    var x, y := [GrandCanyon, Zion], [Arches, GrandCanyon, Yosemite, Zion];
    assert Lcs(x, y, 1, 1) == 0 && Lcs(x, y, 1, 2) == 1 && Lcs(x, y, 1, 3) == 1 && Lcs(x, y, 1, 4) == 1;
    assert Lcs(x, y, 2, 1) == 0 && Lcs(x, y, 2, 2) == 1 && Lcs(x, y, 2, 3) == 1 && Lcs(x, y, 2, 4) == 2;
    InsertsParksWalk(SequenceComparison(LcsTable(x, y), x, y));
    StepsSpelledOut();
  }

  /** Insert, keep, insert, keep: the walk back for the insertion scenario. */
  lemma InsertsParksWalk<K, C>(c: SequenceComparison<K, C>)
    requires Valid(c) && |c.x| == 2 && |c.y| == 4 && c.x[0] == c.y[1] && c.x[1] == c.y[3]
    requires c.table[1][1] == 0 && c.table[1][2] == 1 && c.table[1][3] == 1 && c.table[1][4] == 1
    requires c.table[2][1] == 0 && c.table[2][2] == 1 && c.table[2][3] == 1 && c.table[2][4] == 2
    ensures GenerateUpdate(c, 2, 4) == Plus(Plus(NoChanges, Insert(0)), Insert(2))
  {
    assert c.table[0][1] == 0 && c.table[0][0] == 0 && c.table[0][2] == 0 && c.table[0][4] == 0;
    InsertBranch(c, 0, 1, NoChanges);
    MatchBranch(c, 1, 2, Plus(NoChanges, Insert(0)));
    InsertBranch(c, 1, 3, Plus(NoChanges, Insert(0)));
    MatchBranch(c, 2, 4, Plus(Plus(NoChanges, Insert(0)), Insert(2)));
  }

  // ----- Renaming a park -----

  /** Renaming the second park, under the same code, reloads old position 1 and nothing else. */
  lemma DiffReloadsRenamedPark()
    ensures Diff([Arches, GreatSmoky, Yosemite, Zion], [Arches, GreatSmoky2, Yosemite, Zion]) == IndexUpdate([], [], [1])
  {
    var x, y := [Arches, GreatSmoky, Yosemite, Zion], [Arches, GreatSmoky2, Yosemite, Zion];
    assert Lcs(x, y, 1, 1) == 1 && Lcs(x, y, 1, 2) == 1 && Lcs(x, y, 2, 1) == 1;
    assert Lcs(x, y, 2, 2) == 2 && Lcs(x, y, 2, 3) == 2 && Lcs(x, y, 3, 2) == 2;
    assert Lcs(x, y, 3, 3) == 3 && Lcs(x, y, 3, 4) == 3 && Lcs(x, y, 4, 3) == 3;
    assert Lcs(x, y, 4, 4) == 4;
    ReloadsRenamedParkWalk(SequenceComparison(LcsTable(x, y), x, y));
    StepsSpelledOut();
  }

  /** Keep, reload, keep, keep: the walk back for the renaming scenario. */
  lemma ReloadsRenamedParkWalk<K, C>(c: SequenceComparison<K, C>)
    requires Valid(c) && |c.x| == 4 && |c.y| == 4
    requires c.x[0] == c.y[0] && c.x[1] != c.y[1] && c.x[2] == c.y[2] && c.x[3] == c.y[3]
    requires c.table[1][1] == 1 && c.table[1][2] == 1 && c.table[2][1] == 1
    requires c.table[2][2] == 2 && c.table[2][3] == 2 && c.table[3][2] == 2
    requires c.table[3][3] == 3 && c.table[3][4] == 3 && c.table[4][3] == 3
    requires c.table[4][4] == 4
    ensures GenerateUpdate(c, 4, 4) == Plus(NoChanges, Reload(1))
  {
    assert c.table[1][0] == 0 && c.table[0][1] == 0;
    MatchBranch(c, 1, 1, NoChanges);
    MatchBranch(c, 2, 2, NoChanges);
    MatchBranch(c, 3, 3, Plus(NoChanges, Reload(1)));
    MatchBranch(c, 4, 4, Plus(NoChanges, Reload(1)));
  }

  // ----- Moving, adding and renaming at once -----

  /**
   * Moving Zion to the front and Arches to the back, adding Grand Canyon
   * and renaming Great Smoky Mountains: three insertions, two deletions,
   * one reload.
   */
  lemma DiffMixedChanges()
    ensures Diff([Arches, GreatSmoky, Yosemite, Zion], [Zion, GrandCanyon, GreatSmoky2, Yosemite, Arches])
         == IndexUpdate([0, 1, 4], [0, 3], [1])
  {
    var x, y := [Arches, GreatSmoky, Yosemite, Zion], [Zion, GrandCanyon, GreatSmoky2, Yosemite, Arches];
    assert x[0].id == y[4].id && x[1].id == y[2].id && x[2].id == y[3].id && x[3].id == y[0].id;
    assert x[0].id != y[0].id && x[0].id != y[1].id && x[0].id != y[2].id && x[0].id != y[3].id;
    assert x[1].id != y[0].id && x[1].id != y[1].id && x[1].id != y[3].id && x[1].id != y[4].id;
    assert x[2].id != y[0].id && x[2].id != y[1].id && x[2].id != y[2].id && x[2].id != y[4].id;
    assert x[3].id != y[1].id && x[3].id != y[2].id && x[3].id != y[3].id && x[3].id != y[4].id;
    MixedChangesDiff(x, y);
    StepsSpelledOut();
  }

  /**
   * The mixed scenario for any element type, given which ids and which
   * elements match.
   */
  lemma MixedChangesDiff<K, C>(x: seq<Element<K, C>>, y: seq<Element<K, C>>)
    requires |x| == 4 && |y| == 5 && x[1] != y[2] && x[2] == y[3]
    requires x[0].id == y[4].id && x[1].id == y[2].id && x[2].id == y[3].id && x[3].id == y[0].id
    requires x[0].id != y[0].id && x[0].id != y[1].id && x[0].id != y[2].id && x[0].id != y[3].id
    requires x[1].id != y[0].id && x[1].id != y[1].id && x[1].id != y[3].id && x[1].id != y[4].id
    requires x[2].id != y[0].id && x[2].id != y[1].id && x[2].id != y[2].id && x[2].id != y[4].id
    requires x[3].id != y[1].id && x[3].id != y[2].id && x[3].id != y[3].id && x[3].id != y[4].id
    ensures Diff(x, y) == Plus(Plus(Plus(Plus(Plus(Plus(NoChanges, Delete(0)), Insert(0)), Insert(1)), Reload(1)), Delete(3)), Insert(4))
  {
    MixedChangesLowerCells(x, y);
    MixedChangesUpperCells(x, y);
    MixedChangesWalk(SequenceComparison(LcsTable(x, y), x, y));
  }

  /** Rows 1 and 2 of the table of the mixed scenario, from which ids match. */
  lemma MixedChangesLowerCells<K, C>(x: seq<Element<K, C>>, y: seq<Element<K, C>>)
    requires |x| == 4 && |y| == 5 && x[0].id == y[4].id && x[1].id == y[2].id
    requires x[0].id != y[0].id && x[0].id != y[1].id && x[0].id != y[2].id && x[0].id != y[3].id
    requires x[1].id != y[0].id && x[1].id != y[1].id && x[1].id != y[3].id && x[1].id != y[4].id
    ensures Lcs(x, y, 1, 1) == 0 && Lcs(x, y, 1, 2) == 0 && Lcs(x, y, 1, 3) == 0 && Lcs(x, y, 1, 4) == 0 && Lcs(x, y, 1, 5) == 1
    ensures Lcs(x, y, 2, 1) == 0 && Lcs(x, y, 2, 2) == 0 && Lcs(x, y, 2, 3) == 1 && Lcs(x, y, 2, 4) == 1 && Lcs(x, y, 2, 5) == 1
  {
    assert Lcs(x, y, 1, 1) == 0 && Lcs(x, y, 1, 2) == 0 && Lcs(x, y, 1, 3) == 0 && Lcs(x, y, 1, 4) == 0;
    assert Lcs(x, y, 2, 1) == 0 && Lcs(x, y, 2, 2) == 0;
  }

  /** Rows 3 and 4 of the table of the mixed scenario, from row 2 and which ids match. */
  lemma MixedChangesUpperCells<K, C>(x: seq<Element<K, C>>, y: seq<Element<K, C>>)
    requires |x| == 4 && |y| == 5 && x[2].id == y[3].id && x[3].id == y[0].id
    requires x[2].id != y[0].id && x[2].id != y[1].id && x[2].id != y[2].id && x[2].id != y[4].id
    requires x[3].id != y[1].id && x[3].id != y[2].id && x[3].id != y[3].id && x[3].id != y[4].id
    requires Lcs(x, y, 2, 1) == 0 && Lcs(x, y, 2, 2) == 0 && Lcs(x, y, 2, 3) == 1 && Lcs(x, y, 2, 4) == 1 && Lcs(x, y, 2, 5) == 1
    ensures Lcs(x, y, 3, 1) == 0 && Lcs(x, y, 3, 2) == 0 && Lcs(x, y, 3, 3) == 1 && Lcs(x, y, 3, 4) == 2 && Lcs(x, y, 3, 5) == 2
    ensures Lcs(x, y, 4, 1) == 1 && Lcs(x, y, 4, 2) == 1 && Lcs(x, y, 4, 3) == 1 && Lcs(x, y, 4, 4) == 2 && Lcs(x, y, 4, 5) == 2
  {
    assert Lcs(x, y, 3, 1) == 0 && Lcs(x, y, 3, 2) == 0 && Lcs(x, y, 3, 3) == 1 && Lcs(x, y, 3, 4) == 2;
    assert Lcs(x, y, 4, 1) == 1 && Lcs(x, y, 4, 2) == 1 && Lcs(x, y, 4, 3) == 1 && Lcs(x, y, 4, 4) == 2;
  }

  /** Delete, insert, insert, reload, keep, delete, insert: the walk back for the mixed scenario. */
  lemma MixedChangesWalk<K, C>(c: SequenceComparison<K, C>)
    requires Valid(c) && |c.x| == 4 && |c.y| == 5 && c.x[1] != c.y[2] && c.x[2] == c.y[3]
    requires c.table[1][1] == 0 && c.table[1][2] == 0 && c.table[1][3] == 0
    requires c.table[2][2] == 0 && c.table[2][3] == 1
    requires c.table[2][4] == 1 && c.table[3][3] == 1 && c.table[3][4] == 2
    requires c.table[4][3] == 1 && c.table[4][4] == 2 && c.table[4][5] == 2
    ensures GenerateUpdate(c, 4, 5)
         == Plus(Plus(Plus(Plus(Plus(Plus(NoChanges, Delete(0)), Insert(0)), Insert(1)), Reload(1)), Delete(3)), Insert(4))
  {
    assert c.table[1][0] == 0 && c.table[0][0] == 0;
    DeleteBranch(c, 1, 0, NoChanges);
    InsertBranch(c, 1, 1, Plus(NoChanges, Delete(0)));
    InsertBranch(c, 1, 2, Plus(Plus(NoChanges, Delete(0)), Insert(0)));
    var u := Plus(Plus(Plus(NoChanges, Delete(0)), Insert(0)), Insert(1));
    MatchBranch(c, 2, 3, u);
    MatchBranch(c, 3, 4, Plus(u, Reload(1)));
    DeleteBranch(c, 4, 4, Plus(u, Reload(1)));
    InsertBranch(c, 4, 5, Plus(Plus(u, Reload(1)), Delete(3)));
  }

  // ----- Appending edit sets to a view update -----

  const FirstUpdate := IndexUpdate([], [0, 2], [])
  const SecondUpdate := IndexUpdate([0, 4], [0, 3], [1])

  /**
   * Appending deletions {0, 2} and then insertions {0, 4}, deletions {0, 3}
   * and reload {1} to `noUpdate`, in section 0, gives the view update of
   * insertions {0, 4}, deletions {0, 2, 3} and reload {1}.
   */
  lemma AppendTwoUpdates()
    ensures Merged(Merged(NoUpdate(), FromIndexUpdate(FirstUpdate, 0)), FromIndexUpdate(SecondUpdate, 0))
         == FromIndexUpdate(IndexUpdate([0, 4], [0, 2, 3], [1]), 0)
  {
    AppendTwoIndexUpdates(FirstUpdate, SecondUpdate, IndexUpdate([0, 4], [0, 2, 3], [1]), 4, 5, 0);
  }

  /** The same two appends, made in place on a view update that starts as `noUpdate`. */
  method AppendTwoUpdatesInPlace() returns (view: ViewUpdate)
    ensures view == FromIndexUpdate(IndexUpdate([0, 4], [0, 2, 3], [1]), 0)
  {
    view := NoUpdate();
    view := Append(view, FirstUpdate, 0);
    view := Append(view, SecondUpdate, 0);
    AppendTwoUpdates();
  }

  /**
   * `hasChanges` is false for the empty edit set and true for one with
   * steps; the inverse of a view update trades insertions and deletions.
   */
  lemma HasChangesAndInverseExamples()
    ensures !HasChanges(NoChanges) && HasChanges(SecondUpdate)
    ensures var v := FromIndexUpdate(SecondUpdate, 0);
      Inverse(v) == ViewUpdate(v.deletions, v.insertions, v.reloads)
  {
  }
}
