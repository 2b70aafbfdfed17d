/**
 * The identity-keyed longest-common-subsequence diff behind
 * `Array.update(to:)`: a table of LCS lengths keyed on `id`, then a walk
 * back from the bottom-right corner that emits insert, delete and reload
 * steps with a fixed priority.
 */
module Comparison {
  import opened IndexUpdates
  import opened Alignment

  /** The state of one comparison: the filled table and the two arrays. */
  datatype SequenceComparison<K, C> = SequenceComparison(table: seq<seq<int>>, x: seq<Element<K, C>>, y: seq<Element<K, C>>)

  function Max(a: int, b: int): int {
    if a < b then b else a
  }

  /**
   * The recurrence the table follows: length of the longest common
   * subsequence, by id, of the prefixes x[..i] and y[..j].
   */
  function Lcs<K(==), C>(x: seq<Element<K, C>>, y: seq<Element<K, C>>, i: nat, j: nat): int
    requires i <= |x| && j <= |y|
    decreases i + j
  {
    if i == 0 || j == 0 then 0
    else if x[i - 1].id == y[j - 1].id then Lcs(x, y, i - 1, j - 1) + 1
    else Max(Lcs(x, y, i - 1, j), Lcs(x, y, i, j - 1))
  }

  /** The whole table as a value: (|x| + 1) rows of (|y| + 1) cells. */
  function LcsTable<K(==), C>(x: seq<Element<K, C>>, y: seq<Element<K, C>>): (t: seq<seq<int>>)
    ensures IsLcsTable(x, y, t)
  {
    seq(|x| + 1, i requires 0 <= i <= |x| => seq(|y| + 1, j requires 0 <= j <= |y| => Lcs(x, y, i, j)))
  }

  predicate IsLcsTable<K(==), C>(x: seq<Element<K, C>>, y: seq<Element<K, C>>, t: seq<seq<int>>) {
    && |t| == |x| + 1
    && (forall i :: 0 <= i < |t| ==> |t[i]| == |y| + 1)
    && (forall i, j {:trigger t[i][j]} :: 0 <= i <= |x| && 0 <= j <= |y| ==> t[i][j] == Lcs(x, y, i, j))
  }

  /** A comparison whose table was built from its own two arrays. */
  predicate Valid<K(==), C>(c: SequenceComparison<K, C>) {
    IsLcsTable(c.x, c.y, c.table)
  }

  /**
   * `buildTable`: fills the table row by row, cell by cell, in place.
   * Row 0 and column 0 stay 0; a cell whose ids match is its diagonal
   * neighbour plus one; any other cell is the larger of the cells above
   * and to the left.
   */
  method BuildTable<K(==), C>(x: seq<Element<K, C>>, y: seq<Element<K, C>>) returns (table: seq<seq<int>>)
    ensures IsLcsTable(x, y, table)
    ensures table == LcsTable(x, y)
  {
    var n, m := |x|, |y|;
    table := seq(n + 1, _ => seq(m + 1, _ => 0));
    for i := 0 to n + 1
      invariant |table| == n + 1
      invariant forall r :: 0 <= r <= n ==> |table[r]| == m + 1
      invariant forall r, c {:trigger table[r][c]} :: 0 <= r < i && 0 <= c <= m ==> table[r][c] == Lcs(x, y, r, c)
    {
      for j := 0 to m + 1
        invariant |table| == n + 1
        invariant forall r :: 0 <= r <= n ==> |table[r]| == m + 1
        invariant forall r, c {:trigger table[r][c]} :: 0 <= r < i && 0 <= c <= m ==> table[r][c] == Lcs(x, y, r, c)
        invariant forall c {:trigger table[i][c]} :: 0 <= c < j ==> table[i][c] == Lcs(x, y, i, c)
      {
        var cell;
        if i == 0 || j == 0 {
          cell := 0;
        } else if x[i - 1].id == y[j - 1].id {
          cell := table[i - 1][j - 1] + 1;
        } else {
          cell := Max(table[i - 1][j], table[i][j - 1]);
        }
        assert cell == Lcs(x, y, i, j);
        table := SetCell(table, i, j, cell);
      }
    }
    CellsMakeTable(x, y, table);
  }

  /** `table[i][j] = v` on a table held by value. */
  function SetCell(t: seq<seq<int>>, i: nat, j: nat, v: int): (r: seq<seq<int>>)
    requires i < |t| && j < |t[i]|
    ensures |r| == |t| && (forall a :: 0 <= a < |t| ==> |r[a]| == |t[a]|)
    ensures r[i][j] == v
    ensures forall a, b :: 0 <= a < |t| && 0 <= b < |t[a]| && (a != i || b != j) ==> r[a][b] == t[a][b]
  {
    t[i := t[i][j := v]]
  }

  /** The cells of `t`, as a whole, are those of the LCS table. */
  lemma CellsMakeTable<K, C>(x: seq<Element<K, C>>, y: seq<Element<K, C>>, t: seq<seq<int>>)
    requires IsLcsTable(x, y, t)
    ensures t == LcsTable(x, y)
  {
    var s := LcsTable(x, y);
    forall i | 0 <= i <= |x|
      ensures t[i] == s[i]
    {
      assert forall j :: 0 <= j <= |y| ==> t[i][j] == s[i][j];
    }
  }

  /**
   * The rule `buildTable` fills cell (i, j) by: row 0 and column 0 hold 0,
   * a cell whose ids match is its diagonal neighbour plus one, any other
   * cell is the larger of the cells above and to the left.
   */
  ghost predicate CellFollowsRecurrence<K, C>(x: seq<Element<K, C>>, y: seq<Element<K, C>>, t: seq<seq<int>>, i: nat, j: nat)
    requires |t| == |x| + 1 && (forall r :: 0 <= r < |t| ==> |t[r]| == |y| + 1)
    requires i <= |x| && j <= |y|
  {
    if i == 0 || j == 0 then t[i][j] == 0
    else if x[i - 1].id == y[j - 1].id then t[i][j] == t[i - 1][j - 1] + 1
    else t[i][j] == Max(t[i - 1][j], t[i][j - 1])
  }

  /** Every cell of `t` follows the rule `buildTable` fills it by. */
  ghost predicate FollowsRecurrence<K, C>(x: seq<Element<K, C>>, y: seq<Element<K, C>>, t: seq<seq<int>>) {
    && |t| == |x| + 1
    && (forall r :: 0 <= r < |t| ==> |t[r]| == |y| + 1)
    && (forall i, j :: 0 <= i <= |x| && 0 <= j <= |y| ==> CellFollowsRecurrence(x, y, t, i, j))
  }

  /** In a table that follows the recurrence, cell (i, j) is `Lcs(x, y, i, j)`. */
  lemma {:induction false} CellIsLcs<K, C>(x: seq<Element<K, C>>, y: seq<Element<K, C>>, t: seq<seq<int>>, i: nat, j: nat)
    requires FollowsRecurrence(x, y, t) && i <= |x| && j <= |y|
    ensures t[i][j] == Lcs(x, y, i, j)
    decreases i + j
  {
    assert CellFollowsRecurrence(x, y, t, i, j);
    if i > 0 && j > 0 {
      if x[i - 1].id == y[j - 1].id {
        CellIsLcs(x, y, t, i - 1, j - 1);
      } else {
        CellIsLcs(x, y, t, i - 1, j);
        CellIsLcs(x, y, t, i, j - 1);
      }
    }
  }

  /** The LCS table follows the recurrence. */
  lemma LcsTableFollowsRecurrence<K, C>(x: seq<Element<K, C>>, y: seq<Element<K, C>>)
    ensures FollowsRecurrence(x, y, LcsTable(x, y))
  {
    var t := LcsTable(x, y);
    forall i, j | 0 <= i <= |x| && 0 <= j <= |y|
      ensures CellFollowsRecurrence(x, y, t, i, j)
    {
      if i > 0 && j > 0 {
        assert t[i - 1][j - 1] == Lcs(x, y, i - 1, j - 1);
        assert t[i - 1][j] == Lcs(x, y, i - 1, j) && t[i][j - 1] == Lcs(x, y, i, j - 1);
      }
    }
  }

  /** Only one table follows the recurrence: the LCS table. */
  lemma TableIsUnique<K, C>(x: seq<Element<K, C>>, y: seq<Element<K, C>>, t: seq<seq<int>>)
    requires FollowsRecurrence(x, y, t)
    ensures t == LcsTable(x, y)
  {
    forall i, j | 0 <= i <= |x| && 0 <= j <= |y|
      ensures t[i][j] == Lcs(x, y, i, j)
    {
      CellIsLcs(x, y, t, i, j);
    }
    CellsMakeTable(x, y, t);
  }

  /**
   * `generateUpdate`: walks back from (i, j) to (0, 0). Insert is tried
   * first, then delete, then reload when the aligned values differ; each
   * step is appended after the recursive call returns. The result is a
   * well-formed edit set that aligns x[..i] with y[..j] and keeps as many
   * pairs as the table's cell (i, j).
   */
  function GenerateUpdate<K(==), C(==)>(c: SequenceComparison<K, C>, i: nat, j: nat): (r: IndexUpdate)
    requires Valid(c) && i <= |c.x| && j <= |c.y|
    ensures WellFormed(r, i, j)
    ensures Aligned(c.x, c.y, r, i, j)
    ensures |Kept(i, r.deletions)| == c.table[i][j]
    decreases i + j
  {
    if i == 0 && j == 0 then
      assert c.table[0][0] == Lcs(c.x, c.y, 0, 0);
      NoChanges
    else if j > 0 && c.table[i][j] == c.table[i][j - 1] then
      var u := GenerateUpdate(c, i, j - 1);
      InsertKeepsWellFormed(u, i, j);
      InsertStep(c.x, c.y, u, i, j, c.table[i][j]);
      Plus(u, Insert(j - 1))
    else if i > 0 && c.table[i][j] == c.table[i - 1][j] then
      var u := GenerateUpdate(c, i - 1, j);
      DeleteKeepsWellFormed(u, i, j);
      DeleteStep(c.x, c.y, u, i, j, c.table[i][j]);
      Plus(u, Delete(i - 1))
    else
      WalkHasBranch(c, i, j);
      MatchedCell(c, i, j);
      var u := GenerateUpdate(c, i - 1, j - 1);
      WellFormedExcludesBounds(u, i - 1, j - 1);
      if c.x[i - 1] != c.y[j - 1] then
        ReloadKeepsWellFormed(u, i, j);
        ReloadStep(c.x, c.y, u, i, j, c.table[i - 1][j - 1]);
        Plus(u, Reload(i - 1))
      else
        KeepKeepsWellFormed(u, i, j);
        KeepStep(c.x, c.y, u, i, j, c.table[i - 1][j - 1]);
        u
  }

  /**
   * Away from (0, 0) the walk always has a branch to take: the cell equals
   * its left or upper neighbour, or the walk is strictly inside the table
   * at two elements that share an id (so `x[i - 1]` and `y[j - 1]` exist).
   */
  lemma WalkHasBranch<K, C>(c: SequenceComparison<K, C>, i: nat, j: nat)
    requires Valid(c) && i <= |c.x| && j <= |c.y|
    requires !(i == 0 && j == 0)
    ensures || (j > 0 && c.table[i][j] == c.table[i][j - 1])
            || (i > 0 && c.table[i][j] == c.table[i - 1][j])
            || (0 < i && 0 < j && c.x[i - 1].id == c.y[j - 1].id)
  {
    assert c.table[i][j] == Lcs(c.x, c.y, i, j);
    if 0 < i {
      assert c.table[i - 1][j] == Lcs(c.x, c.y, i - 1, j);
    }
    if 0 < j {
      assert c.table[i][j - 1] == Lcs(c.x, c.y, i, j - 1);
    }
  }

  /** A cell whose ids match is its diagonal neighbour plus one. */
  lemma MatchedCell<K, C>(c: SequenceComparison<K, C>, i: nat, j: nat)
    requires Valid(c) && 0 < i <= |c.x| && 0 < j <= |c.y|
    requires c.x[i - 1].id == c.y[j - 1].id
    ensures c.table[i][j] == c.table[i - 1][j - 1] + 1
  {
    assert c.table[i][j] == Lcs(c.x, c.y, i, j);
    assert c.table[i - 1][j - 1] == Lcs(c.x, c.y, i - 1, j - 1);
  }

  /** The edit set `x.update(to: y)` returns. */
  function Diff<K(==), C(==)>(x: seq<Element<K, C>>, y: seq<Element<K, C>>): IndexUpdate {
    GenerateUpdate(SequenceComparison(LcsTable(x, y), x, y), |x|, |y|)
  }

  /** `SequenceComparison.init`: the two arrays and the table built from them. */
  method NewComparison<K(==), C>(x: seq<Element<K, C>>, y: seq<Element<K, C>>) returns (c: SequenceComparison<K, C>)
    ensures c.x == x && c.y == y && Valid(c)
    ensures c.table == LcsTable(x, y)
  {
    var table := BuildTable(x, y);
    c := SequenceComparison(table, x, y);
  }

  /** `Array.update(to:)`: build the comparison, then walk back from the corner. */
  method Update<K(==), C(==)>(x: seq<Element<K, C>>, other: seq<Element<K, C>>) returns (r: IndexUpdate)
    ensures r == Diff(x, other)
    ensures WellFormed(r, |x|, |other|)
  {
    var comparison := NewComparison(x, other);
    r := GenerateUpdate(comparison, |x|, |other|);
  }
}
