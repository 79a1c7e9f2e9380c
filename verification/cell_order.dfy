/** The ordering of a table's cells: LINQ's stable
    `OrderBy(RowIndex).ThenBy(ColumnIndex)` followed by `GroupBy(RowIndex)`. */
module CellOrder {
  import opened Seqs
  import opened Blocks

  /** The order `OrderBy(b => b.RowIndex).ThenBy(b => b.ColumnIndex)` sorts by:
      row first, column second. */
  predicate CellLe(a: Block, b: Block) {
    a.rowIndex < b.rowIndex || (a.rowIndex == b.rowIndex && a.columnIndex <= b.columnIndex)
  }

  predicate SortedByPosition(s: seq<Block>) {
    forall i, j :: 0 <= i < j < |s| ==> CellLe(s[i], s[j])
  }

  /** The cells of `s` at one (row, column) position, in their order in `s`. */
  function AtPosition(s: seq<Block>, row: int, col: int): seq<Block> {
    Filter(s, (c: Block) => c.rowIndex == row && c.columnIndex == col)
  }

  /** Inserts `c` in front of the first cell that is not smaller, so that it
      precedes the cells of `t` at its own position. */
  function InsertCell(c: Block, t: seq<Block>): (r: seq<Block>)
    requires SortedByPosition(t)
    ensures SortedByPosition(r)
    ensures multiset(r) == multiset(t) + multiset{c}
    ensures forall j :: 0 <= j < |r| ==> r[j] == c || r[j] in t
  {
    if |t| == 0 then [c]
    else if CellLe(c, t[0]) then [c] + t
    else
      var rest := InsertCell(c, t[1..]);
      InsertBehind(c, t, rest);
      [t[0]] + rest
  }

  /** The step of `InsertCell` that keeps the smaller head of `t` in front. */
  lemma InsertBehind(c: Block, t: seq<Block>, rest: seq<Block>)
    requires |t| > 0 && SortedByPosition(t) && !CellLe(c, t[0])
    requires SortedByPosition(rest)
    requires multiset(rest) == multiset(t[1..]) + multiset{c}
    requires forall j :: 0 <= j < |rest| ==> rest[j] == c || rest[j] in t[1..]
    ensures SortedByPosition([t[0]] + rest)
    ensures multiset([t[0]] + rest) == multiset(t) + multiset{c}
    ensures forall j :: 0 <= j < |[t[0]] + rest| ==> ([t[0]] + rest)[j] == c || ([t[0]] + rest)[j] in t
  {
    assert t == [t[0]] + t[1..];
    forall j | 0 <= j < |rest|
      ensures CellLe(t[0], rest[j])
    {
      if rest[j] != c {
        var k :| 0 <= k < |t[1..]| && t[1..][k] == rest[j];
        assert t[k + 1] == rest[j];
      }
    }
    var r := [t[0]] + rest;
    forall i, j | 0 <= i < j < |r|
      ensures CellLe(r[i], r[j])
    {
      if i > 0 {
        assert r[i] == rest[i - 1] && r[j] == rest[j - 1];
      } else {
        assert r[j] == rest[j - 1];
      }
    }
  }

  /** The stable sort: cells in input order, each inserted into the sorted rest. */
  function SortCells(s: seq<Block>): (r: seq<Block>)
    ensures SortedByPosition(r)
    ensures multiset(r) == multiset(s)
  {
    if |s| == 0 then []
    else
      assert s == [s[0]] + s[1..];
      InsertCell(s[0], SortCells(s[1..]))
  }

  lemma {:induction false} InsertCellAtPosition(c: Block, t: seq<Block>, row: int, col: int)
    requires SortedByPosition(t)
    ensures AtPosition(InsertCell(c, t), row, col) ==
              (if c.rowIndex == row && c.columnIndex == col then [c] else []) + AtPosition(t, row, col)
  {
    var r := InsertCell(c, t);
    if |t| == 0 {
      AtPositionCons(r, row, col);
    } else if CellLe(c, t[0]) {
      assert r[1..] == t;
      AtPositionCons(r, row, col);
    } else {
      var tail := t[1..];
      var rest := InsertCell(c, tail);
      InsertCellAtPosition(c, tail, row, col);
      assert r[0] == t[0] && r[1..] == rest;
      AtPositionCons(r, row, col);
      AtPositionCons(t, row, col);
      assert !(t[0].rowIndex == c.rowIndex && t[0].columnIndex == c.columnIndex);
      DisjointFrontsCommute(t[0], c, row, col, AtPosition(tail, row, col));
    }
  }

  /** Two cells at different positions cannot both be kept by the same
      position filter, so the order in which they are put in front of its
      result does not matter. */
  lemma DisjointFrontsCommute(x: Block, y: Block, row: int, col: int, a: seq<Block>)
    requires !(x.rowIndex == y.rowIndex && x.columnIndex == y.columnIndex)
    ensures (if x.rowIndex == row && x.columnIndex == col then [x] else []) +
              ((if y.rowIndex == row && y.columnIndex == col then [y] else []) + a) ==
            (if y.rowIndex == row && y.columnIndex == col then [y] else []) +
              ((if x.rowIndex == row && x.columnIndex == col then [x] else []) + a)
  {
    if x.rowIndex == row && x.columnIndex == col {
      assert [x] + ([] + a) == [] + ([x] + a);
    } else if y.rowIndex == row && y.columnIndex == col {
      assert [] + ([y] + a) == [y] + ([] + a);
    }
  }

  /** Stability: at every (row, column) position the sorted cells appear in
      the order they had in the input. */
  lemma {:induction false} SortCellsStable(s: seq<Block>, row: int, col: int)
    ensures AtPosition(SortCells(s), row, col) == AtPosition(s, row, col)
  {
    if |s| > 0 {
      SortCellsStable(s[1..], row, col);
      InsertCellAtPosition(s[0], SortCells(s[1..]), row, col);
    }
  }

  /** Sortedness together with stability determine the order completely:
      any sorted arrangement that keeps every position's cells in input
      order is the one `SortCells` produces. */
  lemma SortCellsIsTheStableSort(s: seq<Block>, r: seq<Block>)
    requires SortedByPosition(r)
    requires forall row, col :: AtPosition(r, row, col) == AtPosition(s, row, col)
    ensures r == SortCells(s)
  {
    forall row, col
      ensures AtPosition(r, row, col) == AtPosition(SortCells(s), row, col)
    {
      SortCellsStable(s, row, col);
    }
    SortedUnique(r, SortCells(s));
  }

  /** Two sorted sequences with the same cells, in the same order, at every
      position are equal. */
  lemma {:induction false} SortedUnique(a: seq<Block>, b: seq<Block>)
    requires SortedByPosition(a) && SortedByPosition(b)
    requires forall row, col :: AtPosition(a, row, col) == AtPosition(b, row, col)
    ensures a == b
    decreases |a| + |b|
  {
    if |a| == 0 && |b| == 0 {
    } else if |a| == 0 {
      OwnPositionOccupied(b);
      assert false;
    } else if |b| == 0 {
      OwnPositionOccupied(a);
      assert false;
    } else {
      HeadsAgree(a, b);
      forall row, col
        ensures AtPosition(a[1..], row, col) == AtPosition(b[1..], row, col)
      {
        AtPositionCons(a, row, col);
        AtPositionCons(b, row, col);
        var pre := if a[0].rowIndex == row && a[0].columnIndex == col then [a[0]] else [];
        assert AtPosition(a[1..], row, col) == AtPosition(a, row, col)[|pre|..];
        assert AtPosition(b[1..], row, col) == AtPosition(b, row, col)[|pre|..];
      }
      SortedUnique(a[1..], b[1..]);
      assert a == [a[0]] + a[1..] && b == [b[0]] + b[1..];
    }
  }

  /** The first cell of a non-empty sequence occupies its own position. */
  lemma OwnPositionOccupied(a: seq<Block>)
    requires |a| > 0
    ensures AtPosition(a, a[0].rowIndex, a[0].columnIndex) != []
  {
  }

  lemma AtPositionCons(a: seq<Block>, row: int, col: int)
    requires |a| > 0
    ensures AtPosition(a, row, col) ==
              (if a[0].rowIndex == row && a[0].columnIndex == col then [a[0]] else []) + AtPosition(a[1..], row, col)
  {
  }

  /** The first cells of two such sequences coincide. */
  lemma HeadsAgree(a: seq<Block>, b: seq<Block>)
    requires |a| > 0 && |b| > 0
    requires SortedByPosition(a) && SortedByPosition(b)
    requires forall row, col :: AtPosition(a, row, col) == AtPosition(b, row, col)
    ensures a[0] == b[0]
  {
    HeadIsLeast(a, b[0]);
    HeadIsLeast(b, a[0]);
    var row, col := a[0].rowIndex, a[0].columnIndex;
    assert AtPosition(a, row, col)[0] == a[0];
    assert AtPosition(b, row, col)[0] == b[0];
  }

  /** If some cell at `x`'s position occurs in sorted `a`, `a` starts no
      later than `x`. */
  lemma HeadIsLeast(a: seq<Block>, x: Block)
    requires |a| > 0 && SortedByPosition(a)
    requires AtPosition(a, x.rowIndex, x.columnIndex) != []
    ensures CellLe(a[0], x)
  {
    var y := AtPosition(a, x.rowIndex, x.columnIndex)[0];
    var k :| 0 <= k < |a| && a[k] == y;
    if k > 0 {
      assert CellLe(a[0], a[k]);
    }
  }

  /** Selecting from a sorted sequence keeps it sorted. */
  lemma {:induction false} FilterKeepsSorted(s: seq<Block>, p: Block -> bool)
    requires SortedByPosition(s)
    ensures SortedByPosition(Filter(s, p))
  {
    if |s| > 0 {
      FilterKeepsSorted(s[1..], p);
      var f := Filter(s[1..], p);
      forall j | 0 <= j < |f|
        ensures CellLe(s[0], f[j])
      {
        assert f[j] in s[1..];
        var k :| 0 <= k < |s[1..]| && s[1..][k] == f[j];
        assert s[k + 1] == f[j];
      }
    }
  }

  /** The cells of `s` on one row. */
  function OnRow(s: seq<Block>, row: int): seq<Block> {
    Filter(s, (c: Block) => c.rowIndex == row)
  }

  /** The cells of `s` on any other row. */
  function OffRow(s: seq<Block>, row: int): seq<Block> {
    Filter(s, (c: Block) => c.rowIndex != row)
  }

  /** `GroupBy(b => b.RowIndex)`: one group per distinct row index, in the
      order each index first occurs; each group keeps the input order. */
  function GroupByRow(s: seq<Block>): (g: seq<seq<Block>>)
    ensures forall i :: 0 <= i < |g| ==> |g[i]| > 0
    decreases |s|
  {
    if |s| == 0 then []
    else [OnRow(s, s[0].rowIndex)] + GroupByRow(OffRow(s[1..], s[0].rowIndex))
  }

  /** Every cell of `grp` occurs in `s`. */
  predicate Within(grp: seq<Block>, s: seq<Block>) {
    forall j :: 0 <= j < |grp| ==> grp[j] in s
  }

  /** Every cell of `grp` lies on row `row`. */
  predicate AllOnRow(grp: seq<Block>, row: int) {
    forall j :: 0 <= j < |grp| ==> grp[j].rowIndex == row
  }

  /** Each group holds cells of the input. */
  lemma {:induction false} GroupsWithin(s: seq<Block>)
    ensures forall i :: 0 <= i < |GroupByRow(s)| ==> Within(GroupByRow(s)[i], s)
    decreases |s|
  {
    if |s| > 0 {
      var t := OffRow(s[1..], s[0].rowIndex);
      GroupsWithin(t);
      var g: seq<seq<Block>> := GroupByRow(s);
      var h: seq<seq<Block>> := GroupByRow(t);
      assert Within(t, s) by {
        forall j | 0 <= j < |t|
          ensures t[j] in s
        {
          var k :| 0 <= k < |s[1..]| && s[1..][k] == t[j];
          assert s[k + 1] == t[j];
        }
      }
      forall i | 0 <= i < |g|
        ensures Within(g[i], s)
      {
        if i > 0 {
          assert g[i] == h[i - 1];
          assert Within(h[i - 1], t);
        }
      }
    }
  }

  /** The cells of each group share one row index. */
  lemma {:induction false} GroupsOnOneRow(s: seq<Block>)
    ensures forall i :: 0 <= i < |GroupByRow(s)| ==> AllOnRow(GroupByRow(s)[i], GroupByRow(s)[i][0].rowIndex)
    decreases |s|
  {
    if |s| > 0 {
      var t := OffRow(s[1..], s[0].rowIndex);
      GroupsOnOneRow(t);
      var g: seq<seq<Block>> := GroupByRow(s);
      var h: seq<seq<Block>> := GroupByRow(t);
      assert g[0] == OnRow(s, s[0].rowIndex);
      assert g[0][0] == s[0];
      forall i | 0 < i < |g|
        ensures AllOnRow(g[i], g[i][0].rowIndex)
      {
        assert g[i] == h[i - 1];
      }
    }
  }

  /** A row index that no input cell has is the row of no group. */
  lemma GroupRowsAvoid(t: seq<Block>, row: int)
    requires forall i :: 0 <= i < |t| ==> t[i].rowIndex != row
    ensures forall i :: 0 <= i < |GroupByRow(t)| ==> GroupByRow(t)[i][0].rowIndex != row
  {
    GroupsWithin(t);
    forall i | 0 <= i < |GroupByRow(t)|
      ensures GroupByRow(t)[i][0].rowIndex != row
    {
      assert Within(GroupByRow(t)[i], t);
      var m :| 0 <= m < |t| && t[m] == GroupByRow(t)[i][0];
    }
  }

  /** No two groups share a row index. */
  lemma {:induction false} GroupRowsDistinct(s: seq<Block>)
    ensures forall i, j :: 0 <= i < j < |GroupByRow(s)| ==>
              GroupByRow(s)[i][0].rowIndex != GroupByRow(s)[j][0].rowIndex
    decreases |s|
  {
    if |s| > 0 {
      var t := OffRow(s[1..], s[0].rowIndex);
      GroupRowsDistinct(t);
      GroupRowsAvoid(t, s[0].rowIndex);
      var g: seq<seq<Block>> := GroupByRow(s);
      var h: seq<seq<Block>> := GroupByRow(t);
      assert g[0][0] == s[0];
      forall i, j | 0 <= i < j < |g|
        ensures g[i][0].rowIndex != g[j][0].rowIndex
      {
        assert g[j] == h[j - 1];
        if i > 0 {
          assert g[i] == h[i - 1];
        }
      }
    }
  }

  /** Every cell of row-sorted input lies no lower than the first. */
  predicate RowSorted(s: seq<Block>) {
    forall i, j :: 0 <= i < j < |s| ==> s[i].rowIndex <= s[j].rowIndex
  }

  /** In row-sorted input the cells on the first row form a prefix. */
  lemma {:induction false} FirstRowIsPrefix(s: seq<Block>) returns (k: nat)
    requires |s| > 0 && RowSorted(s)
    ensures 0 < k <= |s|
    ensures forall i :: 0 <= i < k ==> s[i].rowIndex == s[0].rowIndex
    ensures forall i :: k <= i < |s| ==> s[i].rowIndex > s[0].rowIndex
  {
    k := 1;
    while k < |s| && s[k].rowIndex == s[0].rowIndex
      invariant 0 < k <= |s|
      invariant forall i :: 0 <= i < k ==> s[i].rowIndex == s[0].rowIndex
    {
      k := k + 1;
    }
  }

  lemma OnRowOfRun(s: seq<Block>, k: nat, row: int)
    requires k <= |s|
    requires forall i :: 0 <= i < k ==> s[i].rowIndex == row
    requires forall i :: k <= i < |s| ==> s[i].rowIndex != row
    ensures OnRow(s, row) == s[..k]
  {
    assert s == s[..k] + s[k..];
    FilterConcat(s[..k], s[k..], (c: Block) => c.rowIndex == row);
    FilterAll(s[..k], (c: Block) => c.rowIndex == row);
    FilterNone(s[k..], (c: Block) => c.rowIndex == row);
  }

  lemma OffRowOfRun(s: seq<Block>, k: nat, row: int)
    requires k <= |s|
    requires forall i :: 0 <= i < k ==> s[i].rowIndex == row
    requires forall i :: k <= i < |s| ==> s[i].rowIndex != row
    ensures OffRow(s, row) == s[k..]
  {
    assert s == s[..k] + s[k..];
    FilterConcat(s[..k], s[k..], (c: Block) => c.rowIndex != row);
    FilterNone(s[..k], (c: Block) => c.rowIndex != row);
    FilterAll(s[k..], (c: Block) => c.rowIndex != row);
  }

  /** On row-sorted input the first group is the run of cells on the first
      row, and the remaining groups are those of the rest. */
  lemma SortedFirstGroup(s: seq<Block>) returns (k: nat)
    requires |s| > 0 && RowSorted(s)
    ensures 0 < k <= |s|
    ensures GroupByRow(s) == [s[..k]] + GroupByRow(s[k..])
    ensures RowSorted(s[k..])
    ensures forall i :: 0 <= i < |s[k..]| ==> s[k..][i].rowIndex > s[0].rowIndex
  {
    var r0 := s[0].rowIndex;
    k := FirstRowIsPrefix(s);
    OnRowOfRun(s, k, r0);
    OffRowOfRun(s[1..], k - 1, r0);
    assert s[1..][k - 1..] == s[k..];
    RowSortedSuffix(s, k);
  }

  lemma RowSortedSuffix(s: seq<Block>, k: nat)
    requires k <= |s| && RowSorted(s)
    ensures RowSorted(s[k..])
  {
    var t := s[k..];
    forall i, j | 0 <= i < j < |t|
      ensures t[i].rowIndex <= t[j].rowIndex
    {
      assert t[i] == s[k + i] && t[j] == s[k + j];
    }
  }

  /** On row-sorted input the groups, laid end to end, give back the input:
      grouping neither drops, repeats nor reorders a cell. */
  lemma {:induction false} GroupByRowOfSortedFlattens(s: seq<Block>)
    requires RowSorted(s)
    ensures Flatten(GroupByRow(s)) == s
    decreases |s|
  {
    if |s| > 0 {
      var k := SortedFirstGroup(s);
      GroupByRowOfSortedFlattens(s[k..]);
      var g: seq<seq<Block>> := GroupByRow(s);
      assert g[0] == s[..k] && g[1..] == GroupByRow(s[k..]);
      assert s == s[..k] + s[k..];
    }
  }

  /** A lower bound on the input's row indices bounds the groups' too. */
  lemma GroupRowsBounded(t: seq<Block>, lo: int)
    requires forall i :: 0 <= i < |t| ==> t[i].rowIndex > lo
    ensures forall i :: 0 <= i < |GroupByRow(t)| ==> GroupByRow(t)[i][0].rowIndex > lo
  {
    GroupsWithin(t);
    forall i | 0 <= i < |GroupByRow(t)|
      ensures GroupByRow(t)[i][0].rowIndex > lo
    {
      assert Within(GroupByRow(t)[i], t);
      var m :| 0 <= m < |t| && t[m] == GroupByRow(t)[i][0];
    }
  }

  /** On row-sorted input the groups' row indices strictly increase. */
  lemma {:induction false} GroupByRowOfSortedAscends(s: seq<Block>)
    requires RowSorted(s)
    ensures forall i, j :: 0 <= i < j < |GroupByRow(s)| ==>
              GroupByRow(s)[i][0].rowIndex < GroupByRow(s)[j][0].rowIndex
    decreases |s|
  {
    if |s| > 0 {
      var k := SortedFirstGroup(s);
      var t := s[k..];
      GroupByRowOfSortedAscends(t);
      GroupRowsBounded(t, s[0].rowIndex);
      AscendingCons(s[..k], GroupByRow(t));
    }
  }

  /** Putting a group of a lower row in front keeps the row indices ascending. */
  lemma AscendingCons(first: seq<Block>, h: seq<seq<Block>>)
    requires |first| > 0
    requires forall i :: 0 <= i < |h| ==> |h[i]| > 0 && h[i][0].rowIndex > first[0].rowIndex
    requires forall i, j :: 0 <= i < j < |h| ==> h[i][0].rowIndex < h[j][0].rowIndex
    ensures forall i, j :: 0 <= i < j < |[first] + h| ==> ([first] + h)[i][0].rowIndex < ([first] + h)[j][0].rowIndex
  {
    var g: seq<seq<Block>> := [first] + h;
    forall i, j | 0 <= i < j < |g|
      ensures g[i][0].rowIndex < g[j][0].rowIndex
    {
      assert g[j] == h[j - 1];
      if i > 0 {
        assert g[i] == h[i - 1];
      }
    }
  }

  /** Grouping sorted cells keeps every group sorted by column. */
  lemma {:induction false} GroupByRowKeepsSorted(s: seq<Block>)
    requires SortedByPosition(s)
    ensures forall i :: 0 <= i < |GroupByRow(s)| ==> SortedByPosition(GroupByRow(s)[i])
    decreases |s|
  {
    if |s| > 0 {
      FilterKeepsSorted(s, (c: Block) => c.rowIndex == s[0].rowIndex);
      FilterKeepsSorted(s[1..], (c: Block) => c.rowIndex != s[0].rowIndex);
      GroupByRowKeepsSorted(OffRow(s[1..], s[0].rowIndex));
    }
  }
}
