/**
 * `buildCalendar` of components/Calendar.tsx: the days of a month laid out in
 * Monday-first weeks of seven cells, with empty cells before the first day and after
 * the last. The weekday of the first and the length of the month are parameters.
 */
module Calendar {
  import opened Common

  /** A cell of the grid: a day of the month, or empty (`null`). */
  type Cell = Option<nat>

  /** `(getDay() + 6) % 7`: how many cells precede the first of the month when weeks start on Monday. */
  function Offset(firstWeekday: nat): (offset: nat)
    ensures offset < 7
    ensures firstWeekday == 1 ==> offset == 0
    ensures firstWeekday == 0 ==> offset == 6
    ensures (offset + 1) % 7 == firstWeekday % 7
  {
    (firstWeekday + 6) % 7
  }

  /** The cell at position `k` when the grid is read row by row. */
  function CellAt(offset: nat, days: nat, k: nat): Cell {
    if offset <= k < offset + days then Some(k - offset + 1) else None
  }

  /** How many weeks the grid has: enough for the leading empty cells and every day. */
  function Rows(offset: nat, days: nat): nat {
    (offset + days + 6) / 7
  }

  /** The grid of a month whose first day falls on `firstWeekday` (0 is Sunday) and that has `days` days. */
  method BuildCalendar(firstWeekday: nat, days: nat) returns (weeks: seq<seq<Cell>>)
    ensures |weeks| == Rows(Offset(firstWeekday), days)
    ensures forall r :: 0 <= r < |weeks| ==> |weeks[r]| == 7
    ensures forall r, c :: 0 <= r < |weeks| && 0 <= c < |weeks[r]| ==>
      weeks[r][c] == CellAt(Offset(firstWeekday), days, 7 * r + c)
    ensures Present(Flatten(weeks)) == UpTo(days)
  {
    var offset := Offset(firstWeekday);
    weeks := [];
    var week: seq<Cell> := [];
    var i := 0;
    while i < offset
      invariant 0 <= i <= offset
      invariant week == seq(i, _ => None)
    {
      week := week + [None];
      i := i + 1;
    }
    var d := 1;
    while d <= days
      invariant 1 <= d <= days + 1
      invariant |week| < 7 && 7 * |weeks| + |week| == offset + d - 1
      invariant forall r :: 0 <= r < |weeks| ==> |weeks[r]| == 7
      invariant forall r, c :: 0 <= r < |weeks| && 0 <= c < |weeks[r]| ==> weeks[r][c] == CellAt(offset, days, 7 * r + c)
      invariant forall c :: 0 <= c < |week| ==> week[c] == CellAt(offset, days, 7 * |weeks| + c)
    {
      week := week + [Some(d)];
      if |week| == 7 {
        AppendWeek(weeks, week, offset, days);
        weeks := weeks + [week];
        week := [];
      }
      d := d + 1;
    }
    if |week| > 0 {
      while |week| < 7
        invariant 7 * |weeks| + |week| >= offset + days && |week| <= 7
        invariant forall c :: 0 <= c < |week| ==> week[c] == CellAt(offset, days, 7 * |weeks| + c)
      {
        week := week + [None];
      }
      AppendWeek(weeks, week, offset, days);
      weeks := weeks + [week];
    }
    GridShowsMonth(firstWeekday, days, weeks);
  }

  /** Appending a full week laid out cell by cell keeps the whole grid laid out cell by cell. */
  lemma AppendWeek(weeks: seq<seq<Cell>>, week: seq<Cell>, offset: nat, days: nat)
    requires forall r :: 0 <= r < |weeks| ==> |weeks[r]| == 7
    requires forall r, c :: 0 <= r < |weeks| && 0 <= c < |weeks[r]| ==> weeks[r][c] == CellAt(offset, days, 7 * r + c)
    requires |week| == 7 && forall c :: 0 <= c < |week| ==> week[c] == CellAt(offset, days, 7 * |weeks| + c)
    ensures var grid := weeks + [week];
      (forall r :: 0 <= r < |grid| ==> |grid[r]| == 7) &&
      forall r, c :: 0 <= r < |grid| && 0 <= c < |grid[r]| ==> grid[r][c] == CellAt(offset, days, 7 * r + c)
  {
  }

  /** The grid read row by row. */
  function Flatten(weeks: seq<seq<Cell>>): seq<Cell> {
    if weeks == [] then [] else Flatten(weeks[..|weeks| - 1]) + weeks[|weeks| - 1]
  }

  /** The days in a row of cells, empty cells dropped, in order. */
  function Present(cells: seq<Cell>): seq<nat> {
    if cells == [] then []
    else Present(cells[..|cells| - 1]) + (if cells[|cells| - 1].Some? then [cells[|cells| - 1].value] else [])
  }

  /** `1, 2, …, n` */
  function UpTo(n: nat): (r: seq<nat>)
    ensures |r| == n && forall i :: 0 <= i < n ==> r[i] == i + 1
  {
    seq(n, i => i + 1)
  }

  /** The first `n` cells of the grid in reading order. */
  function Cells(offset: nat, days: nat, n: nat): (r: seq<Cell>)
    ensures |r| == n && forall k :: 0 <= k < n ==> r[k] == CellAt(offset, days, k)
  {
    seq(n, k requires 0 <= k => CellAt(offset, days, k))
  }

  /** A grid of full weeks described cell by cell reads, row by row, as the cells in order. */
  lemma {:induction false} FlattenCells(weeks: seq<seq<Cell>>, offset: nat, days: nat)
    requires forall r :: 0 <= r < |weeks| ==> |weeks[r]| == 7
    requires forall r, c :: 0 <= r < |weeks| && 0 <= c < |weeks[r]| ==> weeks[r][c] == CellAt(offset, days, 7 * r + c)
    ensures Flatten(weeks) == Cells(offset, days, 7 * |weeks|)
  {
    if weeks != [] {
      var n := |weeks| - 1;
      FlattenCells(weeks[..n], offset, days);
      assert Flatten(weeks) == Cells(offset, days, 7 * n) + weeks[n];
      forall k | 0 <= k < 7 * |weeks|
        ensures Flatten(weeks)[k] == CellAt(offset, days, k)
      {
        if k >= 7 * n {
          assert weeks[n][k - 7 * n] == CellAt(offset, days, 7 * n + (k - 7 * n));
        }
      }
    }
  }

  /**
   * Reading the first `n` cells yields the days whose cells lie among them, in order:
   * none before the offset, then one more day per cell, and no more after the last day.
   */
  lemma {:induction false} PresentCells(offset: nat, days: nat, n: nat)
    ensures Present(Cells(offset, days, n)) ==
      if n <= offset then [] else if n <= offset + days then UpTo(n - offset) else UpTo(days)
  {
    if n > 0 {
      var cells := Cells(offset, days, n);
      assert cells[..n - 1] == Cells(offset, days, n - 1);
      PresentCells(offset, days, n - 1);
      if offset < n <= offset + days {
        assert UpTo(n - offset) == UpTo(n - 1 - offset) + [n - offset];
      }
    }
  }

  /** Every row but the last holds a day in its last cell, so empty cells after the last day appear only in the final row. */
  lemma TrailingEmptyOnlyInLastRow(offset: nat, days: nat, r: nat, c: nat)
    requires r + 1 < Rows(offset, days) && c < 7
    ensures 7 * r + c < offset + days
    ensures offset <= 7 * r + c ==> CellAt(offset, days, 7 * r + c).Some?
  {
  }

  /** The rows have room for the leading empty cells and every day. */
  lemma RowsCover(offset: nat, days: nat)
    ensures offset + days <= 7 * Rows(offset, days)
  {
    var x := offset + days + 6;
    assert x == 7 * (x / 7) + x % 7;
  }

  /** In a month with days, the last row is not an empty trailing row: it holds the last day. */
  lemma NoEmptyLastRow(offset: nat, days: nat)
    requires days > 0
    ensures Rows(offset, days) >= 1
    ensures 7 * (Rows(offset, days) - 1) <= offset + days - 1 < 7 * Rows(offset, days)
    ensures CellAt(offset, days, offset + days - 1) == Some(days)
  {
  }

  /**
   * What a grid of ceil((offset + days) / 7) full weeks laid out cell by cell shows:
   * read row by row, its days are exactly 1 to `days` in order, and its first row
   * has empty cells before the offset and days from there on (up to the last day).
   */
  lemma GridShowsMonth(firstWeekday: nat, days: nat, weeks: seq<seq<Cell>>)
    requires |weeks| == Rows(Offset(firstWeekday), days)
    requires forall r :: 0 <= r < |weeks| ==> |weeks[r]| == 7
    requires forall r, c :: 0 <= r < |weeks| && 0 <= c < |weeks[r]| ==>
      weeks[r][c] == CellAt(Offset(firstWeekday), days, 7 * r + c)
    ensures Present(Flatten(weeks)) == UpTo(days)
    ensures |weeks| > 0 ==> forall c :: 0 <= c < 7 ==> (weeks[0][c].None? <==> c < Offset(firstWeekday) || c >= Offset(firstWeekday) + days)
  {
    var offset := Offset(firstWeekday);
    FlattenCells(weeks, offset, days);
    RowsCover(offset, days);
    PresentAll(offset, days, 7 * |weeks|);
    if |weeks| > 0 {
      FirstRow(weeks, offset, days);
    }
  }

  /** Once every day has its cell among the first `n`, reading them yields all the days in order. */
  lemma PresentAll(offset: nat, days: nat, n: nat)
    requires offset + days <= n
    ensures Present(Cells(offset, days, n)) == UpTo(days)
  {
    PresentCells(offset, days, n);
  }

  /** The first row has empty cells before the offset and after the last day, and days in between. */
  lemma FirstRow(weeks: seq<seq<Cell>>, offset: nat, days: nat)
    requires |weeks| > 0 && |weeks[0]| == 7
    requires forall r, c :: 0 <= r < |weeks| && 0 <= c < |weeks[r]| ==> weeks[r][c] == CellAt(offset, days, 7 * r + c)
    ensures forall c :: 0 <= c < 7 ==> (weeks[0][c].None? <==> c < offset || c >= offset + days)
  {
    forall c | 0 <= c < 7 ensures weeks[0][c].None? <==> c < offset || c >= offset + days {
      assert weeks[0][c] == CellAt(offset, days, 7 * 0 + c);
    }
  }
}
