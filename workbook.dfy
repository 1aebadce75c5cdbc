/**
  `update_workbook` (skills/icp-batch-skill/scripts/run_icp_batch.py:135-173): two
  columns appended to the active sheet, holding the ICP subject and number of
  every row whose link names a domain of the success map.

  A sheet is a grid of cells, rows and columns counted from 0 here (openpyxl
  counts from 1). A row holds the cells up to its last existing one; a cell past
  the end of its row is empty (`Null`). Loading and saving the workbook file are
  not modelled: the sheet in memory is a `Worksheet` object, and the method says
  whether the workbook would be saved.
*/
module Workbook {
  import opened Wrappers
  import opened Seqs
  import opened JsonValue
  import opened Links
  import opened Extract
  import opened Report

  type Grid = seq<seq<Cell>>

  /** The headers written above the two new columns. */
  const SubjectLabel: string := "备案主体"
  const NumberLabel: string := "备案号"

  /** The value of the cell at row `r`, column `c`: `None` where no cell exists. */
  function At(g: Grid, r: nat, c: nat): Cell {
    if r < |g| && c < |g[r]| then g[r][c] else Null
  }

  /** The length of the longest row. */
  function Width(g: Grid): (w: nat)
    ensures forall r :: 0 <= r < |g| ==> |g[r]| <= w
    ensures w == 0 || exists r :: 0 <= r < |g| && |g[r]| == w
  {
    if g == [] then 0
    else
      var n := |g| - 1;
      var w := Width(g[..n]);
      assert forall r :: 0 <= r < n ==> g[r] == g[..n][r];
      if |g[n]| > w then |g[n]| else w
  }

  /** openpyxl's `max_column`: the last column holding a cell, and at least 1. */
  function MaxColumn(g: Grid): (m: nat)
    ensures m >= 1
  {
    if Width(g) == 0 then 1 else Width(g)
  }

  /** No cell lies at or beyond `max_column`. */
  lemma MaxColumnBound(g: Grid)
    ensures forall r, c :: c >= MaxColumn(g) ==> At(g, r, c) == Null
  {
  }

  /** openpyxl's `max_row`: the last row, and at least 1. */
  function MaxRow(g: Grid): (m: nat)
    ensures m >= 1
  {
    if |g| == 0 then 1 else |g|
  }

  /** No cell lies at or beyond `max_row`. */
  lemma MaxRowBound(g: Grid)
    ensures forall r, c :: r >= MaxRow(g) ==> At(g, r, c) == Null
  {
  }

  /** The values `iter_rows` yields for row `r`: one per column up to `max_column`. */
  function RowValues(g: Grid, r: nat): (vs: seq<Cell>)
    ensures |vs| == MaxColumn(g) && forall c :: 0 <= c < |vs| ==> vs[c] == At(g, r, c)
  {
    seq(MaxColumn(g), c requires 0 <= c => At(g, r, c))
  }

  /**
    The header values are the cells of row `r` as they stand, followed by empty
    cells up to `max_column`; a row past the end of the sheet gives only empty cells.
  */
  lemma RowValuesSpec(g: Grid, r: nat)
    ensures |RowValues(g, r)| == MaxColumn(g)
    ensures r < |g| ==> |g[r]| <= MaxColumn(g) && RowValues(g, r)[..|g[r]|] == g[r]
    ensures forall c :: 0 <= c < MaxColumn(g) && (r >= |g| || c >= |g[r]|) ==> RowValues(g, r)[c] == Null
  {
  }

  /** `ws.cell(row, column, value)`: the cell is created if need be, the rows and row in between are padded with empty cells. */
  function SetAt(g: Grid, r: nat, c: nat, v: Cell): Grid {
    var rows := if r < |g| then g else g + EmptyRows(r + 1 - |g|);
    var row := if c < |rows[r]| then rows[r] else rows[r] + EmptyCells(c + 1 - |rows[r]|);
    rows[r := row[c := v]]
  }

  /** `n` rows without cells. */
  function EmptyRows(n: nat): (rows: Grid)
    ensures |rows| == n && forall i :: 0 <= i < n ==> rows[i] == []
  {
    if n == 0 then [] else EmptyRows(n - 1) + [[]]
  }

  /** `n` empty cells. */
  function EmptyCells(n: nat): (cells: seq<Cell>)
    ensures |cells| == n && forall i :: 0 <= i < n ==> cells[i] == Null
  {
    if n == 0 then [] else EmptyCells(n - 1) + [Null]
  }

  /** Setting a cell changes that cell and no other; the sheet grows just enough to hold it. */
  lemma SetAtSpec(g: Grid, r: nat, c: nat, v: Cell)
    ensures var g2 := SetAt(g, r, c, v);
      && At(g2, r, c) == v
      && (forall r', c' :: r' != r || c' != c ==> At(g2, r', c') == At(g, r', c'))
      && |g2| == (if r < |g| then |g| else r + 1)
      && (forall r' :: 0 <= r' < |g2| && r' != r ==> |g2[r']| == (if r' < |g| then |g[r']| else 0))
      && |g2[r]| == (if r < |g| && c < |g[r]| then |g[r]| else c + 1)
  {
  }

  // ----- the specification -----

  /** The sheet after the two labels have been written into row 0 after the last column. */
  function Labelled(g: Grid): Grid {
    var m := MaxColumn(g);
    SetAt(SetAt(g, 0, m, Str(SubjectLabel)), 0, m + 1, Str(NumberLabel))
  }

  /** The link column `update_workbook` uses: looked up again in the labelled header row. */
  function UpdateColumn(g: Grid, linkHeader: string): nat {
    LinkColumn(RowValues(Labelled(g), 0), linkHeader)
  }

  /**
    The loop body for row `r` of the current sheet `h`: nothing unless the row's
    link cell normalises to a key of `info`; then its two values go into columns
    `subj` and `subj + 1`. A value that is not a cell value (a list or an object)
    makes openpyxl raise: `None`.
  */
  function AnnotateRow(h: Grid, r: nat, col: nat, subj: nat, info: map<string, Info>): Option<Grid> {
    match CellDomain(At(h, r, col))
    case None => Some(h)
    case Some(d) =>
      if d !in info then Some(h)
      else if !info[d].0.IsScalar() then None
      else if !info[d].1.IsScalar() then None
      else Some(SetAt(SetAt(h, r, subj, info[d].0), r, subj + 1, info[d].1))
  }

  /** The loop over rows 1 up to (not including) `n`. */
  function AnnotateUpTo(g1: Grid, col: nat, subj: nat, info: map<string, Info>, n: nat): Option<Grid> {
    if n <= 1 then Some(g1)
    else
      match AnnotateUpTo(g1, col, subj, info, n - 1)
      case None => None
      case Some(h) => AnnotateRow(h, n - 1, col, subj, info)
  }

  /** The sheet `update_workbook` saves, or `None` when it raises before saving. */
  function Annotated(g: Grid, info: map<string, Info>, linkHeader: string): Option<Grid> {
    var g1 := Labelled(g);
    AnnotateUpTo(g1, UpdateColumn(g, linkHeader), MaxColumn(g), info, MaxRow(g1))
  }

  // ----- the worksheet -----

  class Worksheet {
    var grid: Grid

    constructor(g: Grid)
      ensures grid == g
    {
      grid := g;
    }

    /** `ws.max_column`. */
    function MaxCol(): nat
      reads this
    {
      MaxColumn(grid)
    }

    /** `ws.max_row`. */
    function MaxRowIndex(): nat
      reads this
    {
      MaxRow(grid)
    }

    /** `ws.cell(row, column).value`, 1-based. */
    function Value(row: nat, column: nat): Cell
      requires row >= 1 && column >= 1
      reads this
    {
      At(grid, row - 1, column - 1)
    }

    /** `ws.cell(row=row, column=column, value=v)`, 1-based. */
    method SetCell(row: nat, column: nat, v: Cell)
      requires row >= 1 && column >= 1
      modifies this
      ensures grid == SetAt(old(grid), row - 1, column - 1, v)
    {
      grid := SetAt(grid, row - 1, column - 1, v);
    }
  }

  /** A walk that has raised by row `i` has raised for good. */
  lemma {:induction false} AnnotatePrefixBreaks(g1: Grid, col: nat, subj: nat, info: map<string, Info>, i: nat, n: nat)
    requires i <= n && AnnotateUpTo(g1, col, subj, info, i).None?
    ensures AnnotateUpTo(g1, col, subj, info, n).None?
    decreases n - i
  {
    if i < n {
      AnnotatePrefixBreaks(g1, col, subj, info, i + 1, n);
    }
  }

  /**
    `update_workbook` on the sheet in memory: label the two new columns, find the
    link column in the labelled header, then fill the two columns of each data row
    whose domain has an entry. `saved` is false when a write raised (the workbook
    is then not saved).
  */
  method UpdateWorkbook(ws: Worksheet, successRows: map<string, Info>, linkHeader: string) returns (saved: bool)
    modifies ws
    ensures Annotated(old(ws.grid), successRows, linkHeader) == if saved then Some(ws.grid) else None
  {
    ghost var g := ws.grid;
    var maxCol := ws.MaxCol();
    var subjectCol := maxCol + 1;
    var numCol := maxCol + 2;
    ws.SetCell(1, subjectCol, Str(SubjectLabel));
    ws.SetCell(1, numCol, Str(NumberLabel));
    ghost var g1 := ws.grid;
    assert g1 == Labelled(g);

    var headerRow := RowValues(ws.grid, 0);
    var col := LocateLinkColumn(headerRow, linkHeader);

    var maxRow := ws.MaxRowIndex();
    var r := 2;
    while r <= maxRow
      invariant 2 <= r <= maxRow + 1
      invariant AnnotateUpTo(g1, col, maxCol, successRows, r - 1) == Some(ws.grid)
    {
      assert AnnotateUpTo(g1, col, maxCol, successRows, r) == AnnotateRow(ws.grid, r - 1, col, maxCol, successRows);
      var ok := AnnotateSheetRow(ws, r, col, maxCol, successRows);
      if !ok {
        AnnotatePrefixBreaks(g1, col, maxCol, successRows, r, maxRow);
        return false;
      }
      r := r + 1;
    }
    return true;
  }

  /**
    The loop body of `update_workbook` for the 1-based row `r`: look up the
    domain of the row's link cell and write its pair into columns `subj + 1` and
    `subj + 2`; `false` when a value cannot go into a cell.
  */
  method AnnotateSheetRow(ws: Worksheet, r: nat, col: nat, subj: nat, successRows: map<string, Info>) returns (ok: bool)
    requires r >= 1
    modifies ws
    ensures AnnotateRow(old(ws.grid), r - 1, col, subj, successRows) == if ok then Some(ws.grid) else None
  {
    ghost var h := ws.grid;
    ghost var expected := AnnotateRow(h, r - 1, col, subj, successRows);
    ok := true;
    var cellVal := ws.Value(r, col + 1);
    if cellVal != Null {
      var domain := NormalizeLink(CellText(cellVal));
      assert CellDomain(At(h, r - 1, col)) == Some(domain);
      if domain in successRows {
        var info := successRows[domain];
        if !info.0.IsScalar() {
          ok := false;
        } else {
          ws.SetCell(r, subj + 1, info.0);
          if !info.1.IsScalar() {
            ok := false;
          } else {
            ws.SetCell(r, subj + 2, info.1);
            assert expected == Some(ws.grid);
          }
        }
      }
    }
  }

  // ----- what update_workbook does to the sheet -----

  /** What row `r` should hold in the two new columns: its domain's entry, or nothing. */
  function Expected(g: Grid, r: nat, col: nat, info: map<string, Info>): Info {
    match CellDomain(At(g, r, col))
    case None => (Null, Null)
    case Some(d) => if d in info then info[d] else (Null, Null)
  }

  /** Row `r`'s domain has an entry holding a value no cell can take. */
  predicate BadRow(g: Grid, r: nat, col: nat, info: map<string, Info>) {
    match CellDomain(At(g, r, col))
    case None => false
    case Some(d) => d in info && (!info[d].0.IsScalar() || !info[d].1.IsScalar())
  }

  /** One row of the walk: it touches only the two new columns of row `r`, and raises exactly when the row is bad. */
  lemma AnnotateRowSpec(h: Grid, r: nat, col: nat, subj: nat, info: map<string, Info>)
    requires At(h, r, subj) == Null && At(h, r, subj + 1) == Null
    ensures AnnotateRow(h, r, col, subj, info).None? <==> BadRow(h, r, col, info)
    ensures AnnotateRow(h, r, col, subj, info).Some? ==>
      var h2 := AnnotateRow(h, r, col, subj, info).value;
      && (forall r': nat, c: nat :: r' != r || (c != subj && c != subj + 1) ==> At(h2, r', c) == At(h, r', c))
      && (At(h2, r, subj), At(h2, r, subj + 1)) == Expected(h, r, col, info)
  {
    match CellDomain(At(h, r, col))
    case None =>
    case Some(d) =>
      if d in info && info[d].0.IsScalar() && info[d].1.IsScalar() {
        WritePair(h, r, subj, info[d].0, info[d].1);
      }
  }

  /** Writing two neighbouring cells of a row changes those two cells and no other. */
  lemma WritePair(h: Grid, r: nat, subj: nat, a: Cell, b: Cell)
    ensures var h2 := SetAt(SetAt(h, r, subj, a), r, subj + 1, b);
      && (forall r': nat, c: nat :: r' != r || (c != subj && c != subj + 1) ==> At(h2, r', c) == At(h, r', c))
      && At(h2, r, subj) == a && At(h2, r, subj + 1) == b
  {
    SetAtSpec(h, r, subj, a);
    SetAtSpec(SetAt(h, r, subj, a), r, subj + 1, b);
  }

  /**
    `h` is `g1` with rows 1 to `n - 1` annotated: it differs from `g1` only in the
    two new columns of those rows, and holds there each row's expected pair.
  */
  ghost predicate AnnotatedBelow(g1: Grid, h: Grid, col: nat, subj: nat, info: map<string, Info>, n: nat) {
    && (forall r: nat, c: nat :: !(1 <= r < n) || (c != subj && c != subj + 1) ==> At(h, r, c) == At(g1, r, c))
    && (forall r: nat :: 1 <= r < n ==> (At(h, r, subj), At(h, r, subj + 1)) == Expected(g1, r, col, info))
  }

  /** The two new columns are empty below the header. */
  ghost predicate FreshColumns(g1: Grid, subj: nat) {
    forall r: nat :: r >= 1 ==> At(g1, r, subj) == Null && At(g1, r, subj + 1) == Null
  }

  /** The walk over rows 1 to `n - 1` leaves `g1` annotated below row `n`. */
  lemma {:induction false} AnnotateUpToSome(g1: Grid, col: nat, subj: nat, info: map<string, Info>, n: nat)
    requires FreshColumns(g1, subj)
    requires AnnotateUpTo(g1, col, subj, info, n).Some?
    ensures AnnotatedBelow(g1, AnnotateUpTo(g1, col, subj, info, n).value, col, subj, info, n)
  {
    if n > 1 {
      AnnotateUpToSome(g1, col, subj, info, n - 1);
      var h := AnnotateUpTo(g1, col, subj, info, n - 1).value;
      assert AnnotateUpTo(g1, col, subj, info, n) == AnnotateRow(h, n - 1, col, subj, info);
      AnnotateStep(g1, h, col, subj, info, n);
    }
  }

  /** Annotating row `n - 1` of a sheet annotated below row `n - 1` leaves it annotated below row `n`. */
  lemma AnnotateStep(g1: Grid, h: Grid, col: nat, subj: nat, info: map<string, Info>, n: nat)
    requires n >= 2 && FreshColumns(g1, subj)
    requires AnnotatedBelow(g1, h, col, subj, info, n - 1)
    requires AnnotateRow(h, n - 1, col, subj, info).Some?
    ensures AnnotatedBelow(g1, AnnotateRow(h, n - 1, col, subj, info).value, col, subj, info, n)
  {
    var h2 := AnnotateRow(h, n - 1, col, subj, info).value;
    assert At(h, n - 1, col) == At(g1, n - 1, col);
    assert At(h, n - 1, subj) == Null && At(h, n - 1, subj + 1) == Null;
    AnnotateRowSpec(h, n - 1, col, subj, info);
    assert Expected(h, n - 1, col, info) == Expected(g1, n - 1, col, info);
    forall r: nat, c: nat | !(1 <= r < n) || (c != subj && c != subj + 1)
      ensures At(h2, r, c) == At(g1, r, c)
    {
      assert At(h2, r, c) == At(h, r, c);
    }
    forall r: nat | 1 <= r < n - 1
      ensures (At(h2, r, subj), At(h2, r, subj + 1)) == Expected(g1, r, col, info)
    {
      assert At(h2, r, subj) == At(h, r, subj) && At(h2, r, subj + 1) == At(h, r, subj + 1);
    }
  }

  /** The walk over rows 1 to `n - 1` raises exactly when one of those rows is bad. */
  lemma {:induction false} AnnotateUpToNone(g1: Grid, col: nat, subj: nat, info: map<string, Info>, n: nat)
    requires FreshColumns(g1, subj)
    ensures AnnotateUpTo(g1, col, subj, info, n).None? <==> exists r: nat :: 1 <= r < n && BadRow(g1, r, col, info)
  {
    if n > 1 {
      var prev := AnnotateUpTo(g1, col, subj, info, n - 1);
      AnnotateUpToNone(g1, col, subj, info, n - 1);
      if prev.Some? {
        var h := prev.value;
        AnnotateUpToSome(g1, col, subj, info, n - 1);
        AnnotateRowSpec(h, n - 1, col, subj, info);
        assert AnnotateUpTo(g1, col, subj, info, n) == AnnotateRow(h, n - 1, col, subj, info);
        assert At(h, n - 1, col) == At(g1, n - 1, col);
        assert BadRow(h, n - 1, col, info) == BadRow(g1, n - 1, col, info);
        if exists r: nat :: 1 <= r < n && BadRow(g1, r, col, info) {
          var r: nat :| 1 <= r < n && BadRow(g1, r, col, info);
          assert r == n - 1;
        }
      } else {
        var r: nat :| 1 <= r < n - 1 && BadRow(g1, r, col, info);
        assert AnnotateUpTo(g1, col, subj, info, n).None?;
      }
    }
  }

  /** Writing the labels changes row 0 in the two columns after the last one, and nothing else. */
  lemma LabelledFacts(g: Grid)
    ensures var m := MaxColumn(g); var g1 := Labelled(g);
      && At(g1, 0, m) == Str(SubjectLabel) && At(g1, 0, m + 1) == Str(NumberLabel)
      && (forall r: nat, c: nat :: r != 0 || (c != m && c != m + 1) ==> At(g1, r, c) == At(g, r, c))
      && MaxRow(g1) == MaxRow(g)
      && MaxColumn(g1) == m + 2
  {
    var m := MaxColumn(g);
    var h := SetAt(g, 0, m, Str(SubjectLabel));
    var g1 := SetAt(h, 0, m + 1, Str(NumberLabel));
    SetAtSpec(g, 0, m, Str(SubjectLabel));
    SetAtSpec(h, 0, m + 1, Str(NumberLabel));
    WidthLabelled(g, g1, m);
  }

  /** A sheet whose first row holds `m + 2` cells, at least as many as any row of `g`, whose other rows are `g`'s, is `m + 2` wide. */
  lemma WidthLabelled(g: Grid, g1: Grid, m: nat)
    requires m == MaxColumn(g) && |g1| == (if |g| == 0 then 1 else |g|) && |g1[0]| == m + 2
    requires forall r :: 0 < r < |g1| ==> |g1[r]| == |g[r]|
    ensures MaxRow(g1) == MaxRow(g) && MaxColumn(g1) == m + 2
  {
    var w := Width(g1);
    assert |g1[0]| <= w;
  }

  /** Below row 0 the labelled sheet reads as the original, so rows are judged alike on both. */
  lemma LabelledRows(g: Grid, col: nat, info: map<string, Info>, r: nat)
    requires r >= 1
    ensures BadRow(Labelled(g), r, col, info) == BadRow(g, r, col, info)
    ensures Expected(Labelled(g), r, col, info) == Expected(g, r, col, info)
  {
    LabelledFacts(g);
    assert At(Labelled(g), r, col) == At(g, r, col);
  }

  /** `update_workbook` raises, and does not save, exactly when a row's entry holds a value no cell can take. */
  lemma AnnotatedFails(g: Grid, info: map<string, Info>, linkHeader: string)
    ensures var col := UpdateColumn(g, linkHeader);
      Annotated(g, info, linkHeader).None? <==> exists r: nat :: 1 <= r < MaxRow(g) && BadRow(g, r, col, info)
  {
    var m := MaxColumn(g);
    var g1 := Labelled(g);
    var col := UpdateColumn(g, linkHeader);
    LabelledFacts(g);
    AnnotateUpToNone(g1, col, m, info, MaxRow(g1));
    forall r: nat | r >= 1 ensures BadRow(g1, r, col, info) == BadRow(g, r, col, info) {
      LabelledRows(g, col, info, r);
    }
  }

  /**
    The sheet `update_workbook` saves: the labels in row 0 above the two new
    columns; in every later row the pair of its domain's entry, or two empty cells;
    every other cell as it was.
  */
  lemma AnnotatedSaves(g: Grid, info: map<string, Info>, linkHeader: string)
    requires Annotated(g, info, linkHeader).Some?
    ensures var h := Annotated(g, info, linkHeader).value;
      var m := MaxColumn(g);
      var col := UpdateColumn(g, linkHeader);
      && At(h, 0, m) == Str(SubjectLabel) && At(h, 0, m + 1) == Str(NumberLabel)
      && (forall r: nat, c: nat :: c != m && c != m + 1 ==> At(h, r, c) == At(g, r, c))
      && (forall r: nat :: r >= 1 ==> (At(h, r, m), At(h, r, m + 1)) == Expected(g, r, col, info))
  {
    var m := MaxColumn(g);
    var g1 := Labelled(g);
    var col := UpdateColumn(g, linkHeader);
    LabelledFacts(g);
    AnnotateUpToSome(g1, col, m, info, MaxRow(g1));
    forall r: nat | r >= 1 ensures Expected(g1, r, col, info) == Expected(g, r, col, info) {
      LabelledRows(g, col, info, r);
    }
  }

  /**
    Unless the link header is one of the two new labels, `update_workbook` finds
    the link column where `extract_domains` found it.
  */
  lemma UpdateColumnAgrees(g: Grid, linkHeader: string)
    requires g != [] && linkHeader != SubjectLabel && linkHeader != NumberLabel
    ensures UpdateColumn(g, linkHeader) == LinkColumn(g[0], linkHeader)
  {
    var m := MaxColumn(g);
    var g1 := Labelled(g);
    var hdr := RowValues(g1, 0);
    var key := Str(linkHeader);
    LabelledFacts(g);
    assert |g[0]| <= m;
    forall c | 0 <= c < |g[0]| ensures hdr[c] == g[0][c] {
      assert At(g, 0, c) == g[0][c];
    }
    if key in g[0] {
      var j := LinkColumn(g[0], linkHeader);
      assert hdr[j] == key;
      var k := LinkColumn(hdr, linkHeader);
      assert k <= j;
    } else {
      forall c | 0 <= c < |hdr| ensures hdr[c] != key {
        if c < |g[0]| {
          assert hdr[c] == g[0][c];
        }
      }
    }
  }

  /**
    Every row that receives an ICP subject and number is matched under a domain
    that `extract_domains` lists for the same sheet.
  */
  lemma AnnotatedRowsAreExtracted(g: Grid, info: map<string, Info>, linkHeader: string, r: nat)
    requires linkHeader != SubjectLabel && linkHeader != NumberLabel
    requires 1 <= r && CellDomain(At(g, r, UpdateColumn(g, linkHeader))).Some?
    ensures CellDomain(At(g, r, UpdateColumn(g, linkHeader))).value in ExtractedDomains(g, linkHeader)
  {
    var col := UpdateColumn(g, linkHeader);
    assert r < |g|;
    UpdateColumnAgrees(g, linkHeader);
    ExtractedDomainsSpec(g, linkHeader);
    assert RowDomain(g[r], col) == CellDomain(At(g, r, col));
  }

  // ----- the saved sheet names the same domains -----

  /** What `f` names in column `col` of rows 1 to `n - 1`, read cell by cell. */
  function ColumnDomains(g: Grid, col: nat, n: nat, f: Cell -> Option<string>): seq<string> {
    if n <= 1 then []
    else
      match f(At(g, n - 1, col))
      case None => ColumnDomains(g, col, n - 1, f)
      case Some(d) => ColumnDomains(g, col, n - 1, f) + [d]
  }

  /** The row domains of the data rows are the link column read cell by cell. */
  lemma {:induction false} RowDomainsColumn(g: Grid, col: nat, n: nat)
    requires 1 <= n <= |g|
    ensures RowDomains(g[1..n], col) == ColumnDomains(g, col, n, CellDomain)
  {
    if n > 1 {
      RowDomainsColumn(g, col, n - 1);
      RowDomainsStep(g[1..n], n - 2, col);
      assert g[1..n][..n - 2] == g[1..n - 1];
      assert g[1..n][..n - 1] == g[1..n];
      assert RowDomain(g[n - 1], col) == CellDomain(At(g, n - 1, col));
    }
  }

  /** Rows past the end of the sheet name nothing. */
  lemma {:induction false} ColumnDomainsPast(g: Grid, col: nat, n: nat, f: Cell -> Option<string>)
    requires n >= |g| && f(Null) == None
    ensures ColumnDomains(g, col, n, f) == ColumnDomains(g, col, |g|, f)
  {
    if n > |g| {
      ColumnDomainsPast(g, col, n - 1, f);
    }
  }

  /** Two sheets that agree on column `col` below the header name the same there. */
  lemma {:induction false} ColumnDomainsAgree(g: Grid, h: Grid, col: nat, n: nat, f: Cell -> Option<string>)
    requires forall r: nat :: r >= 1 ==> At(g, r, col) == At(h, r, col)
    ensures ColumnDomains(g, col, n, f) == ColumnDomains(h, col, n, f)
  {
    if n > 1 {
      ColumnDomainsAgree(g, h, col, n - 1, f);
    }
  }

  /** Two header rows holding the link header at the same places give the same link column. */
  lemma LinkColumnSame(a: seq<Cell>, b: seq<Cell>, key: string)
    requires forall c: nat :: (c < |a| && a[c] == Str(key)) <==> (c < |b| && b[c] == Str(key))
    ensures LinkColumn(a, key) == LinkColumn(b, key)
  {
    assert (Str(key) in a) <==> (Str(key) in b) by {
      if Str(key) in a {
        var i :| 0 <= i < |a| && a[i] == Str(key);
        assert b[i] == Str(key);
      }
      if Str(key) in b {
        var i :| 0 <= i < |b| && b[i] == Str(key);
        assert a[i] == Str(key);
      }
    }
    if Str(key) in a {
      var j := LinkColumn(a, key);
      var k := LinkColumn(b, key);
      assert b[j] == Str(key);
      assert a[k] == Str(key);
    }
  }

  /**
    The sheet `update_workbook` saves names the same domains as the sheet it was
    made from, unless the link header is one of the two new labels.
  */
  lemma AnnotatedSameDomains(g: Grid, info: map<string, Info>, linkHeader: string)
    requires linkHeader != SubjectLabel && linkHeader != NumberLabel
    requires Annotated(g, info, linkHeader).Some?
    ensures ExtractedDomains(Annotated(g, info, linkHeader).value, linkHeader) == ExtractedDomains(g, linkHeader)
  {
    AnnotatedSaves(g, info, linkHeader);
    ColumnsAddedSameDomains(g, Annotated(g, info, linkHeader).value, linkHeader);
  }

  /**
    A sheet that differs from `g` only in the two columns after the last one, and
    holds the labels at the top of them, names the same domains as `g`.
  */
  lemma ColumnsAddedSameDomains(g: Grid, h: Grid, linkHeader: string)
    requires linkHeader != SubjectLabel && linkHeader != NumberLabel
    requires At(h, 0, MaxColumn(g)) == Str(SubjectLabel) && At(h, 0, MaxColumn(g) + 1) == Str(NumberLabel)
    requires forall r: nat, c: nat :: c != MaxColumn(g) && c != MaxColumn(g) + 1 ==> At(h, r, c) == At(g, r, c)
    ensures ExtractedDomains(h, linkHeader) == ExtractedDomains(g, linkHeader)
  {
    var m := MaxColumn(g);
    var row0 := if g == [] then [] else g[0];
    assert |row0| <= m by {
      assert |row0| <= Width(g);
    }
    HeaderColumnSame(g, h, m, linkHeader);
    var col := LinkColumn(row0, linkHeader);
    assert col < m;
    assert forall r: nat :: r >= 1 ==> At(h, r, col) == At(g, r, col);
    SameColumnDomains(g, h, col, linkHeader);
  }

  /** Adding the two labels after the last header cell leaves the link column where it was. */
  lemma HeaderColumnSame(g: Grid, h: Grid, m: nat, linkHeader: string)
    requires linkHeader != SubjectLabel && linkHeader != NumberLabel
    requires (if g == [] then 0 else |g[0]|) <= m
    requires At(h, 0, m) == Str(SubjectLabel) && At(h, 0, m + 1) == Str(NumberLabel)
    requires forall c: nat :: c != m && c != m + 1 ==> At(h, 0, c) == At(g, 0, c)
    ensures h != [] && LinkColumn(h[0], linkHeader) == LinkColumn(if g == [] then [] else g[0], linkHeader)
  {
    var key := Str(linkHeader);
    var row0 := if g == [] then [] else g[0];
    assert h != [] by {
      assert At(h, 0, m) != Null;
    }
    forall c: nat
      ensures (c < |h[0]| && h[0][c] == key) <==> (c < |row0| && row0[c] == key)
    {
      assert (c < |h[0]| && h[0][c] == key) <==> At(h, 0, c) == key;
      assert (c < |row0| && row0[c] == key) <==> At(g, 0, c) == key;
    }
    LinkColumnSame(h[0], row0, linkHeader);
  }

  /** Two sheets with the same link column, agreeing on it below the header, name the same domains. */
  lemma SameColumnDomains(g: Grid, h: Grid, col: nat, linkHeader: string)
    requires h != [] && LinkColumn(h[0], linkHeader) == col
    requires col == LinkColumn(if g == [] then [] else g[0], linkHeader)
    requires forall r: nat :: r >= 1 ==> At(h, r, col) == At(g, r, col)
    ensures ExtractedDomains(h, linkHeader) == ExtractedDomains(g, linkHeader)
  {
    var n := if |g| > |h| then |g| else |h|;
    RowDomainsColumn(h, col, |h|);
    assert h[1..|h|] == h[1..];
    assert CellDomain(Null) == None;
    ColumnDomainsPast(h, col, n, CellDomain);
    ColumnDomainsAgree(h, g, col, n, CellDomain);
    ColumnDomainsPast(g, col, n, CellDomain);
    if g != [] {
      RowDomainsColumn(g, col, |g|);
      assert g[1..|g|] == g[1..];
    }
  }
}
