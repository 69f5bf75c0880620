/** The plain and the styled view of a terminal grid. */
module ScreenModel {
  import opened Prelude
  import opened Unicode

  datatype Style = Style(
    fg: Option<string>, bg: Option<string>,
    bold: bool, italic: bool, underline: bool, strikeout: bool, dim: bool, inverse: bool)

  /** `spacer` marks the blank half of a wide character; `zerowidth` holds the combining characters. */
  datatype Cell = Cell(c: char, zerowidth: string, spacer: bool, style: Style)

  type Row = seq<Cell>

  /** Rows of equal width. */
  datatype Grid = Grid(rows: seq<Row>, columns: nat) {
    ghost predicate Valid() {
      forall row | row in rows :: |row| == columns
    }
  }

  /** Both counted from 1. */
  datatype Cursor = Cursor(row: nat, col: nat)

  datatype Range = Range(start: nat, end: nat)

  datatype Options = Options(rows: Option<Range>, cols: Option<Range>, includeEmpty: bool, cursorChar: Option<char>)

  datatype Run = Run(text: string, style: Style)

  datatype StyledLine = StyledLine(line: nat, runs: seq<Run>)

  // ----- one cell -----

  predicate UnderCursor(line: nat, col: nat, cursor: Cursor, opts: Options) {
    cursor.row == line && cursor.col == col + 1 && opts.cursorChar.Some?
  }

  /** The styled view replaces only the base character by the cursor's. */
  function StyledText(cell: Cell, atCursor: bool, opts: Options): string
    requires atCursor ==> opts.cursorChar.Some?
  {
    if cell.spacer then "" else [if atCursor then opts.cursorChar.value else cell.c] + cell.zerowidth
  }

  /** The plain view replaces the whole cell. */
  function PlainText(cell: Cell, atCursor: bool, opts: Options): string
    requires atCursor ==> opts.cursorChar.Some?
  {
    if cell.spacer then "" else if atCursor then [opts.cursorChar.value] else [cell.c] + cell.zerowidth
  }

  // ----- a row -----

  function PlainLine(row: Row, lo: nat, hi: nat, line: nat, cursor: Cursor, opts: Options): string
    requires hi <= |row|
  {
    if hi <= lo then ""
    else
      PlainLine(row, lo, hi - 1, line, cursor, opts)
      + PlainText(row[hi - 1], UnderCursor(line, hi - 1, cursor, opts), opts)
  }

  /** A character with the style it is shown in. */
  datatype Painted = Painted(c: char, style: Style)

  function Paint(text: string, style: Style): seq<Painted> {
    seq(|text|, i requires 0 <= i < |text| => Painted(text[i], style))
  }

  /** What the styled view of a row must show, before any coalescing. */
  function PaintedRow(row: Row, lo: nat, hi: nat, line: nat, cursor: Cursor, opts: Options): seq<Painted>
    requires hi <= |row|
  {
    if hi <= lo then []
    else
      PaintedRow(row, lo, hi - 1, line, cursor, opts)
      + Paint(StyledText(row[hi - 1], UnderCursor(line, hi - 1, cursor, opts), opts), row[hi - 1].style)
  }

  function Expand(runs: seq<Run>): seq<Painted> {
    if runs == [] then [] else Expand(runs[..|runs| - 1]) + Paint(runs[|runs| - 1].text, runs[|runs| - 1].style)
  }

  function Characters(painted: seq<Painted>): string {
    seq(|painted|, i requires 0 <= i < |painted| => painted[i].c)
  }

  function RunText(runs: seq<Run>): string {
    if runs == [] then "" else RunText(runs[..|runs| - 1]) + runs[|runs| - 1].text
  }

  /** No empty runs, and no two neighbours that should be one. */
  ghost predicate Canonical(runs: seq<Run>) {
    && (forall i | 0 <= i < |runs| :: runs[i].text != "")
    && (forall i | 0 < i < |runs| :: runs[i - 1].style != runs[i].style)
  }

  /** A run the styled view may drop from the end of a line. */
  predicate Droppable(run: Run) {
    Blank(run.text) && run.style.fg.None? && run.style.bg.None? && !run.style.bold
  }

  function DropRuns(runs: seq<Run>): seq<Run> {
    if runs != [] && Droppable(runs[|runs| - 1]) then DropRuns(runs[..|runs| - 1]) else runs
  }

  function TrimEnd(s: string): string {
    if s != "" && Whitespace(s[|s| - 1]) then TrimEnd(s[..|s| - 1]) else s
  }

  // ----- the screen -----

  /** From 1-based and inclusive to 0-based and half open; the start may pass the end. */
  function ResolveRange(range: Option<Range>, max: nat): (nat, nat) {
    match range
    case None => (0, max)
    case Some(r) =>
      var start := if r.start == 0 then 0 else r.start - 1;
      (if start < max then start else max, if r.end < max then r.end else max)
  }

  function DropBlankLines(lines: seq<string>): seq<string> {
    if lines != [] && Blank(lines[|lines| - 1]) then DropBlankLines(lines[..|lines| - 1]) else lines
  }

  function DropEmptyLines(lines: seq<StyledLine>): seq<StyledLine> {
    if lines != [] && lines[|lines| - 1].runs == [] then DropEmptyLines(lines[..|lines| - 1]) else lines
  }
}
