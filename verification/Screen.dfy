/** `extract_styled_line`, `screen_styled` and `screen_content`, loop by loop. */
module Screen {
  import opened Prelude
  import opened Unicode
  import opened ScreenModel
  import opened ScreenTheorems

  /** The pending run joins the finished ones without breaking their form. */
  ghost predicate Pending(runs: seq<Run>, text: string, style: Option<Style>) {
    && Canonical(runs)
    && (style.None? ==> runs == [] && text == "")
    && (runs != [] && text != "" ==> runs[|runs| - 1].style != style.value)
    && (runs != [] ==> text != "")
  }

  ghost function PendingPaint(text: string, style: Option<Style>): seq<Painted> {
    if style.Some? then Paint(text, style.value) else []
  }

  /** One non-spacer cell: flush if the style changes, then append its characters. */
  method PushCell(runs: seq<Run>, text: string, style: Option<Style>, cell: Cell, glyph: string)
    returns (runs': seq<Run>, text': string)
    requires Pending(runs, text, style) && glyph != ""
    ensures Pending(runs', text', Some(cell.style))
    ensures Expand(runs') + PendingPaint(text', Some(cell.style))
         == Expand(runs) + PendingPaint(text, style) + Paint(glyph, cell.style)
  {
    hide Expand, Paint;
    runs', text' := runs, text;
    if style.Some? && style.value != cell.style && text != "" {
      runs', text' := runs + [Run(text, style.value)], "";
      ExpandPush(runs, Run(text, style.value));
      assert "" + glyph == glyph;
    } else {
      assert style.Some? || text == "";
      assert text == "" ==> runs == [];
      PaintConcat(text, glyph, cell.style);
      if text == "" {
        PaintNothing(cell.style);
        if style.Some? {
          PaintNothing(style.value);
        }
      }
      assert Expand(runs) + Paint(text, cell.style) + Paint(glyph, cell.style)
          == Expand(runs) + (Paint(text, cell.style) + Paint(glyph, cell.style));
    }
    text' := text' + glyph;
  }

  lemma {:induction false} PaintNothing(style: Style)
    ensures Paint("", style) == []
  {
  }

  /** A row as runs of one style each, without its blank, unstyled end. */
  method ExtractStyledLine(row: Row, lo: nat, hi: nat, line: nat, cursor: Cursor, opts: Options)
    returns (styled: StyledLine)
    requires hi <= |row|
    ensures styled.line == line && Shows(styled.runs, row, lo, hi, line, cursor, opts)
  {
    hide Expand, Paint, Canonical, PaintedRow;
    var runs: seq<Run>, text: string, style: Option<Style> := [], "", None;
    var col := lo;
    EmptyStart(row, lo, line, cursor, opts);
    while col < hi
      invariant lo <= col && (lo <= hi ==> col <= hi) && (hi < lo ==> col == lo)
      invariant Pending(runs, text, style)
      invariant Expand(runs) + PendingPaint(text, style) == Shown(row, lo, col, line, cursor, opts)
    {
      var cell := row[col];
      ghost var shown := Shown(row, lo, col, line, cursor, opts);
      RowStep(row, lo, col, line, cursor, opts);
      if !cell.spacer {
        var atCursor := cursor.row == line && cursor.col == col + 1;
        var ch := if atCursor && opts.cursorChar.Some? then opts.cursorChar.value else cell.c;
        runs, text := PushCell(runs, text, style, cell, [ch] + cell.zerowidth);
        style := Some(cell.style);
      }
      col := col + 1;
    }
    ghost var painted := PaintedRow(row, lo, hi, line, cursor, opts);
    assert Expand(runs) + PendingPaint(text, style) == painted by {
      ShownAll(row, lo, hi, line, cursor, opts);
    }
    runs := Flush(runs, text, style);
    ghost var all := runs;
    while |runs| > 0 && Droppable(runs[|runs| - 1])
      invariant DropRuns(runs) == DropRuns(all)
      decreases |runs|
    {
      runs := runs[..|runs| - 1];
    }
    return StyledLine(line, runs);
  }

  method Flush(runs: seq<Run>, text: string, style: Option<Style>) returns (all: seq<Run>)
    requires Pending(runs, text, style)
    ensures Canonical(all) && Expand(all) == Expand(runs) + PendingPaint(text, style)
  {
    all := runs;
    if text != "" && style.Some? {
      all := runs + [Run(text, style.value)];
      ExpandPush(runs, Run(text, style.value));
    }
  }

  /** What is to be shown of the columns from `lo` up to `col`. */
  ghost function Shown(row: Row, lo: nat, col: nat, line: nat, cursor: Cursor, opts: Options): seq<Painted> {
    if col <= |row| then PaintedRow(row, lo, col, line, cursor, opts) else []
  }

  lemma {:induction false} EmptyStart(row: Row, lo: nat, line: nat, cursor: Cursor, opts: Options)
    ensures Shown(row, lo, lo, line, cursor, opts) == [] && Expand([]) == [] && Canonical([])
  {
  }

  lemma {:induction false} RowStep(row: Row, lo: nat, col: nat, line: nat, cursor: Cursor, opts: Options)
    requires lo <= col < |row|
    ensures Shown(row, lo, col + 1, line, cursor, opts) == Shown(row, lo, col, line, cursor, opts)
      + Paint(StyledText(row[col], UnderCursor(line, col, cursor, opts), opts), row[col].style)
    ensures row[col].spacer ==> Shown(row, lo, col + 1, line, cursor, opts) == Shown(row, lo, col, line, cursor, opts)
  {
  }

  lemma {:induction false} ShownAll(row: Row, lo: nat, hi: nat, line: nat, cursor: Cursor, opts: Options)
    requires hi <= |row|
    ensures PaintedRow(row, lo, hi, line, cursor, opts) == Shown(row, lo, if lo <= hi then hi else lo, line, cursor, opts)
  {
  }

  // ----- the screen -----

  method ScreenStyled(g: Grid, cursor: Cursor, opts: Options) returns (shown: seq<StyledLine>)
    requires g.Valid()
    ensures StyledScreen(shown, g, cursor, opts)
  {
    hide Shows;
    var (lo, hi) := ResolveRange(opts.rows, |g.rows|);
    var (left, right) := ResolveRange(opts.cols, g.columns);
    shown := [];
    var i := lo;
    while i < hi
      invariant lo <= i && (lo <= hi ==> i <= hi) && (hi < lo ==> i == lo) && |shown| == i - lo
      invariant forall k | 0 <= k < |shown| ::
        shown[k].line == lo + k + 1 && Shows(shown[k].runs, g.rows[lo + k], left, right, lo + k + 1, cursor, opts)
    {
      var line := ExtractStyledLine(g.rows[i], left, right, i + 1, cursor, opts);
      shown := shown + [line];
      i := i + 1;
    }
    ghost var all := shown;
    assert StyledRows(all, g, cursor, opts);
    if !opts.includeEmpty {
      while |shown| > 0 && shown[|shown| - 1].runs == []
        invariant DropEmptyLines(shown) == DropEmptyLines(all)
        decreases |shown|
      {
        shown := shown[..|shown| - 1];
      }
    }
  }

  method ScreenContent(g: Grid, cursor: Cursor, opts: Options) returns (shown: seq<string>)
    requires g.Valid()
    ensures PlainScreen(shown, g, cursor, opts)
  {
    hide PlainLine;
    var (lo, hi) := ResolveRange(opts.rows, |g.rows|);
    var (left, right) := ResolveRange(opts.cols, g.columns);
    var lines: seq<string> := [];
    var i := lo;
    while i < hi
      invariant lo <= i && (lo <= hi ==> i <= hi) && (hi < lo ==> i == lo) && |lines| == i - lo
      invariant forall k | 0 <= k < |lines| :: lines[k] == PlainLine(g.rows[lo + k], left, right, lo + k + 1, cursor, opts)
    {
      var text := ReadLine(g.rows[i], left, right, i + 1, cursor, opts);
      lines := lines + [text];
      i := i + 1;
    }
    ghost var all := lines;
    assert PlainRows(all, g, cursor, opts);
    if !opts.includeEmpty {
      lines := PopBlank(lines);
    }
    shown := TrimEach(lines);
  }

  method ReadLine(row: Row, lo: nat, hi: nat, line: nat, cursor: Cursor, opts: Options) returns (text: string)
    requires hi <= |row|
    ensures text == PlainLine(row, lo, hi, line, cursor, opts)
  {
    hide PlainLine;
    text := "";
    if lo <= hi {
      NothingBetween(row, lo, line, cursor, opts);
    } else {
      assert PlainLine(row, lo, hi, line, cursor, opts) == "" by {
        PlainStep(row, lo, hi, line, cursor, opts);
      }
    }
    var col := lo;
    while col < hi
      invariant lo <= col && (lo <= hi ==> col <= hi && text == PlainLine(row, lo, col, line, cursor, opts))
      invariant hi < lo ==> text == ""
    {
      var cell := row[col];
      PlainStep(row, lo, col + 1, line, cursor, opts);
      if !cell.spacer {
        if cursor.row == line && cursor.col == col + 1 && opts.cursorChar.Some? {
          text := text + [opts.cursorChar.value];
        } else {
          text := text + ([cell.c] + cell.zerowidth);
        }
      }
      col := col + 1;
    }
  }

  lemma {:induction false} PlainStep(row: Row, lo: nat, hi: nat, line: nat, cursor: Cursor, opts: Options)
    requires hi <= |row|
    ensures PlainLine(row, lo, hi, line, cursor, opts) == if hi <= lo then "" else
      PlainLine(row, lo, hi - 1, line, cursor, opts) + PlainText(row[hi - 1], UnderCursor(line, hi - 1, cursor, opts), opts)
  {
  }

  method PopBlank(lines: seq<string>) returns (kept: seq<string>)
    ensures kept == DropBlankLines(lines)
  {
    kept := lines;
    while |kept| > 0 && Blank(kept[|kept| - 1])
      invariant DropBlankLines(kept) == DropBlankLines(lines)
      decreases |kept|
    {
      kept := kept[..|kept| - 1];
    }
  }

  method TrimEach(lines: seq<string>) returns (trimmed: seq<string>)
    ensures |trimmed| == |lines| && forall i | 0 <= i < |lines| :: trimmed[i] == TrimEnd(lines[i])
  {
    trimmed := [];
    for i := 0 to |lines|
      invariant |trimmed| == i && forall k | 0 <= k < i :: trimmed[k] == TrimEnd(lines[k])
    {
      trimmed := trimmed + [TrimEnd(lines[i])];
    }
  }
}
