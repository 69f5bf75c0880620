/** The styled view shows every character in its style, and what the plain view shows. */
module ScreenTheorems {
  import opened Prelude
  import opened Unicode
  import opened ScreenModel

  // ----- coalescing -----

  lemma {:induction false} ExpandPush(runs: seq<Run>, run: Run)
    ensures Expand(runs + [run]) == Expand(runs) + Paint(run.text, run.style)
  {
    assert (runs + [run])[..|runs|] == runs;
  }

  lemma {:induction false} PaintConcat(a: string, b: string, style: Style)
    ensures Paint(a + b, style) == Paint(a, style) + Paint(b, style)
  {
  }

  lemma {:induction false} ExpandText(runs: seq<Run>)
    ensures Characters(Expand(runs)) == RunText(runs)
    decreases |runs|
  {
    if runs != [] {
      ExpandText(runs[..|runs| - 1]);
    }
  }

  lemma {:induction false} CanonicalPrefix(runs: seq<Run>)
    requires Canonical(runs) && runs != []
    ensures Canonical(runs[..|runs| - 1])
  {
  }

  /** The last style change of a painted line is where its last canonical run starts. */
  lemma {:induction false} LastRun(runs: seq<Run>)
    requires Canonical(runs) && runs != []
    ensures var n, k := |Expand(runs)|, |runs[|runs| - 1].text|;
      && 0 < k <= n
      && (forall i | n - k <= i < n :: Expand(runs)[i].style == runs[|runs| - 1].style)
      && (k < n ==> Expand(runs)[n - k - 1].style != runs[|runs| - 1].style)
      && Expand(runs)[..n - k] == Expand(runs[..|runs| - 1])
  {
    var init := runs[..|runs| - 1];
    if init != [] {
      assert Expand(init) == Expand(init[..|init| - 1]) + Paint(init[|init| - 1].text, init[|init| - 1].style);
      assert runs[|runs| - 2] == init[|init| - 1];
    }
  }

  lemma {:induction false} SameLastLength(a: seq<Run>, b: seq<Run>)
    requires Canonical(a) && Canonical(b) && Expand(a) == Expand(b) && a != [] && b != []
    ensures a[|a| - 1].style == b[|b| - 1].style && |a[|a| - 1].text| == |b[|b| - 1].text|
  {
    hide Expand, Canonical;
    LastRun(a);
    LastRun(b);
    assert Expand(a)[|Expand(a)| - 1].style == a[|a| - 1].style;
  }

  lemma {:induction false} EmptyExpansion(runs: seq<Run>)
    requires Canonical(runs)
    ensures Expand(runs) == [] <==> runs == []
  {
    if runs != [] {
      LastRun(runs);
    }
  }

  /** Coalescing has one answer: canonical runs that show the same are the same. */
  lemma {:induction false} CanonicalIsUnique(a: seq<Run>, b: seq<Run>)
    requires Canonical(a) && Canonical(b) && Expand(a) == Expand(b)
    ensures a == b
    decreases |a|
  {
    hide Expand, Canonical;
    EmptyExpansion(a);
    EmptyExpansion(b);
    if a != [] && b != [] {
      SameLastLength(a, b);
      SameLastText(a, b);
      LastRun(a);
      LastRun(b);
      CanonicalPrefix(a);
      CanonicalPrefix(b);
      CanonicalIsUnique(a[..|a| - 1], b[..|b| - 1]);
      assert a == a[..|a| - 1] + [a[|a| - 1]] && b == b[..|b| - 1] + [b[|b| - 1]];
    }
  }

  lemma {:induction false} SameLastText(a: seq<Run>, b: seq<Run>)
    requires a != [] && b != [] && Expand(a) == Expand(b)
    requires |a[|a| - 1].text| == |b[|b| - 1].text|
    ensures a[|a| - 1].text == b[|b| - 1].text
  {
    var x, y, all := a[|a| - 1].text, b[|b| - 1].text, Expand(a);
    forall i | 0 <= i < |x|
      ensures x[i] == y[i]
    {
      assert all[|all| - |x| + i].c == x[i];
      assert all[|all| - |y| + i].c == y[i];
    }
  }

  // ----- trimming -----

  lemma {:induction false} TrimEndMeans(s: string)
    ensures TrimEnd(s) <= s && Blank(s[|TrimEnd(s)|..])
    ensures TrimEnd(s) == "" || !Whitespace(TrimEnd(s)[|TrimEnd(s)| - 1])
    decreases |s|
  {
    if s != "" && Whitespace(s[|s| - 1]) {
      var init := s[..|s| - 1];
      TrimEndMeans(init);
      var k := |TrimEnd(s)|;
      forall i | 0 <= i < |s[k..]|
        ensures Whitespace(s[k..][i])
      {
        if k + i < |init| {
          assert s[k..][i] == init[k..][i];
        }
      }
    }
  }

  /** Blanks at the end do not show in a trimmed line. */
  lemma {:induction false} TrimEndIgnoresBlank(s: string, blanks: string)
    requires Blank(blanks)
    ensures TrimEnd(s + blanks) == TrimEnd(s)
    decreases |blanks|
  {
    if blanks == "" {
      assert s + blanks == s;
    } else {
      var t := s + blanks;
      assert t[..|t| - 1] == s + blanks[..|blanks| - 1];
      TrimEndIgnoresBlank(s, blanks[..|blanks| - 1]);
    }
  }

  lemma {:induction false} TrimEndKeeps(s: string, t: string)
    requires TrimEnd(t) != ""
    ensures TrimEnd(s + t) == s + TrimEnd(t)
    decreases |t|
  {
    if Whitespace(t[|t| - 1]) {
      assert (s + t)[..|s + t| - 1] == s + t[..|t| - 1];
      TrimEndKeeps(s, t[..|t| - 1]);
    }
  }

  lemma {:induction false} TrimEndEmptyIff(s: string)
    ensures TrimEnd(s) == "" <==> Blank(s)
  {
    TrimEndMeans(s);
    if TrimEnd(s) == "" {
      assert s[0..] == s;
    } else {
      var k := |TrimEnd(s)| - 1;
      assert s[k] == TrimEnd(s)[k];
    }
  }

  /** What is dropped from the end of a styled line is blank, uncoloured and not bold, and only that. */
  lemma {:induction false} DropRunsMeans(runs: seq<Run>)
    ensures DropRuns(runs) <= runs
    ensures forall i | |DropRuns(runs)| <= i < |runs| ::
      Blank(runs[i].text) && runs[i].style.fg.None? && runs[i].style.bg.None? && !runs[i].style.bold
    ensures DropRuns(runs) != [] ==>
      var last := DropRuns(runs)[|DropRuns(runs)| - 1];
      !Blank(last.text) || last.style.fg.Some? || last.style.bg.Some? || last.style.bold
    decreases |runs|
  {
    if runs != [] && Droppable(runs[|runs| - 1]) {
      DropRunsMeans(runs[..|runs| - 1]);
    }
  }

  lemma {:induction false} DropRunsText(runs: seq<Run>)
    ensures TrimEnd(RunText(DropRuns(runs))) == TrimEnd(RunText(runs))
    decreases |runs|
  {
    if runs != [] && Droppable(runs[|runs| - 1]) {
      DropRunsText(runs[..|runs| - 1]);
      TrimEndIgnoresBlank(RunText(runs[..|runs| - 1]), runs[|runs| - 1].text);
    }
  }

  // ----- one line, both views -----

  /** The cursor character covers a cell of this line whose combining characters the styled view still shows. */
  predicate Covers(row: Row, lo: nat, hi: nat, line: nat, cursor: Cursor, opts: Options)
    requires hi <= |row|
  {
    && opts.cursorChar.Some? && cursor.row == line && lo < cursor.col <= hi
    && !row[cursor.col - 1].spacer && row[cursor.col - 1].zerowidth != ""
  }

  lemma {:induction false} SameTextUncovered(row: Row, lo: nat, hi: nat, line: nat, cursor: Cursor, opts: Options)
    requires hi <= |row| && !Covers(row, lo, hi, line, cursor, opts)
    ensures Characters(PaintedRow(row, lo, hi, line, cursor, opts)) == PlainLine(row, lo, hi, line, cursor, opts)
    decreases hi
  {
    hide Characters, PaintedRow, PlainLine;
    if lo < hi {
      SameTextUncovered(row, lo, hi - 1, line, cursor, opts);
      LineStep(row, lo, hi, line, cursor, opts);
    } else {
      LineIsEmpty(row, lo, hi, line, cursor, opts);
    }
  }

  lemma {:induction false} LineIsEmpty(row: Row, lo: nat, hi: nat, line: nat, cursor: Cursor, opts: Options)
    requires hi <= |row| && hi <= lo
    ensures Characters(PaintedRow(row, lo, hi, line, cursor, opts)) == "" == PlainLine(row, lo, hi, line, cursor, opts)
  {
  }

  lemma {:induction false} CharactersPush(painted: seq<Painted>, text: string, style: Style)
    ensures Characters(painted + Paint(text, style)) == Characters(painted) + text
  {
  }

  lemma {:induction false} LineStep(row: Row, lo: nat, hi: nat, line: nat, cursor: Cursor, opts: Options)
    requires lo < hi <= |row|
    ensures var at := UnderCursor(line, hi - 1, cursor, opts);
      && PlainLine(row, lo, hi, line, cursor, opts)
         == PlainLine(row, lo, hi - 1, line, cursor, opts) + PlainText(row[hi - 1], at, opts)
      && Characters(PaintedRow(row, lo, hi, line, cursor, opts))
         == Characters(PaintedRow(row, lo, hi - 1, line, cursor, opts)) + StyledText(row[hi - 1], at, opts)
  {
    hide Characters, Paint;
    var at := UnderCursor(line, hi - 1, cursor, opts);
    CharactersPush(PaintedRow(row, lo, hi - 1, line, cursor, opts), StyledText(row[hi - 1], at, opts), row[hi - 1].style);
  }

  /** Under a covering cursor the styled text is the plain one with the combining characters put back. */
  lemma {:induction false} CoveredText(row: Row, lo: nat, hi: nat, line: nat, cursor: Cursor, opts: Options)
    requires hi <= |row| && Covers(row, lo, hi, line, cursor, opts)
    ensures var before := PlainLine(row, lo, cursor.col, line, cursor, opts);
      var rest := PlainLine(row, cursor.col, hi, line, cursor, opts);
      && PlainLine(row, lo, hi, line, cursor, opts) == before + rest
      && Characters(PaintedRow(row, lo, hi, line, cursor, opts)) == before + row[cursor.col - 1].zerowidth + rest
    decreases hi
  {
    hide PaintedRow, Characters, PlainLine;
    var before, extra := PlainLine(row, lo, cursor.col, line, cursor, opts), row[cursor.col - 1].zerowidth;
    LineStep(row, lo, hi, line, cursor, opts);
    if hi == cursor.col {
      SameTextUncovered(row, lo, hi - 1, line, cursor, opts);
      assert PlainLine(row, hi, hi, line, cursor, opts) == "" by {
        NothingBetween(row, hi, line, cursor, opts);
      }
    } else {
      CoveredText(row, lo, hi - 1, line, cursor, opts);
      LineStep(row, cursor.col, hi, line, cursor, opts);
      var rest := PlainLine(row, cursor.col, hi - 1, line, cursor, opts);
      var last := PlainText(row[hi - 1], false, opts);
      assert before + extra + rest + last == before + extra + (rest + last);
      assert before + rest + last == before + (rest + last);
    }
  }

  lemma {:induction false} NothingBetween(row: Row, at: nat, line: nat, cursor: Cursor, opts: Options)
    requires at <= |row|
    ensures PlainLine(row, at, at, line, cursor, opts) == ""
  {
  }

  /** The cursor hides what the styled view shows unless all of it, and all that follows, is blank. */
  predicate Disagrees(row: Row, lo: nat, hi: nat, line: nat, cursor: Cursor, opts: Options)
    requires hi <= |row|
  {
    && Covers(row, lo, hi, line, cursor, opts)
    && !(Blank(row[cursor.col - 1].zerowidth) && Blank(PlainLine(row, cursor.col, hi, line, cursor, opts)))
  }

  lemma {:induction false} InsertionShows(before: string, extra: string, rest: string)
    requires extra != ""
    ensures TrimEnd(before + extra + rest) == TrimEnd(before + rest) <==> Blank(extra) && Blank(rest)
  {
    TrimEndEmptyIff(rest);
    TrimEndEmptyIff(extra);
    if Blank(rest) {
      TrimEndIgnoresBlank(before + extra, rest);
      TrimEndIgnoresBlank(before, rest);
      if Blank(extra) {
        TrimEndIgnoresBlank(before, extra);
      } else {
        TrimEndKeeps(before, extra);
        TrimEndMeans(before);
      }
    } else {
      TrimEndKeeps(before + extra, rest);
      TrimEndKeeps(before, rest);
      assert |TrimEnd(before + extra + rest)| > |TrimEnd(before + rest)|;
    }
  }

  /**
   * The runs a row is shown as: whatever list of runs is canonical and shows
   * the row, with its droppable end removed.
   */
  ghost predicate Shows(runs: seq<Run>, row: Row, lo: nat, hi: nat, line: nat, cursor: Cursor, opts: Options)
    requires hi <= |row|
  {
    exists all :: Canonical(all) && Expand(all) == PaintedRow(row, lo, hi, line, cursor, opts) && runs == DropRuns(all)
  }

  lemma {:induction false} ShowsIsUnique(a: seq<Run>, b: seq<Run>, row: Row, lo: nat, hi: nat, line: nat, cursor: Cursor, opts: Options)
    requires hi <= |row| && Shows(a, row, lo, hi, line, cursor, opts) && Shows(b, row, lo, hi, line, cursor, opts)
    ensures a == b
  {
    hide DropRuns, Expand, PaintedRow, Canonical;
    var x :| Canonical(x) && Expand(x) == PaintedRow(row, lo, hi, line, cursor, opts) && a == DropRuns(x);
    var y :| Canonical(y) && Expand(y) == PaintedRow(row, lo, hi, line, cursor, opts) && b == DropRuns(y);
    CanonicalIsUnique(x, y);
  }

  /** Runs shown are never empty, and neighbours differ in style. */
  lemma {:induction false} ShownIsCanonical(runs: seq<Run>, row: Row, lo: nat, hi: nat, line: nat, cursor: Cursor, opts: Options)
    requires hi <= |row| && Shows(runs, row, lo, hi, line, cursor, opts)
    ensures Canonical(runs)
  {
    hide DropRuns, Expand, PaintedRow;
    var all :| Canonical(all) && Expand(all) == PaintedRow(row, lo, hi, line, cursor, opts) && runs == DropRuns(all);
    DropRunsMeans(all);
  }

  lemma {:induction false} ShownText(runs: seq<Run>, row: Row, lo: nat, hi: nat, line: nat, cursor: Cursor, opts: Options)
    requires hi <= |row| && Shows(runs, row, lo, hi, line, cursor, opts)
    ensures TrimEnd(RunText(runs)) == TrimEnd(Characters(PaintedRow(row, lo, hi, line, cursor, opts)))
  {
    hide DropRuns, Expand, PaintedRow, Canonical, RunText, TrimEnd, Characters;
    var all :| Canonical(all) && Expand(all) == PaintedRow(row, lo, hi, line, cursor, opts) && runs == DropRuns(all);
    DropRunsText(all);
    ExpandText(all);
  }

  /** The trimmed text of the styled line is the plain line exactly when the cursor hides nothing. */
  lemma {:induction false} LineAgreesIff(runs: seq<Run>, row: Row, lo: nat, hi: nat, line: nat, cursor: Cursor, opts: Options)
    requires hi <= |row| && Shows(runs, row, lo, hi, line, cursor, opts)
    ensures TrimEnd(RunText(runs)) == TrimEnd(PlainLine(row, lo, hi, line, cursor, opts))
      <==> !Disagrees(row, lo, hi, line, cursor, opts)
  {
    hide Shows, TrimEnd, RunText, PaintedRow, PlainLine, Characters, Blank;
    ShownText(runs, row, lo, hi, line, cursor, opts);
    if Covers(row, lo, hi, line, cursor, opts) {
      CoveredText(row, lo, hi, line, cursor, opts);
      InsertionShows(PlainLine(row, lo, cursor.col, line, cursor, opts), row[cursor.col - 1].zerowidth,
                     PlainLine(row, cursor.col, hi, line, cursor, opts));
    } else {
      SameTextUncovered(row, lo, hi, line, cursor, opts);
    }
  }

  /** A line the styled view shows nothing of is blank in the plain view, cursor or not. */
  lemma {:induction false} EmptyLineIsBlank(row: Row, lo: nat, hi: nat, line: nat, cursor: Cursor, opts: Options)
    requires hi <= |row| && Shows([], row, lo, hi, line, cursor, opts)
    ensures Blank(PlainLine(row, lo, hi, line, cursor, opts))
  {
    hide Shows, PaintedRow, PlainLine, TrimEnd;
    ShownText([], row, lo, hi, line, cursor, opts);
    assert TrimEnd("") == "" by {
      TrimEndMeans("");
    }
    var painted := Characters(PaintedRow(row, lo, hi, line, cursor, opts));
    TrimEndEmptyIff(painted);
    if Covers(row, lo, hi, line, cursor, opts) {
      CoveredText(row, lo, hi, line, cursor, opts);
      BlankParts(PlainLine(row, lo, cursor.col, line, cursor, opts), row[cursor.col - 1].zerowidth,
                 PlainLine(row, cursor.col, hi, line, cursor, opts));
    } else {
      SameTextUncovered(row, lo, hi, line, cursor, opts);
    }
  }

  lemma {:induction false} BlankParts(before: string, extra: string, rest: string)
    requires Blank(before + extra + rest)
    ensures Blank(before + rest)
  {
    var all := before + extra + rest;
    forall i | 0 <= i < |before + rest|
      ensures Whitespace((before + rest)[i])
    {
      assert (before + rest)[i] == all[if i < |before| then i else i + |extra|];
    }
  }

  // ----- the screen, both views -----

  /** A range selects the rows or columns from its start to its end, both counted from 1. */
  lemma {:induction false} RangeMeans(range: Option<Range>, max: nat, i: nat)
    ensures var (lo, hi) := ResolveRange(range, max);
      && lo <= max && hi <= max
      && (lo <= i < hi <==> i < max && (range.Some? ==> range.value.start <= i + 1 <= range.value.end))
  {
  }

  /** The selected rows, each as the plain view reads it before trimming. */
  ghost predicate PlainRows(lines: seq<string>, g: Grid, cursor: Cursor, opts: Options)
    requires g.Valid()
  {
    var (lo, hi) := ResolveRange(opts.rows, |g.rows|);
    var (left, right) := ResolveRange(opts.cols, g.columns);
    && |lines| == (if lo < hi then hi - lo else 0)
    && forall i | 0 <= i < |lines| :: lines[i] == PlainLine(g.rows[lo + i], left, right, lo + i + 1, cursor, opts)
  }

  /** The selected rows, each as its runs. */
  ghost predicate StyledRows(lines: seq<StyledLine>, g: Grid, cursor: Cursor, opts: Options)
    requires g.Valid()
  {
    var (lo, hi) := ResolveRange(opts.rows, |g.rows|);
    var (left, right) := ResolveRange(opts.cols, g.columns);
    && |lines| == (if lo < hi then hi - lo else 0)
    && forall i | 0 <= i < |lines| ::
         && lines[i].line == lo + i + 1
         && Shows(lines[i].runs, g.rows[lo + i], left, right, lo + i + 1, cursor, opts)
  }

  /** What `screen_content` returns. */
  ghost predicate PlainScreen(shown: seq<string>, g: Grid, cursor: Cursor, opts: Options)
    requires g.Valid()
  {
    exists all ::
      && PlainRows(all, g, cursor, opts)
      && var kept := if opts.includeEmpty then all else DropBlankLines(all);
      && |shown| == |kept| && forall i | 0 <= i < |kept| :: shown[i] == TrimEnd(kept[i])
  }

  /** What `screen_styled` returns. */
  ghost predicate StyledScreen(shown: seq<StyledLine>, g: Grid, cursor: Cursor, opts: Options)
    requires g.Valid()
  {
    exists all ::
      && StyledRows(all, g, cursor, opts)
      && shown == if opts.includeEmpty then all else DropEmptyLines(all)
  }

  lemma {:induction false} DropBlankLinesMeans(lines: seq<string>)
    ensures DropBlankLines(lines) <= lines
    ensures DropBlankLines(lines) != [] ==> !Blank(DropBlankLines(lines)[|DropBlankLines(lines)| - 1])
    ensures forall i | |DropBlankLines(lines)| <= i < |lines| :: Blank(lines[i])
    decreases |lines|
  {
    if lines != [] && Blank(lines[|lines| - 1]) {
      DropBlankLinesMeans(lines[..|lines| - 1]);
    }
  }

  lemma {:induction false} DropEmptyLinesMeans(lines: seq<StyledLine>)
    ensures DropEmptyLines(lines) <= lines
    ensures DropEmptyLines(lines) != [] ==> DropEmptyLines(lines)[|DropEmptyLines(lines)| - 1].runs != []
    ensures forall i | |DropEmptyLines(lines)| <= i < |lines| :: lines[i].runs == []
    decreases |lines|
  {
    if lines != [] && lines[|lines| - 1].runs == [] {
      DropEmptyLinesMeans(lines[..|lines| - 1]);
    }
  }

  /** The styled view drops no line that the plain view keeps. */
  lemma {:induction false} StyledKeepsMore(plain: seq<string>, styled: seq<StyledLine>, g: Grid, cursor: Cursor, opts: Options)
    requires g.Valid() && PlainRows(plain, g, cursor, opts) && StyledRows(styled, g, cursor, opts)
    ensures |DropBlankLines(plain)| <= |DropEmptyLines(styled)|
  {
    hide DropBlankLines, DropEmptyLines, Shows, PlainLine, Blank;
    DropBlankLinesMeans(plain);
    DropEmptyLinesMeans(styled);
    var n := |DropEmptyLines(styled)|;
    if n < |DropBlankLines(plain)| {
      var k := |DropBlankLines(plain)| - 1;
      var (lo, _) := ResolveRange(opts.rows, |g.rows|);
      var (left, right) := ResolveRange(opts.cols, g.columns);
      assert styled[k].runs == [];
      EmptyLineIsBlank(g.rows[lo + k], left, right, lo + k + 1, cursor, opts);
      assert false;
    }
  }

  lemma {:induction false} StyledRowIsUnique(a: seq<StyledLine>, b: seq<StyledLine>, g: Grid, i: nat, cursor: Cursor, opts: Options)
    requires g.Valid() && StyledRows(a, g, cursor, opts) && StyledRows(b, g, cursor, opts) && i < |a|
    ensures |a| == |b| && a[i] == b[i]
  {
    hide ResolveRange, Shows;
    var (lo, _) := ResolveRange(opts.rows, |g.rows|);
    var (left, right) := ResolveRange(opts.cols, g.columns);
    RangeMeans(opts.cols, g.columns, 0);
    RangeMeans(opts.rows, |g.rows|, lo + i);
    ShowsIsUnique(a[i].runs, b[i].runs, g.rows[lo + i], left, right, lo + i + 1, cursor, opts);
  }

  lemma {:induction false} StyledRowsAreUnique(a: seq<StyledLine>, b: seq<StyledLine>, g: Grid, cursor: Cursor, opts: Options)
    requires g.Valid() && StyledRows(a, g, cursor, opts) && StyledRows(b, g, cursor, opts)
    ensures a == b
  {
    assert |a| == |b|;
    hide StyledRows;
    forall i | 0 <= i < |a|
      ensures a[i] == b[i]
    {
      StyledRowIsUnique(a, b, g, i, cursor, opts);
    }
  }

  /** The grid, the cursor and the options leave the styled view no choice. */
  lemma {:induction false} StyledScreenIsUnique(a: seq<StyledLine>, b: seq<StyledLine>, g: Grid, cursor: Cursor, opts: Options)
    requires g.Valid() && StyledScreen(a, g, cursor, opts) && StyledScreen(b, g, cursor, opts)
    ensures a == b
  {
    hide DropEmptyLines, StyledRows;
    var x :| StyledRows(x, g, cursor, opts) && a == if opts.includeEmpty then x else DropEmptyLines(x);
    var y :| StyledRows(y, g, cursor, opts) && b == if opts.includeEmpty then y else DropEmptyLines(y);
    StyledRowsAreUnique(x, y, g, cursor, opts);
  }

  /** The row on line `i` of a view, with the cursor as it falls there. */
  ghost predicate HiddenAt(g: Grid, i: nat, cursor: Cursor, opts: Options)
    requires g.Valid()
  {
    var (lo, _) := ResolveRange(opts.rows, |g.rows|);
    var (left, right) := ResolveRange(opts.cols, g.columns);
    lo + i < |g.rows| && Disagrees(g.rows[lo + i], left, right, lo + i + 1, cursor, opts)
  }

  lemma {:induction false} SameRowCount(plain: seq<string>, styled: seq<StyledLine>, g: Grid, cursor: Cursor, opts: Options)
    requires g.Valid() && PlainRows(plain, g, cursor, opts) && StyledRows(styled, g, cursor, opts)
    ensures |plain| == |styled|
  {
  }

  lemma {:induction false} RowsAgreeIff(plain: seq<string>, styled: seq<StyledLine>, g: Grid, i: nat, cursor: Cursor, opts: Options)
    requires g.Valid() && PlainRows(plain, g, cursor, opts) && StyledRows(styled, g, cursor, opts) && i < |plain|
    ensures TrimEnd(plain[i]) == TrimEnd(RunText(styled[i].runs)) <==> !HiddenAt(g, i, cursor, opts)
  {
    hide Shows, PlainLine, TrimEnd, RunText, Disagrees, ResolveRange;
    var (lo, _) := ResolveRange(opts.rows, |g.rows|);
    var (left, right) := ResolveRange(opts.cols, g.columns);
    RangeMeans(opts.cols, g.columns, 0);
    RangeMeans(opts.rows, |g.rows|, lo + i);
    LineAgreesIff(styled[i].runs, g.rows[lo + i], left, right, lo + i + 1, cursor, opts);
  }

  /**
   * The two views of one screen: the styled one has every line of the plain one,
   * and each plain line is the trimmed text of its runs, exactly on those lines
   * where the cursor character hides nothing.
   */
  lemma {:induction false} ViewsAgree(plain: seq<string>, styled: seq<StyledLine>, g: Grid, cursor: Cursor, opts: Options)
    requires g.Valid() && PlainScreen(plain, g, cursor, opts) && StyledScreen(styled, g, cursor, opts)
    ensures |plain| <= |styled|
    ensures forall i | 0 <= i < |plain| :: plain[i] == TrimEnd(RunText(styled[i].runs)) <==> !HiddenAt(g, i, cursor, opts)
  {
    hide DropBlankLines, DropEmptyLines, PlainRows, StyledRows, TrimEnd, RunText, HiddenAt;
    var rows :| PlainRows(rows, g, cursor, opts)
      && var kept := if opts.includeEmpty then rows else DropBlankLines(rows);
      && |plain| == |kept| && forall i | 0 <= i < |kept| :: plain[i] == TrimEnd(kept[i]);
    var lines :| StyledRows(lines, g, cursor, opts)
      && styled == if opts.includeEmpty then lines else DropEmptyLines(lines);
    StyledKeepsMore(rows, lines, g, cursor, opts);
    SameRowCount(rows, lines, g, cursor, opts);
    DropBlankLinesMeans(rows);
    DropEmptyLinesMeans(lines);
    forall i | 0 <= i < |plain|
      ensures plain[i] == TrimEnd(RunText(styled[i].runs)) <==> !HiddenAt(g, i, cursor, opts)
    {
      assert styled[i] == lines[i] && plain[i] == TrimEnd(rows[i]);
      RowsAgreeIff(rows, lines, g, i, cursor, opts);
    }
  }

  /** Without a cursor character the views agree on every line. */
  lemma {:induction false} ViewsAgreeWithoutCursor(plain: seq<string>, styled: seq<StyledLine>, g: Grid, cursor: Cursor, opts: Options)
    requires g.Valid() && PlainScreen(plain, g, cursor, opts) && StyledScreen(styled, g, cursor, opts)
    requires opts.cursorChar.None?
    ensures |plain| <= |styled|
    ensures forall i | 0 <= i < |plain| :: plain[i] == TrimEnd(RunText(styled[i].runs))
  {
    hide PlainScreen, StyledScreen, TrimEnd, RunText;
    ViewsAgree(plain, styled, g, cursor, opts);
  }

  /** A one-cell row under the cursor: its runs, and its plain line. */
  lemma {:induction false} CoveredCell(c: char, zerowidth: string, style: Style, mark: char)
    requires !Whitespace(mark)
    ensures
      var row := [Cell(c, zerowidth, false, style)];
      var cursor, opts := Cursor(1, 1), Options(None, None, false, Some(mark));
      && Shows([Run([mark] + zerowidth, style)], row, 0, 1, 1, cursor, opts)
      && PlainLine(row, 0, 1, 1, cursor, opts) == [mark] && PlainLine(row, 1, 1, 1, cursor, opts) == ""
  {
    hide Paint;
    var row := [Cell(c, zerowidth, false, style)];
    var cursor, opts := Cursor(1, 1), Options(None, None, false, Some(mark));
    var text := [mark] + zerowidth;
    var runs := [Run(text, style)];
    assert !Blank(text) by {
      assert text[0] == mark;
    }
    assert PaintedRow(row, 0, 1, 1, cursor, opts) == [] + Paint(text, style);
    assert runs[..0] == [] && Expand(runs) == [] + Paint(text, style);
    assert PlainLine(row, 0, 1, 1, cursor, opts) == "" + [mark];
    assert Canonical(runs) && DropRuns(runs) == runs;
  }

  /** With one they may not: an accent under the cursor shows in the runs and not in the plain line. */
  lemma {:induction false} AccentUnderCursor(style: Style) returns (runs: seq<Run>)
    ensures
      var row := [Cell('e', ['\U{0301}'], false, style)];
      var cursor, opts := Cursor(1, 1), Options(None, None, false, Some('_'));
      && Shows(runs, row, 0, 1, 1, cursor, opts)
      && RunText(runs) == ['_', '\U{0301}'] && PlainLine(row, 0, 1, 1, cursor, opts) == "_"
      && TrimEnd(RunText(runs)) != TrimEnd(PlainLine(row, 0, 1, 1, cursor, opts))
  {
    hide PaintedRow, PlainLine, TrimEnd, Shows;
    var accent := ['\U{0301}'];
    var row := [Cell('e', accent, false, style)];
    var cursor, opts := Cursor(1, 1), Options(None, None, false, Some('_'));
    CoveredCell('e', accent, style, '_');
    runs := [Run(['_'] + accent, style)];
    assert !Blank(accent) by {
      assert !Whitespace(accent[0]);
    }
    assert runs[..0] == [] && RunText(runs) == "" + (['_'] + accent);
    LineAgreesIff(runs, row, 0, 1, 1, cursor, opts);
  }
}
