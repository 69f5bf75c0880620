/**
 * What holds of the workspace streams over every sequence of pages: the window
 * is the tail of everything accepted, numbering and generations never go back,
 * page boundaries do not matter, and the parser leaves the state one reason to refuse.
 */
module WorkspaceTheorems {
  import opened Prelude
  import opened WorkspaceModel
  import Unicode

  // ----- what a scan establishes -----

  predicate Ascending(events: seq<Event>, above: nat) {
    && (forall i :: 0 <= i < |events| ==> events[i].sequence > above)
    && forall i, j :: 0 <= i < j < |events| ==> events[i].sequence < events[j].sequence
  }

  predicate GenerationsRise(events: seq<Event>, from: nat) {
    && (forall i :: 0 <= i < |events| ==> events[i].generation > 0 && events[i].generation >= from)
    && forall i, j :: 0 <= i < j < |events| ==> events[i].generation <= events[j].generation
  }

  /** The numbers run on from `previous` without a gap. */
  predicate Contiguous(events: seq<Event>, previous: nat) {
    forall i :: 0 <= i < |events| ==> events[i].sequence == previous + 1 + i
  }

  function LastSequence(events: seq<Event>, previous: nat): nat {
    if events == [] then previous else events[|events| - 1].sequence
  }

  function LastGeneration(events: seq<Event>, previous: nat): nat {
    if events == [] then previous else events[|events| - 1].generation
  }

  lemma {:induction false} CheckedEvent(stream: Stream, ws: string, e: Event, previous: nat, generation: nat, mayGap: bool)
    requires CheckEvent(stream, ws, e, previous, generation, mayGap).Ok?
    ensures e.sequence > previous && e.generation > 0 && e.generation >= generation
    ensures !mayGap ==> e.sequence == previous + 1
  {
    hide ValidateText;
  }

  lemma {:induction false} NothingScanned(previous: nat, generation: nat)
    ensures Ascending([], previous) && GenerationsRise([], generation) && Contiguous([], previous)
  {
  }

  lemma {:induction false} ScanMeans(stream: Stream, ws: string, events: seq<Event>, previous: nat, generation: nat, mayGap: bool)
    requires Scan(stream, ws, events, previous, generation, mayGap).Ok?
    ensures Scan(stream, ws, events, previous, generation, mayGap).value
         == (LastSequence(events, previous), LastGeneration(events, generation))
    ensures Ascending(events, previous) && GenerationsRise(events, generation)
    ensures !mayGap ==> Contiguous(events, previous)
    decreases |events|
  {
    hide CheckEvent, Ascending, GenerationsRise, Contiguous;
    if events == [] {
      NothingScanned(previous, generation);
    } else {
      var first, rest := events[0], events[1..];
      CheckedEvent(stream, ws, first, previous, generation, mayGap);
      ScanMeans(stream, ws, rest, first.sequence, first.generation, false);
      assert events == [first] + rest;
      AscendingCons(first, rest, previous);
      GenerationsCons(first, rest, generation);
      if !mayGap {
        ContiguousCons(first, rest, previous);
      }
    }
  }

  lemma {:induction false} AscendingCons(first: Event, rest: seq<Event>, above: nat)
    requires first.sequence > above && Ascending(rest, first.sequence)
    ensures Ascending([first] + rest, above)
  {
    var all := [first] + rest;
    assert forall i :: 1 <= i < |all| ==> all[i] == rest[i - 1];
  }

  lemma {:induction false} GenerationsCons(first: Event, rest: seq<Event>, from: nat)
    requires first.generation > 0 && first.generation >= from && GenerationsRise(rest, first.generation)
    ensures GenerationsRise([first] + rest, from)
  {
    var all := [first] + rest;
    assert forall i :: 1 <= i < |all| ==> all[i] == rest[i - 1];
  }

  lemma {:induction false} ContiguousCons(first: Event, rest: seq<Event>, previous: nat)
    requires first.sequence == previous + 1 && Contiguous(rest, previous + 1)
    ensures Contiguous([first] + rest, previous)
  {
    var all := [first] + rest;
    assert forall i :: 1 <= i < |all| ==> all[i] == rest[i - 1];
  }

  lemma {:induction false} ScanSplits(
    stream: Stream, ws: string, first: seq<Event>, second: seq<Event>, previous: nat, generation: nat, mayGap: bool)
    ensures Scan(stream, ws, first + second, previous, generation, mayGap)
         == match Scan(stream, ws, first, previous, generation, mayGap)
            case Err(e) => Err(e)
            case Ok((p, g)) => Scan(stream, ws, second, p, g, mayGap && first == [])
    decreases |first|
  {
    hide CheckEvent;
    if first == [] {
      assert first + second == second;
    } else {
      assert (first + second)[1..] == first[1..] + second;
      ScanSplits(stream, ws, first[1..], second, first[0].sequence, first[0].generation, false);
    }
  }

  // ----- runs -----

  /** The state after a run of pages; a refused page leaves it as it was. */
  function After(stream: Stream, s: State, pages: seq<Page>): State
    decreases |pages|
  {
    if pages == [] then s
    else
      match ApplyPage(stream, s, pages[0])
      case Ok(t) => After(stream, t, pages[1..])
      case Err(_) => After(stream, s, pages[1..])
  }

  /** Every event that the run accepted, in order. */
  function Accepted(stream: Stream, s: State, pages: seq<Page>): seq<Event>
    decreases |pages|
  {
    if pages == [] then []
    else
      match ApplyPage(stream, s, pages[0])
      case Ok(t) => pages[0].events + Accepted(stream, t, pages[1..])
      case Err(_) => Accepted(stream, s, pages[1..])
  }

  /** The state `s` is what a stream looks like after exactly the events `all`. */
  predicate Reflects(s: State, all: seq<Event>) {
    && s.kept == Suffix(all, MAX_HISTORY)
    && Ascending(all, 0) && GenerationsRise(all, 0)
    && s.cursor == LastSequence(all, 0) && s.generation == LastGeneration(all, 0)
    && (!s.truncated ==> |all| <= MAX_HISTORY && Contiguous(all, 0))
  }

  lemma {:induction false} AscendingConcat(a: seq<Event>, b: seq<Event>)
    requires Ascending(a, 0) && Ascending(b, LastSequence(a, 0))
    ensures Ascending(a + b, 0) && LastSequence(a + b, 0) == LastSequence(b, LastSequence(a, 0))
  {
    var all := a + b;
    forall i, j | 0 <= i < j < |all|
      ensures all[i].sequence < all[j].sequence
    {
      if i < |a| <= j {
        assert all[i].sequence <= LastSequence(a, 0) < b[j - |a|].sequence;
      }
    }
  }

  lemma {:induction false} GenerationsConcat(a: seq<Event>, b: seq<Event>)
    requires GenerationsRise(a, 0) && GenerationsRise(b, LastGeneration(a, 0))
    ensures GenerationsRise(a + b, 0) && LastGeneration(a + b, 0) == LastGeneration(b, LastGeneration(a, 0))
  {
    var all := a + b;
    forall i, j | 0 <= i < j < |all|
      ensures all[i].generation <= all[j].generation
    {
      if i < |a| <= j {
        assert all[i].generation <= LastGeneration(a, 0) <= b[j - |a|].generation;
      }
    }
  }

  lemma {:induction false} ContiguousConcat(a: seq<Event>, b: seq<Event>)
    requires Contiguous(a, 0) && Contiguous(b, LastSequence(a, 0))
    ensures Contiguous(a + b, 0) && LastSequence(a, 0) == |a|
  {
  }

  lemma {:induction false} PageExtends(stream: Stream, s: State, all: seq<Event>, page: Page)
    requires Reflects(s, all) && ApplyPage(stream, s, page).Ok?
    ensures Reflects(ApplyPage(stream, s, page).value, all + page.events)
  {
    hide Scan, Ascending, GenerationsRise, Contiguous;
    ScanMeans(stream, s.workspaceId, page.events, s.cursor, s.generation, page.truncated);
    AscendingConcat(all, page.events);
    GenerationsConcat(all, page.events);
    SuffixOfSuffix(all, page.events, MAX_HISTORY);
    if !ApplyPage(stream, s, page).value.truncated {
      ContiguousConcat(all, page.events);
    }
  }

  lemma {:induction false} RunReflects(stream: Stream, s: State, all: seq<Event>, pages: seq<Page>)
    requires Reflects(s, all)
    ensures Reflects(After(stream, s, pages), all + Accepted(stream, s, pages))
    decreases |pages|
  {
    hide Reflects, ApplyPage;
    if pages == [] {
      assert all + [] == all;
    } else {
      match ApplyPage(stream, s, pages[0]) {
        case Ok(t) =>
          PageExtends(stream, s, all, pages[0]);
          RunReflects(stream, t, all + pages[0].events, pages[1..]);
          assert all + pages[0].events + Accepted(stream, t, pages[1..])
              == all + (pages[0].events + Accepted(stream, t, pages[1..]));
        case Err(_) =>
          RunReflects(stream, s, all, pages[1..]);
      }
    }
  }

  /**
   * From a new stream, whatever pages arrive: the window is the last 128 events
   * ever accepted, numbers strictly rise and end at the cursor, generations
   * never fall and end at the current one, and as long as nothing is marked
   * truncated the window is all events, numbered 1 to the cursor.
   */
  lemma {:induction false} WindowIsTailOfHistory(stream: Stream, workspaceId: string, pages: seq<Page>)
    requires New(workspaceId).Ok?
    ensures Reflects(After(stream, New(workspaceId).value, pages), Accepted(stream, New(workspaceId).value, pages))
  {
    hide After, Accepted, ValidateText;
    var s := New(workspaceId).value;
    RunReflects(stream, s, [], pages);
    assert [] + Accepted(stream, s, pages) == Accepted(stream, s, pages);
  }

  // ----- gaps -----

  /** Only a page that is marked truncated and not empty can leave a gap. */
  predicate MayGap(page: Page) {
    page.truncated && page.events != []
  }

  lemma {:induction false} GaplessFrom(stream: Stream, s: State, all: seq<Event>, pages: seq<Page>)
    requires Reflects(s, all) && Contiguous(all, 0)
    requires forall page :: page in pages ==> !MayGap(page)
    ensures Contiguous(all + Accepted(stream, s, pages), 0)
    decreases |pages|
  {
    hide Reflects, ApplyPage, Contiguous;
    if pages == [] {
      assert all + [] == all;
    } else {
      assert pages[0] in pages && forall page :: page in pages[1..] ==> page in pages;
      match ApplyPage(stream, s, pages[0]) {
        case Ok(t) =>
          PageExtends(stream, s, all, pages[0]);
          GaplessPage(stream, s, all, pages[0]);
          GaplessFrom(stream, t, all + pages[0].events, pages[1..]);
          assert all + pages[0].events + Accepted(stream, t, pages[1..])
              == all + (pages[0].events + Accepted(stream, t, pages[1..]));
        case Err(_) =>
          GaplessFrom(stream, s, all, pages[1..]);
      }
    }
  }

  lemma {:induction false} GaplessPage(stream: Stream, s: State, all: seq<Event>, page: Page)
    requires Reflects(s, all) && Contiguous(all, 0) && !MayGap(page) && ApplyPage(stream, s, page).Ok?
    ensures Contiguous(all + page.events, 0)
  {
    hide Scan, Ascending, GenerationsRise, Contiguous;
    if page.events == [] {
      assert all + page.events == all;
    } else {
      ScanMeans(stream, s.workspaceId, page.events, s.cursor, s.generation, page.truncated);
      ContiguousConcat(all, page.events);
    }
  }

  /** Without a truncated page the accepted events are exactly those numbered 1 to the cursor. */
  lemma {:induction false} NoGapWithoutTruncation(stream: Stream, workspaceId: string, pages: seq<Page>)
    requires New(workspaceId).Ok? && forall page :: page in pages ==> !MayGap(page)
    ensures var s := New(workspaceId).value;
            && Contiguous(Accepted(stream, s, pages), 0)
            && After(stream, s, pages).cursor == |Accepted(stream, s, pages)|
  {
    hide After, Accepted, ValidateText;
    var s := New(workspaceId).value;
    GaplessFrom(stream, s, [], pages);
    assert [] + Accepted(stream, s, pages) == Accepted(stream, s, pages);
    WindowIsTailOfHistory(stream, workspaceId, pages);
  }

  // ----- page boundaries -----

  function Cut(s: State, page: Page, k: nat): (Page, Page)
    requires k <= |page.events|
  {
    (page.(events := page.events[..k], nextCursor := LastSequence(page.events[..k], s.cursor)),
     page.(events := page.events[k..], truncated := false))
  }

  /** The state after both halves, if both are accepted. */
  function ApplyBoth(stream: Stream, s: State, first: Page, second: Page): Result<State, Error> {
    var t :- ApplyPage(stream, s, first);
    ApplyPage(stream, t, second)
  }

  /** An empty first half would lose the leave to skip ahead. */
  predicate CutIsFair(s: State, page: Page, k: nat) {
    k > 0 || page.events == [] || !page.truncated || page.events[0].sequence == SaturatingNext(s.cursor)
  }

  lemma {:induction false} GapLeaveIsUnused(stream: Stream, ws: string, events: seq<Event>, previous: nat, generation: nat)
    requires events != [] && events[0].sequence == SaturatingNext(previous)
    ensures Scan(stream, ws, events, previous, generation, true) == Scan(stream, ws, events, previous, generation, false)
  {
    hide ValidateText, ObservationVocabulary;
  }

  lemma {:induction false} GapIsRefused(stream: Stream, ws: string, events: seq<Event>, previous: nat, generation: nat)
    requires events != [] && events[0].sequence != SaturatingNext(previous)
    ensures Scan(stream, ws, events, previous, generation, false).Err?
  {
    hide ValidateText, ObservationVocabulary;
  }

  lemma {:induction false} CutScan(stream: Stream, s: State, page: Page, k: nat)
    requires k <= |page.events|
    requires Scan(stream, s.workspaceId, page.events, s.cursor, s.generation, page.truncated).Ok?
    ensures var (first, second) := Cut(s, page, k);
            var scanned := Scan(stream, s.workspaceId, first.events, s.cursor, s.generation, page.truncated);
            && scanned.Ok? && scanned.value.0 == first.nextCursor
            && (Scan(stream, s.workspaceId, second.events, scanned.value.0, scanned.value.1, false).Ok? <==> CutIsFair(s, page, k))
            && (CutIsFair(s, page, k) ==>
                  Scan(stream, s.workspaceId, second.events, scanned.value.0, scanned.value.1, false)
                  == Scan(stream, s.workspaceId, page.events, s.cursor, s.generation, page.truncated))
  {
    hide Scan;
    var (first, second) := Cut(s, page, k);
    assert page.events == first.events + second.events;
    ScanSplits(stream, s.workspaceId, first.events, second.events, s.cursor, s.generation, page.truncated);
    ScanMeans(stream, s.workspaceId, first.events, s.cursor, s.generation, page.truncated);
    if k == 0 && page.truncated && page.events != [] {
      assert second.events == page.events;
      if page.events[0].sequence == SaturatingNext(s.cursor) {
        GapLeaveIsUnused(stream, s.workspaceId, page.events, s.cursor, s.generation);
      } else {
        GapIsRefused(stream, s.workspaceId, page.events, s.cursor, s.generation);
      }
    } else if page.events == [] {
      EmptyScan(stream, s.workspaceId, s.cursor, s.generation);
    }
  }

  lemma {:induction false} EmptyScan(stream: Stream, ws: string, previous: nat, generation: nat)
    ensures forall gap :: Scan(stream, ws, [], previous, generation, gap) == Ok((previous, generation))
  {
  }

  /**
   * Page boundaries do not matter: an accepted page, cut anywhere into two of
   * which only the first keeps the truncation mark, leads to the same state,
   * except when the cut leaves all events, and a gap before them, to the second.
   */
  lemma {:induction false} CutsDoNotMatter(stream: Stream, s: State, page: Page, k: nat)
    requires k <= |page.events| && ApplyPage(stream, s, page).Ok? && |s.kept| <= MAX_HISTORY
    ensures var (first, second) := Cut(s, page, k);
            && (ApplyBoth(stream, s, first, second).Ok? <==> CutIsFair(s, page, k))
            && (CutIsFair(s, page, k) ==> ApplyBoth(stream, s, first, second) == ApplyPage(stream, s, page))
  {
    hide Scan, CutIsFair, Suffix;
    var (first, second) := Cut(s, page, k);
    CutScan(stream, s, page, k);
    assert page.events == first.events + second.events;
    CutWindow(s.kept, first.events, second.events);
  }

  lemma {:induction false} CutWindow(kept: seq<Event>, first: seq<Event>, second: seq<Event>)
    requires |kept| <= MAX_HISTORY
    ensures var middle := Suffix(kept + first, MAX_HISTORY);
            && Suffix(middle + second, MAX_HISTORY) == Suffix(kept + (first + second), MAX_HISTORY)
            && (|kept + first| > MAX_HISTORY || |middle + second| > MAX_HISTORY
                <==> |kept + (first + second)| > MAX_HISTORY)
  {
    SuffixOfSuffix(kept + first, second, MAX_HISTORY);
    assert kept + first + second == kept + (first + second);
  }

  function SmallestBody(stream: Stream): Body {
    match stream
    case Observations => Observation("test_failure", "mapper", "x")
    case Advisories => Advisory(Finding, Mapper, "x", Some("x"), Some(0))
  }

  lemma {:induction false} LetterIsSafe()
    ensures Safe("x", 512)
  {
    assert "x"[0] == 'x' && "x"[1..] == "";
    assert !Unicode.Blank("x") by {
      assert !Unicode.Whitespace("x"[0]);
    }
    assert Unicode.Utf8Len("x") == 1 + Unicode.Utf8Len("");
  }

  /** On either stream, a first page that starts with a gap is accepted whole, and refused when cut before its first event. */
  lemma {:induction false} UnfairCutIsRefused(stream: Stream, workspaceId: string) returns (page: Page)
    requires New(workspaceId).Ok?
    ensures var s := New(workspaceId).value;
            ApplyPage(stream, s, page).Ok? && ApplyBoth(stream, s, Cut(s, page, 0).0, Cut(s, page, 0).1).Err?
  {
    hide Safe, Unicode.Blank;
    var s := New(workspaceId).value;
    var event := Event(Schema(stream), 2, workspaceId, 1, 0, SmallestBody(stream));
    page := Page(Schema(stream), workspaceId, [event], 2, true);
    LetterIsSafe();
    assert CheckEvent(stream, workspaceId, event, 0, 0, true).Ok?;
    assert [event][1..] == [];
    assert Scan(stream, workspaceId, page.events, 0, 0, true) == Scan(stream, workspaceId, [], 2, 1, false);
    CutsDoNotMatter(stream, s, page, 0);
  }

  // ----- the parser and the state -----

  /** Some event of the page is of an older generation than what came before it. */
  predicate GoesBack(events: seq<Event>, generation: nat)
    decreases |events|
  {
    events != [] && (events[0].generation < generation || GoesBack(events[1..], events[0].generation))
  }

  lemma {:induction false} ParsedScan(r: Request, ws: string, events: seq<Event>, previous: nat, generation: nat, mayGap: bool)
    requires r.workspaceId == ws && ScanParsed(r, events, previous, mayGap).Ok?
    ensures Scan(Observations, ws, events, previous, generation, mayGap).Ok? <==> !GoesBack(events, generation)
    ensures Scan(Observations, ws, events, previous, generation, mayGap).Ok?
        ==> Scan(Observations, ws, events, previous, generation, mayGap).value.0 == ScanParsed(r, events, previous, mayGap).value
    decreases |events|
  {
    hide ValidateText, ObservationVocabulary, Continues;
    if events != [] {
      ParsedScan(r, ws, events[1..], events[0].sequence, events[0].generation, false);
    }
  }

  /** A page the parser accepted at the current cursor is refused only for a generation that goes backwards. */
  lemma {:induction false} ParsedPageIsRefusedIff(r: Request, s: State, page: Page)
    requires ParsePage(r, page).Ok? && r.after == s.cursor && r.workspaceId == s.workspaceId
    ensures ApplyPage(Observations, s, page).Ok? <==> !GoesBack(page.events, s.generation)
  {
    hide Scan, ScanParsed;
    ParsedScan(r, s.workspaceId, page.events, s.cursor, s.generation, page.truncated);
  }
}
