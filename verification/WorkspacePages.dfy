/** Which pages a workspace stream accepts, event by event, and when its history is marked truncated. */
module WorkspacePages {
  import opened Prelude
  import opened WorkspaceModel
  import opened WorkspaceTheorems
  import Unicode

  // ----- acceptance -----

  /** Text that can be shown: some of it is not whitespace, none of it a control, and it has at most so many bytes. */
  predicate Showable(text: string, maxBytes: nat) {
    && (exists c | c in text :: !Unicode.Whitespace(c)) && Unicode.Utf8Len(text) <= maxBytes
    && forall c | c in text :: !Unicode.Control(c)
  }

  lemma {:induction false} SafeMeans(text: string, maxBytes: nat)
    ensures Safe(text, maxBytes) <==> Showable(text, maxBytes)
  {
    hide Unicode.Whitespace, Unicode.Control;
    assert forall i :: 0 <= i < |text| ==> text[i] in text;
    if c :| c in text && !Unicode.Whitespace(c) {
      var i :| 0 <= i < |text| && text[i] == c;
    }
    if c :| c in text && Unicode.Control(c) {
      var i :| 0 <= i < |text| && text[i] == c;
    }
  }

  /** A stream starts empty, at the beginning, for a workspace whose name can be shown. */
  lemma {:induction false} StreamStartsIff(workspaceId: string)
    ensures New(workspaceId) ==
      if Showable(workspaceId, 256) then Ok(State(workspaceId, 0, 0, [], false)) else Err(InvalidResponse("text"))
  {
    hide Safe, Showable;
    SafeMeans(workspaceId, 256);
  }

  /** What an event must be on its own. */
  predicate Fits(stream: Stream, ws: string, e: Event) {
    && e.workspaceId == ws && e.generation > 0
    && match stream
       case Observations =>
         && e.schema == "simplicio.workspace.observe/v1" && e.body.Observation?
         && e.body.kind in ["test_failure", "stale_contract", "acceptance_gap"]
         && e.body.source in ["mapper", "runtime", "agent"]
         && Showable(e.body.evidence, 512)
       case Advisories =>
         && e.schema == "simplicio.workspace.advisory/v1" && e.body.Advisory?
         && Showable(e.body.summary, 512) && e.body.proof.Some? && Showable(e.body.proof.value, 512)
         && e.body.confidence.Some? && e.body.confidence.value <= 10_000
  }

  /** Its number is the next one, or any later one where a gap is allowed, and its generation is not older. */
  predicate Follows(e: Event, previous: nat, generation: nat, mayGap: bool) {
    && e.generation >= generation
    && if mayGap then e.sequence > previous else e.sequence == previous + 1 <= 0xFFFF_FFFF_FFFF_FFFF
  }

  lemma {:induction false} CheckedIff(stream: Stream, ws: string, e: Event, previous: nat, generation: nat, mayGap: bool)
    ensures CheckEvent(stream, ws, e, previous, generation, mayGap).Ok? <==>
      Fits(stream, ws, e) && Follows(e, previous, generation, mayGap)
  {
    hide Safe, Showable;
    if e.body.Observation? {
      SafeMeans(e.body.evidence, 512);
    } else {
      SafeMeans(e.body.summary, 512);
      if e.body.proof.Some? {
        SafeMeans(e.body.proof.value, 512);
      }
    }
  }

  /** Event `i` fits, and follows the one before it; only the first may follow a gap. */
  predicate FitsAt(stream: Stream, ws: string, events: seq<Event>, cursor: nat, generation: nat, mayGap: bool, i: nat)
    requires i < |events|
  {
    && Fits(stream, ws, events[i])
    && if i == 0 then Follows(events[i], cursor, generation, mayGap)
       else Follows(events[i], events[i - 1].sequence, events[i - 1].generation, false)
  }

  predicate FitsThroughout(stream: Stream, ws: string, events: seq<Event>, cursor: nat, generation: nat, mayGap: bool) {
    forall i | 0 <= i < |events| :: FitsAt(stream, ws, events, cursor, generation, mayGap, i)
  }

  lemma {:induction false} FitsNext(
    stream: Stream, ws: string, events: seq<Event>, cursor: nat, generation: nat, mayGap: bool, i: nat)
    requires i + 1 < |events|
    ensures FitsAt(stream, ws, events, cursor, generation, mayGap, i + 1) <==>
      FitsAt(stream, ws, events[1..], events[0].sequence, events[0].generation, false, i)
  {
    hide Fits, Follows;
  }

  lemma {:induction false} FitsCons(stream: Stream, ws: string, events: seq<Event>, cursor: nat, generation: nat, mayGap: bool)
    requires events != []
    ensures FitsThroughout(stream, ws, events, cursor, generation, mayGap) <==>
      && FitsAt(stream, ws, events, cursor, generation, mayGap, 0)
      && FitsThroughout(stream, ws, events[1..], events[0].sequence, events[0].generation, false)
  {
    hide FitsAt;
    forall i: nat | i + 1 < |events|
      ensures FitsAt(stream, ws, events, cursor, generation, mayGap, i + 1) <==>
        FitsAt(stream, ws, events[1..], events[0].sequence, events[0].generation, false, i)
    {
      FitsNext(stream, ws, events, cursor, generation, mayGap, i);
    }
    if FitsThroughout(stream, ws, events[1..], events[0].sequence, events[0].generation, false) {
      forall i | 0 < i < |events|
        ensures FitsAt(stream, ws, events, cursor, generation, mayGap, i)
      {
        assert FitsAt(stream, ws, events[1..], events[0].sequence, events[0].generation, false, i - 1);
      }
    }
  }

  lemma {:induction false} ScanIff(stream: Stream, ws: string, events: seq<Event>, cursor: nat, generation: nat, mayGap: bool)
    ensures Scan(stream, ws, events, cursor, generation, mayGap).Ok? <==>
      FitsThroughout(stream, ws, events, cursor, generation, mayGap)
    decreases |events|
  {
    if events != [] {
      hide CheckEvent, Fits, Follows, FitsThroughout;
      CheckedIff(stream, ws, events[0], cursor, generation, mayGap);
      ScanIff(stream, ws, events[1..], events[0].sequence, events[0].generation, false);
      FitsCons(stream, ws, events, cursor, generation, mayGap);
    }
  }

  /**
   * A page is accepted exactly if it is of this stream and workspace, has at most
   * 128 events, each fits and follows the one before, and it names the last one's number.
   */
  lemma {:induction false} PageAcceptedIff(stream: Stream, s: State, page: Page)
    ensures ApplyPage(stream, s, page).Ok? <==>
      && page.schema == (if stream.Observations? then "simplicio.workspace.observe/v1" else "simplicio.workspace.advisory/v1")
      && page.workspaceId == s.workspaceId && |page.events| <= 128
      && FitsThroughout(stream, s.workspaceId, page.events, s.cursor, s.generation, page.truncated)
      && page.nextCursor == if page.events == [] then s.cursor else page.events[|page.events| - 1].sequence
  {
    hide Scan, FitsThroughout, Suffix;
    ScanIff(stream, s.workspaceId, page.events, s.cursor, s.generation, page.truncated);
    if Scan(stream, s.workspaceId, page.events, s.cursor, s.generation, page.truncated).Ok? {
      ScanMeans(stream, s.workspaceId, page.events, s.cursor, s.generation, page.truncated);
    }
  }

  // ----- what a refusal says -----

  /** What is wrong with an event, by the error. */
  predicate EventFault(stream: Stream, ws: string, e: Event, previous: nat, generation: nat, mayGap: bool, error: Error) {
    var outOfStep := if mayGap then e.sequence <= previous else e.sequence != previous + 1 || previous >= 0xFFFF_FFFF_FFFF_FFFF;
    match stream
    case Observations =>
      || (&& error == InvalidResponse("cursor")
          && (e.schema != "simplicio.workspace.observe/v1" || e.workspaceId != ws || outOfStep))
      || (&& error == InvalidResponse("generation or vocabulary")
          && (|| e.generation == 0 || e.generation < generation || !e.body.Observation?
              || e.body.kind !in ["test_failure", "stale_contract", "acceptance_gap"]
              || e.body.source !in ["mapper", "runtime", "agent"]))
      || (error == InvalidResponse("text") && e.body.Observation? && !Showable(e.body.evidence, 512))
    case Advisories =>
      || (error == InvalidResponse("cursor") && outOfStep)
      || (&& error == ProtocolMismatch("schema or workspace")
          && (e.schema != "simplicio.workspace.advisory/v1" || e.workspaceId != ws))
      || (&& error == InvalidResponse("provenance or generation")
          && (e.generation == 0 || e.generation < generation || !e.body.Advisory?))
      || (&& error == InvalidResponse("text") && e.body.Advisory?
          && (!Showable(e.body.summary, 512) || (e.body.proof.Some? && !Showable(e.body.proof.value, 512))))
      || (error == InvalidResponse("evidence is required") && e.body.Advisory? && e.body.proof.None?)
      || (error == InvalidResponse("confidence is required") && e.body.Advisory? && e.body.confidence.None?)
      || (&& error == InvalidResponse("confidence") && e.body.Advisory?
          && e.body.confidence.Some? && e.body.confidence.value > 10_000)
  }

  lemma {:induction false} CheckFails(stream: Stream, ws: string, e: Event, previous: nat, generation: nat, mayGap: bool)
    requires CheckEvent(stream, ws, e, previous, generation, mayGap).Err?
    ensures EventFault(stream, ws, e, previous, generation, mayGap, CheckEvent(stream, ws, e, previous, generation, mayGap).error)
  {
    hide Safe, Showable;
    if e.body.Observation? {
      SafeMeans(e.body.evidence, 512);
    } else {
      SafeMeans(e.body.summary, 512);
      if e.body.proof.Some? {
        SafeMeans(e.body.proof.value, 512);
      }
    }
  }

  /** The error of a scan is that of its first event that does not fit where it stands. */
  lemma {:induction false} ScanFails(stream: Stream, ws: string, events: seq<Event>, cursor: nat, generation: nat, mayGap: bool)
    returns (i: nat)
    requires Scan(stream, ws, events, cursor, generation, mayGap).Err?
    ensures i < |events| && FitsThroughout(stream, ws, events[..i], cursor, generation, mayGap)
    ensures var error := Scan(stream, ws, events, cursor, generation, mayGap).error;
            if i == 0 then EventFault(stream, ws, events[i], cursor, generation, mayGap, error)
            else EventFault(stream, ws, events[i], events[i - 1].sequence, events[i - 1].generation, false, error)
    decreases |events|
  {
    hide CheckEvent, EventFault, FitsThroughout, FitsAt;
    if CheckEvent(stream, ws, events[0], cursor, generation, mayGap).Err? {
      i := 0;
      CheckFails(stream, ws, events[0], cursor, generation, mayGap);
      ScanIff(stream, ws, [], cursor, generation, mayGap);
    } else {
      var k := ScanFails(stream, ws, events[1..], events[0].sequence, events[0].generation, false);
      i := k + 1;
      var prefix := events[..i];
      assert prefix[1..] == events[1..][..k] && prefix[0] == events[0];
      FitsCons(stream, ws, prefix, cursor, generation, mayGap);
      CheckedIff(stream, ws, events[0], cursor, generation, mayGap);
      FirstFits(stream, ws, prefix, cursor, generation, mayGap);
    }
  }

  lemma {:induction false} FirstFits(stream: Stream, ws: string, events: seq<Event>, cursor: nat, generation: nat, mayGap: bool)
    requires events != []
    ensures FitsAt(stream, ws, events, cursor, generation, mayGap, 0) <==>
      Fits(stream, ws, events[0]) && Follows(events[0], cursor, generation, mayGap)
  {
    hide Fits, Follows;
  }

  /** What is wrong with a page that is refused, by the error. */
  lemma {:induction false} PageRefusals(stream: Stream, s: State, page: Page) returns (i: nat)
    requires ApplyPage(stream, s, page).Err?
    ensures var error := ApplyPage(stream, s, page).error;
            var schema := if stream.Observations? then "simplicio.workspace.observe/v1" else "simplicio.workspace.advisory/v1";
            || (error == ProtocolMismatch("schema or workspace") && (page.schema != schema || page.workspaceId != s.workspaceId))
            || (error == InvalidResponse("page exceeds its bound") && |page.events| > 128)
            || (0 < i < |page.events|
                && EventFault(stream, s.workspaceId, page.events[i], page.events[i - 1].sequence, page.events[i - 1].generation,
                              false, error))
            || (0 == i < |page.events|
                && EventFault(stream, s.workspaceId, page.events[0], s.cursor, s.generation, page.truncated, error))
            || (error == InvalidResponse("cursor does not match page")
                && page.nextCursor != if page.events == [] then s.cursor else page.events[|page.events| - 1].sequence)
  {
    hide Scan, EventFault, FitsThroughout, Suffix;
    i := 0;
    if Scan(stream, s.workspaceId, page.events, s.cursor, s.generation, page.truncated).Err? {
      i := ScanFails(stream, s.workspaceId, page.events, s.cursor, s.generation, page.truncated);
    } else {
      ScanMeans(stream, s.workspaceId, page.events, s.cursor, s.generation, page.truncated);
    }
  }

  // ----- the parser -----

  /** The generations aside, the parser asks of an event what the state does. */
  lemma {:induction false} ParsedEventIff(r: Request, e: Event, previous: nat, mayGap: bool)
    ensures CheckParsed(r, e, previous, mayGap).Ok? <==> CheckEvent(Observations, r.workspaceId, e, previous, 0, mayGap).Ok?
    ensures CheckParsed(r, e, previous, mayGap).Err? ==> CheckParsed(r, e, previous, mayGap).error.InvalidResponse?
  {
    hide Safe, ObservationVocabulary, Continues;
  }

  /** What the parser asks of event `i` after the number `previous`. */
  predicate ParsesAt(ws: string, events: seq<Event>, previous: nat, mayGap: bool, i: nat)
    requires i < |events|
  {
    && Fits(Observations, ws, events[i])
    && if i == 0 then Follows(events[i], previous, 0, mayGap) else Follows(events[i], events[i - 1].sequence, 0, false)
  }

  lemma {:induction false} ParsesCons(ws: string, events: seq<Event>, previous: nat, mayGap: bool)
    requires events != []
    ensures (forall i | 0 <= i < |events| :: ParsesAt(ws, events, previous, mayGap, i)) <==>
      && ParsesAt(ws, events, previous, mayGap, 0)
      && forall i | 0 <= i < |events[1..]| :: ParsesAt(ws, events[1..], events[0].sequence, false, i)
  {
    hide Fits, Follows;
    var rest := events[1..];
    assert forall i | 0 <= i < |rest| ::
      ParsesAt(ws, rest, events[0].sequence, false, i) == ParsesAt(ws, events, previous, mayGap, i + 1);
    forall i | 0 < i < |events|
      ensures ParsesAt(ws, events, previous, mayGap, i) == ParsesAt(ws, rest, events[0].sequence, false, i - 1)
    {
    }
  }

  lemma {:induction false} ScanParsedIff(r: Request, events: seq<Event>, previous: nat, mayGap: bool)
    ensures ScanParsed(r, events, previous, mayGap).Ok? <==>
      forall i | 0 <= i < |events| :: ParsesAt(r.workspaceId, events, previous, mayGap, i)
    ensures ScanParsed(r, events, previous, mayGap).Ok? ==>
      ScanParsed(r, events, previous, mayGap).value == LastSequence(events, previous)
    ensures ScanParsed(r, events, previous, mayGap).Err? ==> ScanParsed(r, events, previous, mayGap).error.InvalidResponse?
    decreases |events|
  {
    hide CheckParsed, CheckEvent, Fits, Follows;
    if events != [] {
      ParsedEventIff(r, events[0], previous, mayGap);
      CheckedIff(Observations, r.workspaceId, events[0], previous, 0, mayGap);
      ScanParsedIff(r, events[1..], events[0].sequence, false);
      ParsesCons(r.workspaceId, events, previous, mayGap);
    }
  }

  /** The parser passes a page on, unchanged, exactly if it is right for the request, generations aside. */
  lemma {:induction false} ParsedIff(r: Request, page: Page)
    ensures ParsePage(r, page).Ok? <==>
      && page.schema == "simplicio.workspace.observe/v1" && page.workspaceId == r.workspaceId
      && |page.events| <= r.maxEvents && |page.events| <= 128
      && (forall i | 0 <= i < |page.events| :: ParsesAt(r.workspaceId, page.events, r.after, page.truncated, i))
      && page.nextCursor == if page.events == [] then r.after else page.events[|page.events| - 1].sequence
    ensures ParsePage(r, page).Ok? ==> ParsePage(r, page).value == page
    ensures ParsePage(r, page).Err? && ParsePage(r, page).error.ProtocolMismatch? <==>
      page.schema != "simplicio.workspace.observe/v1" || page.workspaceId != r.workspaceId
  {
    hide ScanParsed, ParsesAt;
    ScanParsedIff(r, page.events, r.after, page.truncated);
  }

  // ----- truncation -----

  /** The pages that the run accepts, in order. */
  function AcceptedPages(stream: Stream, s: State, pages: seq<Page>): seq<Page>
    decreases |pages|
  {
    if pages == [] then []
    else
      match ApplyPage(stream, s, pages[0])
      case Ok(t) => [pages[0]] + AcceptedPages(stream, t, pages[1..])
      case Err(_) => AcceptedPages(stream, s, pages[1..])
  }

  predicate SomeTruncated(pages: seq<Page>) {
    exists i | 0 <= i < |pages| :: pages[i].truncated
  }

  lemma {:induction false} TruncatedCons(page: Page, pages: seq<Page>)
    ensures SomeTruncated([page] + pages) <==> page.truncated || SomeTruncated(pages)
  {
    var all := [page] + pages;
    assert all[0] == page;
    if i :| 0 <= i < |pages| && pages[i].truncated {
      assert all[i + 1].truncated;
    }
  }

  lemma {:induction false} PageTruncates(stream: Stream, s: State, all: seq<Event>, page: Page)
    requires Reflects(s, all) && ApplyPage(stream, s, page).Ok?
    ensures ApplyPage(stream, s, page).value.truncated <==>
      s.truncated || page.truncated || |all + page.events| > 128
  {
    hide Scan, Ascending, GenerationsRise, Contiguous;
  }

  lemma {:induction false} TruncatedFrom(stream: Stream, s: State, all: seq<Event>, pages: seq<Page>)
    requires Reflects(s, all)
    ensures After(stream, s, pages).truncated <==>
      s.truncated || SomeTruncated(AcceptedPages(stream, s, pages)) || |all + Accepted(stream, s, pages)| > 128
    decreases |pages|
  {
    hide Reflects, ApplyPage, SomeTruncated;
    if pages == [] {
      assert all + [] == all;
      NothingTruncates(s, all);
    } else {
      match ApplyPage(stream, s, pages[0]) {
        case Ok(t) =>
          PageExtends(stream, s, all, pages[0]);
          PageTruncates(stream, s, all, pages[0]);
          TruncatedFrom(stream, t, all + pages[0].events, pages[1..]);
          TruncatedCons(pages[0], AcceptedPages(stream, t, pages[1..]));
          assert all + pages[0].events + Accepted(stream, t, pages[1..])
              == all + (pages[0].events + Accepted(stream, t, pages[1..]));
        case Err(_) =>
          TruncatedFrom(stream, s, all, pages[1..]);
      }
    }
  }

  lemma {:induction false} NothingTruncates(s: State, all: seq<Event>)
    requires Reflects(s, all)
    ensures !SomeTruncated([]) && (|all| > 128 ==> s.truncated)
  {
  }

  /** The history of a stream is marked truncated exactly if an accepted page was, or more than 128 events were accepted. */
  lemma {:induction false} TruncatedIff(stream: Stream, workspaceId: string, pages: seq<Page>)
    requires New(workspaceId).Ok?
    ensures var s := New(workspaceId).value;
            After(stream, s, pages).truncated <==>
              || (exists i | 0 <= i < |AcceptedPages(stream, s, pages)| :: AcceptedPages(stream, s, pages)[i].truncated)
              || |Accepted(stream, s, pages)| > 128
  {
    hide After, Accepted, AcceptedPages, ValidateText;
    var s := New(workspaceId).value;
    TruncatedFrom(stream, s, [], pages);
    assert [] + Accepted(stream, s, pages) == Accepted(stream, s, pages);
  }
}
