/**
 * The two bounded workspace streams, observations and advisories: what a page
 * must satisfy to be accepted and what accepting it does.
 */
module WorkspaceModel {
  import opened Prelude
  import opened Unicode

  const OBSERVE_SCHEMA := "simplicio.workspace.observe/v1"
  const ADVISORY_SCHEMA := "simplicio.workspace.advisory/v1"
  const MAX_PAGE: nat := 128
  const MAX_HISTORY: nat := 128

  datatype Error = ProtocolMismatch(why: string) | InvalidResponse(why: string)

  datatype Stream = Observations | Advisories

  datatype AdvisoryKind = Finding | Risk | Suggestion
  datatype Producer = Mapper | Runtime | Agent

  datatype Body =
    | Observation(kind: string, source: string, evidence: string)
    | Advisory(category: AdvisoryKind, producer: Producer, summary: string, proof: Option<string>, confidence: Option<nat>)

  datatype Event = Event(schema: string, sequence: nat, workspaceId: string, generation: nat, timestamp: nat, body: Body)

  datatype Page = Page(schema: string, workspaceId: string, events: seq<Event>, nextCursor: nat, truncated: bool)

  /** `WorkspaceObservationState` and `WorkspaceAdvisoryState` have the same fields. */
  datatype State = State(workspaceId: string, cursor: nat, generation: nat, kept: seq<Event>, truncated: bool)

  function Schema(stream: Stream): string {
    match stream
    case Observations => OBSERVE_SCHEMA
    case Advisories => ADVISORY_SCHEMA
  }

  predicate Safe(text: string, maxBytes: nat) {
    !Blank(text) && Utf8Len(text) <= maxBytes && forall i :: 0 <= i < |text| ==> !Control(text[i])
  }

  function ValidateText(text: string, maxBytes: nat): Result<(), Error> {
    if Safe(text, maxBytes) then Ok(()) else Err(InvalidResponse("text"))
  }

  function New(workspaceId: string): Result<State, Error> {
    var _ :- ValidateText(workspaceId, 256);
    Ok(State(workspaceId, 0, 0, [], false))
  }

  function SaturatingNext(n: nat): nat {
    if n >= U64_MAX then U64_MAX else n + 1
  }

  /** The sequence number continues the stream, or skips ahead where that is allowed. */
  predicate Continues(sequence: nat, previous: nat, mayGap: bool) {
    sequence > previous && (sequence == SaturatingNext(previous) || mayGap)
  }

  predicate ObservationVocabulary(body: Body) {
    && body.Observation?
    && (body.kind == "test_failure" || body.kind == "stale_contract" || body.kind == "acceptance_gap")
    && (body.source == "mapper" || body.source == "runtime" || body.source == "agent")
  }

  /**
   * The checks on one event, in their order.  A stream only ever carries bodies
   * of its own type; one of the other type is refused like any bad vocabulary.
   */
  function CheckEvent(stream: Stream, workspaceId: string, e: Event, previous: nat, generation: nat, mayGap: bool)
    : Result<(), Error>
  {
    match stream
    case Observations =>
      if e.schema != OBSERVE_SCHEMA || e.workspaceId != workspaceId || !Continues(e.sequence, previous, mayGap) then
        Err(InvalidResponse("cursor"))
      else if !ObservationVocabulary(e.body) || e.generation == 0 || e.generation < generation then
        Err(InvalidResponse("generation or vocabulary"))
      else ValidateText(e.body.evidence, 512)
    case Advisories =>
      if !Continues(e.sequence, previous, mayGap) then Err(InvalidResponse("cursor"))
      else if e.schema != ADVISORY_SCHEMA || e.workspaceId != workspaceId then Err(ProtocolMismatch("schema or workspace"))
      else if e.sequence == 0 || e.generation == 0 || e.generation < generation || !e.body.Advisory? then
        Err(InvalidResponse("provenance or generation"))
      else
        var _ :- ValidateText(e.body.summary, 512);
        if e.body.proof.None? then Err(InvalidResponse("evidence is required"))
        else
          var _ :- ValidateText(e.body.proof.value, 512);
          if e.body.confidence.None? then Err(InvalidResponse("confidence is required"))
          else if e.body.confidence.value > 10_000 then Err(InvalidResponse("confidence"))
          else Ok(())
  }

  /** The loop over a page: the last sequence and generation, or the first error. */
  function Scan(stream: Stream, workspaceId: string, events: seq<Event>, previous: nat, generation: nat, mayGap: bool)
    : Result<(nat, nat), Error>
    decreases |events|
  {
    if events == [] then Ok((previous, generation))
    else
      var _ :- CheckEvent(stream, workspaceId, events[0], previous, generation, mayGap);
      Scan(stream, workspaceId, events[1..], events[0].sequence, events[0].generation, false)
  }

  function ApplyPage(stream: Stream, s: State, page: Page): Result<State, Error> {
    if page.schema != Schema(stream) || page.workspaceId != s.workspaceId then Err(ProtocolMismatch("schema or workspace"))
    else if |page.events| > MAX_PAGE then Err(InvalidResponse("page exceeds its bound"))
    else
      var (last, generation) :- Scan(stream, s.workspaceId, page.events, s.cursor, s.generation, page.truncated);
      if page.nextCursor != last then Err(InvalidResponse("cursor does not match page"))
      else
        Ok(State(s.workspaceId, last, generation, Suffix(s.kept + page.events, MAX_HISTORY),
                 s.truncated || page.truncated || |s.kept + page.events| > MAX_HISTORY))
  }

  // ----- the transport parser for observations -----

  datatype Request = Request(workspaceId: string, after: nat, maxEvents: nat)

  function CheckParsed(r: Request, e: Event, previous: nat, mayGap: bool): Result<(), Error> {
    if e.schema != OBSERVE_SCHEMA || e.workspaceId != r.workspaceId || !Continues(e.sequence, previous, mayGap) then
      Err(InvalidResponse("cursor or provenance"))
    else if !ObservationVocabulary(e.body) || e.generation == 0 then Err(InvalidResponse("vocabulary or generation"))
    else ValidateText(e.body.evidence, 512)
  }

  function ScanParsed(r: Request, events: seq<Event>, previous: nat, mayGap: bool): Result<nat, Error>
    decreases |events|
  {
    if events == [] then Ok(previous)
    else
      var _ :- CheckParsed(r, events[0], previous, mayGap);
      ScanParsed(r, events[1..], events[0].sequence, false)
  }

  /** `parse_workspace_observation_page`, once the envelope is read and its host identity matches. */
  function ParsePage(r: Request, page: Page): Result<Page, Error> {
    if page.schema != OBSERVE_SCHEMA || page.workspaceId != r.workspaceId then Err(ProtocolMismatch("schema or workspace"))
    else if |page.events| > r.maxEvents || |page.events| > MAX_PAGE then Err(InvalidResponse("page exceeds its bound"))
    else
      var last :- ScanParsed(r, page.events, r.after, page.truncated);
      if page.nextCursor != last then Err(InvalidResponse("next_cursor")) else Ok(page)
  }
}
