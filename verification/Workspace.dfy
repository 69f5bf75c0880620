/** The two stream states of the client, updated in place by their pages. */
module Workspace {
  import opened Prelude
  import opened WorkspaceModel

  /** The body of both `apply_page` loops. */
  method ScanPage(stream: Stream, workspaceId: string, page: Page, cursor: nat, oldGeneration: nat)
    returns (r: Result<(nat, nat), Error>)
    ensures r == Scan(stream, workspaceId, page.events, cursor, oldGeneration, page.truncated)
  {
    hide CheckEvent;
    var previous, generation := cursor, oldGeneration;
    var index := 0;
    assert page.events[0..] == page.events;
    while index < |page.events|
      invariant 0 <= index <= |page.events| && 0 <= previous && 0 <= generation
      invariant Scan(stream, workspaceId, page.events, cursor, oldGeneration, page.truncated)
             == Scan(stream, workspaceId, page.events[index..], previous, generation, index == 0 && page.truncated)
    {
      var event := page.events[index];
      assert page.events[index..][1..] == page.events[index + 1..];
      var _ :- CheckEvent(stream, workspaceId, event, previous, generation, index == 0 && page.truncated);
      previous := event.sequence;
      generation := event.generation;
      index := index + 1;
    }
    return Ok((previous, generation));
  }

  class WorkspaceObservationState {
    const workspaceId: string
    var cursor: nat
    var generation: nat
    var observations: seq<Event>
    var historyTruncated: bool

    function Contents(): State
      reads this
    {
      State(workspaceId, cursor, generation, observations, historyTruncated)
    }

    constructor (workspaceId: string)
      requires New(workspaceId).Ok?
      ensures Contents() == New(workspaceId).value
    {
      this.workspaceId := workspaceId;
      cursor, generation, observations, historyTruncated := 0, 0, [], false;
    }

    /** Accepts the page whole, and says how many events it brought, or changes nothing. */
    method ApplyPage(page: Page) returns (r: Result<nat, Error>)
      modifies this
      ensures r.Ok? ==> WorkspaceModel.ApplyPage(Observations, old(Contents()), page) == Ok(Contents())
      ensures r.Ok? ==> r.value == |page.events|
      ensures r.Err? ==> WorkspaceModel.ApplyPage(Observations, old(Contents()), page) == Err(r.error)
      ensures r.Err? ==> Contents() == old(Contents())
    {
      hide Scan;
      if page.schema != OBSERVE_SCHEMA || page.workspaceId != workspaceId {
        return Err(ProtocolMismatch("schema or workspace"));
      }
      if |page.events| > MAX_PAGE {
        return Err(InvalidResponse("page exceeds its bound"));
      }
      var scanned := ScanPage(Observations, workspaceId, page, cursor, generation);
      if scanned.Err? {
        return Err(scanned.error);
      }
      if page.nextCursor != scanned.value.0 {
        return Err(InvalidResponse("cursor does not match page"));
      }
      observations := observations + page.events;
      var excess := if |observations| > MAX_HISTORY then |observations| - MAX_HISTORY else 0;
      if excess > 0 {
        observations := observations[excess..];
      }
      cursor := page.nextCursor;
      generation := scanned.value.1;
      historyTruncated := historyTruncated || page.truncated || excess > 0;
      return Ok(|page.events|);
    }
  }

  datatype Consent = Off | ReadOnly

  class WorkspaceAdvisoryState {
    const workspaceId: string
    var cursor: nat
    var generation: nat
    var advisories: seq<Event>
    var historyTruncated: bool

    function Contents(): State
      reads this
    {
      State(workspaceId, cursor, generation, advisories, historyTruncated)
    }

    constructor (workspaceId: string)
      requires New(workspaceId).Ok?
      ensures Contents() == New(workspaceId).value
    {
      this.workspaceId := workspaceId;
      cursor, generation, advisories, historyTruncated := 0, 0, [], false;
    }

    /** Without consent a page is passed over unread. */
    method ApplyPage(consent: Consent, page: Page) returns (r: Result<nat, Error>)
      modifies this
      ensures consent.Off? ==> r == Ok(0) && Contents() == old(Contents())
      ensures consent.ReadOnly? && r.Ok? ==> WorkspaceModel.ApplyPage(Advisories, old(Contents()), page) == Ok(Contents())
      ensures consent.ReadOnly? && r.Ok? ==> r.value == |page.events|
      ensures r.Err? ==> WorkspaceModel.ApplyPage(Advisories, old(Contents()), page) == Err(r.error)
      ensures r.Err? ==> Contents() == old(Contents())
    {
      hide Scan;
      if consent.Off? {
        return Ok(0);
      }
      if page.schema != ADVISORY_SCHEMA || page.workspaceId != workspaceId {
        return Err(ProtocolMismatch("schema or workspace"));
      }
      if |page.events| > MAX_PAGE {
        return Err(InvalidResponse("page exceeds its bound"));
      }
      var scanned := ScanPage(Advisories, workspaceId, page, cursor, generation);
      if scanned.Err? {
        return Err(scanned.error);
      }
      if page.nextCursor != scanned.value.0 {
        return Err(InvalidResponse("cursor does not match page"));
      }
      advisories := advisories + page.events;
      var excess := if |advisories| > MAX_HISTORY then |advisories| - MAX_HISTORY else 0;
      if excess > 0 {
        advisories := advisories[excess..];
      }
      cursor := page.nextCursor;
      generation := scanned.value.1;
      historyTruncated := historyTruncated || page.truncated || excess > 0;
      return Ok(|page.events|);
    }
  }
}
