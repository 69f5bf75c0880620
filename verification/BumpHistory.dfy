/** The history of signed release events, and the decision on each new one. */
module BumpHistory {
  import opened Prelude

  datatype Event = Event(id: string, producer: string, sequence: int, digest: string)

  /** An entry read back from the state file may lack any of its fields. */
  datatype Entry = Entry(id: Option<string>, producer: Option<string>, sequence: Option<int>, digest: Option<string>)

  /** The state file: absent or empty, of another shape, or a list of entries. */
  datatype Saved = NoState | BadState | Saved(entries: seq<Entry>)

  datatype Decision = Accepted | Duplicate | Conflict | Stale | InvalidHistory

  function Recorded(e: Event): Entry {
    Entry(Some(e.id), Some(e.producer), Some(e.sequence), Some(e.digest))
  }

  predicate SameId(prior: Entry, e: Event) {
    prior.id == Some(e.id)
  }

  predicate Outdates(prior: Entry, e: Event) {
    prior.producer == Some(e.producer) && (if prior.sequence.Some? then prior.sequence.value else 0) >= e.sequence
  }

  /** What one entry decides, once the scan reaches it. */
  function Ruling(prior: Entry, e: Event): Option<Decision> {
    if SameId(prior, e) then Some(if prior.digest == Some(e.digest) then Duplicate else Conflict)
    else if Outdates(prior, e) then Some(Stale)
    else None
  }

  /** The first entry with a ruling decides; with none, the event is new. */
  ghost predicate FirstRuling(entries: seq<Entry>, e: Event, d: Decision) {
    || (d == Accepted && forall i | 0 <= i < |entries| :: Ruling(entries[i], e).None?)
    || (exists i | 0 <= i < |entries| ::
          Ruling(entries[i], e) == Some(d) && forall j | 0 <= j < i :: Ruling(entries[j], e).None?)
  }

  method Scan(entries: seq<Entry>, e: Event) returns (d: Decision)
    ensures FirstRuling(entries, e, d)
    ensures d == Decide(entries, e)
  {
    for i := 0 to |entries|
      invariant forall j | 0 <= j < i :: Ruling(entries[j], e).None?
      invariant Decide(entries, e) == Decide(entries[i..], e)
    {
      var prior := entries[i];
      if prior.id == Some(e.id) {
        if prior.digest == Some(e.digest) {
          return Duplicate;
        }
        return Conflict;
      }
      if Outdates(prior, e) {
        return Stale;
      }
      assert entries[i..][1..] == entries[i + 1..];
    }
    return Accepted;
  }

  /** The history part of `prepare`: the decision, and the entries to keep. */
  method Record(state: Saved, e: Event) returns (d: Decision, kept: seq<Entry>)
    ensures state.BadState? <==> d == InvalidHistory
    ensures !state.BadState? ==>
      var entries := if state.Saved? then state.entries else [];
      FirstRuling(entries, e, d) && kept == if d == Accepted then entries + [Recorded(e)] else entries
  {
    if state.BadState? {
      return InvalidHistory, [];
    }
    var entries := if state.Saved? then state.entries else [];
    d := Scan(entries, e);
    DecideIsFirst(entries, e);
    kept := if d == Accepted then entries + [Recorded(e)] else entries;
  }

  function Decide(entries: seq<Entry>, e: Event): Decision
    decreases |entries|
  {
    if |entries| == 0 then Accepted
    else
      match Ruling(entries[0], e)
      case Some(d) => d
      case None => Decide(entries[1..], e)
  }

  lemma {:induction false} DecideIsFirst(entries: seq<Entry>, e: Event)
    ensures FirstRuling(entries, e, Decide(entries, e))
    ensures Decide(entries, e) != InvalidHistory
    decreases |entries|
  {
    if |entries| > 0 && Ruling(entries[0], e).None? {
      var rest := entries[1..];
      DecideIsFirst(rest, e);
      if Decide(rest, e) != Accepted {
        var i :| 0 <= i < |rest| && Ruling(rest[i], e) == Some(Decide(rest, e))
          && forall j | 0 <= j < i :: Ruling(rest[j], e).None?;
        assert Ruling(entries[i + 1], e) == Some(Decide(entries, e));
        forall j | 0 <= j < i + 1
          ensures Ruling(entries[j], e).None?
        {
          assert j > 0 ==> entries[j] == rest[j - 1];
        }
      } else {
        forall j | 0 <= j < |entries|
          ensures Ruling(entries[j], e).None?
        {
          assert j > 0 ==> entries[j] == rest[j - 1];
        }
      }
    }
  }

  /** `FirstRuling` determines the decision, so the scan order is all there is to it. */
  lemma {:induction false} FirstRulingIsUnique(entries: seq<Entry>, e: Event, d: Decision)
    requires FirstRuling(entries, e, d)
    ensures d == Decide(entries, e)
  {
    DecideIsFirst(entries, e);
    var decided := Decide(entries, e);
    if d != Accepted && decided != Accepted {
      var i :| 0 <= i < |entries| && Ruling(entries[i], e) == Some(d)
        && forall j | 0 <= j < i :: Ruling(entries[j], e).None?;
      var k :| 0 <= k < |entries| && Ruling(entries[k], e) == Some(decided)
        && forall j | 0 <= j < k :: Ruling(entries[j], e).None?;
      assert !(i < k) && !(k < i);
    }
  }

  // ----- histories -----

  function After(entries: seq<Entry>, e: Event): seq<Entry> {
    if Decide(entries, e) == Accepted then entries + [Recorded(e)] else entries
  }

  function AfterAll(entries: seq<Entry>, events: seq<Event>): seq<Entry>
    decreases |events|
  {
    if |events| == 0 then entries else AfterAll(After(entries, events[0]), events[1..])
  }

  ghost predicate Full(entry: Entry) {
    entry.id.Some? && entry.producer.Some? && entry.sequence.Some? && entry.digest.Some?
  }

  /** Ids are unique, and each producer's sequences rise strictly in list order. */
  ghost predicate Ordered(entries: seq<Entry>) {
    && (forall i | 0 <= i < |entries| :: Full(entries[i]))
    && (forall i, j | 0 <= i < j < |entries| ::
          && entries[i].id != entries[j].id
          && (entries[i].producer == entries[j].producer ==> entries[i].sequence.value < entries[j].sequence.value))
  }

  /** An event is new exactly when its id is new and its sequence exceeds all its producer's. */
  lemma {:induction false} AcceptedIff(entries: seq<Entry>, e: Event)
    ensures Decide(entries, e) == Accepted <==> forall prior | prior in entries :: !SameId(prior, e) && !Outdates(prior, e)
  {
    hide Decide, SameId, Outdates;
    DecideIsFirst(entries, e);
    if forall prior | prior in entries :: !SameId(prior, e) && !Outdates(prior, e) {
      forall i | 0 <= i < |entries|
        ensures Ruling(entries[i], e).None?
      {
        assert entries[i] in entries;
      }
    }
  }

  lemma {:induction false} AcceptanceKeepsOrder(entries: seq<Entry>, e: Event)
    requires Ordered(entries)
    ensures Ordered(After(entries, e))
  {
    hide Decide;
    AcceptedIff(entries, e);
    if Decide(entries, e) == Accepted {
      var after := entries + [Recorded(e)];
      forall i, j | 0 <= i < j < |after|
        ensures after[i].id != after[j].id
        ensures after[i].producer == after[j].producer ==> after[i].sequence.value < after[j].sequence.value
      {
        if j == |entries| {
          assert entries[i] in entries;
          assert !SameId(entries[i], e) && !Outdates(entries[i], e);
        }
      }
    }
  }

  /** Every history grown from an ordered one, the empty one included, is ordered and extends it. */
  lemma {:induction false} EveryHistoryIsOrdered(entries: seq<Entry>, events: seq<Event>)
    requires Ordered(entries)
    ensures Ordered(AfterAll(entries, events)) && entries <= AfterAll(entries, events)
    decreases |events|
  {
    hide Ordered, Decide;
    if |events| > 0 {
      AcceptanceKeepsOrder(entries, events[0]);
      EveryHistoryIsOrdered(After(entries, events[0]), events[1..]);
    }
  }

  /** In an ordered history a recorded event is a duplicate, although later entries would call it stale. */
  lemma {:induction false} RecordedIsDuplicate(entries: seq<Entry>, e: Event)
    requires Ordered(entries) && Recorded(e) in entries
    ensures Decide(entries, e) == Duplicate
  {
    hide Decide;
    var i :| 0 <= i < |entries| && entries[i] == Recorded(e);
    assert Ruling(entries[i], e) == Some(Duplicate);
    forall j | 0 <= j < i
      ensures Ruling(entries[j], e).None?
    {
      assert entries[j].id != entries[i].id;
    }
    assert FirstRuling(entries, e, Duplicate);
    FirstRulingIsUnique(entries, e, Duplicate);
  }

  /** Scanning backwards would not do: the newest entry of the same producer outdates the replay. */
  lemma {:induction false} LaterEntryOutdates(entries: seq<Entry>, i: nat, j: nat, e: Event)
    requires Ordered(entries) && i < j < |entries| && entries[i] == Recorded(e)
    requires entries[j].producer == Some(e.producer)
    ensures Ruling(entries[j], e) == Some(Stale)
  {
    assert entries[i].id != entries[j].id;
  }

  lemma {:induction false} AfterAllConcat(entries: seq<Entry>, first: seq<Event>, second: seq<Event>)
    ensures AfterAll(entries, first + second) == AfterAll(AfterAll(entries, first), second)
    decreases |first|
  {
    hide Decide;
    if |first| == 0 {
      assert first + second == second;
    } else {
      assert (first + second)[1..] == first[1..] + second;
      AfterAllConcat(After(entries, first[0]), first[1..], second);
    }
  }

  /**
   * From the empty history: an event accepted once is a duplicate ever after,
   * whatever was processed in between, and replaying it leaves the history as it is.
   */
  lemma {:induction false} ReplayIsHarmless(before: seq<Event>, e: Event, between: seq<Event>)
    requires Decide(AfterAll([], before), e) == Accepted
    ensures Decide(AfterAll([], before + [e] + between), e) == Duplicate
    ensures AfterAll([], before + [e] + between + [e]) == AfterAll([], before + [e] + between)
  {
    hide Decide;
    var h := AfterAll([], before);
    EveryHistoryIsOrdered([], before);
    AfterAllConcat([], before, [e]);
    AfterAllConcat([], before + [e], between);
    var recorded := After(h, e);
    assert AfterAll(h, [e]) == recorded;
    assert recorded[|h|] == Recorded(e);
    AcceptanceKeepsOrder(h, e);
    EveryHistoryIsOrdered(recorded, between);
    var now := AfterAll(recorded, between);
    assert now[|h|] == Recorded(e);
    RecordedIsDuplicate(now, e);
    AfterAllConcat([], before + [e] + between, [e]);
    assert AfterAll(now, [e]) == After(now, e);
  }

  /** A refused event, of whatever kind, leaves no trace on any later decision. */
  lemma {:induction false} RefusedLeavesNoTrace(before: seq<Event>, e: Event, rest: seq<Event>)
    requires Decide(AfterAll([], before), e) != Accepted
    ensures AfterAll([], before + [e] + rest) == AfterAll([], before + rest)
  {
    hide Decide;
    AfterAllConcat([], before + [e], rest);
    AfterAllConcat([], before, [e]);
    AfterAllConcat([], before, rest);
    var h := AfterAll([], before);
    assert AfterAll(h, [e]) == After(h, e);
  }

  // ----- every decision, by the fields of the entries -----

  /** The entry is of the event's producer and not older; an entry without a number counts as 0. */
  predicate NotOlder(prior: Entry, e: Event) {
    && prior.producer == Some(e.producer)
    && match prior.sequence
       case Some(n) => n >= e.sequence
       case None => 0 >= e.sequence
  }

  /**
   * An event whose id is recorded, first in entry `i`: an entry before it of the
   * same producer that is not older makes it stale; otherwise the digest decides
   * between a duplicate and a conflict, whatever comes after.
   */
  lemma {:induction false} KnownIdRules(entries: seq<Entry>, e: Event, i: nat)
    requires i < |entries| && entries[i].id == Some(e.id) && forall j | 0 <= j < i :: entries[j].id != Some(e.id)
    ensures Decide(entries, e) ==
      if exists j | 0 <= j < i :: NotOlder(entries[j], e) then Stale
      else if entries[i].digest == Some(e.digest) then Duplicate
      else Conflict
    decreases i
  {
    if i > 0 && !NotOlder(entries[0], e) {
      var rest := entries[1..];
      assert forall j | 0 <= j < i :: entries[j].id != Some(e.id);
      assert entries[0].id != Some(e.id);
      assert forall j | 0 < j < |entries| :: entries[j] == rest[j - 1];
      KnownIdRules(rest, e, i - 1);
      if j :| 0 <= j < i && NotOlder(entries[j], e) {
        assert NotOlder(rest[j - 1], e);
      }
      if j :| 0 <= j < i - 1 && NotOlder(rest[j], e) {
        assert NotOlder(entries[j + 1], e);
      }
    }
  }

  /** An event whose id is not recorded is stale or new. */
  lemma {:induction false} NewIdRules(entries: seq<Entry>, e: Event)
    requires forall prior | prior in entries :: prior.id != Some(e.id)
    ensures Decide(entries, e) == if exists prior | prior in entries :: NotOlder(prior, e) then Stale else Accepted
    decreases |entries|
  {
    if |entries| > 0 {
      assert entries[0] in entries;
      assert entries == [entries[0]] + entries[1..];
      NewIdRules(entries[1..], e);
    }
  }

  /**
   * In every history an event that comes again under its producer with at least
   * its number and another digest is a conflict, and with the same digest a duplicate.
   */
  lemma {:induction false} ChangedDigestConflicts(events: seq<Event>, e: Event, i: nat)
    requires i < |AfterAll([], events)| && AfterAll([], events)[i].id == Some(e.id)
    requires AfterAll([], events)[i].producer == Some(e.producer)
    requires AfterAll([], events)[i].sequence.Some? && AfterAll([], events)[i].sequence.value <= e.sequence
    ensures Decide(AfterAll([], events), e) ==
      if AfterAll([], events)[i].digest == Some(e.digest) then Duplicate else Conflict
  {
    hide Decide, AfterAll;
    EveryHistoryIsOrdered([], events);
    var entries := AfterAll([], events);
    forall j | 0 <= j < i
      ensures entries[j].id != Some(e.id) && !NotOlder(entries[j], e)
    {
      assert Full(entries[j]) && entries[j].id != entries[i].id;
    }
    KnownIdRules(entries, e, i);
  }

  // ----- the manifest that is published -----

  /** The bundle whose manifest stands published: an accepted event's, and a duplicate's again. */
  function Publish(published: Option<string>, entries: seq<Entry>, e: Event): Option<string> {
    if Decide(entries, e) == Accepted || Decide(entries, e) == Duplicate then Some(e.digest) else published
  }

  function Published(published: Option<string>, entries: seq<Entry>, events: seq<Event>): Option<string>
    decreases |events|
  {
    if |events| == 0 then published
    else Published(Publish(published, entries, events[0]), After(entries, events[0]), events[1..])
  }

  /** The published bundle is the one recorded last. */
  ghost predicate IsNewest(published: Option<string>, entries: seq<Entry>) {
    if |entries| == 0 then published.None? else published == entries[|entries| - 1].digest
  }

  /** A recorded event is replayed whose bundle is not the one recorded last. */
  predicate Reinstates(entries: seq<Entry>, e: Event) {
    Decide(entries, e) == Duplicate && |entries| > 0 && entries[|entries| - 1].digest != Some(e.digest)
  }

  lemma {:induction false} DuplicateNeedsEntry(e: Event)
    ensures Decide([], e) == Accepted
  {
  }

  lemma {:induction false} NewestStep(published: Option<string>, entries: seq<Entry>, e: Event)
    requires IsNewest(published, entries)
    ensures IsNewest(Publish(published, entries, e), After(entries, e)) <==> !Reinstates(entries, e)
  {
    hide Decide;
    if |entries| == 0 {
      DuplicateNeedsEntry(e);
    }
  }

  ghost predicate AlwaysNewest(published: Option<string>, entries: seq<Entry>, events: seq<Event>)
    decreases |events|
  {
    && IsNewest(published, entries)
    && (|events| == 0 || AlwaysNewest(Publish(published, entries, events[0]), After(entries, events[0]), events[1..]))
  }

  predicate NeverReinstates(entries: seq<Entry>, events: seq<Event>)
    decreases |events|
  {
    |events| == 0 || (!Reinstates(entries, events[0]) && NeverReinstates(After(entries, events[0]), events[1..]))
  }

  /** The published manifest is the newest event's throughout a run exactly if no older bundle's event is replayed. */
  lemma {:induction false} AlwaysNewestIff(published: Option<string>, entries: seq<Entry>, events: seq<Event>)
    requires IsNewest(published, entries)
    ensures AlwaysNewest(published, entries, events) <==> NeverReinstates(entries, events)
    decreases |events|
  {
    hide Reinstates, IsNewest, Publish, After;
    if |events| > 0 {
      NewestStep(published, entries, events[0]);
      if !Reinstates(entries, events[0]) {
        AlwaysNewestIff(Publish(published, entries, events[0]), After(entries, events[0]), events[1..]);
      } else {
        assert !AlwaysNewest(Publish(published, entries, events[0]), After(entries, events[0]), events[1..]);
      }
    }
  }

  /** Replaying the first of two events leaves the history and puts the first manifest back. */
  lemma {:induction false} ReplayReinstates(a: Event, b: Event)
    requires a.id != b.id && a.digest != b.digest && (a.producer == b.producer ==> a.sequence < b.sequence)
    ensures AfterAll([], [a, b, a]) == AfterAll([], [a, b]) == [Recorded(a), Recorded(b)]
    ensures Published(None, [], [a, b]) == Some(b.digest) && Published(None, [], [a, b, a]) == Some(a.digest)
  {
    hide Decide;
    var one, two := [Recorded(a)], [Recorded(a), Recorded(b)];
    DuplicateNeedsEntry(a);
    AcceptedIff(one, b);
    assert one + [Recorded(b)] == two && [] + [Recorded(a)] == one;
    assert Ordered(two);
    RecordedIsDuplicate(two, a) by {
      assert two[0] == Recorded(a);
    }
    assert [a, b, a][1..] == [b, a] && [b, a][1..] == [a] && [a][1..] == [] && [a, b][1..] == [b] && [b][1..] == [];
    assert AfterAll([], [a, b, a]) == AfterAll(one, [b, a]) == AfterAll(two, [a]) == AfterAll(two, []);
    assert AfterAll([], [a, b]) == AfterAll(one, [b]) == AfterAll(two, []);
    assert Published(None, [], [a, b, a]) == Published(Some(a.digest), one, [b, a])
        == Published(Some(b.digest), two, [a]) == Published(Some(a.digest), two, []);
    assert Published(None, [], [a, b]) == Published(Some(a.digest), one, [b]) == Published(Some(b.digest), two, []);
  }
}
