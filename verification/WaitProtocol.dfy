/**
 * The event-driven wait: the feeder, a resizer and any number of waiters share
 * the grid lock and the generation watch, and take their steps in any order.
 */
module WaitProtocol {
  import opened Prelude

  /** The screen text, which is all of the grid a condition looks at. */
  type Grid = string

  datatype Condition = Text(needle: string) | Gone(needle: string) | Regex(matches: string -> bool)

  predicate FoundAt(text: string, needle: string, i: nat) {
    i + |needle| <= |text| && text[i..i + |needle|] == needle
  }

  predicate Contains(text: string, needle: string) {
    exists i :: 0 <= i <= |text| && FoundAt(text, needle, i)
  }

  predicate Met(c: Condition, grid: Grid) {
    match c
    case Text(needle) => Contains(grid, needle)
    case Gone(needle) => !Contains(grid, needle)
    case Regex(matches) => matches(grid)
  }

  // ----- the participants -----

  /** `Fed` is the window between releasing the grid lock and bumping the generation. */
  datatype Feeder = Receiving | Feeding | Fed | Exited

  /** A resize holds the lock throughout; `Upgraded` holds a strong sender as well. */
  datatype Resizer = Away | Entered | Resized | Upgraded

  datatype Outcome = Matched(on: Grid) | TimedOut(screen: Grid, ended: bool, generation: nat)

  datatype WaiterPc = Marking | Marked | Checking | Asleep | Reporting(ended: bool) | Done(outcome: Outcome)

  datatype Waiter = Waiter(condition: Condition, seen: nat, pc: WaiterPc)

  datatype Holder = Nobody | TheFeeder | TheResizer | TheWaiter(id: nat)

  /** `unsignalled` records that some resize changed the grid when no sender was left to bump. */
  datatype State = State(
    grid: Grid, generation: nat, lock: Holder, feeder: Feeder, resizer: Resizer,
    waiters: map<nat, Waiter>, unsignalled: bool)

  function Start(grid: Grid): State {
    State(grid, 0, Nobody, Receiving, Away, map[], false)
  }

  /** No strong sender is left: `changed` fails once everything published is seen. */
  predicate Closed(s: State) {
    s.feeder.Exited? && !s.resizer.Upgraded?
  }

  /** The grid has changed and the bump that announces it is still to come. */
  predicate Pending(s: State) {
    s.feeder.Fed? || s.resizer.Resized? || s.resizer.Upgraded?
  }

  // ----- the steps -----

  datatype Step =
    | FeedLock
    | Feed(next: Grid)
    | FeedBump
    | FeedExit
    | ResizeLock
    | ResizeFail
    | ResizeGrid(next: Grid)
    | ResizeUpgrade
    | ResizeBump
    | Spawn(id: nat, condition: Condition)
    | Mark(id: nat)
    | CheckLock(id: nat)
    | Check(id: nat)
    | Wake(id: nat)
    | SenderGone(id: nat)
    | Deadline(id: nat)
    | Report(id: nat)

  predicate At(s: State, id: nat, pc: WaiterPc) {
    id in s.waiters && s.waiters[id].pc == pc
  }

  predicate Enabled(s: State, a: Step) {
    match a
    case FeedLock => s.feeder.Receiving? && s.lock.Nobody?
    case Feed(_) => s.feeder.Feeding?
    case FeedBump => s.feeder.Fed?
    case FeedExit => s.feeder.Receiving?
    case ResizeLock => s.resizer.Away? && s.lock.Nobody?
    case ResizeFail => s.resizer.Entered?
    case ResizeGrid(_) => s.resizer.Entered?
    case ResizeUpgrade => s.resizer.Resized?
    case ResizeBump => s.resizer.Upgraded?
    case Spawn(id, _) => id !in s.waiters
    case Mark(id) => At(s, id, Marking)
    case CheckLock(id) => At(s, id, Marked) && s.lock.Nobody?
    case Check(id) => At(s, id, Checking)
    case Wake(id) => At(s, id, Asleep) && s.waiters[id].seen != s.generation
    case SenderGone(id) => At(s, id, Asleep) && s.waiters[id].seen == s.generation && Closed(s)
    case Deadline(id) => At(s, id, Asleep)
    case Report(id) => id in s.waiters && s.waiters[id].pc.Reporting? && s.lock.Nobody?
  }

  function Put(s: State, id: nat, w: Waiter): State {
    s.(waiters := s.waiters[id := w])
  }

  function Do(s: State, a: Step): State
    requires Enabled(s, a)
  {
    match a
    case FeedLock => s.(feeder := Feeding, lock := TheFeeder)
    case Feed(next) => s.(grid := next, feeder := Fed, lock := Nobody)
    case FeedBump => s.(generation := s.generation + 1, feeder := Receiving)
    case FeedExit => s.(feeder := Exited)
    case ResizeLock => s.(resizer := Entered, lock := TheResizer)
    case ResizeFail => s.(resizer := Away, lock := Nobody)
    case ResizeGrid(next) => s.(grid := next, resizer := Resized)
    case ResizeUpgrade =>
      if s.feeder.Exited? then s.(resizer := Away, lock := Nobody, unsignalled := true) else s.(resizer := Upgraded)
    case ResizeBump => s.(generation := s.generation + 1, resizer := Away, lock := Nobody)
    case Spawn(id, condition) => Put(s, id, Waiter(condition, 0, Marking))
    case Mark(id) => Put(s, id, s.waiters[id].(seen := s.generation, pc := Marked))
    case CheckLock(id) => Put(s, id, s.waiters[id].(pc := Checking)).(lock := TheWaiter(id))
    case Check(id) =>
      var w := s.waiters[id];
      Put(s, id, w.(pc := if Met(w.condition, s.grid) then Done(Matched(s.grid)) else Asleep)).(lock := Nobody)
    case Wake(id) => Put(s, id, s.waiters[id].(seen := s.generation, pc := Marking))
    case SenderGone(id) => Put(s, id, s.waiters[id].(pc := Reporting(true)))
    case Deadline(id) => Put(s, id, s.waiters[id].(pc := Reporting(false)))
    case Report(id) =>
      var w := s.waiters[id];
      Put(s, id, w.(pc := Done(TimedOut(s.grid, w.pc.ended, s.generation))))
  }

  /** The state after the steps, if each was enabled in its turn. */
  function Run(s: State, steps: seq<Step>): Option<State>
    decreases |steps|
  {
    if steps == [] then Some(s)
    else if Enabled(s, steps[0]) then Run(Do(s, steps[0]), steps[1..])
    else None
  }

  // ----- the invariant -----

  predicate LockOk(s: State) {
    && (s.lock.TheFeeder? <==> s.feeder.Feeding?)
    && (s.lock.TheResizer? <==> !s.resizer.Away?)
    && (s.lock.TheWaiter? ==> At(s, s.lock.id, Checking))
    && (s.unsignalled ==> s.feeder.Exited?)
  }

  predicate WaiterOk(s: State, id: nat)
    requires id in s.waiters
  {
    var w := s.waiters[id];
    && w.seen <= s.generation && (w.pc.Checking? ==> s.lock == TheWaiter(id))
    && (w.pc.Asleep? && w.seen == s.generation && !Pending(s) && !s.unsignalled ==> !Met(w.condition, s.grid))
    && (w.pc == Reporting(true) ==> Closed(s) && (!Pending(s) && !s.unsignalled ==> !Met(w.condition, s.grid)))
    && (w.pc.Done? && w.pc.outcome.Matched? ==> Met(w.condition, w.pc.outcome.on))
    && (w.pc.Done? && w.pc.outcome.TimedOut? && w.pc.outcome.ended ==>
          && Closed(s)
          && (!s.unsignalled ==> !Met(w.condition, w.pc.outcome.screen))
          && (!s.unsignalled && !Pending(s) ==> w.pc.outcome.screen == s.grid))
  }

  predicate Inv(s: State) {
    LockOk(s) && forall id :: id in s.waiters ==> WaiterOk(s, id)
  }

  lemma {:induction false} StepKeepsWaiter(s: State, a: Step, id: nat)
    requires Inv(s) && Enabled(s, a) && id in Do(s, a).waiters
    ensures WaiterOk(Do(s, a), id)
  {
    hide Met;
    if id in s.waiters {
      assert WaiterOk(s, id);
    }
    if a.Check? {
      assert WaiterOk(s, a.id);
    }
  }

  lemma {:induction false} StepKeepsLock(s: State, a: Step)
    requires Inv(s) && Enabled(s, a)
    ensures LockOk(Do(s, a))
  {
    hide Met;
    if a.Check? {
      assert WaiterOk(s, a.id);
    }
  }

  lemma {:induction false} StepKeepsInv(s: State, a: Step)
    requires Inv(s) && Enabled(s, a)
    ensures Inv(Do(s, a))
  {
    hide WaiterOk, LockOk, Enabled, Do;
    StepKeepsLock(s, a);
    forall id | id in Do(s, a).waiters
      ensures WaiterOk(Do(s, a), id)
    {
      StepKeepsWaiter(s, a, id);
    }
  }

  lemma {:induction false} RunKeepsInv(s: State, steps: seq<Step>)
    requires Inv(s) && Run(s, steps).Some?
    ensures Inv(Run(s, steps).value)
    decreases |steps|
  {
    hide Inv, Enabled, Do;
    if steps != [] {
      StepKeepsInv(s, steps[0]);
      RunKeepsInv(Do(s, steps[0]), steps[1..]);
    }
  }

  // ----- positions in a run -----

  lemma {:induction false} RunSplits(s: State, first: seq<Step>, second: seq<Step>)
    ensures Run(s, first + second) == if Run(s, first).Some? then Run(Run(s, first).value, second) else None
    decreases |first|
  {
    hide Enabled, Do;
    if first == [] {
      assert first + second == second;
    } else {
      assert (first + second)[1..] == first[1..] + second;
      if Enabled(s, first[0]) {
        RunSplits(Do(s, first[0]), first[1..], second);
      }
    }
  }

  lemma {:induction false} RunLast(s: State, steps: seq<Step>)
    requires steps != [] && Run(s, steps).Some?
    ensures var n := |steps| - 1;
            && Run(s, steps[..n]).Some? && Enabled(Run(s, steps[..n]).value, steps[n])
            && Run(s, steps) == Some(Do(Run(s, steps[..n]).value, steps[n]))
  {
    hide Enabled, Do;
    var n := |steps| - 1;
    assert steps == steps[..n] + [steps[n]] && [steps[n]][1..] == [];
    RunSplits(s, steps[..n], [steps[n]]);
  }

  // ----- what every interleaving guarantees -----

  /**
   * No wakeup is lost.  While the feeder lives, a sleeping waiter whose
   * condition holds on the grid either has a bump to wake it, or the one who
   * changed the grid is about to bump.
   */
  lemma {:induction false} NoLostWakeup(grid: Grid, steps: seq<Step>, id: nat)
    requires Run(Start(grid), steps).Some?
    requires !Run(Start(grid), steps).value.feeder.Exited? && At(Run(Start(grid), steps).value, id, Asleep)
    ensures var s := Run(Start(grid), steps).value;
            Met(s.waiters[id].condition, s.grid) ==> Enabled(s, Wake(id)) || Pending(s)
  {
    hide Met, Run;
    RunKeepsInv(Start(grid), steps);
    var s := Run(Start(grid), steps).value;
    assert WaiterOk(s, id);
  }

  // ----- a met condition is found -----

  /** The step leaves the grid alone. */
  predicate Quiet(a: Step) {
    !a.Feed? && !a.ResizeGrid?
  }

  predicate AllQuiet(steps: seq<Step>) {
    forall i :: 0 <= i < |steps| ==> Quiet(steps[i])
  }

  /** The waiter sleeps, its condition holds on the grid, and the feeder is neither gone nor in the middle of a feed. */
  ghost predicate Waiting(s: State, id: nat, condition: Condition, grid: Grid) {
    && Inv(s) && At(s, id, Asleep) && s.waiters[id].condition == condition && s.grid == grid
    && !s.feeder.Exited? && !s.feeder.Feeding?
  }

  /** `more` is a quiet schedule from `s` to `t`. */
  ghost predicate Leads(s: State, more: seq<Step>, t: State) {
    AllQuiet(more) && Run(s, more) == Some(t)
  }

  lemma {:induction false} LeadsNowhere(s: State)
    ensures Leads(s, [], s)
  {
  }

  lemma {:induction false} LeadsOn(s: State, more: seq<Step>, t: State, a: Step)
    requires Leads(s, more, t) && Enabled(t, a) && Quiet(a)
    ensures Leads(s, more + [a], Do(t, a))
  {
    hide Enabled, Do;
    RunSplits(s, more, [a]);
    assert [a][1..] == [];
    assert Run(t, [a]) == Some(Do(t, a));
  }

  /** The schedule does not count on the terminal refusing a resize. */
  predicate NoRefusal(steps: seq<Step>) {
    forall i :: 0 <= i < |steps| ==> !steps[i].ResizeFail?
  }

  /** The resizer finishes, or gives up, and lets go of the lock. */
  lemma {:induction false} ResizerLeaves(s: State, id: nat, condition: Condition, grid: Grid) returns (more: seq<Step>, t: State)
    requires Waiting(s, id, condition, grid)
    ensures Leads(s, more, t) && |more| <= 2 && Waiting(t, id, condition, grid) && t.resizer.Away?
    ensures !s.resizer.Entered? ==> NoRefusal(more)
  {
    hide Met, WaiterOk, Leads;
    more, t := [], s;
    LeadsNowhere(s);
    if s.resizer.Entered? {
      LeadsOn(s, more, t, ResizeFail);
      StepKeepsInv(t, ResizeFail);
      more, t := more + [ResizeFail], Do(t, ResizeFail);
    } else {
      if t.resizer.Resized? {
        LeadsOn(s, more, t, ResizeUpgrade);
        StepKeepsInv(t, ResizeUpgrade);
        more, t := more + [ResizeUpgrade], Do(t, ResizeUpgrade);
      }
      if t.resizer.Upgraded? {
        LeadsOn(s, more, t, ResizeBump);
        StepKeepsInv(t, ResizeBump);
        more, t := more + [ResizeBump], Do(t, ResizeBump);
      }
    }
  }

  /** Then the feeder bumps, and a waiter that is checking finishes, so that the lock is free and nothing is pending. */
  lemma {:induction false} LockIsFreed(s: State, id: nat, condition: Condition, grid: Grid) returns (more: seq<Step>, t: State)
    requires Waiting(s, id, condition, grid) && s.resizer.Away?
    ensures Leads(s, more, t) && |more| <= 2 && Waiting(t, id, condition, grid) && t.lock.Nobody? && !Pending(t)
    ensures NoRefusal(more)
  {
    hide Met, WaiterOk, Leads;
    more, t := [], s;
    LeadsNowhere(s);
    if t.feeder.Fed? {
      LeadsOn(s, more, t, FeedBump);
      StepKeepsInv(t, FeedBump);
      more, t := more + [FeedBump], Do(t, FeedBump);
    }
    if t.lock.TheWaiter? {
      var other := t.lock.id;
      LeadsOn(s, more, t, Check(other));
      StepKeepsInv(t, Check(other));
      more, t := more + [Check(other)], Do(t, Check(other));
    }
  }

  /** And then the waiter wakes, checks and finds its condition met. */
  lemma {:induction false} WaiterFinds(s: State, id: nat, condition: Condition, grid: Grid) returns (more: seq<Step>, t: State)
    requires Waiting(s, id, condition, grid) && Met(condition, grid) && s.lock.Nobody? && !Pending(s)
    ensures Leads(s, more, t) && |more| <= 4 && At(t, id, Done(Matched(grid))) && NoRefusal(more)
  {
    hide Met, Leads;
    assert WaiterOk(s, id);
    more, t := [], s;
    LeadsNowhere(s);
    LeadsOn(s, more, t, Wake(id));
    more, t := more + [Wake(id)], Do(t, Wake(id));
    LeadsOn(s, more, t, Mark(id));
    more, t := more + [Mark(id)], Do(t, Mark(id));
    LeadsOn(s, more, t, CheckLock(id));
    more, t := more + [CheckLock(id)], Do(t, CheckLock(id));
    LeadsOn(s, more, t, Check(id));
    more, t := more + [Check(id)], Do(t, Check(id));
  }

  lemma {:induction false} LeadsFurther(s: State, first: seq<Step>, t: State, second: seq<Step>, u: State)
    requires Leads(s, first, t) && Leads(t, second, u)
    ensures Leads(s, first + second, u)
  {
    RunSplits(s, first, second);
  }

  /**
   * In every interleaving, while the feeder lives and is not in the middle of a
   * feed, a sleeping waiter whose condition holds on the grid is at most eight
   * steps, none of them changing the grid, from reporting the match; and unless a
   * resize has just taken the lock, none of them is a refused resize.
   */
  lemma {:induction false} MetIsFound(grid: Grid, steps: seq<Step>, id: nat) returns (more: seq<Step>)
    requires Run(Start(grid), steps).Some?
    requires var s := Run(Start(grid), steps).value;
             At(s, id, Asleep) && Met(s.waiters[id].condition, s.grid) && !s.feeder.Exited? && !s.feeder.Feeding?
    ensures |more| <= 8 && AllQuiet(more) && Run(Start(grid), steps + more).Some?
    ensures !Run(Start(grid), steps).value.resizer.Entered? ==> NoRefusal(more)
    ensures At(Run(Start(grid), steps + more).value, id, Done(Matched(Run(Start(grid), steps).value.grid)))
  {
    hide Met, Run, Inv;
    RunKeepsInv(Start(grid), steps) by {
      StartIsFine(grid);
    }
    var s := Run(Start(grid), steps).value;
    var condition := s.waiters[id].condition;
    var a, t := ResizerLeaves(s, id, condition, s.grid);
    var b, u := LockIsFreed(t, id, condition, s.grid);
    var c, v := WaiterFinds(u, id, condition, s.grid);
    LeadsFurther(s, a, t, b, u);
    LeadsFurther(s, a + b, u, c, v);
    more := a + b + c;
    RunSplits(Start(grid), steps, more);
  }

  lemma {:induction false} RunFrom(s: State, a: Step, rest: seq<Step>)
    requires Enabled(s, a)
    ensures Run(s, [a] + rest) == Run(Do(s, a), rest)
  {
    hide Enabled, Do;
    assert ([a] + rest)[1..] == rest;
  }

  /** A round of the feeder shows its output under the next generation. */
  lemma {:induction false} FeedRound(s: State, next: Grid, rest: seq<Step>)
    requires s.feeder.Receiving? && s.lock.Nobody?
    ensures Run(s, [FeedLock, Feed(next), FeedBump] + rest) == Run(s.(grid := next, generation := s.generation + 1), rest)
  {
    hide Run;
    var locked := s.(feeder := Feeding, lock := TheFeeder);
    var fed := s.(grid := next, feeder := Fed);
    RunFrom(s, FeedLock, [Feed(next), FeedBump] + rest);
    RunFrom(locked, Feed(next), [FeedBump] + rest);
    RunFrom(fed, FeedBump, rest);
    assert [FeedLock, Feed(next), FeedBump] + rest == [FeedLock] + ([Feed(next), FeedBump] + rest);
    assert [Feed(next), FeedBump] + rest == [Feed(next)] + ([FeedBump] + rest);
  }

  /** So does a round of the resizer, as long as the feeder lives. */
  lemma {:induction false} ResizeRound(s: State, next: Grid, rest: seq<Step>)
    requires s.resizer.Away? && s.lock.Nobody? && !s.feeder.Exited?
    ensures Run(s, [ResizeLock, ResizeGrid(next), ResizeUpgrade, ResizeBump] + rest)
         == Run(s.(grid := next, generation := s.generation + 1), rest)
  {
    hide Run;
    var locked := s.(resizer := Entered, lock := TheResizer);
    var painted := locked.(grid := next, resizer := Resized);
    RunFrom(s, ResizeLock, [ResizeGrid(next), ResizeUpgrade, ResizeBump] + rest);
    RunFrom(locked, ResizeGrid(next), [ResizeUpgrade, ResizeBump] + rest);
    RunFrom(painted, ResizeUpgrade, [ResizeBump] + rest);
    RunFrom(painted.(resizer := Upgraded), ResizeBump, rest);
    assert [ResizeLock, ResizeGrid(next), ResizeUpgrade, ResizeBump] + rest
        == [ResizeLock] + ([ResizeGrid(next), ResizeUpgrade, ResizeBump] + rest);
    assert [ResizeGrid(next), ResizeUpgrade, ResizeBump] + rest == [ResizeGrid(next)] + ([ResizeUpgrade, ResizeBump] + rest);
    assert [ResizeUpgrade, ResizeBump] + rest == [ResizeUpgrade] + ([ResizeBump] + rest);
  }

  /** A waiter that the bump wakes checks what is shown then. */
  lemma {:induction false} WakeRound(s: State, id: nat)
    requires At(s, id, Asleep) && s.lock.Nobody? && s.waiters[id].seen != s.generation
    ensures var w := s.waiters[id];
            Run(s, [Wake(id), Mark(id), CheckLock(id), Check(id)]) ==
              Some(Put(s, id, Waiter(w.condition, s.generation, if Met(w.condition, s.grid) then Done(Matched(s.grid)) else Asleep)))
  {
    hide Run, Met;
    var w := s.waiters[id].(seen := s.generation);
    var woken, marked := Put(s, id, w.(pc := Marking)), Put(s, id, w.(pc := Marked));
    var checking := Put(s, id, w.(pc := Checking)).(lock := TheWaiter(id));
    RunFrom(s, Wake(id), [Mark(id), CheckLock(id), Check(id)]);
    RunFrom(woken, Mark(id), [CheckLock(id), Check(id)]);
    RunFrom(marked, CheckLock(id), [Check(id)]);
    RunFrom(checking, Check(id), []);
    assert Do(woken, Mark(id)) == marked && Do(marked, CheckLock(id)) == checking;
    assert [Wake(id), Mark(id), CheckLock(id), Check(id)] == [Wake(id)] + [Mark(id), CheckLock(id), Check(id)];
    assert [Mark(id), CheckLock(id), Check(id)] == [Mark(id)] + [CheckLock(id), Check(id)];
    assert [CheckLock(id), Check(id)] == [CheckLock(id)] + [Check(id)] && [Check(id)] + [] == [Check(id)];
    RunNothing(Do(checking, Check(id)));
    assert Do(checking, Check(id)) == Put(s, id, w.(pc := if Met(w.condition, s.grid) then Done(Matched(s.grid)) else Asleep));
  }

  lemma {:induction false} RunNothing(s: State)
    ensures Run(s, []) == Some(s)
  {
  }

  /**
   * In every run, whatever is fed or painted next while the lock is free wakes a
   * sleeping waiter, which matches exactly if that meets its condition, with the
   * generation one further and everything else as it was.
   */
  lemma {:induction false} ChangeIsFound(grid: Grid, steps: seq<Step>, id: nat, next: Grid, byResize: bool)
    requires Run(Start(grid), steps).Some? && At(Run(Start(grid), steps).value, id, Asleep)
    requires var s := Run(Start(grid), steps).value;
             s.lock.Nobody? && !s.feeder.Exited? && if byResize then s.resizer.Away? else s.feeder.Receiving?
    ensures var s := Run(Start(grid), steps).value;
            var w := s.waiters[id];
            var change := if byResize then [ResizeLock, ResizeGrid(next), ResizeUpgrade, ResizeBump]
                          else [FeedLock, Feed(next), FeedBump];
            Run(s, change + [Wake(id), Mark(id), CheckLock(id), Check(id)]) ==
              Some(s.(grid := next, generation := s.generation + 1,
                      waiters := s.waiters[id := Waiter(w.condition, s.generation + 1,
                                                        if Met(w.condition, next) then Done(Matched(next)) else Asleep)]))
  {
    hide Run, Met, Enabled, Do;
    var s := Run(Start(grid), steps).value;
    StartIsFine(grid);
    RunKeepsInv(Start(grid), steps);
    assert WaiterOk(s, id);
    var rest := [Wake(id), Mark(id), CheckLock(id), Check(id)];
    if byResize {
      ResizeRound(s, next, rest);
    } else {
      FeedRound(s, next, rest);
    }
    WakeRound(s.(grid := next, generation := s.generation + 1), id);
  }

  lemma {:induction false} StartIsFine(grid: Grid)
    ensures Inv(Start(grid))
  {
  }

  /** In the middle of a feed no schedule can: until the feed itself, no waiter, new or old, gets at the grid. */
  lemma {:induction false} FeedComesFirst(s: State, steps: seq<Step>, id: nat)
    requires Inv(s) && s.feeder.Feeding? && Run(s, steps).Some? && AllQuiet(steps) && !MatchedAt(s, id)
    ensures Run(s, steps).value.feeder.Feeding? && !MatchedAt(Run(s, steps).value, id)
    decreases |steps|
  {
    hide Met;
    if steps != [] {
      assert Quiet(steps[0]);
      var t := Do(s, steps[0]);
      StepKeepsInv(s, steps[0]);
      assert t.feeder.Feeding? && !MatchedAt(t, id);
      FeedComesFirst(t, steps[1..], id);
    }
  }

  /** Nor can it once a resize has taken the lock, until the resize paints or is refused. */
  lemma {:induction false} ResizeComesFirst(s: State, steps: seq<Step>, id: nat)
    requires Inv(s) && s.resizer.Entered? && Run(s, steps).Some? && AllQuiet(steps) && NoRefusal(steps) && !MatchedAt(s, id)
    ensures Run(s, steps).value.resizer.Entered? && !MatchedAt(Run(s, steps).value, id)
    decreases |steps|
  {
    hide Met;
    if steps != [] {
      assert Quiet(steps[0]) && !steps[0].ResizeFail?;
      var t := Do(s, steps[0]);
      StepKeepsInv(s, steps[0]);
      assert t.resizer.Entered? && !MatchedAt(t, id);
      ResizeComesFirst(t, steps[1..], id);
    }
  }

  predicate MatchedAt(s: State, id: nat) {
    id in s.waiters && s.waiters[id].pc.Done? && s.waiters[id].pc.outcome.Matched?
  }

  lemma {:induction false} NewMatch(s: State, a: Step, id: nat)
    requires Enabled(s, a) && MatchedAt(Do(s, a), id)
    ensures (MatchedAt(s, id) && Do(s, a).waiters[id] == s.waiters[id])
         || (a == Check(id) && id in s.waiters && Do(s, a).waiters[id] == s.waiters[id].(pc := Done(Matched(s.grid)))
             && Met(s.waiters[id].condition, s.grid))
  {
    hide Met;
  }

  /** A match was found by one check of that waiter, on the grid as it then was, which met the condition. */
  lemma {:induction false} MatchesAreReal(grid: Grid, steps: seq<Step>, id: nat) returns (k: nat)
    requires Run(Start(grid), steps).Some? && MatchedAt(Run(Start(grid), steps).value, id)
    ensures k < |steps| && steps[k] == Check(id) && Run(Start(grid), steps[..k]).Some?
    ensures var w, past := Run(Start(grid), steps).value.waiters[id], Run(Start(grid), steps[..k]).value;
            w.pc.outcome.on == past.grid && Met(w.condition, past.grid)
    decreases |steps|
  {
    hide Met, Enabled, Do;
    var n := |steps| - 1;
    RunLast(Start(grid), steps);
    var before := Run(Start(grid), steps[..n]).value;
    NewMatch(before, steps[n], id);
    if MatchedAt(before, id) && Do(before, steps[n]).waiters[id] == before.waiters[id] {
      k := MatchesAreReal(grid, steps[..n], id);
      assert steps[..n][..k] == steps[..k];
    } else {
      k := n;
    }
  }

  /** What a reported match says of its screen, condition by condition. */
  lemma {:induction false} MatchSpelledOut(grid: Grid, steps: seq<Step>, id: nat)
    requires Run(Start(grid), steps).Some? && MatchedAt(Run(Start(grid), steps).value, id)
    ensures var w := Run(Start(grid), steps).value.waiters[id];
            var on := w.pc.outcome.on;
            match w.condition
            case Text(needle) => exists i, j | 0 <= i <= j <= |on| && j - i == |needle| :: on[i..j] == needle
            case Gone(needle) => forall i, j | 0 <= i <= j <= |on| && j - i == |needle| :: on[i..j] != needle
            case Regex(matches) => matches(on)
  {
    hide Run;
    var k := MatchesAreReal(grid, steps, id);
    var w := Run(Start(grid), steps).value.waiters[id];
    ContainsMeans(w.pc.outcome.on, if w.condition.Regex? then "" else w.condition.needle);
  }

  lemma {:induction false} ContainsMeans(text: string, needle: string)
    ensures Contains(text, needle) <==> exists i, j | 0 <= i <= j <= |text| && j - i == |needle| :: text[i..j] == needle
  {
    if i, j :| 0 <= i <= j <= |text| && j - i == |needle| && text[i..j] == needle {
      assert FoundAt(text, needle, i);
    }
    if Contains(text, needle) {
      var i: nat :| 0 <= i <= |text| && FoundAt(text, needle, i);
      assert text[i..i + |needle|] == needle;
    }
  }

  predicate EndedAt(s: State, id: nat) {
    id in s.waiters && s.waiters[id].pc.Done? && s.waiters[id].pc.outcome.TimedOut? && s.waiters[id].pc.outcome.ended
  }

  /** A resize gets as far as bumping after the feeder has exited, when no sender is left. */
  predicate ResizedLate(steps: seq<Step>) {
    exists j, k :: 0 <= j < k < |steps| && steps[j].FeedExit? && steps[k].ResizeUpgrade?
  }

  lemma {:induction false} ExitedIff(grid: Grid, steps: seq<Step>)
    requires Run(Start(grid), steps).Some?
    ensures Run(Start(grid), steps).value.feeder.Exited? <==> exists j :: 0 <= j < |steps| && steps[j].FeedExit?
    decreases |steps|
  {
    hide Met;
    if steps != [] {
      var n := |steps| - 1;
      RunLast(Start(grid), steps);
      ExitedIff(grid, steps[..n]);
      assert forall j | 0 <= j < n :: steps[..n][j] == steps[j];
    }
  }

  lemma {:induction false} ResizedLateGrows(steps: seq<Step>)
    requires steps != []
    ensures var n := |steps| - 1;
            ResizedLate(steps) <==>
              || ResizedLate(steps[..n])
              || (steps[n].ResizeUpgrade? && exists j :: 0 <= j < n && steps[..n][j].FeedExit?)
  {
    var n := |steps| - 1;
    var init := steps[..n];
    assert forall j | 0 <= j < n :: init[j] == steps[j];
    if ResizedLate(steps) {
      var j, k :| 0 <= j < k < |steps| && steps[j].FeedExit? && steps[k].ResizeUpgrade?;
      assert init[j].FeedExit?;
      assert k < n ==> init[k].ResizeUpgrade?;
    }
    if ResizedLate(init) {
      var j, k :| 0 <= j < k < |init| && init[j].FeedExit? && init[k].ResizeUpgrade?;
      assert steps[j].FeedExit? && steps[k].ResizeUpgrade?;
    }
    if j :| 0 <= j < n && init[j].FeedExit? {
      assert steps[j].FeedExit?;
    }
  }

  /** The model's flag is about the run: it is set exactly if a resize came late. */
  lemma {:induction false} UnsignalledIff(grid: Grid, steps: seq<Step>)
    requires Run(Start(grid), steps).Some?
    ensures Run(Start(grid), steps).value.unsignalled <==> ResizedLate(steps)
    decreases |steps|
  {
    hide Met, ResizedLate;
    if steps == [] {
      NothingResized();
    } else {
      var n := |steps| - 1;
      RunLast(Start(grid), steps);
      UnsignalledIff(grid, steps[..n]);
      ExitedIff(grid, steps[..n]);
      ResizedLateGrows(steps);
    }
  }

  lemma {:induction false} NothingResized()
    ensures !ResizedLate([])
  {
  }

  /**
   * A result flagged `ended` means the session is over; and unless a resize came
   * late, the condition failed on the screen it carries, and that screen is the
   * final one.
   */
  lemma {:induction false} EndedMeansNeverMet(grid: Grid, steps: seq<Step>, id: nat)
    requires Run(Start(grid), steps).Some? && EndedAt(Run(Start(grid), steps).value, id)
    ensures var s := Run(Start(grid), steps).value;
            var w := s.waiters[id];
            && Closed(s)
            && (!ResizedLate(steps) ==> !Met(w.condition, w.pc.outcome.screen))
            && (!ResizedLate(steps) && !Pending(s) ==> w.pc.outcome.screen == s.grid)
  {
    hide Met, Run, ResizedLate;
    RunKeepsInv(Start(grid), steps);
    UnsignalledIff(grid, steps);
    assert WaiterOk(Run(Start(grid), steps).value, id);
  }

  /** And of an ended result, if no resize came late: the reverse. */
  lemma {:induction false} EndedSpelledOut(grid: Grid, steps: seq<Step>, id: nat)
    requires Run(Start(grid), steps).Some? && EndedAt(Run(Start(grid), steps).value, id) && !ResizedLate(steps)
    ensures var w := Run(Start(grid), steps).value.waiters[id];
            var screen := w.pc.outcome.screen;
            match w.condition
            case Text(needle) => forall i, j | 0 <= i <= j <= |screen| && j - i == |needle| :: screen[i..j] != needle
            case Gone(needle) => exists i, j | 0 <= i <= j <= |screen| && j - i == |needle| :: screen[i..j] == needle
            case Regex(matches) => !matches(screen)
  {
    hide Run, ResizedLate;
    EndedMeansNeverMet(grid, steps, id);
    var w := Run(Start(grid), steps).value.waiters[id];
    ContainsMeans(w.pc.outcome.screen, if w.condition.Regex? then "" else w.condition.needle);
  }

  // ----- exactly when an ended screen meets its condition -----

  /** Step `k` is a resize's paint, and the last paint of all. */
  predicate LastPaint(steps: seq<Step>, k: nat) {
    k < |steps| && steps[k].ResizeGrid? && forall j | k < j < |steps| :: Quiet(steps[j])
  }

  /** That resize got as far as its bump when the feeder had exited, so nobody was told. */
  predicate LatePaint(steps: seq<Step>, k: nat) {
    && LastPaint(steps, k)
    && exists i, u :: 0 <= i < u < |steps| && k < u && steps[i].FeedExit? && steps[u].ResizeUpgrade?
  }

  /** And what it painted meets the condition. */
  ghost predicate LateMatch(steps: seq<Step>, condition: Condition) {
    exists k: nat :: LatePaint(steps, k) && Met(condition, steps[k].next)
  }

  lemma {:induction false} GridIsLastPaint(grid: Grid, steps: seq<Step>, k: nat)
    requires Run(Start(grid), steps).Some? && LastPaint(steps, k)
    ensures Run(Start(grid), steps).value.grid == steps[k].next
    decreases |steps|
  {
    hide Met;
    var n := |steps| - 1;
    RunLast(Start(grid), steps);
    if k < n {
      assert Quiet(steps[n]);
      assert LastPaint(steps[..n], k);
      GridIsLastPaint(grid, steps[..n], k);
    }
  }

  lemma {:induction false} PaintStays(steps: seq<Step>, k: nat)
    requires steps != [] && Quiet(steps[|steps| - 1])
    ensures LastPaint(steps[..|steps| - 1], k) ==> LastPaint(steps, k)
    ensures LatePaint(steps[..|steps| - 1], k) ==> LatePaint(steps, k)
  {
    var n := |steps| - 1;
    var init := steps[..n];
    if LatePaint(init, k) {
      var i, u :| 0 <= i < u < |init| && k < u && init[i].FeedExit? && init[u].ResizeUpgrade?;
      assert steps[i].FeedExit? && steps[u].ResizeUpgrade?;
    }
  }

  lemma {:induction false} BecomesLate(grid: Grid, steps: seq<Step>, k: nat)
    requires Run(Start(grid), steps).Some? && steps != [] && steps[|steps| - 1].ResizeUpgrade?
    requires LastPaint(steps[..|steps| - 1], k) && Run(Start(grid), steps[..|steps| - 1]).Some?
    requires Run(Start(grid), steps[..|steps| - 1]).value.feeder.Exited?
    ensures LatePaint(steps, k)
  {
    hide Run;
    var n := |steps| - 1;
    PaintStays(steps, k);
    ExitedIff(grid, steps[..n]);
    var i :| 0 <= i < |steps[..n]| && steps[..n][i].FeedExit?;
    assert steps[i].FeedExit? && steps[n].ResizeUpgrade?;
  }

  /** What the participants' positions say about the last paint. */
  ghost predicate PaintOk(s: State, steps: seq<Step>) {
    && (s.resizer.Upgraded? ==> !s.unsignalled)
    && (s.resizer.Resized? ==> exists k :: LastPaint(steps, k))
    && (s.unsignalled && !s.resizer.Resized? ==> exists k :: LatePaint(steps, k))
  }

  lemma {:induction false} PaintIsTracked(grid: Grid, steps: seq<Step>)
    requires Run(Start(grid), steps).Some?
    ensures PaintOk(Run(Start(grid), steps).value, steps)
    decreases |steps|
  {
    hide Met, Run, LastPaint, LatePaint;
    if steps == [] {
      assert Run(Start(grid), steps) == Some(Start(grid)) by {
        NothingRun(grid);
      }
    } else {
      var n := |steps| - 1;
      RunLast(Start(grid), steps);
      PaintIsTracked(grid, steps[..n]);
      RunKeepsInv(Start(grid), steps[..n]) by {
        StartIsFine(grid);
      }
      var s, a := Run(Start(grid), steps[..n]).value, steps[n];
      if Quiet(a) {
        forall k | LastPaint(steps[..n], k) || LatePaint(steps[..n], k)
          ensures LastPaint(steps[..n], k) ==> LastPaint(steps, k)
          ensures LatePaint(steps[..n], k) ==> LatePaint(steps, k)
        {
          PaintStays(steps, k);
        }
        if a.ResizeUpgrade? && s.feeder.Exited? {
          var k :| LastPaint(steps[..n], k);
          BecomesLate(grid, steps, k);
        }
      } else if a.ResizeGrid? {
        assert LastPaint(steps, n) by {
          PaintedNow(steps);
        }
      }
    }
  }

  lemma {:induction false} NothingRun(grid: Grid)
    ensures Run(Start(grid), []) == Some(Start(grid))
  {
  }

  lemma {:induction false} PaintedNow(steps: seq<Step>)
    requires steps != [] && steps[|steps| - 1].ResizeGrid?
    ensures LastPaint(steps, |steps| - 1)
  {
  }

  lemma {:induction false} NewEnd(s: State, a: Step, id: nat)
    requires Enabled(s, a) && EndedAt(Do(s, a), id)
    ensures (EndedAt(s, id) && Do(s, a).waiters[id] == s.waiters[id])
         || (a == Report(id) && At(s, id, Reporting(true)) && s.lock.Nobody?
             && Do(s, a).waiters[id] == s.waiters[id].(pc := Done(TimedOut(s.grid, true, s.generation))))
  {
    hide Met;
  }

  /** An ended result was reported by one step, on the grid as it then was. */
  lemma {:induction false} ReportOfEnd(grid: Grid, steps: seq<Step>, id: nat) returns (r: nat)
    requires Run(Start(grid), steps).Some? && EndedAt(Run(Start(grid), steps).value, id)
    ensures r < |steps| && steps[r] == Report(id) && Run(Start(grid), steps[..r]).Some?
    ensures var past, w := Run(Start(grid), steps[..r]).value, Run(Start(grid), steps).value.waiters[id];
            && At(past, id, Reporting(true)) && past.lock.Nobody?
            && past.waiters[id].condition == w.condition
            && w.pc.outcome.screen == past.grid && w.pc.outcome.generation == past.generation
    decreases |steps|
  {
    hide Enabled, Do;
    var n := |steps| - 1;
    RunLast(Start(grid), steps);
    var before := Run(Start(grid), steps[..n]).value;
    NewEnd(before, steps[n], id);
    if EndedAt(before, id) && Do(before, steps[n]).waiters[id] == before.waiters[id] {
      r := ReportOfEnd(grid, steps[..n], id);
      assert steps[..n][..r] == steps[..r];
    } else {
      r := n;
    }
  }

  /**
   * A result flagged `ended` carries a screen that meets the condition exactly if
   * the last paint before its report was by a resize that reached its bump after
   * the feeder's exit, and what it painted meets the condition.
   */
  lemma {:induction false} EndedMeetsIff(grid: Grid, steps: seq<Step>, id: nat) returns (r: nat)
    requires Run(Start(grid), steps).Some? && EndedAt(Run(Start(grid), steps).value, id)
    ensures r < |steps| && steps[r] == Report(id)
    ensures var w := Run(Start(grid), steps).value.waiters[id];
            Met(w.condition, w.pc.outcome.screen) <==> LateMatch(steps[..r], w.condition)
  {
    hide Met, Run, LatePaint;
    r := ReportOfEnd(grid, steps, id);
    var before, w := steps[..r], Run(Start(grid), steps).value.waiters[id];
    var past := Run(Start(grid), before).value;
    RunKeepsInv(Start(grid), before) by {
      StartIsFine(grid);
    }
    assert WaiterOk(past, id);
    PaintIsTracked(grid, before);
    forall k: nat | LatePaint(before, k)
      ensures k < |before| && before[k].ResizeGrid? && past.grid == before[k].next
    {
      LateIsLast(before, k);
      GridIsLastPaint(grid, before, k);
    }
  }

  lemma {:induction false} LateIsLast(steps: seq<Step>, k: nat)
    requires LatePaint(steps, k)
    ensures LastPaint(steps, k) && k < |steps| && steps[k].ResizeGrid?
  {
  }

  /** Whoever holds the lock once the session is over lets go of it in one step. */
  lemma {:induction false} LockIsFreedAtEnd(s: State, id: nat) returns (more: seq<Step>, t: State)
    requires Inv(s) && Closed(s) && At(s, id, Reporting(true))
    ensures Run(s, more) == Some(t) && |more| <= 1 && t.lock.Nobody? && Inv(t) && Closed(t)
    ensures At(t, id, Reporting(true)) && t.waiters[id].condition == s.waiters[id].condition
  {
    hide Met, WaiterOk;
    more, t := [], s;
    if !s.lock.Nobody? {
      var a := if s.lock.TheWaiter? then Check(s.lock.id) else if s.resizer.Entered? then ResizeFail else ResizeUpgrade;
      StepKeepsInv(s, a);
      more, t := [a], Do(s, a);
      assert [a][1..] == [];
    }
  }

  /** In every reachable state in which a waiter is about to report the end, a resize can still come first, painting anything. */
  lemma {:induction false} LateResizeIsReported(grid: Grid, steps: seq<Step>, id: nat, painted: Grid) returns (more: seq<Step>)
    requires Run(Start(grid), steps).Some? && At(Run(Start(grid), steps).value, id, Reporting(true))
    ensures Run(Start(grid), steps + more).Some? && EndedAt(Run(Start(grid), steps + more).value, id)
    ensures Run(Start(grid), steps + more).value.waiters[id].pc.outcome.screen == painted && ResizedLate(steps + more)
  {
    hide Run, Met, ResizedLate, Inv;
    RunKeepsInv(Start(grid), steps) by {
      StartIsFine(grid);
    }
    var s := Run(Start(grid), steps).value;
    assert Closed(s) by {
      ReportingIsClosed(s, id);
    }
    var first, free := LockIsFreedAtEnd(s, id);
    var second := PaintAndReport(free, id, painted);
    RunSplits(s, first, second);
    more := first + second;
    RunSplits(Start(grid), steps, more);
    UnsignalledIff(grid, steps + more);
  }

  lemma {:induction false} ReportingIsClosed(s: State, id: nat)
    requires Inv(s) && At(s, id, Reporting(true))
    ensures Closed(s)
  {
    assert WaiterOk(s, id);
  }

  lemma {:induction false} PaintAndReport(s: State, id: nat, painted: Grid) returns (more: seq<Step>)
    requires Inv(s) && Closed(s) && s.lock.Nobody? && At(s, id, Reporting(true))
    ensures Run(s, more).Some? && EndedAt(Run(s, more).value, id)
    ensures Run(s, more).value.waiters[id].pc.outcome.screen == painted && Run(s, more).value.unsignalled
  {
    hide Run, Met, WaiterOk;
    var a := Do(s, ResizeLock);
    var b := Do(a, ResizeGrid(painted));
    var c := Do(b, ResizeUpgrade);
    more := RunCons(c, Report(id), []);
    more := RunCons(b, ResizeUpgrade, more);
    more := RunCons(a, ResizeGrid(painted), more);
    more := RunCons(s, ResizeLock, more);
  }

  /** Why the exception is needed: a resize after the exit makes an `ended` screen meet its condition. */
  lemma {:induction false} ResizeAfterExit(needle: string) returns (steps: seq<Step>)
    requires needle != ""
    ensures Run(Start(""), steps).Some? && EndedAt(Run(Start(""), steps).value, 0)
    ensures var w := Run(Start(""), steps).value.waiters[0];
            w.condition == Text(needle) && Met(w.condition, w.pc.outcome.screen)
  {
    hide Run;
    assert !Contains("", needle);
    var s0 := Start("");
    var s1 := Do(s0, Spawn(0, Text(needle)));
    var s2 := Do(s1, Mark(0));
    var s3 := Do(s2, CheckLock(0));
    var s4 := Do(s3, Check(0));
    steps := LateResize(s4, needle);
    steps := RunCons(s3, Check(0), steps);
    steps := RunCons(s2, CheckLock(0), steps);
    steps := RunCons(s1, Mark(0), steps);
    steps := RunCons(s0, Spawn(0, Text(needle)), steps);
  }

  lemma {:induction false} LateResize(s4: State, needle: string) returns (steps: seq<Step>)
    requires s4 == State("", 0, Nobody, Receiving, Away, map[0 := Waiter(Text(needle), 0, Asleep)], false)
    ensures Run(s4, steps).Some? && EndedAt(Run(s4, steps).value, 0)
    ensures var w := Run(s4, steps).value.waiters[0];
            w.condition == Text(needle) && Met(w.condition, w.pc.outcome.screen)
  {
    hide Run;
    var s5 := Do(s4, FeedExit);
    var s6 := Do(s5, SenderGone(0));
    var s7 := Do(s6, ResizeLock);
    var s8 := Do(s7, ResizeGrid(needle));
    var s9 := Do(s8, ResizeUpgrade);
    steps := RunCons(s9, Report(0), []);
    steps := RunCons(s8, ResizeUpgrade, steps);
    steps := RunCons(s7, ResizeGrid(needle), steps);
    steps := RunCons(s6, ResizeLock, steps);
    steps := RunCons(s5, SenderGone(0), steps);
    steps := RunCons(s4, FeedExit, steps);
    assert FoundAt(needle, needle, 0);
  }

  lemma {:induction false} RunCons(s: State, a: Step, rest: seq<Step>) returns (steps: seq<Step>)
    requires Enabled(s, a)
    ensures Run(s, steps) == Run(Do(s, a), rest)
    ensures rest == [] ==> Run(s, steps) == Some(Do(s, a))
  {
    steps := [a] + rest;
    assert steps[1..] == rest;
  }

  // ----- the end of the feeder is final -----

  lemma {:induction false} ExitIsFinal(s: State, steps: seq<Step>)
    requires Inv(s) && Closed(s) && Run(s, steps).Some? && !Run(s, steps).value.unsignalled
    ensures Closed(Run(s, steps).value) && !s.unsignalled
    ensures !Pending(s) && !Pending(Run(s, steps).value) ==> Run(s, steps).value.grid == s.grid
    decreases |steps|
  {
    hide Met, WaiterOk;
    if steps != [] {
      var t := Do(s, steps[0]);
      StepKeepsInv(s, steps[0]);
      ExitIsFinal(t, steps[1..]);
      if Pending(t) && !Pending(s) {
        ResizedWillBeUnsignalled(t, steps[1..]);
      }
    }
  }

  lemma {:induction false} ResizedWillBeUnsignalled(s: State, steps: seq<Step>)
    requires Inv(s) && Closed(s) && s.resizer.Resized? && Run(s, steps).Some?
    ensures Run(s, steps).value.resizer.Resized? || Run(s, steps).value.unsignalled
    decreases |steps|
  {
    hide Met, WaiterOk;
    if steps != [] {
      var t := Do(s, steps[0]);
      StepKeepsInv(s, steps[0]);
      if t.resizer.Resized? {
        ResizedWillBeUnsignalled(t, steps[1..]);
      } else {
        UnsignalledStays(t, steps[1..]);
      }
    }
  }

  lemma {:induction false} UnsignalledStays(s: State, steps: seq<Step>)
    requires s.unsignalled && Run(s, steps).Some?
    ensures Run(s, steps).value.unsignalled
    decreases |steps|
  {
    hide Met;
    if steps != [] {
      UnsignalledStays(Do(s, steps[0]), steps[1..]);
    }
  }
}
