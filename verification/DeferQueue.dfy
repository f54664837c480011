/**
  The deadline queue: schedulers, one runner goroutine, one timer, a one-slot wake
  channel and stop. Every mutex-protected region and every channel operation is one
  step, and steps of different goroutines interleave freely. The clock never goes back.
 */
module DeferQueue {

  // `fn` names the callback.
  datatype Item = Item(deadline: int, order: nat, fn: nat)

  // The heap's Less: by deadline, ties by insertion number.
  predicate Before(a: Item, b: Item) {
    if a.deadline == b.deadline then a.order < b.order else a.deadline < b.deadline
  }

  datatype Runner = Top | Executing(item: Item) | Parked | Exited

  datatype Timer = Off | Armed(at: int)

  // How far the one effective call of stop has come.
  datatype Stopper = NotStopping | Closing | Waking | Waiting | Flushing | Finished

  datatype Ran = Ran(item: Item, at: int, flushed: bool)

  datatype State = State(
    now: int,
    heap: set<Item>,
    order: nat,
    token: bool,          // the wake channel holds its one value
    timer: Timer,
    firing: nat,          // timer callbacks started but not yet past their send
    signalling: nat,      // schedulers between unlocking and their send
    stopped: bool,
    done: bool,           // the done channel is closed
    runner: Runner,
    stopper: Stopper,
    pending: seq<Item>,   // what stop took from the heap and has not run yet
    log: seq<Ran>,        // callbacks run, in order
    accepted: set<Item>)  // everything schedule returned true for

  datatype Step =
    | Tick(to: int)
    | Schedule(delay: nat, fn: nat)
    | Signal
    | TimerFires
    | TimerSends
    | RunTop
    | Execute
    | Wake
    | SeeDone
    | StopBegin(drained: seq<Item>)
    | StopClose
    | StopWake
    | StopJoin
    | Flush
    | StopReturn

  ghost predicate IsHead(heap: set<Item>, m: Item) {
    m in heap && forall x :: x in heap ==> x == m || Before(m, x)
  }

  ghost predicate Increasing(s: seq<Item>) {
    forall i, j :: 0 <= i < j < |s| ==> Before(s[i], s[j])
  }

  // Popping the heap until it is empty yields exactly its items in increasing order.
  ghost predicate Drains(heap: set<Item>, s: seq<Item>) {
    Increasing(s) && heap == set x | x in s
  }

  ghost predicate Next(s: State, step: Step, t: State) {
    match step
    case Tick(to) => s.now <= to && t == s.(now := to)
    case Schedule(delay, fn) =>
      if s.stopped then t == s
      else
        var item := Item(s.now + delay, s.order + 1, fn);
        t == s.(order := s.order + 1, heap := s.heap + {item}, accepted := s.accepted + {item},
                signalling := s.signalling + 1)
    case Signal => s.signalling > 0 && t == s.(signalling := s.signalling - 1, token := true)
    case TimerFires => s.timer.Armed? && s.timer.at <= s.now && t == s.(timer := Off, firing := s.firing + 1)
    case TimerSends => s.firing > 0 && t == s.(firing := s.firing - 1, token := true)
    case RunTop => s.runner.Top? && AtTop(s, t)
    case Execute => s.runner.Executing? && t == s.(runner := Top, log := s.log + [Ran(s.runner.item, s.now, false)])
    case Wake => s.runner.Parked? && s.token && t == s.(runner := Top, token := false)
    case SeeDone => s.runner.Parked? && s.done && t == s.(runner := Exited)
    case StopBegin(drained) =>
      && !s.stopped && Drains(s.heap, drained)
      && t == s.(stopped := true, timer := Off, heap := {}, pending := drained, stopper := Closing)
    case StopClose => s.stopper.Closing? && t == s.(done := true, stopper := Waking)
    case StopWake => s.stopper.Waking? && t == s.(token := true, stopper := Waiting)
    case StopJoin => s.stopper.Waiting? && s.runner.Exited? && t == s.(stopper := Flushing)
    case Flush =>
      && s.stopper.Flushing? && |s.pending| > 0
      && t == s.(pending := s.pending[1..], log := s.log + [Ran(s.pending[0], s.now, true)])
    case StopReturn => s.stopper.Flushing? && |s.pending| == 0 && t == s.(stopper := Finished)
  }

  // One pass of the runner's loop, up to unlocking.
  ghost predicate AtTop(s: State, t: State) {
    if s.stopped then t == s.(runner := Exited)
    else if exists m :: IsHead(s.heap, m) && m.deadline <= s.now then
      exists m :: IsHead(s.heap, m) && m.deadline <= s.now && t == s.(heap := s.heap - {m}, runner := Executing(m))
    else if s.heap == {} then t == s.(timer := Off, runner := Parked)
    else exists m :: IsHead(s.heap, m) && t == s.(timer := Armed(m.deadline), runner := Parked)
  }

  ghost predicate Initial(s: State) {
    && s.heap == {} && s.order == 0 && !s.token && s.timer.Off? && s.firing == 0 && s.signalling == 0
    && !s.stopped && !s.done && s.runner.Top? && s.stopper.NotStopping?
    && s.pending == [] && s.log == [] && s.accepted == {}
  }

  // --------------------------------------------------------------- release order, exactly once

  ghost function Items(log: seq<Ran>): seq<Item> {
    seq(|log|, i requires 0 <= i < |log| => log[i].item)
  }

  ghost function InHand(r: Runner): seq<Item> {
    if r.Executing? then [r.item] else []
  }

  // Everything taken from the heap so far, in the order it runs.
  ghost function Released(s: State): seq<Item> {
    Items(s.log) + InHand(s.runner) + s.pending
  }

  ghost predicate OrderInv(s: State) {
    && Increasing(Released(s))
    && (forall i, x :: 0 <= i < |Released(s)| && x in s.heap ==> Before(Released(s)[i], x))
    && s.accepted == s.heap + (set x | x in Released(s))
    && (forall x :: x in s.accepted ==> 0 < x.order <= s.order)
    && (forall x, y :: x in s.heap && y in s.heap && x.order == y.order ==> x == y)
    && (!s.stopped ==> s.pending == [] && forall i :: 0 <= i < |Released(s)| ==> Released(s)[i].deadline <= s.now)
    && (s.stopped ==> s.heap == {})
    && (s.stopped <==> !s.stopper.NotStopping?)
    && (s.stopper.Flushing? || s.stopper.Finished? ==> s.runner.Exited?)
    && (s.stopper.Finished? ==> s.pending == [])
    && (s.runner.Exited? ==> s.stopped)
    && (s.runner.Executing? ==> s.runner.item.deadline <= s.now)
    && (s.done <==> s.stopped && !s.stopper.Closing?)
    && (forall i :: 0 <= i < |s.log| && !s.log[i].flushed ==> s.log[i].item.deadline <= s.log[i].at)
    && (forall i :: 0 <= i < |s.log| && s.log[i].flushed ==> s.stopped)
  }

  // A parked runner with work has a wake-up on its way, no later than the head's deadline.
  ghost predicate WakeInv(s: State) {
    s.runner.Parked? && s.heap != {} ==>
      || s.token || s.signalling > 0 || s.firing > 0
      || (s.timer.Armed? && forall x :: x in s.heap ==> s.timer.at <= x.deadline)
  }

  ghost predicate Inv(s: State) {
    OrderInv(s) && WakeInv(s)
  }

  lemma PopKeepsOrder(s: State, m: Item, t: State)
    requires OrderInv(s) && s.runner.Top? && !s.stopped && IsHead(s.heap, m) && m.deadline <= s.now
    requires t == s.(heap := s.heap - {m}, runner := Executing(m))
    ensures OrderInv(t)
  {
    assert Released(t) == Released(s) + [m];
    assert t.accepted == t.heap + (set x | x in Released(t)) by {
      assert forall x :: x in Released(t) <==> x in Released(s) || x == m;
    }
    assert forall i :: 0 <= i < |s.log| ==> t.log[i] == s.log[i];
  }

  lemma TopKeepsOrder(s: State, t: State)
    requires OrderInv(s) && s.runner.Top? && AtTop(s, t)
    ensures OrderInv(t)
  {
    if !s.stopped && exists m :: IsHead(s.heap, m) && m.deadline <= s.now {
      var m :| IsHead(s.heap, m) && m.deadline <= s.now && t == s.(heap := s.heap - {m}, runner := Executing(m));
      PopKeepsOrder(s, m, t);
    } else {
      assert Released(t) == Released(s);
    }
  }

  lemma ScheduleKeepsOrder(s: State, delay: nat, fn: nat, t: State)
    requires OrderInv(s) && Next(s, Schedule(delay, fn), t)
    ensures OrderInv(t)
  {
    if !s.stopped {
      assert Released(t) == Released(s);
      forall i | 0 <= i < |Released(s)| ensures Before(Released(s)[i], Item(s.now + delay, s.order + 1, fn)) {
        assert Released(s)[i] in s.accepted;
      }
    }
  }

  lemma StopKeepsOrder(s: State, drained: seq<Item>, t: State)
    requires OrderInv(s) && Next(s, StopBegin(drained), t)
    ensures OrderInv(t)
  {
    var before := Released(s);
    assert Released(t) == before + drained;
    assert forall j :: 0 <= j < |drained| ==> drained[j] in s.heap;
    assert Increasing(Released(t)) && t.accepted == t.heap + (set x | x in Released(t)) by {
      assert forall x :: x in Released(t) <==> x in before || x in drained;
    }
  }

  lemma FlushKeepsOrder(s: State, t: State)
    requires OrderInv(s) && Next(s, Flush, t)
    ensures OrderInv(t)
  {
    assert Released(t) == Released(s);
  }

  lemma ExecuteKeepsOrder(s: State, t: State)
    requires OrderInv(s) && Next(s, Execute, t)
    ensures OrderInv(t)
  {
    assert Released(t) == Released(s);
  }

  lemma StepKeepsOrder(s: State, step: Step, t: State)
    requires OrderInv(s) && Next(s, step, t)
    ensures OrderInv(t)
  {
    match step {
      case RunTop => TopKeepsOrder(s, t);
      case Schedule(delay, fn) => ScheduleKeepsOrder(s, delay, fn, t);
      case StopBegin(drained) => StopKeepsOrder(s, drained, t);
      case Flush => FlushKeepsOrder(s, t);
      case Execute => ExecuteKeepsOrder(s, t);
      case _ => assert Released(t) == Released(s);
    }
  }

  lemma StepKeepsWake(s: State, step: Step, t: State)
    requires OrderInv(s) && WakeInv(s) && Next(s, step, t)
    ensures WakeInv(t)
  {
    if step.RunTop? && t.runner.Parked? && t.heap != {} {
      var m :| IsHead(s.heap, m) && t == s.(timer := Armed(m.deadline), runner := Parked);
    }
  }

  ghost predicate IsRun(states: seq<State>, steps: seq<Step>) {
    && |states| == |steps| + 1 && Initial(states[0])
    && forall i :: 0 <= i < |steps| ==> Next(states[i], steps[i], states[i + 1])
  }

  lemma {:induction false} RunKeepsInv(states: seq<State>, steps: seq<Step>, i: nat)
    requires IsRun(states, steps) && i <= |steps|
    ensures Inv(states[i])
  {
    if i > 0 {
      RunKeepsInv(states, steps, i - 1);
      StepKeepsOrder(states[i - 1], steps[i - 1], states[i]);
      StepKeepsWake(states[i - 1], steps[i - 1], states[i]);
    }
  }

  /**
    In every run the callbacks run in strictly increasing (deadline, insertion) order,
    hence none twice; only accepted ones run, and none before its deadline unless stop
    flushed it. Once stop has returned, every accepted callback has run.
   */
  lemma RunsInOrderExactlyOnce(states: seq<State>, steps: seq<Step>)
    requires IsRun(states, steps)
    ensures var s := states[|steps|];
      && Increasing(Items(s.log))
      && (forall i :: 0 <= i < |s.log| ==> s.log[i].item in s.accepted)
      && (forall i :: 0 <= i < |s.log| && !s.log[i].flushed ==> s.log[i].item.deadline <= s.log[i].at)
      && (s.stopper.Finished? ==> s.accepted == set x | x in Items(s.log))
  {
    RunKeepsInv(states, steps, |steps|);
    var s := states[|steps|];
    var log := Items(s.log);
    assert forall i :: 0 <= i < |log| ==> log[i] == Released(s)[i];
    forall i | 0 <= i < |s.log| ensures s.log[i].item in s.accepted {
      assert Released(s)[i] in s.accepted;
    }
    if s.stopper.Finished? {
      assert Released(s) == log;
    }
  }

  /** Callbacks still queued at a point of the run come, in release order, after all that ran by then. */
  lemma QueuedComeLater(states: seq<State>, steps: seq<Step>, x: Item, ran: Ran)
    requires IsRun(states, steps) && x in states[|steps|].heap && ran in states[|steps|].log
    ensures Before(ran.item, x)
  {
    RunKeepsInv(states, steps, |steps|);
    var s := states[|steps|];
    var i :| 0 <= i < |s.log| && s.log[i] == ran;
    assert Released(s)[i] == ran.item;
  }

  // --------------------------------------------------------------- delays and the log

  // Step i schedules a callback and is accepted.
  ghost predicate Schedules(states: seq<State>, steps: seq<Step>, i: nat) {
    |states| == |steps| + 1 && i < |steps| && steps[i].Schedule? && !states[i].stopped
  }

  // When the callback scheduled by step i is due, on the clock of that step.
  ghost function DueTime(states: seq<State>, steps: seq<Step>, i: nat): int
    requires Schedules(states, steps, i)
  {
    states[i].now + steps[i].delay
  }

  // Entry k of the log is the callback scheduled by step i: its insertion number names it.
  ghost predicate RanAs(states: seq<State>, steps: seq<Step>, i: nat, k: nat)
    requires Schedules(states, steps, i)
  {
    var log := states[|steps|].log;
    k < |log| && log[k].item.order == states[i].order + 1
  }

  lemma {:induction false} ScheduledItem(states: seq<State>, steps: seq<Step>, i: nat, j: nat)
    requires IsRun(states, steps) && Schedules(states, steps, i) && i < j <= |steps|
    ensures states[i].order < states[j].order
    ensures Item(DueTime(states, steps, i), states[i].order + 1, steps[i].fn) in states[j].accepted
    ensures forall x :: x in states[j].accepted && x.order == states[i].order + 1 ==>
                          x.deadline == DueTime(states, steps, i) && x.fn == steps[i].fn
  {
    if i + 1 == j {
      RunKeepsInv(states, steps, i);
    } else {
      ScheduledItem(states, steps, i, j - 1);
      AcceptedOnly(states[j - 1], steps[j - 1], states[j]);
    }
  }

  lemma AcceptedOnly(s: State, step: Step, t: State)
    requires Next(s, step, t)
    ensures s.order <= t.order && s.accepted <= t.accepted
    ensures forall x :: x in t.accepted && x !in s.accepted ==> step.Schedule? && !s.stopped && x.order == s.order + 1
  {
  }

  /**
    Delays are kept: in any run a callback scheduled by an accepted call is accepted under
    the next insertion number, every log entry with that number is this callback, and unless
    stop flushed it, it ran no earlier than the clock of the call plus the delay.
   */
  lemma DelaysAreKept(states: seq<State>, steps: seq<Step>, i: nat)
    requires IsRun(states, steps) && Schedules(states, steps, i)
    ensures exists x :: x in states[i + 1].accepted && x.order == states[i].order + 1 && x.fn == steps[i].fn
    ensures forall k: nat :: RanAs(states, steps, i, k) ==>
              var ran := states[|steps|].log[k];
              ran.item.fn == steps[i].fn && (!ran.flushed ==> ran.at >= states[i].now + steps[i].delay)
  {
    ScheduledItem(states, steps, i, i + 1);
    ScheduledItem(states, steps, i, |steps|);
    RunsInOrderExactlyOnce(states, steps);
    var s := states[|steps|];
    forall k: nat | RanAs(states, steps, i, k)
      ensures s.log[k].item.fn == steps[i].fn
      ensures !s.log[k].flushed ==> s.log[k].at >= states[i].now + steps[i].delay
    {
      assert s.log[k].item in s.accepted;
    }
  }

  /** Between two scheduled callbacks the one due earlier runs first, and of two due together the one scheduled first. */
  lemma EarlierDueRunsFirst(states: seq<State>, steps: seq<Step>, i: nat, j: nat, k: nat, l: nat)
    requires IsRun(states, steps) && Schedules(states, steps, i) && Schedules(states, steps, j)
    requires RanAs(states, steps, i, k) && RanAs(states, steps, j, l)
    requires states[i].now + steps[i].delay < states[j].now + steps[j].delay
             || (states[i].now + steps[i].delay == states[j].now + steps[j].delay && i < j)
    ensures k < l
  {
    RunsInOrderExactlyOnce(states, steps);
    ScheduledItem(states, steps, i, |steps|);
    ScheduledItem(states, steps, j, |steps|);
    if i < j {
      ScheduledItem(states, steps, i, j);
    }
    var items := Items(states[|steps|].log);
    assert Before(items[k], items[l]);
    assert !Before(items[l], items[k]);
  }

  /** A callback runs at most once, and once stop has returned every accepted callback has run. */
  lemma ScheduledRunsOnce(states: seq<State>, steps: seq<Step>, i: nat)
    requires IsRun(states, steps) && Schedules(states, steps, i)
    ensures forall k: nat, l: nat :: RanAs(states, steps, i, k) && RanAs(states, steps, i, l) ==> k == l
    ensures states[|steps|].stopper.Finished? ==> exists k: nat :: RanAs(states, steps, i, k)
  {
    RunsInOrderExactlyOnce(states, steps);
    ScheduledItem(states, steps, i, |steps|);
    var s := states[|steps|];
    var items := Items(s.log);
    forall k: nat, l: nat | RanAs(states, steps, i, k) && RanAs(states, steps, i, l) ensures k == l {
      assert items[k] == items[l];
    }
    if s.stopper.Finished? {
      var x := Item(DueTime(states, steps, i), states[i].order + 1, steps[i].fn);
      assert x in items;
      var k :| 0 <= k < |items| && items[k] == x;
      assert RanAs(states, steps, i, k);
    }
  }

  lemma {:induction false} AcceptedWasScheduled(states: seq<State>, steps: seq<Step>, j: nat, x: Item) returns (i: nat)
    requires IsRun(states, steps) && j <= |steps| && x in states[j].accepted
    ensures i < j && Schedules(states, steps, i) && x.order == states[i].order + 1
  {
    if x in states[j - 1].accepted {
      i := AcceptedWasScheduled(states, steps, j - 1, x);
    } else {
      AcceptedOnly(states[j - 1], steps[j - 1], states[j]);
      i := j - 1;
    }
  }

  /** Nothing else runs: every log entry is the callback of some accepted call. */
  lemma RanWasScheduled(states: seq<State>, steps: seq<Step>, k: nat) returns (i: nat)
    requires IsRun(states, steps) && k < |states[|steps|].log|
    ensures Schedules(states, steps, i) && RanAs(states, steps, i, k)
  {
    RunsInOrderExactlyOnce(states, steps);
    i := AcceptedWasScheduled(states, steps, |steps|, states[|steps|].log[k].item);
  }

  // --------------------------------------------------------------- no lost wake-up

  /** A parked runner with a non-empty heap always has a wake-up on its way. */
  lemma NoLostWakeUp(states: seq<State>, steps: seq<Step>)
    requires IsRun(states, steps)
    ensures var s := states[|steps|];
      s.runner.Parked? && s.heap != {} ==>
        || s.token || s.signalling > 0 || s.firing > 0
        || (s.timer.Armed? && forall x :: x in s.heap ==> s.timer.at <= x.deadline)
  {
    RunKeepsInv(states, steps, |steps|);
  }

  /** When the runner parks, the timer is off if nothing waits, and otherwise set to the earliest deadline that waits. */
  lemma ParksForTheEarliest(states: seq<State>, steps: seq<Step>, i: nat)
    requires IsRun(states, steps) && i < |steps| && steps[i].RunTop? && states[i + 1].runner.Parked?
    ensures var s := states[i + 1];
      if s.heap == {} then s.timer.Off?
      else s.timer.Armed? && s.timer.at > s.now && (exists x :: x in s.heap && x.deadline == s.timer.at)
           && forall x :: x in s.heap ==> s.timer.at <= x.deadline
  {
    var s, t := states[i], states[i + 1];
    assert Next(s, steps[i], t);
    if t.heap != {} {
      var m :| IsHead(s.heap, m) && t == s.(timer := Armed(m.deadline), runner := Parked);
    }
  }

  // Steps that need neither the clock to advance nor an outside call.
  predicate Internal(step: Step) {
    step.Signal? || step.TimerFires? || step.TimerSends? || step.RunTop? || step.Execute? || step.Wake?
  }

  ghost predicate Reaches(s: State, states: seq<State>, steps: seq<Step>) {
    && |states| == |steps| + 1 && states[0] == s
    && (forall i :: 0 <= i < |steps| ==> Internal(steps[i]) && Next(states[i], steps[i], states[i + 1]))
  }

  lemma ReachCons(s: State, step: Step, t: State, states: seq<State>, steps: seq<Step>)
    requires Internal(step) && Next(s, step, t) && Reaches(t, states, steps)
    ensures Reaches(s, [s] + states, [step] + steps)
  {
    var all, some := [s] + states, [step] + steps;
    forall i | 0 <= i < |some| ensures Internal(some[i]) && Next(all[i], some[i], all[i + 1]) {
      if i > 0 {
        assert all[i] == states[i - 1] && some[i] == steps[i - 1] && all[i + 1] == states[i];
      }
    }
  }

  // How many internal steps separate the runner from running a due head.
  function Distance(s: State): nat {
    match s.runner
    case Top => 2
    case Executing(_) => 3
    case Parked => if s.token then 3 else if s.firing > 0 || s.signalling > 0 then 4 else 5
    case Exited => 0
  }

  // A parked runner is one step closer: woken, signalled, or its timer fires.
  lemma WakesOneStep(s: State, m: Item) returns (step: Step, t: State)
    requires Inv(s) && s.runner.Parked? && IsHead(s.heap, m) && m.deadline <= s.now
    ensures Internal(step) && Next(s, step, t) && Distance(t) < Distance(s)
    ensures t.stopped == s.stopped && t.heap == s.heap && t.now == s.now
  {
    if s.token {
      step, t := Wake, s.(runner := Top, token := false);
    } else if s.firing > 0 {
      step, t := TimerSends, s.(firing := s.firing - 1, token := true);
    } else if s.signalling > 0 {
      step, t := Signal, s.(signalling := s.signalling - 1, token := true);
    } else {
      assert s.timer.at <= m.deadline;
      step, t := TimerFires, s.(timer := Off, firing := s.firing + 1);
    }
  }

  /**
    Progress: whenever the head of a queue that is not stopped is due, at most six
    internal steps (no clock tick, no new call) run it, whatever the runner was doing.
   */
  lemma {:induction false} DueHeadCanRun(s: State, m: Item) returns (states: seq<State>, steps: seq<Step>)
    requires Inv(s) && !s.stopped && IsHead(s.heap, m) && m.deadline <= s.now
    ensures Reaches(s, states, steps) && |steps| <= 1 + Distance(s)
    ensures var t := states[|steps|]; |t.log| > 0 && t.log[|t.log| - 1] == Ran(m, s.now, false)
    decreases Distance(s)
  {
    var step: Step, t: State;
    match s.runner {
      case Top =>
        step, t := RunTop, s.(heap := s.heap - {m}, runner := Executing(m));
        var u := t.(runner := Top, log := t.log + [Ran(m, t.now, false)]);
        assert Next(s, step, t) && Next(t, Execute, u);
        states, steps := [s, t, u], [RunTop, Execute];
        return;
      case Executing(x) => step, t := Execute, s.(runner := Top, log := s.log + [Ran(x, s.now, false)]);
      case Parked => step, t := WakesOneStep(s, m);
      case Exited => assert false;
    }
    StepKeepsOrder(s, step, t);
    StepKeepsWake(s, step, t);
    var rest, more := DueHeadCanRun(t, m);
    ReachCons(s, step, t, rest, more);
    states, steps := [s] + rest, [step] + more;
    assert states[|steps|] == rest[|more|];
  }

  /** stop cannot hang: until the runner has exited, one of its own steps is enabled and brings it closer. */
  lemma StopCannotHang(s: State)
    requires Inv(s) && s.stopper.Waiting? && !s.runner.Exited?
    ensures exists step: Step, t: State :: (step.RunTop? || step.Execute? || step.SeeDone?) && Next(s, step, t)
                              && (t.runner.Exited? || (s.runner.Executing? && t.runner.Top?))
  {
    match s.runner {
      case Top => assert Next(s, RunTop, s.(runner := Exited));
      case Executing(x) => assert Next(s, Execute, s.(runner := Top, log := s.log + [Ran(x, s.now, false)]));
      case Parked => assert Next(s, SeeDone, s.(runner := Exited));
    }
  }

  // --------------------------------------------------------------- the locked regions as code

  lemma {:induction false} HeadExists(heap: set<Item>)
    requires heap != {} && forall x, y :: x in heap && y in heap && x.order == y.order ==> x == y
    ensures exists m :: IsHead(heap, m)
  {
    var x :| x in heap;
    var rest := heap - {x};
    assert forall y :: y in heap ==> y == x || y in rest;
    if rest == {} {
      assert IsHead(heap, x);
    } else {
      HeadExists(rest);
      var m :| IsHead(rest, m);
      assert IsHead(heap, if Before(m, x) then m else x);
    }
  }

  lemma HeadUnique(heap: set<Item>, a: Item, b: Item)
    requires IsHead(heap, a) && IsHead(heap, b)
    ensures a == b
  {
  }

  class Queue {
    var now: int
    var h: set<Item>
    var order: nat
    var timer: Timer
    var stopped: bool
    ghost var rest: State   // channels, goroutine positions and history

    ghost function View(): State
      reads this
    {
      rest.(now := now, heap := h, order := order, timer := timer, stopped := stopped)
    }

    constructor (start: int)
      ensures Initial(View()) && now == start
    {
      now, h, order, timer, stopped := start, {}, 0, Off, false;
      rest := State(start, {}, 0, false, Off, 0, 0, false, false, Top, NotStopping, [], [], {});
    }

    method Pop() returns (m: Item)
      requires h != {} && forall x, y :: x in h && y in h && x.order == y.order ==> x == y
      modifies this`h
      ensures IsHead(old(h), m) && h == old(h) - {m}
    {
      HeadExists(h);
      m :| m in h && forall x :: x in h ==> x == m || Before(m, x);
      h := h - {m};
    }

    method Schedule(delay: nat, fn: nat) returns (ok: bool)
      requires OrderInv(View())
      modifies this
      ensures ok == !old(stopped) && Next(old(View()), Step.Schedule(delay, fn), View())
    {
      if stopped {
        return false;
      }
      order := order + 1;
      var item := Item(now + delay, order, fn);
      h := h + {item};
      rest := rest.(accepted := rest.accepted + {item}, signalling := rest.signalling + 1);
      return true;
    }

    // One pass of the run loop under the lock; `due` is the callback to run after unlocking.
    method RunLocked() returns (exit: bool, due: seq<Item>)
      requires OrderInv(View()) && View().runner.Top?
      modifies this
      ensures Next(old(View()), RunTop, View())
      ensures exit <==> View().runner.Exited?
      ensures due == InHand(View().runner)
    {
      ghost var before := View();
      exit, due := stopped, [];
      if stopped {
        rest := rest.(runner := Exited);
        return;
      }
      if h != {} {
        HeadExists(h);
        var m :| m in h && forall x :: x in h ==> x == m || Before(m, x);
        assert IsHead(before.heap, m);
        if m.deadline - now <= 0 {
          var popped := Pop();
          HeadUnique(before.heap, m, popped);
          due := [popped];
          rest := rest.(runner := Executing(popped));
          assert AtTop(before, View());
          return;
        }
        forall x | IsHead(before.heap, x) ensures x == m {
          HeadUnique(before.heap, x, m);
        }
        timer := Armed(m.deadline);
      } else {
        timer := Off;
      }
      rest := rest.(runner := Parked);
    }

    // The locked part of stop: pop everything, in order.
    method StopLocked() returns (pending: seq<Item>)
      requires OrderInv(View()) && !stopped
      modifies this
      ensures Next(old(View()), StopBegin(pending), View())
    {
      ghost var all := h;
      stopped, timer, pending := true, Off, [];
      while h != {}
        invariant h <= all && Increasing(pending) && all == h + (set x | x in pending)
        invariant forall i, x :: 0 <= i < |pending| && x in h ==> Before(pending[i], x)
        invariant View() == old(View()).(stopped := true, timer := Off, heap := h)
        decreases h
      {
        var m := Pop();
        pending := pending + [m];
      }
      rest := rest.(pending := pending, stopper := Closing);
    }
  }
}
