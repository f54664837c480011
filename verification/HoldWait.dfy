/**
  Waiting for held notifications: one call of Wait, the goroutine that broadcasts when its
  context is cancelled, and the other users of the queue. The waiter holds the mutex from
  its test until it joins the condition's list; the cancelling goroutine never takes it.
 */
module HoldWait {

  // Checked: the test found nothing and the context alive, but the waiter has not joined the list.
  datatype Waiter = Acquiring | Testing | Checked | Parked | Returned(ok: bool)

  datatype State = State(count: int, pending: nat, closed: bool, cancelled: bool, broadcast: bool, waiter: Waiter)

  datatype Step = Acquire | Test | Park | Cancel | Broadcast | Enqueue | Release(left: nat) | Close

  predicate Locked(s: State) {
    s.waiter.Testing? || s.waiter.Checked?
  }

  function Woken(w: Waiter): Waiter {
    if w.Parked? then Acquiring else w
  }

  predicate Enabled(s: State, step: Step) {
    match step
    case Acquire => s.waiter.Acquiring?
    case Test => s.waiter.Testing?
    case Park => s.waiter.Checked?
    case Cancel => true
    case Broadcast => s.cancelled && !s.broadcast
    case Enqueue => !Locked(s)
    case Release(left) => !Locked(s) && left <= s.pending
    case Close => !Locked(s)
  }

  predicate Ready(s: State) {
    s.pending >= s.count || s.closed
  }

  function After(s: State, step: Step): State
    requires Enabled(s, step)
  {
    match step
    case Acquire => s.(waiter := Testing)
    case Test =>
      s.(waiter := if Ready(s) then Returned(!s.cancelled) else if s.cancelled then Returned(false) else Checked)
    case Park => s.(waiter := Parked)
    case Cancel => s.(cancelled := true)
    case Broadcast => s.(broadcast := true, waiter := Woken(s.waiter))
    case Enqueue => if s.closed then s else s.(pending := s.pending + 1, waiter := Woken(s.waiter))
    case Release(left) => s.(pending := left)
    case Close => if s.closed then s else s.(closed := true, pending := 0, waiter := Woken(s.waiter))
  }

  ghost predicate Moves(s: State, step: Step, t: State) {
    Enabled(s, step) && t == After(s, step)
  }

  ghost predicate IsRun(states: seq<State>, steps: seq<Step>) {
    && |states| == |steps| + 1 && states[0].waiter == Acquiring && !states[0].broadcast
    && forall i :: 0 <= i < |steps| ==> Moves(states[i], steps[i], states[i + 1])
  }

  // A parked waiter waits for something that has not happened.
  ghost predicate Inv(s: State) {
    && (s.waiter.Parked? || s.waiter.Checked? ==> !Ready(s))
    && (s.broadcast ==> s.cancelled)
  }

  /** Along any run no notification and no close is slept through: a parked waiter is not ready. */
  lemma {:induction false} RunKeepsInv(states: seq<State>, steps: seq<Step>, i: nat)
    requires IsRun(states, steps) && i <= |steps|
    ensures Inv(states[i])
  {
    if i > 0 {
      RunKeepsInv(states, steps, i - 1);
      assert Moves(states[i - 1], steps[i - 1], states[i - 1 + 1]);
    }
  }

  /** Wait returns without an error only with enough notifications or on a closed queue, and its context alive. */
  lemma ReturnsWhenReady(s: State, step: Step)
    requires Enabled(s, step) && !s.waiter.Returned? && After(s, step).waiter == Returned(true)
    ensures step.Test? && (s.pending >= s.count || s.closed) && !s.cancelled
  {
  }

  /** The test decides: enough held or closed returns, successfully unless cancelled; cancelled returns; anything else waits. */
  lemma TestExactly(s: State)
    requires s.waiter.Testing?
    ensures After(s, Test).waiter == Returned(true) <==> (s.pending >= s.count || s.closed) && !s.cancelled
    ensures After(s, Test).waiter == Returned(false) <==> s.cancelled
    ensures After(s, Test).waiter == Checked <==> s.pending < s.count && !s.closed && !s.cancelled
  {
  }

  // --------------------------------------------------------------- the cancellation that is missed

  // The waiter sleeps although its context is cancelled and the one broadcast for that is spent.
  ghost predicate Stuck(s: State) {
    s.waiter.Parked? && s.broadcast
  }

  // Since the broadcast of step j the waiter has only gone to sleep.
  ghost predicate MissedAt(states: seq<State>, steps: seq<Step>, j: nat, i: nat)
    requires |states| == |steps| + 1 && i <= |steps|
  {
    && j < i && steps[j].Broadcast? && states[j].waiter.Checked?
    && forall k :: j < k <= i ==> states[k].waiter.Checked? || states[k].waiter.Parked?
  }

  lemma {:induction false} SleepsThrough(states: seq<State>, steps: seq<Step>, i: nat) returns (j: nat)
    requires IsRun(states, steps) && i <= |steps|
    requires states[i].broadcast && (states[i].waiter.Checked? || states[i].waiter.Parked?)
    ensures MissedAt(states, steps, j, i)
  {
    var s, step := states[i - 1], steps[i - 1];
    assert Moves(s, step, states[i - 1 + 1]);
    RunKeepsInv(states, steps, i - 1);
    if !s.broadcast {
      j := i - 1;
    } else {
      j := SleepsThrough(states, steps, i - 1);
    }
  }

  lemma {:induction false} BroadcastStays(states: seq<State>, steps: seq<Step>, j: nat, i: nat)
    requires IsRun(states, steps) && j < i <= |steps| && steps[j].Broadcast?
    ensures states[i].broadcast
    decreases i
  {
    assert Moves(states[i - 1], steps[i - 1], states[i - 1 + 1]);
    if j < i - 1 {
      BroadcastStays(states, steps, j, i - 1);
    }
  }

  /**
    Wait sleeps on after a cancellation exactly when the broadcast came between its test of
    the context and its joining the list, and nothing has woken it since.
   */
  lemma StuckExactly(states: seq<State>, steps: seq<Step>, i: nat)
    requires IsRun(states, steps) && i <= |steps|
    ensures Stuck(states[i]) <==> states[i].waiter.Parked? && exists j :: MissedAt(states, steps, j, i)
  {
    if Stuck(states[i]) {
      var j := SleepsThrough(states, steps, i);
    }
    if states[i].waiter.Parked? && exists j :: MissedAt(states, steps, j, i) {
      var j :| MissedAt(states, steps, j, i);
      BroadcastStays(states, steps, j, i);
    }
  }

  /** A stuck waiter is freed only by a notification or by closing an open queue; no step of its own or the canceller's remains. */
  lemma StuckUntilWoken(s: State, step: Step)
    requires Inv(s) && Stuck(s) && Enabled(s, step)
    ensures Stuck(After(s, step)) <==> !step.Enqueue? && !step.Close?
  {
  }

  /** Such a run: nothing held, one awaited, cancelled and broadcast right after the test. */
  lemma CancellationIsMissed() returns (states: seq<State>, steps: seq<Step>)
    ensures IsRun(states, steps) && Stuck(states[|steps|])
  {
    var s := State(1, 0, false, false, false, Acquiring);
    var c := s.(cancelled := true, waiter := Checked);
    steps := [Acquire, Test, Cancel, Broadcast, Park];
    states := [s, s.(waiter := Testing), s.(waiter := Checked), c, c.(broadcast := true),
               c.(broadcast := true, waiter := Parked)];
  }

  /** In every other case the cancellation arrives: a waiter that is not between test and list returns at its next test. */
  lemma CancellationArrives(states: seq<State>, steps: seq<Step>, i: nat)
    requires IsRun(states, steps) && i <= |steps| && states[i].broadcast
    requires !Stuck(states[i]) && !states[i].waiter.Checked? && !states[i].waiter.Returned?
    ensures var s := states[i];
      var t := if s.waiter.Acquiring? then After(s, Acquire) else s;
      Enabled(t, Test) && After(t, Test).waiter == Returned(false)
  {
    RunKeepsInv(states, steps, i);
  }
}
