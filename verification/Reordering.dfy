/**
  Reordering: a held packet leaves after exactly as many later packets of its conversation
  as its rule says. A conversation is a protocol and an unordered pair of endpoints.
 */
module Reordering {
  import opened Options
  import opened Conversations
  import opened FlowId
  import opened Endpoint

  // The step advances the reorder hold of the conversation.
  ghost predicate Passes(n: Net, step: Step, flow: string) {
    step.Handles? && Ruled(n, step.h) && step.h.flow.value == flow
  }

  ghost function Passed(states: seq<Net>, steps: seq<Step>, from: nat, upto: nat, flow: string): nat
    requires |states| == |steps| + 1 && from <= upto <= |steps|
    decreases upto
  {
    if from == upto then 0
    else Passed(states, steps, from, upto - 1, flow) + if Passes(states[upto - 1], steps[upto - 1], flow) then 1 else 0
  }

  lemma ActKeepsHeld(n: Net, h: Handling, flow: string)
    requires h.flow.Some? && (flow in n.held || h.flow.value != flow)
    ensures (flow in Act(n, h).held <==> flow in n.held) && (flow in n.held ==> Act(n, h).held[flow] == n.held[flow])
  {
  }

  function Repeated(id: nat, times: nat): seq<nat> {
    seq(times, _ => id)
  }

  // How often a packet's own verdict hands it to its release callback at once.
  function ReleasedAtOnce(n: Net, h: Handling): nat
    requires h.flow.Some?
  {
    match h.verdict
    case Drop => 0
    case Reset => 0
    case Delay(_) => if n.queueStopped then 1 else 0
    case Duplicate(count) => if count < 0 then 0 else count
    case Reorder(_) => if h.flow.value in n.held then 1 else 0
    case _ => 1
  }

  lemma {:induction false} ReleaseTimesReleases(n: Net, p: Packet, route: Route, now: int, times: int)
    ensures ReleaseTimes(n, p, route, now, times).released == n.released + Repeated(p.id, if times < 0 then 0 else times)
    decreases times
  {
    if times > 0 {
      ReleaseTimesReleases(n, p, route, now, times - 1);
      assert Repeated(p.id, times) == Repeated(p.id, times - 1) + [p.id];
    }
  }

  lemma ActReleases(n: Net, h: Handling)
    requires h.flow.Some?
    ensures Act(n, h).released == n.released + Repeated(h.packet.id, ReleasedAtOnce(n, h))
  {
    if h.verdict.Duplicate? {
      ReleaseTimesReleases(n, h.packet, RouteOf(n, h), h.now, h.verdict.count);
    }
  }

  // The hold of the conversation ends with this handling: its packet leaves last, after what the
  // handled packet's own verdict released, and only that packet may take its place.
  ghost predicate Leaves(n: Net, m: Net, h: Handling, flow: string)
    requires flow in n.held && h.flow.Some?
  {
    && m.released == n.released
                     + Repeated(h.packet.id, ReleasedAtOnce(n.(held := n.held - {flow}), h)) + [n.held[flow].packet.id]
    && m.held == if h.verdict.Reorder? then (n.held - {flow})[flow := Held(h.verdict.count, h.packet, RouteOf(n, h))]
                 else n.held - {flow}
  }

  // The hold is as it was but for the count.
  ghost predicate StaysHeld(n: Net, m: Net, flow: string, less: nat)
    requires flow in n.held
  {
    flow in m.held && m.held[flow] == n.held[flow].(remaining := n.held[flow].remaining - less)
  }

  // What one step does to a hold: count down on its own conversation, otherwise nothing.
  lemma StepHold(n: Net, step: Step, flow: string)
    requires Enabled(n, step) && flow in n.held && !n.stopped && n.held[flow].remaining >= 1
    ensures var m := After(n, step);
      if !Passes(n, step, flow) then StaysHeld(n, m, flow, 0)
      else if n.held[flow].remaining > 1 then StaysHeld(n, m, flow, 1)
      else Leaves(n, m, step.h, flow)
  {
    match step {
      case Handles(h) =>
        if Ruled(n, h) {
          HandleHold(n, h, flow);
        }
      case Fires(i, now) =>
        var d := n.queue[i];
        var m := n.(queue := n.queue[..i] + n.queue[i + 1..]);
      case _ =>
    }
  }

  lemma HandleHold(n: Net, h: Handling, flow: string)
    requires Ruled(n, h) && flow in n.held && n.held[flow].remaining >= 1
    ensures var m := Handle(n, h);
      if h.flow.value != flow then StaysHeld(n, m, flow, 0)
      else if n.held[flow].remaining > 1 then StaysHeld(n, m, flow, 1)
      else Leaves(n, m, h, flow)
  {
    var a := n.(held := Advanced(n.held, h.flow.value));
    if h.flow.value != flow || n.held[flow].remaining > 1 {
      ActKeepsHeld(a, h, flow);
    } else {
      LastPassLeaves(n, h, flow);
    }
  }

  lemma LastPassLeaves(n: Net, h: Handling, flow: string)
    requires Ruled(n, h) && h.flow.value == flow && flow in n.held && n.held[flow].remaining == 1
    ensures Leaves(n, Handle(n, h), h, flow)
  {
    var a := n.(held := n.held - {flow});
    assert Advanced(n.held, flow) == n.held - {flow} && DueHeld(n.held, flow) == Some(n.held[flow]);
    ActReleases(a, h);
    ActHolds(a, h);
  }

  // Acting changes the reorder buffer only by holding the packet itself.
  lemma ActHolds(n: Net, h: Handling)
    requires h.flow.Some?
    ensures Act(n, h).held == if h.verdict.Reorder? && h.flow.value !in n.held
                              then n.held[h.flow.value := Held(h.verdict.count, h.packet, RouteOf(n, h))] else n.held
  {
  }

  // A hold is untouched unless its conversation passes, and then counts down by one.
  ghost predicate CountsDown(a: map<string, Held>, b: map<string, Held>, passes: bool, flow: string) {
    flow in a && a[flow].remaining > (if passes then 1 else 0) ==>
      flow in b && b[flow] == a[flow].(remaining := a[flow].remaining - if passes then 1 else 0)
  }

  lemma StepCountsDown(states: seq<Net>, steps: seq<Step>, i: nat, flow: string)
    requires IsRun(states, steps) && i < |steps| && !states[i].stopped
    ensures CountsDown(states[i].held, states[i + 1].held, Passes(states[i], steps[i], flow), flow)
  {
    if flow in states[i].held && states[i].held[flow].remaining >= 1 {
      StepHold(states[i], steps[i], flow);
    }
  }

  lemma {:induction false} HoldsCountDown(states: seq<Net>, steps: seq<Step>, from: nat, upto: nat, flow: string)
    requires |states| == |steps| + 1 && from <= upto <= |steps|
    requires forall i :: from <= i < upto ==>
                           CountsDown(states[i].held, states[i + 1].held, Passes(states[i], steps[i], flow), flow)
    requires flow in states[from].held && Passed(states, steps, from, upto, flow) < states[from].held[flow].remaining
    ensures flow in states[upto].held
    ensures states[upto].held[flow] ==
            states[from].held[flow].(remaining := states[from].held[flow].remaining - Passed(states, steps, from, upto, flow))
    decreases upto
  {
    if from < upto {
      HoldsCountDown(states, steps, from, upto - 1, flow);
      assert CountsDown(states[upto - 1].held, states[upto - 1 + 1].held, Passes(states[upto - 1], steps[upto - 1], flow), flow);
    }
  }

  lemma {:induction false} RunningBefore(states: seq<Net>, steps: seq<Step>, i: nat, j: nat)
    requires IsRun(states, steps) && i <= j <= |steps| && !states[j].stopped
    ensures !states[i].stopped
    decreases j
  {
    if i < j {
      StoppedStays(states, steps, j - 1);
      RunningBefore(states, steps, i, j - 1);
    }
  }

  lemma HoldCountsDown(states: seq<Net>, steps: seq<Step>, from: nat, upto: nat, flow: string)
    requires IsRun(states, steps) && from <= upto <= |steps| && !states[upto].stopped
    requires flow in states[from].held && Passed(states, steps, from, upto, flow) < states[from].held[flow].remaining
    ensures flow in states[upto].held
    ensures states[upto].held[flow] ==
            states[from].held[flow].(remaining := states[from].held[flow].remaining - Passed(states, steps, from, upto, flow))
  {
    forall i | from <= i < upto
      ensures CountsDown(states[i].held, states[i + 1].held, Passes(states[i], steps[i], flow), flow)
    {
      RunningBefore(states, steps, i, upto);
      StepCountsDown(states, steps, i, flow);
    }
    HoldsCountDown(states, steps, from, upto, flow);
  }

  lemma StoppedStays(states: seq<Net>, steps: seq<Step>, i: nat)
    requires IsRun(states, steps) && i < |steps|
    ensures states[i].stopped ==> states[i + 1].stopped
  {
    var n, step := states[i], steps[i];
    if n.stopped && step.Handles? {
    }
  }

  // The step handles, under rules, a packet of this conversation.
  ghost predicate InConversation(n: Net, step: Step, ends: Addressed) {
    step.Handles? && Ruled(n, step.h) && step.h.parsed.Some? && SameConversation(step.h.parsed.value, ends)
  }

  ghost function PassedBy(states: seq<Net>, steps: seq<Step>, from: nat, upto: nat, ends: Addressed): nat
    requires |states| == |steps| + 1 && from <= upto <= |steps|
    decreases upto
  {
    if from == upto then 0
    else PassedBy(states, steps, from, upto - 1, ends)
         + if InConversation(states[upto - 1], steps[upto - 1], ends) then 1 else 0
  }

  // The identifier is the one computed from the packet's endpoints.
  ghost predicate Filed(h: Handling) {
    h.flow == if h.parsed.Some? then Some(FlowOf(h.parsed.value)) else None
  }

  ghost predicate AllFiled(steps: seq<Step>) {
    forall i :: 0 <= i < |steps| && steps[i].Handles? ==> Filed(steps[i].h)
  }

  lemma PassesExactly(n: Net, step: Step, ends: Addressed)
    requires step.Handles? ==> Filed(step.h)
    ensures Passes(n, step, FlowOf(ends)) <==> InConversation(n, step, ends)
  {
    if step.Handles? && step.h.parsed.Some? {
      FlowIdentifiesConversation(step.h.parsed.value, ends);
    }
  }

  lemma {:induction false} PassedExactly(states: seq<Net>, steps: seq<Step>, from: nat, upto: nat, ends: Addressed, flow: string)
    requires |states| == |steps| + 1 && from <= upto <= |steps|
    requires forall i :: 0 <= i < |steps| ==> (Passes(states[i], steps[i], flow) <==> InConversation(states[i], steps[i], ends))
    ensures Passed(states, steps, from, upto, flow) == PassedBy(states, steps, from, upto, ends)
    decreases upto
  {
    if from < upto {
      PassedExactly(states, steps, from, upto - 1, ends, flow);
    }
  }

  // A packet with these endpoints is held for reordering by this step, `count` packets long.
  ghost predicate Reorders(n: Net, step: Step, ends: Addressed, flow: string) {
    && InConversation(n, step, ends) && step.h.verdict.Reorder? && step.h.verdict.count >= 1
    && flow !in Advanced(n.held, flow)
  }

  /**
    A packet held for reordering at step `from` stays held while fewer than `count` later
    packets between the same two endpoints have been handled. The step that handles the
    count-th one releases it, right after what that packet's own verdict releases, and
    ends its hold.
   */
  lemma ReorderedLeavesAfterExactlyBy(states: seq<Net>, steps: seq<Step>, from: nat, upto: nat, ends: Addressed)
    requires IsRun(states, steps) && AllFiled(steps) && from < upto < |steps| && !states[upto].stopped
    requires Reorders(states[from], steps[from], ends, FlowOf(ends))
    requires PassedBy(states, steps, from + 1, upto, ends) < steps[from].h.verdict.count
    ensures var flow, held, passed := FlowOf(ends), steps[from].h, PassedBy(states, steps, from + 1, upto, ends);
      var n, m := states[upto], states[upto + 1];
      && flow in n.held && n.held[flow].packet == held.packet && n.held[flow].remaining == held.verdict.count - passed
      && (if !InConversation(n, steps[upto], ends) then StaysHeld(n, m, flow, 0)
          else if passed + 1 < held.verdict.count then StaysHeld(n, m, flow, 1)
          else Leaves(n, m, steps[upto].h, flow))
  {
    forall i | 0 <= i < |steps|
      ensures Passes(states[i], steps[i], FlowOf(ends)) <==> InConversation(states[i], steps[i], ends)
    {
      PassesExactly(states[i], steps[i], ends);
    }
    PassedExactly(states, steps, from + 1, upto, ends, FlowOf(ends));
    HeldSince(states, steps, from, upto, FlowOf(ends));
  }

  lemma HeldSince(states: seq<Net>, steps: seq<Step>, from: nat, upto: nat, flow: string)
    requires IsRun(states, steps) && from < upto < |steps| && !states[upto].stopped
    requires Passes(states[from], steps[from], flow) && steps[from].h.verdict.Reorder? && steps[from].h.verdict.count >= 1
    requires flow !in Advanced(states[from].held, flow)
    requires Passed(states, steps, from + 1, upto, flow) < steps[from].h.verdict.count
    ensures var held, passed := steps[from].h, Passed(states, steps, from + 1, upto, flow);
      var n, m := states[upto], states[upto + 1];
      && flow in n.held && n.held[flow].packet == held.packet && n.held[flow].remaining == held.verdict.count - passed
      && (if !Passes(n, steps[upto], flow) then StaysHeld(n, m, flow, 0)
          else if passed + 1 < held.verdict.count then StaysHeld(n, m, flow, 1)
          else Leaves(n, m, steps[upto].h, flow))
  {
    HoldStarts(states[from], steps[from].h);
    HoldCountsDown(states, steps, from + 1, upto, flow);
    StepHold(states[upto], steps[upto], flow);
  }

  lemma HoldStarts(n: Net, h: Handling)
    requires Ruled(n, h) && h.verdict.Reorder? && h.flow.value !in Advanced(n.held, h.flow.value)
    ensures h.flow.value in Handle(n, h).held
    ensures Handle(n, h).held[h.flow.value] == Held(h.verdict.count, h.packet, RouteOf(n, h))
  {
    var due := DueHeld(n.held, h.flow.value);
    var m := Act(n.(held := Advanced(n.held, h.flow.value)), h);
    if due.Some? {
    }
  }
}
