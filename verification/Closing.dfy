/**
  Egress batches and closing: what waits in a batch waits in an open one, and closing the
  endpoint delivers everything that waits anywhere.
 */
module Closing {
  import Shaper
  import opened Endpoint

  // --------------------------------------------------------------- batches

  // Every waiting entry belongs to a batch that is still open.
  ghost predicate Within(entries: seq<(nat, nat)>, open: set<nat>) {
    forall i :: 0 <= i < |entries| ==> entries[i].0 in open
  }

  // No batch is opened or sealed, and nothing is put into a sealed one.
  ghost predicate KeepsBatches(n: Net, m: Net) {
    m.open == n.open && (Within(n.buffered, n.open) ==> Within(m.buffered, m.open))
  }

  lemma PlacingKeepsBatches(n: Net, p: Packet, sink: Sink, verdict: Shaper.Verdict, now: int)
    ensures KeepsBatches(n, Placing(n, p, sink, verdict, now))
  {
  }

  lemma ReleaseKeepsBatches(before: Net, p: Packet, route: Route, now: int)
    ensures KeepsBatches(before, Release(before, p, route, now))
  {
    var n := before.(released := before.released + [p.id]);
    if Unpaced(n, route) {
      PlacingKeepsBatches(n, p, route.sink, Shaper.Admitted(0), now);
    } else {
      PlacingKeepsBatches(Charge(n, route, p.size, now), p, route.sink, Reserve(n.pacers[route.pacer.value], p.size, now).1,
                          now);
    }
  }

  lemma {:induction false} ReleaseTimesKeepsBatches(n: Net, p: Packet, route: Route, now: int, times: int)
    ensures KeepsBatches(n, ReleaseTimes(n, p, route, now, times))
    decreases times
  {
    if times > 0 {
      ReleaseTimesKeepsBatches(n, p, route, now, times - 1);
      ReleaseKeepsBatches(ReleaseTimes(n, p, route, now, times - 1), p, route, now);
    }
  }

  lemma ActKeepsBatches(n: Net, h: Handling)
    requires h.flow.Some?
    ensures KeepsBatches(n, Act(n, h))
  {
    var p, route := h.packet, RouteOf(n, h);
    match h.verdict {
      case Duplicate(count) => ReleaseTimesKeepsBatches(n, p, route, h.now, count);
      case Delay(_) => ReleaseKeepsBatches(Take(n, p), p, route, h.now);
      case Reorder(_) => ReleaseKeepsBatches(Take(n, p), p, route, h.now);
      case _ => ReleaseKeepsBatches(n, p, route, h.now);
    }
  }

  lemma HandleKeepsBatches(n: Net, h: Handling)
    ensures KeepsBatches(n, Handle(n, h))
  {
    if !Ruled(n, h) {
      ReleaseKeepsBatches(n, h.packet, RouteOf(n, h), h.now);
    } else {
      var due := DueHeld(n.held, h.flow.value);
      var a := n.(held := Advanced(n.held, h.flow.value));
      ActKeepsBatches(a, h);
      if due.Some? {
        ReleaseKeepsBatches(Act(a, h), due.value.packet, due.value.route, h.now);
      }
    }
  }

  lemma FireKeepsBatches(n: Net, i: nat, now: int)
    requires i < |n.queue|
    ensures KeepsBatches(n, Fire(n, i, now))
  {
    var d := n.queue[i];
    var m := n.(queue := n.queue[..i] + n.queue[i + 1..]);
    if d.Delayed? {
      ReleaseKeepsBatches(m, d.packet, d.route, now);
    } else {
      PlacingKeepsBatches(m, d.packet, d.sink, Shaper.Admitted(0), now);
    }
  }

  // The packets that wait in one batch, in the order they were released.
  function ListOf(entries: seq<(nat, nat)>, b: nat): seq<nat> {
    Ids(OfBatch(entries, b, true))
  }

  lemma ListSnoc(entries: seq<(nat, nat)>, e: (nat, nat), b: nat)
    ensures ListOf(entries + [e], b) == if e.0 == b then ListOf(entries, b) + [e.1] else ListOf(entries, b)
  {
    assert (entries + [e])[..|entries|] == entries;
    var mine := OfBatch(entries, b, true);
    assert Ids(mine + [e]) == Ids(mine) + [e.1];
    assert mine + [] == mine;
  }

  lemma {:induction false} OtherBatchesKept(entries: seq<(nat, nat)>, b: nat, c: nat)
    requires b != c
    ensures OfBatch(OfBatch(entries, b, false), c, true) == OfBatch(entries, c, true)
  {
    if |entries| > 0 {
      var init, last := entries[..|entries| - 1], entries[|entries| - 1];
      OtherBatchesKept(init, b, c);
      var left := OfBatch(init, b, false);
      assert (left + [last])[..|left|] == left;
      assert left + [] == left;
    }
  }

  lemma {:induction false} SealedIsEmpty(entries: seq<(nat, nat)>, open: set<nat>, b: nat)
    requires Within(entries, open) && b !in open
    ensures ListOf(entries, b) == []
  {
    if |entries| > 0 {
      SealedIsEmpty(entries[..|entries| - 1], open, b);
      assert entries[|entries| - 1].0 in open;
    }
  }

  lemma {:induction false} SealedWithin(entries: seq<(nat, nat)>, open: set<nat>, b: nat)
    requires Within(entries, open)
    ensures Within(OfBatch(entries, b, false), open - {b})
  {
    if |entries| > 0 {
      SealedWithin(entries[..|entries| - 1], open, b);
    }
  }

  lemma StepKeepsWithin(n: Net, step: Step)
    requires Enabled(n, step) && Within(n.buffered, n.open)
    ensures Within(After(n, step).buffered, After(n, step).open)
    ensures !step.Opens? ==> After(n, step).open <= n.open
  {
    match step {
      case Handles(h) => HandleKeepsBatches(n, h);
      case Fires(i, now) => FireKeepsBatches(n, i, now);
      case Seals(b) => SealedWithin(n.buffered, n.open, b);
      case Drains(flow, now) =>
        ReleaseKeepsBatches(n.(held := n.held - {flow}), n.held[flow].packet, n.held[flow].route, now);
      case _ =>
    }
  }

  /** In every state of every run, what waits in a batch waits in one that is still open. */
  lemma {:induction false} BatchedAreOpen(states: seq<Net>, steps: seq<Step>, i: nat)
    requires IsRun(states, steps) && i <= |steps|
    ensures Within(states[i].buffered, states[i].open)
  {
    if i > 0 {
      BatchedAreOpen(states, steps, i - 1);
      StepKeepsWithin(states[i - 1], steps[i - 1]);
    }
  }

  // --------------------------------------------------------------- closing

  // The steps lead through these states.
  ghost predicate IsPath(states: seq<Net>, steps: seq<Step>) {
    && |states| == |steps| + 1
    && forall i :: 0 <= i < |steps| ==> Enabled(states[i], steps[i]) && states[i + 1] == After(states[i], steps[i])
  }

  // Steps that neither handle a packet nor open a batch.
  ghost predicate OnlyFinishes(steps: seq<Step>) {
    forall i :: 0 <= i < |steps| ==> !steps[i].Handles? && !steps[i].Opens?
  }

  lemma {:induction false} FinishingKeepsAccounts(states: seq<Net>, steps: seq<Step>, i: nat, id: nat)
    requires IsPath(states, steps) && OnlyFinishes(steps) && i <= |steps| && Within(states[0].buffered, states[0].open)
    ensures Placed(states[i], id) == Placed(states[0], id) && Debt(states[i], id) == Debt(states[0], id)
    ensures Within(states[i].buffered, states[i].open) && states[i].open <= states[0].open
  {
    if i > 0 {
      FinishingKeepsAccounts(states, steps, i - 1, id);
      StepPlaces(states[i - 1], steps[i - 1]);
      StepKeepsWithin(states[i - 1], steps[i - 1]);
    }
  }

  lemma NothingWaits(n: Net, id: nat)
    requires n.held == map[] && n.queue == [] && n.open == {} && Within(n.buffered, n.open)
    ensures References(n, id) == 0
  {
    NothingHeld(id);
    NoneWithin(n.buffered);
  }

  lemma NoneWithin(entries: seq<(nat, nat)>)
    ensures Within(entries, {}) <==> entries == []
  {
    assert |entries| > 0 ==> entries[0].0 !in {};
  }

  /**
    Closing: when a run that has left no batch open is followed by finishing steps that empty
    the reorder buffer and the queue, as those of Close do, every packet of the run has been
    sent exactly as often as its verdicts asked, less only the copies the pacer dropped, and
    every reference taken has been given back.
   */
  lemma CloseDeliversEverything(states: seq<Net>, steps: seq<Step>, closing: seq<Net>, taken: seq<Step>, id: nat)
    requires IsRun(states, steps) && states[|steps|].open == {}
    requires IsPath(closing, taken) && OnlyFinishes(taken) && closing[0] == states[|steps|]
    requires closing[|taken|].held == map[] && closing[|taken|].queue == []
    ensures var n := closing[|taken|];
      && multiset(n.out)[id] + n.paceDropped[id] == Owed(states, steps, |steps|, id)
      && n.taken[id] == n.given[id]
  {
    CopiesAreConserved(states, steps, |steps|, id);
    BatchedAreOpen(states, steps, |steps|);
    FinishingKeepsAccounts(closing, taken, |taken|, id);
    NothingWaits(closing[|taken|], id);
  }

  // --------------------------------------------------------------- teardown terminates

  /** Once the queue is stopped, firing a callback never queues another: the flush ends. */
  lemma StoppedQueueShrinks(n: Net, i: nat, now: int)
    requires n.queueStopped && i < |n.queue|
    ensures |Fire(n, i, now).queue| == |n.queue| - 1 && Fire(n, i, now).queueStopped && Fire(n, i, now).held == n.held
  {
  }
}
