/**
  Pacing on the data path. A paced packet reaches its sink at once only if its link is
  free; otherwise it waits in the queue until the time the link was reserved for it. The
  reservations of a whole run are those of the pacer, so its rate bound holds of them.
 */
module Pacing {
  import opened Options
  import Shaper
  import opened Endpoint

  // --------------------------------------------------------------- one release

  // The packet reaches its sink: the stack, an open batch, or the wire behind a sealed one.
  ghost predicate SentNow(n: Net, m: Net, p: Packet, sink: Sink) {
    && m.queue == n.queue && m.paceDropped == n.paceDropped
    && (if sink.Batch? && sink.id in n.open then m.out == n.out && m.buffered == n.buffered + [(sink.id, p.id)]
        else m.out == n.out + [p.id] && m.buffered == n.buffered)
  }

  // Nothing is sent, and one callback that will send the packet joins the queue.
  ghost predicate Waits(n: Net, m: Net, p: Packet, sink: Sink, due: int) {
    && m.out == n.out && m.buffered == n.buffered && m.paceDropped == n.paceDropped
    && m.queue == n.queue + [Reserved(p, sink, due)]
  }

  ghost predicate Lost(n: Net, m: Net, p: Packet) {
    && m.out == n.out && m.buffered == n.buffered && m.queue == n.queue
    && m.paceDropped == n.paceDropped + multiset{p.id}
  }

  ghost predicate HasPacer(n: Net, pacer: Option<nat>) {
    pacer.Some? && pacer.value < |n.pacers|
  }

  // The link's next free time moves to `free`, and no other pacer is touched.
  ghost predicate Moves(n: Net, m: Net, k: nat, free: int)
    requires k < |n.pacers|
  {
    && |m.pacers| == |n.pacers| && m.pacers[k].link.nextFree == free
    && forall i :: 0 <= i < |n.pacers| && i != k ==> m.pacers[i] == n.pacers[i]
  }

  /**
    What handing a packet to its release callback does, in terms of when its link is free:
    without a pacer, or on a free link, it is sent; when the link is busy for longer than the
    bound it is lost; otherwise it waits until the link is free, unless the queue has stopped.
   */
  ghost predicate Outcome(n: Net, m: Net, p: Packet, sink: Sink, pacer: Option<nat>, now: int) {
    if !HasPacer(n, pacer) then SentNow(n, m, p, sink) && m.pacers == n.pacers
    else if p.size <= 0 then SentNow(n, m, p, sink) && Moves(n, m, pacer.value, n.pacers[pacer.value].link.nextFree)
    else
      var link := n.pacers[pacer.value].link;
      var tx := n.pacers[pacer.value].tx(p.size);
      if link.nextFree <= now then SentNow(n, m, p, sink) && Moves(n, m, pacer.value, now + tx)
      else if link.nextFree - now > link.maxBacklog then Lost(n, m, p) && Moves(n, m, pacer.value, link.nextFree)
      else
        && Moves(n, m, pacer.value, link.nextFree + tx)
        && (if n.queueStopped then SentNow(n, m, p, sink) else Waits(n, m, p, sink, link.nextFree))
  }

  lemma ForwardSends(n: Net, p: Packet, sink: Sink)
    ensures SentNow(n, Forward(n, p, sink), p, sink) && Forward(n, p, sink).pacers == n.pacers
  {
  }

  lemma ReleaseOutcome(n: Net, p: Packet, route: Route, now: int)
    ensures Outcome(n, Release(n, p, route, now), p, route.sink, route.pacer, now)
  {
    var r := n.(released := n.released + [p.id]);
    if !Unpaced(r, route) {
      var c := Charge(r, route, p.size, now);
      ForwardSends(c, p, route.sink);
      ForwardSends(Take(c, p), p, route.sink);
    } else {
      ForwardSends(r, p, route.sink);
    }
  }

  /**
    A packet that meets no rules: an inbound one goes up the stack through the pacer of its
    direction, an outbound one into its batch through the pacer of the other.
   */
  lemma PlainHandlingOutcome(n: Net, h: Handling)
    requires !h.rules || n.stopped || h.flow.None?
    ensures h.dir.C2S? ==> Outcome(n, After(n, Handles(h)), h.packet, Stack, n.c2s, h.now)
    ensures h.dir.S2C? ==> Outcome(n, After(n, Handles(h)), h.packet, Batch(h.batch), n.s2c, h.now)
  {
    ReleaseOutcome(n, h.packet, RouteOf(n, h), h.now);
  }

  /** A callback that fires: a delayed packet is released through the pacer it was handled under, a paced one is sent. */
  lemma FiringOutcome(n: Net, i: nat, now: int)
    requires Enabled(n, Fires(i, now))
    ensures var d, m := n.queue[i], n.(queue := n.queue[..i] + n.queue[i + 1..]);
      if d.Delayed? then Outcome(m, After(n, Fires(i, now)), d.packet, d.route.sink, d.route.pacer, now)
      else SentNow(m, After(n, Fires(i, now)), d.packet, d.sink) && After(n, Fires(i, now)).pacers == n.pacers
  {
    var d, m := n.queue[i], n.(queue := n.queue[..i] + n.queue[i + 1..]);
    if d.Delayed? {
      ReleaseOutcome(m, d.packet, d.route, now);
    } else {
      ForwardSends(m, d.packet, d.sink);
    }
  }

  /** A held packet that the reorder buffer lets go, at its last pass or while closing, takes the route it was held with. */
  lemma LettingGoOutcome(n: Net, h: Handling, flow: string, now: int)
    requires flow in n.held
    ensures n.stopped ==> var held := n.held[flow];
              Outcome(n, After(n, Drains(flow, now)), held.packet, held.route.sink, held.route.pacer, now)
    ensures h.rules && !n.stopped && h.flow == Some(flow) && h.verdict.Drop? && n.held[flow].remaining <= 1 ==>
              var held := n.held[flow];
              Outcome(n, After(n, Handles(h)), held.packet, held.route.sink, held.route.pacer, h.now)
  {
    var held, m := n.held[flow], n.(held := n.held - {flow});
    ReleaseOutcome(m, held.packet, held.route, now);
    ReleaseOutcome(m, held.packet, held.route, h.now);
  }

  /** Setting a pacer replaces that of its direction only; the reservations of all others stay. */
  lemma PacerSetExactly(n: Net, dir: Direction, pacer: Option<Pacer>)
    ensures var m, other := After(n, SetsPacer(dir, pacer)), if dir.C2S? then S2C else C2S;
      && PacerOf(m, other) == PacerOf(n, other) && n.pacers <= m.pacers
      && (if pacer.None? then PacerOf(m, dir).None?
          else HasPacer(m, PacerOf(m, dir)) && PacerOf(m, dir).value >= |n.pacers|
               && m.pacers[PacerOf(m, dir).value] == pacer.value)
  {
  }

  // --------------------------------------------------------------- busy links

  ghost function PacerOf(n: Net, dir: Direction): Option<nat> {
    match dir
    case C2S => n.c2s
    case S2C => n.s2c
  }

  // The packet has to wait for its link.
  ghost predicate Busy(n: Net, pacer: Option<nat>, p: Packet, now: int) {
    HasPacer(n, pacer) && n.pacers[pacer.value].link.nextFree > now && p.size > 0
  }

  // The copies of a packet that have reached a sink.
  ghost function Sent(n: Net, id: nat): nat {
    multiset(n.out)[id] + Batched(n.buffered, id)
  }

  // No copy of the packet is sent, and links that are busy stay busy.
  ghost predicate Steady(n: Net, m: Net, id: nat, now: int) {
    && Sent(m, id) == Sent(n, id) && m.queueStopped == n.queueStopped && |m.pacers| == |n.pacers|
    && (forall i :: 0 <= i < |n.pacers| && n.pacers[i].link.nextFree > now ==> m.pacers[i].link.nextFree > now)
  }

  lemma SentNowCounts(n: Net, m: Net, p: Packet, sink: Sink, id: nat)
    requires SentNow(n, m, p, sink)
    ensures Sent(m, id) == Sent(n, id) + One(p.id, id)
  {
    SnocCounts(n.out, p.id, id);
    if sink.Batch? {
      BatchedSnoc(n.buffered, (sink.id, p.id), id);
    }
  }

  lemma ReleaseIsSteady(n: Net, p: Packet, route: Route, now: int, id: nat)
    requires p.id != id || (Busy(n, route.pacer, p, now) && !n.queueStopped)
    ensures Steady(n, Release(n, p, route, now), id, now)
  {
    var m := Release(n, p, route, now);
    ReleaseOutcome(n, p, route, now);
    if SentNow(n, m, p, route.sink) {
      SentNowCounts(n, m, p, route.sink, id);
    }
    if HasPacer(n, route.pacer) {
      var k := route.pacer.value;
      forall i | 0 <= i < |n.pacers| && n.pacers[i].link.nextFree > now ensures m.pacers[i].link.nextFree > now {
        assert i != k ==> m.pacers[i] == n.pacers[i];
      }
    }
  }

  lemma {:induction false} ReleaseTimesIsSteady(n: Net, p: Packet, route: Route, now: int, times: int, id: nat)
    requires p.id != id || (Busy(n, route.pacer, p, now) && !n.queueStopped)
    ensures Steady(n, ReleaseTimes(n, p, route, now, times), id, now)
    decreases times
  {
    if times > 0 {
      ReleaseTimesIsSteady(n, p, route, now, times - 1, id);
      ReleaseIsSteady(ReleaseTimes(n, p, route, now, times - 1), p, route, now, id);
    }
  }

  lemma ActIsSteady(n: Net, h: Handling, id: nat)
    requires h.flow.Some? && !n.queueStopped
    requires h.packet.id != id || Busy(n, PacerOf(n, h.dir), h.packet, h.now)
    ensures Steady(n, Act(n, h), id, h.now)
  {
    var p, route := h.packet, RouteOf(n, h);
    match h.verdict {
      case Drop =>
      case Reset =>
      case Delay(_) =>
      case Duplicate(count) => ReleaseTimesIsSteady(n, p, route, h.now, count, id);
      case Reorder(_) => if h.flow.value in n.held { ReleaseIsSteady(Take(n, p), p, route, h.now, id); }
      case _ => ReleaseIsSteady(n, p, route, h.now, id);
    }
  }

  // The step hands a packet held for reordering to its release, on a link that is free for it.
  ghost predicate FreesHeld(n: Net, flow: string, id: nat, now: int) {
    flow in n.held && n.held[flow].packet.id == id && !Busy(n, n.held[flow].route.pacer, n.held[flow].packet, now)
  }

  ghost predicate MaySend(n: Net, step: Step, id: nat) {
    match step
    case Handles(h) =>
      || (h.packet.id == id && !Busy(n, PacerOf(n, h.dir), h.packet, h.now))
      || (h.flow.Some? && FreesHeld(n, h.flow.value, id, h.now))
    case Drains(flow, now) => FreesHeld(n, flow, id, now)
    case Fires(i, now) =>
      && i < |n.queue| && n.queue[i].packet.id == id && n.queue[i].due <= now
      && (n.queue[i].Delayed? ==> !Busy(n, n.queue[i].route.pacer, n.queue[i].packet, now))
    case _ => false
  }

  lemma HandleIsSteady(n: Net, h: Handling, id: nat)
    requires !n.queueStopped && !MaySend(n, Handles(h), id)
    ensures Sent(Handle(n, h), id) == Sent(n, id)
  {
    if !Ruled(n, h) {
      ReleaseIsSteady(n, h.packet, RouteOf(n, h), h.now, id);
    } else {
      var due, a := DueHeld(n.held, h.flow.value), n.(held := Advanced(n.held, h.flow.value));
      ActIsSteady(a, h, id);
      if due.Some? {
        ReleaseIsSteady(Act(a, h), due.value.packet, due.value.route, h.now, id);
      }
    }
  }

  lemma FireIsSteady(n: Net, i: nat, now: int, id: nat)
    requires Enabled(n, Fires(i, now)) && !n.queueStopped && !MaySend(n, Fires(i, now), id)
    ensures Sent(Fire(n, i, now), id) == Sent(n, id)
  {
    var d := n.queue[i];
    var m := n.(queue := n.queue[..i] + n.queue[i + 1..]);
    if d.Delayed? {
      ReleaseIsSteady(m, d.packet, d.route, now, id);
    } else {
      ForwardSends(m, d.packet, d.sink);
      SentNowCounts(m, Forward(m, d.packet, d.sink), d.packet, d.sink, id);
    }
  }

  lemma SealIsSteady(n: Net, b: nat, id: nat)
    ensures Sent(Seal(n, b), id) == Sent(n, id)
  {
    var sent, mine: seq<nat> := n.out, Ids(OfBatch(n.buffered, b, true));
    OfBatchPartition(n.buffered, b, id);
    IdsCounted(OfBatch(n.buffered, b, true), id);
    assert multiset(sent + mine) == multiset(sent) + multiset(mine);
  }

  /**
    In any run, before the queue stops, a copy of a packet reaches a sink only when it is
    handled or let go by the reorder buffer while its link is free, or when a callback for it
    fires that is due, and a delayed one again only if its link is free then.
   */
  lemma SentOnlyWhenFree(states: seq<Net>, steps: seq<Step>, i: nat, id: nat)
    requires IsRun(states, steps) && i < |steps| && !states[i].queueStopped
    requires Sent(states[i + 1], id) != Sent(states[i], id)
    ensures MaySend(states[i], steps[i], id)
  {
    var n := states[i];
    if !MaySend(n, steps[i], id) {
      match steps[i] {
        case Handles(h) => HandleIsSteady(n, h, id);
        case Fires(j, now) => FireIsSteady(n, j, now, id);
        case Seals(b) => SealIsSteady(n, b, id);
        case Drains(flow, now) =>
          ReleaseIsSteady(n.(held := n.held - {flow}), n.held[flow].packet, n.held[flow].route, now, id);
        case _ =>
      }
    }
  }

  /** A rule's delay: the packet is not sent, and its callback is due when the delay is over. */
  lemma DelayingWaits(n: Net, h: Handling)
    requires h.rules && !n.stopped && h.flow.Some? && h.verdict.Delay? && !n.queueStopped && h.flow.value !in n.held
    ensures var m := After(n, Handles(h));
      && m.out == n.out && m.buffered == n.buffered && m.pacers == n.pacers
      && |m.queue| == |n.queue| + 1 && m.queue[..|n.queue|] == n.queue
      && m.queue[|n.queue|].Delayed? && m.queue[|n.queue|].packet == h.packet
      && m.queue[|n.queue|].due == h.now + h.verdict.delay
      && m.queue[|n.queue|].route.pacer == PacerOf(n, h.dir)
      && m.queue[|n.queue|].route.sink == if h.dir.C2S? then Stack else Batch(h.batch)
  {
  }

  // --------------------------------------------------------------- leaving the queue

  ghost predicate Extends(n: Net, m: Net) {
    |n.queue| <= |m.queue| && m.queue[..|n.queue|] == n.queue
  }

  lemma ReleaseExtends(n: Net, p: Packet, route: Route, now: int)
    ensures Extends(n, Release(n, p, route, now))
  {
    ReleaseOutcome(n, p, route, now);
  }

  lemma {:induction false} ReleaseTimesExtends(n: Net, p: Packet, route: Route, now: int, times: int)
    ensures Extends(n, ReleaseTimes(n, p, route, now, times))
    decreases times
  {
    if times > 0 {
      var m := ReleaseTimes(n, p, route, now, times - 1);
      ReleaseTimesExtends(n, p, route, now, times - 1);
      ReleaseExtends(m, p, route, now);
      ExtendsTransitive(n, m, Release(m, p, route, now));
    }
  }

  lemma ExtendsTransitive(a: Net, b: Net, c: Net)
    requires Extends(a, b) && Extends(b, c)
    ensures Extends(a, c)
  {
    assert c.queue[..|a.queue|] == c.queue[..|b.queue|][..|a.queue|];
  }

  lemma ActExtends(n: Net, h: Handling)
    requires h.flow.Some?
    ensures Extends(n, Act(n, h))
  {
    var p, route := h.packet, RouteOf(n, h);
    match h.verdict {
      case Drop =>
      case Reset =>
      case Delay(_) => ReleaseExtends(Take(n, p), p, route, h.now);
      case Duplicate(count) => ReleaseTimesExtends(n, p, route, h.now, count);
      case Reorder(_) => ReleaseExtends(Take(n, p), p, route, h.now);
      case _ => ReleaseExtends(n, p, route, h.now);
    }
  }

  lemma HandleExtends(n: Net, h: Handling)
    ensures Extends(n, Handle(n, h))
  {
    if !Ruled(n, h) {
      ReleaseExtends(n, h.packet, RouteOf(n, h), h.now);
    } else {
      var due, a := DueHeld(n.held, h.flow.value), n.(held := Advanced(n.held, h.flow.value));
      var m := Act(a, h);
      ActExtends(a, h);
      if due.Some? {
        ReleaseExtends(m, due.value.packet, due.value.route, h.now);
        ExtendsTransitive(n, m, Release(m, due.value.packet, due.value.route, h.now));
      }
    }
  }

  lemma ExtendsCounts(n: Net, m: Net, d: Deferred)
    requires Extends(n, m)
    ensures multiset(n.queue)[d] <= multiset(m.queue)[d]
  {
    assert m.queue == n.queue + m.queue[|n.queue|..];
  }

  lemma FireTakesOne(n: Net, i: nat, now: int, d: Deferred)
    requires i < |n.queue|
    ensures multiset(n.queue)[d] <= multiset(Fire(n, i, now).queue)[d] + if d == n.queue[i] then 1 else 0
  {
    var m := n.(queue := n.queue[..i] + n.queue[i + 1..]);
    assert n.queue == n.queue[..i] + [n.queue[i]] + n.queue[i + 1..];
    var e := n.queue[i];
    if e.Delayed? {
      ReleaseExtends(m, e.packet, e.route, now);
    }
    ExtendsCounts(m, Fire(n, i, now), d);
  }

  /** In any run a waiting callback leaves the queue only by firing, and not before it is due unless the queue has stopped. */
  lemma LeavesOnlyWhenDue(states: seq<Net>, steps: seq<Step>, i: nat, d: Deferred)
    requires IsRun(states, steps) && i < |steps|
    requires multiset(states[i + 1].queue)[d] < multiset(states[i].queue)[d]
    ensures steps[i].Fires? && steps[i].i < |states[i].queue| && states[i].queue[steps[i].i] == d
    ensures states[i].queueStopped || d.due <= steps[i].now
  {
    StepLeaves(states[i], steps[i], d);
  }

  lemma StepLeaves(n: Net, step: Step, d: Deferred)
    requires Enabled(n, step) && multiset(After(n, step).queue)[d] < multiset(n.queue)[d]
    ensures step.Fires? && step.i < |n.queue| && n.queue[step.i] == d
  {
    match step {
      case Handles(h) =>
        HandleExtends(n, h);
        ExtendsCounts(n, Handle(n, h), d);
      case Drains(flow, now) =>
        ReleaseExtends(n.(held := n.held - {flow}), n.held[flow].packet, n.held[flow].route, now);
        ExtendsCounts(n, After(n, step), d);
      case Fires(j, now) => FireTakesOne(n, j, now, d);
      case _ =>
    }
  }

  // --------------------------------------------------------------- reservations are the pacer's

  ghost predicate AllAt(arrivals: seq<Shaper.Arrival>, now: int) {
    forall i :: 0 <= i < |arrivals| ==> arrivals[i].now == now
  }

  // Pacer k went through reservations made at `now`.
  ghost predicate Reserves(n: Net, m: Net, k: nat, now: int) {
    && k < |n.pacers| <= |m.pacers|
    && exists arrivals :: AllAt(arrivals, now) && m.pacers[k].link == Shaper.Run(n.pacers[k].link, arrivals)
  }

  lemma {:induction false} RunJoins(l: Shaper.Link, a: seq<Shaper.Arrival>, b: seq<Shaper.Arrival>)
    ensures Shaper.Run(l, a + b) == Shaper.Run(Shaper.Run(l, a), b)
  {
    if |b| == 0 {
      assert a + b == a;
    } else {
      RunJoins(l, a, b[..|b| - 1]);
      assert (a + b)[..|a + b| - 1] == a + b[..|b| - 1];
    }
  }

  lemma ReservesNothing(n: Net, m: Net, k: nat, now: int)
    requires k < |n.pacers| <= |m.pacers| && m.pacers[k] == n.pacers[k]
    ensures Reserves(n, m, k, now)
  {
    assert AllAt([], now) && Shaper.Run(n.pacers[k].link, []) == n.pacers[k].link;
  }

  lemma ReservesTransitive(a: Net, b: Net, c: Net, k: nat, now: int)
    requires Reserves(a, b, k, now) && Reserves(b, c, k, now)
    ensures Reserves(a, c, k, now)
  {
    var x :| AllAt(x, now) && b.pacers[k].link == Shaper.Run(a.pacers[k].link, x);
    var y :| AllAt(y, now) && c.pacers[k].link == Shaper.Run(b.pacers[k].link, y);
    RunJoins(a.pacers[k].link, x, y);
    assert AllAt(x + y, now);
  }

  lemma ReleaseReserves(n: Net, p: Packet, route: Route, now: int, k: nat)
    requires k < |n.pacers|
    ensures Reserves(n, Release(n, p, route, now), k, now)
  {
    var m := Release(n, p, route, now);
    ReleaseOutcome(n, p, route, now);
    if HasPacer(n, route.pacer) && route.pacer.value == k {
      var a := Shaper.Arrival(p.size, n.pacers[k].tx(p.size), now);
      assert [a][..0] == [] && Shaper.Run(n.pacers[k].link, [a]) == Shaper.Admit(n.pacers[k].link, a).0;
      ReleaseCharges(n, p, route, now);
      assert AllAt([a], now);
    } else {
      ReservesNothing(n, m, k, now);
    }
  }

  lemma ReleaseCharges(n: Net, p: Packet, route: Route, now: int)
    requires HasPacer(n, route.pacer)
    ensures var k := route.pacer.value;
      && |Release(n, p, route, now).pacers| == |n.pacers|
      && Release(n, p, route, now).pacers[k].link
         == Shaper.Admit(n.pacers[k].link, Shaper.Arrival(p.size, n.pacers[k].tx(p.size), now)).0
  {
  }

  lemma {:induction false} ReleaseTimesReserves(n: Net, p: Packet, route: Route, now: int, times: int, k: nat)
    requires k < |n.pacers|
    ensures Reserves(n, ReleaseTimes(n, p, route, now, times), k, now)
    decreases times
  {
    if times > 0 {
      var m := ReleaseTimes(n, p, route, now, times - 1);
      ReleaseTimesReserves(n, p, route, now, times - 1, k);
      ReleaseReserves(m, p, route, now, k);
      ReservesTransitive(n, m, Release(m, p, route, now), k, now);
    } else {
      ReservesNothing(n, n, k, now);
    }
  }

  lemma ActReserves(n: Net, h: Handling, k: nat)
    requires h.flow.Some? && k < |n.pacers|
    ensures Reserves(n, Act(n, h), k, h.now)
  {
    var p, route := h.packet, RouteOf(n, h);
    ReservesNothing(n, n, k, h.now);
    match h.verdict {
      case Drop =>
      case Reset =>
      case Delay(_) => ReleaseReserves(Take(n, p), p, route, h.now, k);
      case Duplicate(count) => ReleaseTimesReserves(n, p, route, h.now, count, k);
      case Reorder(_) => ReleaseReserves(Take(n, p), p, route, h.now, k);
      case _ => ReleaseReserves(n, p, route, h.now, k);
    }
  }

  lemma HandleReserves(n: Net, h: Handling, k: nat)
    requires k < |n.pacers|
    ensures Reserves(n, Handle(n, h), k, h.now)
  {
    if !Ruled(n, h) {
      ReleaseReserves(n, h.packet, RouteOf(n, h), h.now, k);
    } else {
      var due, a := DueHeld(n.held, h.flow.value), n.(held := Advanced(n.held, h.flow.value));
      var m := Act(a, h);
      ActReserves(a, h, k);
      assert Reserves(n, m, k, h.now);
      if due.Some? {
        ReleaseReserves(m, due.value.packet, due.value.route, h.now, k);
        ReservesTransitive(n, m, Release(m, due.value.packet, due.value.route, h.now), k, h.now);
      }
    }
  }

  // The clock reading of a step; steps that read none take that of `otherwise`.
  ghost function TimeOf(step: Step, otherwise: int): int {
    match step
    case Handles(h) => h.now
    case Fires(_, now) => now
    case Drains(_, now) => now
    case _ => otherwise
  }

  lemma FireReserves(n: Net, i: nat, now: int, k: nat)
    requires i < |n.queue| && k < |n.pacers|
    ensures Reserves(n, Fire(n, i, now), k, now)
  {
    var d := n.queue[i];
    var m := n.(queue := n.queue[..i] + n.queue[i + 1..]);
    if d.Delayed? {
      ReleaseReserves(m, d.packet, d.route, now, k);
    } else {
      ForwardSends(m, d.packet, d.sink);
      ReservesNothing(n, Fire(n, i, now), k, now);
    }
  }

  lemma DrainReserves(n: Net, flow: string, now: int, k: nat)
    requires flow in n.held && k < |n.pacers|
    ensures Reserves(n, Drain(n, flow, now), k, now)
  {
    ReleaseReserves(n.(held := n.held - {flow}), n.held[flow].packet, n.held[flow].route, now, k);
  }

  lemma StepReserves(n: Net, step: Step, k: nat, otherwise: int)
    requires Enabled(n, step) && k < |n.pacers|
    ensures Reserves(n, After(n, step), k, TimeOf(step, otherwise))
  {
    match step {
      case Handles(h) => HandleReserves(n, h, k);
      case Fires(i, now) => FireReserves(n, i, now, k);
      case Drains(flow, now) => DrainReserves(n, flow, now, k);
      case _ => ReservesNothing(n, After(n, step), k, otherwise);
    }
  }

  // Clock readings never decrease; `clock[i]` is the reading of step i or the last one before.
  ghost predicate Timed(steps: seq<Step>, clock: seq<int>) {
    && |clock| == |steps|
    && (forall i :: 0 <= i < |steps| ==> clock[i] == TimeOf(steps[i], clock[i]))
    && (forall i, j :: 0 <= i < j < |steps| ==> clock[i] <= clock[j])
  }

  // Arrivals in order, none later than `now`, that take one link to the other.
  ghost predicate Through(from: Shaper.Link, upto: Shaper.Link, arrivals: seq<Shaper.Arrival>) {
    Shaper.Ordered(arrivals) && upto == Shaper.Run(from, arrivals)
  }

  /**
    Along any run with a clock that never goes back, the reservations on a pacer are those of
    the pacer run on some arrivals in order.
   */
  lemma {:induction false} LinkRuns(states: seq<Net>, steps: seq<Step>, clock: seq<int>, k: nat, i: nat, j: nat)
    returns (arrivals: seq<Shaper.Arrival>)
    requires IsRun(states, steps) && Timed(steps, clock) && i <= j <= |steps| && k < |states[i].pacers|
    ensures k < |states[j].pacers| && Through(states[i].pacers[k].link, states[j].pacers[k].link, arrivals)
    ensures forall a :: 0 <= a < |arrivals| ==> j > 0 && arrivals[a].now <= clock[j - 1]
    decreases j
  {
    if i == j {
      arrivals := [];
    } else {
      var before := LinkRuns(states, steps, clock, k, i, j - 1);
      var n, m := states[j - 1], states[j];
      StepReserves(n, steps[j - 1], k, clock[j - 1]);
      var more :| AllAt(more, clock[j - 1]) && m.pacers[k].link == Shaper.Run(n.pacers[k].link, more);
      RunJoins(states[i].pacers[k].link, before, more);
      arrivals := before + more;
      assert j > 1 ==> clock[j - 2] <= clock[j - 1];
    }
  }

  /** The rate bound on the data path: what a run reserves on a link between two states obeys the pacer's bound in any window. */
  lemma RateIsBounded(states: seq<Net>, steps: seq<Step>, clock: seq<int>, k: nat, i: nat, j: nat)
    returns (arrivals: seq<Shaper.Arrival>)
    requires IsRun(states, steps) && Timed(steps, clock) && i <= j <= |steps| && k < |states[i].pacers|
    ensures k < |states[j].pacers| && Through(states[i].pacers[k].link, states[j].pacers[k].link, arrivals)
    ensures forall a, b :: a <= b ==>
              var ds := Shaper.Departures(states[i].pacers[k].link, arrivals);
              var last := Shaper.LastIn(ds, a, b);
              Shaper.WindowTime(ds, a, b)
              <= (b - a) + states[i].pacers[k].link.maxBacklog + if last < 0 then 0 else ds[last].tx
  {
    arrivals := LinkRuns(states, steps, clock, k, i, j);
    forall a, b | a <= b
      ensures var ds := Shaper.Departures(states[i].pacers[k].link, arrivals);
        var last := Shaper.LastIn(ds, a, b);
        Shaper.WindowTime(ds, a, b)
        <= (b - a) + states[i].pacers[k].link.maxBacklog + if last < 0 then 0 else ds[last].tx
    {
      Shaper.WindowIsBounded(states[i].pacers[k].link, arrivals, a, b);
    }
  }
}
