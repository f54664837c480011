/**
  The packet data path: the rule verdicts, the per-conversation reorder buffer, the
  bandwidth pacer, the deadline queue and the egress batches. Callbacks are data: what
  a deferred release still has to do, and when it is due. A queued callback may fire at any
  time from then on, in any order, which covers every order the deadline queue can release
  in. Handling a packet, firing a callback and sealing a batch are single steps; closing
  does not overlap handling.
 */
module Endpoint {
  import opened Options
  import opened Conversations
  import Shaper

  datatype Packet = Packet(id: nat, size: int)

  // Where a released packet goes: up into the local stack, or into an egress batch.
  datatype Sink = Stack | Batch(id: nat)

  // The release callback of one handled packet: its sink behind the pacer installed then.
  datatype Route = Route(sink: Sink, pacer: Option<nat>)

  // `tx` gives the transmission time of a packet size at this pacer's rate.
  datatype Pacer = Pacer(link: Shaper.Link, tx: int -> nat)

  // A queued callback: release the packet through the pacer, or straight to its sink, when due.
  datatype Deferred = Delayed(packet: Packet, route: Route, due: int) | Reserved(packet: Packet, sink: Sink, due: int)

  datatype Held = Held(remaining: int, packet: Packet, route: Route)

  datatype Verdict =
    NoRule | Pass | Drop | Delay(delay: int) | Duplicate(count: int) | Reorder(count: int) | Corrupt | Reset | Window

  datatype Direction = C2S | S2C

  datatype Net = Net(
    pacers: seq<Pacer>,           // every pacer ever installed
    c2s: Option<nat>,
    s2c: Option<nat>,
    stopped: bool,
    queueStopped: bool,
    held: map<string, Held>,
    queue: seq<Deferred>,
    open: set<nat>,               // batches not yet sealed
    buffered: seq<(nat, nat)>,    // (batch, packet) waiting for its batch to be sealed
    out: seq<nat>,                // packets sent onward
    released: seq<nat>,           // packets handed to their release callback
    paceDropped: multiset<nat>,
    taken: multiset<nat>,         // references taken
    given: multiset<nat>)         // references given back

  // Sends a packet to its sink. A sealed batch writes it on its own.
  function Forward(n: Net, p: Packet, sink: Sink): Net {
    if sink.Batch? && sink.id in n.open then
      n.(buffered := n.buffered + [(sink.id, p.id)], taken := n.taken + multiset{p.id})
    else if sink.Batch? then
      n.(out := n.out + [p.id], taken := n.taken + multiset{p.id}, given := n.given + multiset{p.id})
    else
      n.(out := n.out + [p.id])
  }

  function Reserve(pacer: Pacer, size: int, now: int): (Pacer, Shaper.Verdict) {
    var (link, verdict) := Shaper.Admit(pacer.link, Shaper.Arrival(size, pacer.tx(size), now));
    (pacer.(link := link), verdict)
  }

  // The release callback: reserve link time, then forward now or queue.
  function Release(before: Net, p: Packet, route: Route, now: int): (after: Net)
    ensures after.held == before.held && after.released == before.released + [p.id]
    ensures after.stopped == before.stopped && after.queueStopped == before.queueStopped
    ensures before.queueStopped ==> after.queue == before.queue
  {
    var n := before.(released := before.released + [p.id]);
    if Unpaced(n, route) then Placing(n, p, route.sink, Shaper.Admitted(0), now)
    else Placing(Charge(n, route, p.size, now), p, route.sink, Reserve(n.pacers[route.pacer.value], p.size, now).1, now)
  }

  predicate Unpaced(n: Net, route: Route) {
    route.pacer.None? || route.pacer.value >= |n.pacers|
  }

  function Charge(n: Net, route: Route, size: int, now: int): Net
    requires !Unpaced(n, route)
  {
    n.(pacers := n.pacers[route.pacer.value := Reserve(n.pacers[route.pacer.value], size, now).0])
  }

  function Placing(n: Net, p: Packet, sink: Sink, verdict: Shaper.Verdict, now: int): (after: Net)
    ensures after.held == n.held && after.released == n.released
    ensures after.stopped == n.stopped && after.queueStopped == n.queueStopped
    ensures n.queueStopped ==> after.queue == n.queue
  {
    match verdict
    case Dropped => n.(paceDropped := n.paceDropped + multiset{p.id})
    case Admitted(wait) => if wait <= 0 then Forward(n, p, sink) else Defer(n, p, sink, now + wait)
  }

  // Takes a reference and schedules the callback; a stopped queue refuses and it runs at once.
  function Defer(n: Net, p: Packet, sink: Sink, due: int): Net {
    if n.queueStopped then GiveBack(Forward(Take(n, p), p, sink), p)
    else Take(n, p).(queue := n.queue + [Reserved(p, sink, due)])
  }

  function Take(n: Net, p: Packet): Net {
    n.(taken := n.taken + multiset{p.id})
  }

  function GiveBack(n: Net, p: Packet): Net {
    n.(given := n.given + multiset{p.id})
  }

  function ReleaseTimes(n: Net, p: Packet, route: Route, now: int, times: int): (after: Net)
    ensures after.held == n.held && after.stopped == n.stopped
    decreases times
  {
    if times <= 0 then n else Release(ReleaseTimes(n, p, route, now, times - 1), p, route, now)
  }

  // --------------------------------------------------------------- handling a packet

  // `rules`: a non-empty rule set is installed; `parsed` and `flow`: the packet's endpoints and
  // the identifier of its conversation, when it parses.
  datatype Handling = Handling(packet: Packet, dir: Direction, batch: nat, rules: bool, parsed: Option<Addressed>,
                               flow: Option<string>, verdict: Verdict, now: int)

  function RouteOf(n: Net, h: Handling): Route {
    if h.dir.C2S? then Route(Stack, n.c2s) else Route(Batch(h.batch), n.s2c)
  }

  predicate Ruled(n: Net, h: Handling) {
    h.rules && !n.stopped && h.flow.Some?
  }

  // A packet of the conversation passes: the count goes down, and at zero the held packet is due.
  function Advanced(held: map<string, Held>, flow: string): map<string, Held> {
    if flow !in held then held
    else if held[flow].remaining - 1 > 0 then held[flow := held[flow].(remaining := held[flow].remaining - 1)]
    else held - {flow}
  }

  function DueHeld(held: map<string, Held>, flow: string): Option<Held> {
    if flow in held && held[flow].remaining - 1 <= 0 then Some(held[flow]) else None
  }

  function Act(n: Net, h: Handling): Net
    requires h.flow.Some?
  {
    var p, route := h.packet, RouteOf(n, h);
    match h.verdict
    case Drop => n
    case Reset => n
    case Delay(delay) =>
      var m := Take(n, p);
      if n.queueStopped then GiveBack(Release(m, p, route, h.now), p)
      else m.(queue := n.queue + [Delayed(p, route, h.now + delay)])
    case Duplicate(count) => ReleaseTimes(n, p, route, h.now, count)
    case Reorder(count) =>
      var m := Take(n, p);
      if h.flow.value in n.held then GiveBack(Release(m, p, route, h.now), p)
      else m.(held := n.held[h.flow.value := Held(count, p, route)])
    case _ => Release(n, p, route, h.now)
  }

  function Handle(n: Net, h: Handling): Net {
    if !Ruled(n, h) then Release(n, h.packet, RouteOf(n, h), h.now)
    else
      var due := DueHeld(n.held, h.flow.value);
      var m := Act(n.(held := Advanced(n.held, h.flow.value)), h);
      if due.None? then m else GiveBack(Release(m, due.value.packet, due.value.route, h.now), due.value.packet)
  }

  // How often the packet is to be sent onward.
  function Copies(n: Net, h: Handling): nat {
    if !Ruled(n, h) then 1
    else match h.verdict
      case Drop => 0
      case Reset => 0
      case Duplicate(count) => if count < 0 then 0 else count
      case _ => 1
  }

  // --------------------------------------------------------------- the other steps

  function Fire(n: Net, i: nat, now: int): Net
    requires i < |n.queue|
  {
    var d := n.queue[i];
    var m := n.(queue := n.queue[..i] + n.queue[i + 1..]);
    GiveBack(if d.Delayed? then Release(m, d.packet, d.route, now) else Forward(m, d.packet, d.sink), d.packet)
  }

  function OfBatch(entries: seq<(nat, nat)>, b: nat, mine: bool): seq<(nat, nat)> {
    if |entries| == 0 then []
    else OfBatch(entries[..|entries| - 1], b, mine)
         + if (entries[|entries| - 1].0 == b) == mine then [entries[|entries| - 1]] else []
  }

  function Ids(entries: seq<(nat, nat)>): seq<nat> {
    seq(|entries|, i requires 0 <= i < |entries| => entries[i].1)
  }

  // Seals a batch: its packets are written in order and their references given back.
  function Seal(n: Net, b: nat): Net {
    var mine := Ids(OfBatch(n.buffered, b, true));
    n.(open := n.open - {b}, buffered := OfBatch(n.buffered, b, false), out := n.out + mine,
       given := n.given + multiset(mine))
  }

  function Drain(n: Net, flow: string, now: int): Net
    requires flow in n.held
  {
    var h := n.held[flow];
    GiveBack(Release(n.(held := n.held - {flow}), h.packet, h.route, now), h.packet)
  }

  // --------------------------------------------------------------- counting

  ghost function One(id: nat, x: nat): nat {
    if id == x then 1 else 0
  }

  ghost function Times(extra: int, id: nat, x: nat): int {
    if id == x then extra else 0
  }

  ghost function Queued(queue: seq<Deferred>, id: nat): nat {
    if |queue| == 0 then 0 else Queued(queue[..|queue| - 1], id) + One(queue[|queue| - 1].packet.id, id)
  }

  ghost function HeldFor(held: map<string, Held>, id: nat): nat {
    |set f | f in held && held[f].packet.id == id|
  }

  ghost function Batched(entries: seq<(nat, nat)>, id: nat): nat {
    if |entries| == 0 then 0 else Batched(entries[..|entries| - 1], id) + One(entries[|entries| - 1].1, id)
  }

  // References that are still out: queued, held and batched packets.
  ghost function References(n: Net, id: nat): nat {
    Queued(n.queue, id) + HeldFor(n.held, id) + Batched(n.buffered, id)
  }

  ghost function Debt(n: Net, id: nat): int {
    n.taken[id] - n.given[id] - References(n, id)
  }

  // Copies of a packet that have been sent, wait somewhere, or were dropped by the pacer.
  ghost function Placed(n: Net, id: nat): nat {
    multiset(n.out)[id] + References(n, id) + n.paceDropped[id]
  }

  lemma SnocCounts(s: seq<nat>, x: nat, id: nat)
    ensures multiset(s + [x])[id] == multiset(s)[id] + One(x, id)
  {
  }

  lemma BatchedSnoc(entries: seq<(nat, nat)>, e: (nat, nat), id: nat)
    ensures Batched(entries + [e], id) == Batched(entries, id) + One(e.1, id)
  {
    assert (entries + [e])[..|entries|] == entries;
  }

  lemma {:induction false} IdsCounted(entries: seq<(nat, nat)>, id: nat)
    ensures multiset(Ids(entries))[id] == Batched(entries, id)
  {
    if |entries| > 0 {
      var init, last := entries[..|entries| - 1], entries[|entries| - 1];
      IdsCounted(init, id);
      assert Ids(entries) == Ids(init) + [last.1];
      SnocCounts(Ids(init), last.1, id);
    }
  }

  lemma QueuedSnoc(queue: seq<Deferred>, d: Deferred, id: nat)
    ensures Queued(queue + [d], id) == Queued(queue, id) + One(d.packet.id, id)
  {
    assert (queue + [d])[..|queue|] == queue;
  }

  lemma {:induction false} QueuedWithout(queue: seq<Deferred>, i: nat, id: nat)
    requires i < |queue|
    ensures Queued(queue, id) == Queued(queue[..i] + queue[i + 1..], id) + One(queue[i].packet.id, id)
  {
    var n := |queue| - 1;
    if i == n {
      assert queue[..i] + queue[i + 1..] == queue[..n];
    } else {
      var init := queue[..n];
      QueuedWithout(init, i, id);
      assert queue[..i] + queue[i + 1..] == (init[..i] + init[i + 1..]) + [queue[n]];
      QueuedSnoc(init[..i] + init[i + 1..], queue[n], id);
    }
  }

  lemma NothingHeld(id: nat)
    ensures HeldFor(map[], id) == 0
  {
    var none: map<string, Held> := map[];
    assert (set f | f in none && none[f].packet.id == id) == {};
  }

  lemma HeldPut(held: map<string, Held>, flow: string, h: Held, id: nat)
    requires flow !in held
    ensures HeldFor(held[flow := h], id) == HeldFor(held, id) + One(h.packet.id, id)
  {
    var more := held[flow := h];
    var before := set f | f in held && held[f].packet.id == id;
    var after := set f | f in more && more[f].packet.id == id;
    if h.packet.id == id {
      assert after == before + {flow};
    } else {
      assert after == before;
    }
  }

  lemma HeldTake(held: map<string, Held>, flow: string, id: nat)
    requires flow in held
    ensures HeldFor(held, id) == HeldFor(held - {flow}, id) + One(held[flow].packet.id, id)
  {
    HeldPut(held - {flow}, flow, held[flow], id);
    assert (held - {flow})[flow := held[flow]] == held;
  }

  lemma AdvancedCounts(held: map<string, Held>, flow: string, id: nat)
    ensures var due := DueHeld(held, flow);
      HeldFor(held, id) == HeldFor(Advanced(held, flow), id) + if due.Some? then One(due.value.packet.id, id) else 0
  {
    if flow in held {
      HeldTake(held, flow, id);
      if held[flow].remaining - 1 > 0 {
        var less := held[flow].(remaining := held[flow].remaining - 1);
        HeldPut(held - {flow}, flow, less, id);
        assert (held - {flow})[flow := less] == held[flow := less];
      }
    }
  }

  // --------------------------------------------------------------- every step places what it must

  // m accounts for `extra` more copies of the packet `x` than n, and owes the same references.
  ghost predicate Places(n: Net, m: Net, x: nat, extra: int) {
    forall id :: Placed(m, id) == Placed(n, id) + Times(extra, x, id) && Debt(m, id) == Debt(n, id)
  }

  lemma ForwardPlaces(n: Net, p: Packet, sink: Sink)
    ensures Places(n, Forward(n, p, sink), p.id, 1)
  {
    forall id ensures Placed(Forward(n, p, sink), id) == Placed(n, id) + One(p.id, id)
                      && Debt(Forward(n, p, sink), id) == Debt(n, id)
    {
      SnocCounts(n.out, p.id, id);
      if sink.Batch? {
        BatchedSnoc(n.buffered, (sink.id, p.id), id);
      }
    }
  }

  // A packet is queued under a reference of its own.
  lemma QueuePlaces(n: Net, p: Packet, d: Deferred)
    requires d.packet == p
    ensures Places(n, Take(n, p).(queue := n.queue + [d]), p.id, 1)
  {
    var m := Take(n, p).(queue := n.queue + [d]);
    forall id ensures Placed(m, id) == Placed(n, id) + One(p.id, id) && Debt(m, id) == Debt(n, id) {
      QueuedSnoc(n.queue, d, id);
    }
  }

  // A packet is held under a reference of its own.
  lemma HoldPlaces(n: Net, p: Packet, flow: string, h: Held)
    requires h.packet == p && flow !in n.held
    ensures Places(n, Take(n, p).(held := n.held[flow := h]), p.id, 1)
  {
    var m := Take(n, p).(held := n.held[flow := h]);
    forall id ensures Placed(m, id) == Placed(n, id) + One(p.id, id) && Debt(m, id) == Debt(n, id) {
      HeldPut(n.held, flow, h, id);
    }
  }

  // A reference taken and given back leaves the account to what happened in between.
  lemma BorrowedPlaces(n: Net, m: Net, p: Packet)
    requires Places(Take(n, p), m, p.id, 1)
    ensures Places(n, GiveBack(m, p), p.id, 1)
  {
    forall id ensures Placed(Take(n, p), id) == Placed(n, id) && Debt(Take(n, p), id) == Debt(n, id) + One(p.id, id) {
    }
    forall id ensures Placed(GiveBack(m, p), id) == Placed(m, id) && Debt(GiveBack(m, p), id) == Debt(m, id) - One(p.id, id) {
    }
  }

  lemma DeferPlaces(n: Net, p: Packet, sink: Sink, due: int)
    ensures Places(n, Defer(n, p, sink, due), p.id, 1)
  {
    if n.queueStopped {
      ForwardPlaces(Take(n, p), p, sink);
      BorrowedPlaces(n, Forward(Take(n, p), p, sink), p);
    } else {
      QueuePlaces(n, p, Reserved(p, sink, due));
    }
  }

  lemma PlacingPlaces(n: Net, p: Packet, sink: Sink, verdict: Shaper.Verdict, now: int)
    ensures Places(n, Placing(n, p, sink, verdict, now), p.id, 1)
  {
    match verdict {
      case Dropped =>
      case Admitted(wait) => if wait <= 0 { ForwardPlaces(n, p, sink); } else { DeferPlaces(n, p, sink, now + wait); }
    }
  }

  lemma ReleasePlaces(before: Net, p: Packet, route: Route, now: int)
    ensures Places(before, Release(before, p, route, now), p.id, 1)
  {
    var n := before.(released := before.released + [p.id]);
    if Unpaced(n, route) {
      PlacingPlaces(n, p, route.sink, Shaper.Admitted(0), now);
    } else {
      PlacingPlaces(Charge(n, route, p.size, now), p, route.sink, Reserve(n.pacers[route.pacer.value], p.size, now).1,
                    now);
    }
  }

  lemma {:induction false} ReleaseTimesPlaces(n: Net, p: Packet, route: Route, now: int, times: int)
    ensures Places(n, ReleaseTimes(n, p, route, now, times), p.id, if times < 0 then 0 else times)
    decreases times
  {
    if times > 0 {
      ReleaseTimesPlaces(n, p, route, now, times - 1);
      ReleasePlaces(ReleaseTimes(n, p, route, now, times - 1), p, route, now);
    }
  }

  // Releasing under a reference taken for the occasion.
  lemma BorrowedReleasePlaces(n: Net, p: Packet, route: Route, now: int)
    ensures Places(n, GiveBack(Release(Take(n, p), p, route, now), p), p.id, 1)
  {
    ReleasePlaces(Take(n, p), p, route, now);
    BorrowedPlaces(n, Release(Take(n, p), p, route, now), p);
  }

  lemma DelayPlaces(n: Net, h: Handling)
    requires Ruled(n, h) && h.verdict.Delay?
    ensures Places(n, Act(n, h), h.packet.id, 1)
  {
    if n.queueStopped {
      BorrowedReleasePlaces(n, h.packet, RouteOf(n, h), h.now);
    } else {
      QueuePlaces(n, h.packet, Delayed(h.packet, RouteOf(n, h), h.now + h.verdict.delay));
    }
  }

  lemma ReorderPlaces(n: Net, h: Handling)
    requires Ruled(n, h) && h.verdict.Reorder?
    ensures Places(n, Act(n, h), h.packet.id, 1)
  {
    if h.flow.value in n.held {
      BorrowedReleasePlaces(n, h.packet, RouteOf(n, h), h.now);
    } else {
      HoldPlaces(n, h.packet, h.flow.value, Held(h.verdict.count, h.packet, RouteOf(n, h)));
    }
  }

  lemma ActPlaces(n: Net, h: Handling)
    requires Ruled(n, h)
    ensures Places(n, Act(n, h), h.packet.id, Copies(n, h))
  {
    match h.verdict {
      case Drop =>
      case Reset =>
      case Delay(_) => DelayPlaces(n, h);
      case Duplicate(count) => ReleaseTimesPlaces(n, h.packet, RouteOf(n, h), h.now, count);
      case Reorder(_) => ReorderPlaces(n, h);
      case _ => ReleasePlaces(n, h.packet, RouteOf(n, h), h.now);
    }
  }

  /** Handling a packet accounts for exactly the copies its verdict asks for, and for no other packet. */
  lemma HandlePlaces(n: Net, h: Handling)
    ensures Places(n, Handle(n, h), h.packet.id, Copies(n, h))
  {
    if !Ruled(n, h) {
      ReleasePlaces(n, h.packet, RouteOf(n, h), h.now);
    } else {
      var due := DueHeld(n.held, h.flow.value);
      var a := n.(held := Advanced(n.held, h.flow.value));
      var m := Act(a, h);
      ActPlaces(a, h);
      if due.Some? {
        ReleasePlaces(m, due.value.packet, due.value.route, h.now);
      }
      forall id ensures Placed(Handle(n, h), id) == Placed(n, id) + Times(Copies(n, h), h.packet.id, id)
                        && Debt(Handle(n, h), id) == Debt(n, id)
      {
        AdvancedCounts(n.held, h.flow.value, id);
      }
    }
  }

  // A waiting copy is taken out, released and its reference given back.
  lemma MovedPlaces(n: Net, m: Net, r: Net, p: Packet)
    requires Places(m, r, p.id, 1)
    requires forall id :: Placed(n, id) == Placed(m, id) + One(p.id, id) && Debt(n, id) == Debt(m, id) - One(p.id, id)
    ensures Places(n, GiveBack(r, p), p.id, 0)
  {
    forall id ensures Placed(GiveBack(r, p), id) == Placed(r, id) && Debt(GiveBack(r, p), id) == Debt(r, id) - One(p.id, id) {
    }
  }

  lemma FirePlaces(n: Net, i: nat, now: int)
    requires i < |n.queue|
    ensures Places(n, Fire(n, i, now), n.queue[i].packet.id, 0)
  {
    var d := n.queue[i];
    var m := n.(queue := n.queue[..i] + n.queue[i + 1..]);
    forall id ensures Placed(n, id) == Placed(m, id) + One(d.packet.id, id)
                      && Debt(n, id) == Debt(m, id) - One(d.packet.id, id)
    {
      QueuedWithout(n.queue, i, id);
    }
    if d.Delayed? {
      ReleasePlaces(m, d.packet, d.route, now);
      MovedPlaces(n, m, Release(m, d.packet, d.route, now), d.packet);
    } else {
      ForwardPlaces(m, d.packet, d.sink);
      MovedPlaces(n, m, Forward(m, d.packet, d.sink), d.packet);
    }
  }

  lemma DrainPlaces(n: Net, flow: string, now: int)
    requires flow in n.held
    ensures Places(n, Drain(n, flow, now), n.held[flow].packet.id, 0)
  {
    var h := n.held[flow];
    var m := n.(held := n.held - {flow});
    forall id ensures Placed(n, id) == Placed(m, id) + One(h.packet.id, id)
                      && Debt(n, id) == Debt(m, id) - One(h.packet.id, id)
    {
      HeldTake(n.held, flow, id);
    }
    ReleasePlaces(m, h.packet, h.route, now);
    MovedPlaces(n, m, Release(m, h.packet, h.route, now), h.packet);
  }

  lemma {:induction false} OfBatchPartition(entries: seq<(nat, nat)>, b: nat, id: nat)
    ensures Batched(entries, id) == Batched(OfBatch(entries, b, true), id) + Batched(OfBatch(entries, b, false), id)
  {
    if |entries| > 0 {
      var init, last := entries[..|entries| - 1], entries[|entries| - 1];
      OfBatchPartition(init, b, id);
      assert entries == init + [last];
      BatchedSnoc(init, last, id);
      BatchedSnoc(OfBatch(init, b, true), last, id);
      BatchedSnoc(OfBatch(init, b, false), last, id);
      assert OfBatch(init, b, last.0 != b) + [] == OfBatch(init, b, last.0 != b);
    }
  }

  lemma SealPlaces(n: Net, b: nat)
    ensures Places(n, Seal(n, b), 0, 0)
  {
    var mine := Ids(OfBatch(n.buffered, b, true));
    forall id ensures Placed(Seal(n, b), id) == Placed(n, id) && Debt(Seal(n, b), id) == Debt(n, id) {
      OfBatchPartition(n.buffered, b, id);
      IdsCounted(OfBatch(n.buffered, b, true), id);
      assert multiset(n.out + mine)[id] == multiset(n.out)[id] + multiset(mine)[id];
    }
  }

  // --------------------------------------------------------------- whole runs

  datatype Step =
    | Handles(h: Handling)
    | Fires(i: nat, now: int)
    | Opens(b: nat)
    | Seals(b: nat)
    | SetsPacer(dir: Direction, pacer: Option<Pacer>)
    | CloseBegins
    | Drains(flow: string, now: int)
    | QueueStops

  ghost predicate Enabled(n: Net, step: Step) {
    match step
    case Fires(i, now) => i < |n.queue| && (n.queueStopped || n.queue[i].due <= now)
    case Drains(flow, _) => n.stopped && flow in n.held
    case QueueStops => n.stopped && n.held == map[]
    case _ => true
  }

  ghost function After(n: Net, step: Step): Net
    requires Enabled(n, step)
  {
    match step
    case Handles(h) => Handle(n, h)
    case Fires(i, now) => Fire(n, i, now)
    case Opens(b) => n.(open := n.open + {b})
    case Seals(b) => Seal(n, b)
    case SetsPacer(dir, pacer) =>
      var m := if pacer.Some? then n.(pacers := n.pacers + [pacer.value]) else n;
      var index := if pacer.Some? then Some(|n.pacers|) else None;
      if dir.C2S? then m.(c2s := index) else m.(s2c := index)
    case CloseBegins => n.(stopped := true)
    case Drains(flow, now) => Drain(n, flow, now)
    case QueueStops => n.(queueStopped := true)
  }

  ghost predicate Initial(n: Net) {
    && !n.stopped && !n.queueStopped && n.held == map[] && n.queue == [] && n.open == {} && n.buffered == []
    && n.out == [] && n.released == []
    && n.paceDropped == multiset{} && n.taken == multiset{} && n.given == multiset{}
  }

  ghost predicate IsRun(states: seq<Net>, steps: seq<Step>) {
    && |states| == |steps| + 1 && Initial(states[0])
    && forall i :: 0 <= i < |steps| ==> Enabled(states[i], steps[i]) && states[i + 1] == After(states[i], steps[i])
  }

  // The copies of a packet that the verdicts of the first i steps asked for.
  ghost function Owed(states: seq<Net>, steps: seq<Step>, i: nat, id: nat): nat
    requires |states| == |steps| + 1 && i <= |steps|
  {
    if i == 0 then 0
    else Owed(states, steps, i - 1, id)
         + if steps[i - 1].Handles? && steps[i - 1].h.packet.id == id then Copies(states[i - 1], steps[i - 1].h) else 0
  }

  lemma NothingMoves(n: Net, m: Net)
    requires n.out == m.out && n.queue == m.queue && n.held == m.held && n.buffered == m.buffered
    requires n.paceDropped == m.paceDropped && n.taken == m.taken && n.given == m.given
    ensures Places(n, m, 0, 0)
  {
  }

  lemma OtherStepPlaces(n: Net, step: Step)
    requires Enabled(n, step) && (step.Opens? || step.SetsPacer? || step.CloseBegins? || step.QueueStops?)
    ensures Places(n, After(n, step), 0, 0)
  {
    match step {
      case Opens(b) => NothingMoves(n, n.(open := n.open + {b}));
      case CloseBegins => NothingMoves(n, n.(stopped := true));
      case QueueStops => NothingMoves(n, n.(queueStopped := true));
      case SetsPacer(dir, pacer) => PacerMovesNothing(n, dir, pacer);
    }
  }

  lemma PacerMovesNothing(n: Net, dir: Direction, pacer: Option<Pacer>)
    ensures Places(n, After(n, SetsPacer(dir, pacer)), 0, 0)
  {
    NothingMoves(n, After(n, SetsPacer(dir, pacer)));
  }

  lemma StepPlaces(n: Net, step: Step)
    requires Enabled(n, step)
    ensures if step.Handles? then Places(n, After(n, step), step.h.packet.id, Copies(n, step.h))
            else Places(n, After(n, step), 0, 0)
  {
    match step {
      case Handles(h) => HandlePlaces(n, h);
      case Fires(i, now) => FirePlaces(n, i, now);
      case Seals(b) => SealPlaces(n, b);
      case Drains(flow, now) => DrainPlaces(n, flow, now);
      case _ => OtherStepPlaces(n, step);
    }
  }

  /**
    Conservation at every point of every run: the copies of a packet that were sent,
    wait in the queue, the reorder buffer or a batch, or were dropped by the pacer, are
    exactly those its verdicts asked for; and every reference taken was given back once
    or is still needed by a waiting copy.
   */
  lemma {:induction false} CopiesAreConserved(states: seq<Net>, steps: seq<Step>, i: nat, id: nat)
    requires IsRun(states, steps) && i <= |steps|
    ensures Placed(states[i], id) == Owed(states, steps, i, id) && Debt(states[i], id) == 0
  {
    if i > 0 {
      CopiesAreConserved(states, steps, i - 1, id);
      StepPlaces(states[i - 1], steps[i - 1]);
    } else {
      NothingHeld(id);
    }
  }
}
