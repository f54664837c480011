/**
  The endpoint as the program runs it: its fields are updated in place, and each
  method is proved against the step functions of Endpoint.
 */
module FaultEndpoint {
  import opened Options
  import opened Conversations
  import opened FlowId
  import Shaper
  import opened Endpoint
  import opened Closing
  import opened Reordering
  import Pacing

  lemma PathSnoc(states: seq<Net>, steps: seq<Step>, step: Step)
    requires IsPath(states, steps) && Enabled(states[|steps|], step)
    ensures IsPath(states + [After(states[|steps|], step)], steps + [step])
  {
  }

  lemma PathCons(n: Net, step: Step, states: seq<Net>, steps: seq<Step>)
    requires IsPath(states, steps) && Enabled(n, step) && After(n, step) == states[0]
    ensures IsPath([n] + states, [step] + steps)
  {
    var all, taken := [n] + states, [step] + steps;
    forall i | 0 <= i < |taken| ensures Enabled(all[i], taken[i]) && all[i + 1] == After(all[i], taken[i]) {
      if i > 0 {
        assert all[i] == states[i - 1] && taken[i] == steps[i - 1];
      }
    }
  }

  lemma {:induction false} PathJoin(a: seq<Net>, s: seq<Step>, b: seq<Net>, t: seq<Step>)
    requires IsPath(a, s) && IsPath(b, t) && a[|s|] == b[0]
    ensures IsPath(a + b[1..], s + t) && (a + b[1..])[0] == a[0] && (a + b[1..])[|s + t|] == b[|t|]
  {
    if |t| == 0 {
      assert a + b[1..] == a && s + t == s;
    } else {
      PathJoin(a, s, b[..|t|], t[..|t| - 1]);
      assert a + b[..|t|][1..] + [b[|t|]] == a + b[1..];
      assert s + t[..|t| - 1] + [t[|t| - 1]] == s + t;
      PathSnoc(a + b[..|t|][1..], s + t[..|t| - 1], t[|t| - 1]);
    }
  }

  function HandleAll(n: Net, hs: seq<Handling>): Net {
    if |hs| == 0 then n else Handle(HandleAll(n, hs[..|hs| - 1]), hs[|hs| - 1])
  }

  // The copies asked for so far, with those of one more handled packet.
  ghost function OwedAfter(owed: multiset<nat>, n: Net, h: Handling): multiset<nat> {
    owed[h.packet.id := owed[h.packet.id] + Copies(n, h)]
  }

  ghost function OwedAfterAll(owed: multiset<nat>, n: Net, hs: seq<Handling>): multiset<nat> {
    if |hs| == 0 then owed
    else OwedAfter(OwedAfterAll(owed, n, hs[..|hs| - 1]), HandleAll(n, hs[..|hs| - 1]), hs[|hs| - 1])
  }

  // Every copy asked for is accounted for, and every reference taken is given back or still needed.
  ghost predicate Balanced(n: Net, owed: multiset<nat>) {
    forall id: nat :: Placed(n, id) == owed[id] && Debt(n, id) == 0
  }

  lemma HandleBalances(n: Net, h: Handling, owed: multiset<nat>)
    requires Balanced(n, owed)
    ensures Balanced(Handle(n, h), OwedAfter(owed, n, h))
  {
    HandlePlaces(n, h);
    var m, more := Handle(n, h), OwedAfter(owed, n, h);
    forall id: nat ensures Placed(m, id) == more[id] && Debt(m, id) == 0 {
      assert Placed(m, id) == Placed(n, id) + Times(Copies(n, h), h.packet.id, id) && Debt(m, id) == Debt(n, id);
    }
  }

  lemma UnchangedBalances(n: Net, m: Net, x: nat, owed: multiset<nat>)
    requires Balanced(n, owed) && Places(n, m, x, 0)
    ensures Balanced(m, owed)
  {
    forall id: nat ensures Placed(m, id) == owed[id] && Debt(m, id) == 0 {
      assert Placed(m, id) == Placed(n, id) + Times(0, x, id) && Debt(m, id) == Debt(n, id);
    }
  }

  /** With nothing waiting, the copies sent or dropped by the pacer are those asked for, and all references are back. */
  lemma SettledAccounts(n: Net, owed: multiset<nat>)
    requires Balanced(n, owed) && n.held == map[] && n.queue == [] && n.open == {} && Within(n.buffered, n.open)
    ensures multiset(n.out) + n.paceDropped == owed && n.taken == n.given
  {
    forall id: nat ensures multiset(n.out)[id] + n.paceDropped[id] == owed[id] && n.taken[id] == n.given[id] {
      NothingWaits(n, id);
      assert Placed(n, id) == owed[id];
    }
  }

  // The lists of the open batches are what the model keeps in one sequence.
  ghost predicate Lists(lists: map<nat, seq<nat>>, buffered: seq<(nat, nat)>) {
    Within(buffered, lists.Keys) && forall b :: b in lists ==> lists[b] == ListOf(buffered, b)
  }

  lemma PushKeepsLists(lists: map<nat, seq<nat>>, buffered: seq<(nat, nat)>, b: nat, id: nat)
    requires Lists(lists, buffered) && b in lists
    ensures Lists(lists[b := lists[b] + [id]], buffered + [(b, id)])
  {
    forall c | c in lists ensures lists[b := lists[b] + [id]][c] == ListOf(buffered + [(b, id)], c) {
      ListSnoc(buffered, (b, id), c);
    }
  }

  lemma OpenKeepsLists(lists: map<nat, seq<nat>>, buffered: seq<(nat, nat)>, b: nat)
    requires Lists(lists, buffered) && b !in lists
    ensures Lists(lists[b := []], buffered)
  {
    SealedIsEmpty(buffered, lists.Keys, b);
  }

  lemma SealKeepsLists(lists: map<nat, seq<nat>>, buffered: seq<(nat, nat)>, b: nat)
    requires Lists(lists, buffered)
    ensures Lists(lists - {b}, OfBatch(buffered, b, false))
  {
    SealedWithin(buffered, lists.Keys, b);
    forall c | c in lists && c != b ensures lists[c] == ListOf(OfBatch(buffered, b, false), c) {
      OtherBatchesKept(buffered, b, c);
    }
  }

  /**
    The endpoint. `lists` are the packets of each open batch; the ghost fields log what was
    asked for, released, dropped by the pacer, and the references taken and given back.
   */
  class DataPath {
    var pacers: seq<Pacer>
    var c2s: Option<nat>
    var s2c: Option<nat>
    var stopped: bool
    var queueStopped: bool
    var held: map<string, Held>
    var queue: seq<Deferred>
    var lists: map<nat, seq<nat>>
    var out: seq<nat>
    ghost var buffered: seq<(nat, nat)>
    ghost var released: seq<nat>
    ghost var paceDropped: multiset<nat>
    ghost var taken: multiset<nat>
    ghost var given: multiset<nat>
    ghost var owed: multiset<nat>

    ghost function View(): Net
      reads this
    {
      Net(pacers, c2s, s2c, stopped, queueStopped, held, queue, lists.Keys, buffered, out, released, paceDropped, taken, given)
    }

    // Between packets: the batch lists are in order and every copy and reference is accounted for.
    ghost predicate Valid()
      reads this
    {
      Lists(lists, buffered) && Balanced(View(), owed)
    }

    constructor ()
      ensures Initial(View()) && owed == multiset{} && Valid()
    {
      pacers, c2s, s2c, stopped, queueStopped := [], None, None, false, false;
      held, queue, lists, out := map[], [], map[], [];
      buffered, released, paceDropped, taken, given, owed := [], [], multiset{}, multiset{}, multiset{}, multiset{};
      new;
      forall id: nat ensures Placed(View(), id) == 0 && Debt(View(), id) == 0 {
        NothingHeld(id);
      }
    }

    method Send(p: Packet, sink: Sink)
      requires Lists(lists, buffered)
      modifies this`out, this`taken, this`given, this`lists, this`buffered
      ensures View() == Forward(old(View()), p, sink) && Lists(lists, buffered)
    {
      if sink.Stack? {
        out := out + [p.id];
      } else {
        SendInto(sink.id, p);
      }
    }

    // The release callback of a batch, before and after it is sealed.
    method SendInto(b: nat, p: Packet)
      requires Lists(lists, buffered)
      modifies this`out, this`taken, this`given, this`lists, this`buffered
      ensures View() == Forward(old(View()), p, Batch(b)) && Lists(lists, buffered)
    {
      if b in lists {
        Push(b, p.id);
      } else {
        WriteDown(p.id);
      }
    }

    // Appends to an open batch, under a reference of its own.
    method Push(b: nat, id: nat)
      requires Lists(lists, buffered) && b in lists
      modifies this`lists, this`buffered, this`taken
      ensures lists.Keys == old(lists.Keys) && buffered == old(buffered) + [(b, id)] && Lists(lists, buffered)
      ensures taken == old(taken) + multiset{id}
    {
      PushKeepsLists(lists, buffered, b, id);
      lists := lists[b := lists[b] + [id]];
      buffered := buffered + [(b, id)];
      taken := taken + multiset{id};
    }

    // Writes a single packet in a list of its own.
    method WriteDown(id: nat)
      modifies this`out, this`taken, this`given
      ensures out == old(out) + [id] && taken == old(taken) + multiset{id} && given == old(given) + multiset{id}
    {
      taken := taken + multiset{id};
      out := out + [id];
      given := given + multiset{id};
    }

    // Follows the pacer's verdict.
    method Place(p: Packet, sink: Sink, verdict: Shaper.Verdict, now: int)
      requires Lists(lists, buffered)
      modifies this
      ensures View() == Placing(old(View()), p, sink, verdict, now) && Lists(lists, buffered) && owed == old(owed)
    {
      if verdict.Dropped? {
        paceDropped := paceDropped + multiset{p.id};
      } else if verdict.wait <= 0 {
        Send(p, sink);
      } else {
        DeferPacket(p, sink, now + verdict.wait);
      }
    }

    method DeferPacket(p: Packet, sink: Sink, due: int)
      requires Lists(lists, buffered)
      modifies this
      ensures View() == Defer(old(View()), p, sink, due) && Lists(lists, buffered) && owed == old(owed)
    {
      taken := taken + multiset{p.id};
      assert View() == Take(old(View()), p);
      if queueStopped {
        SendHeld(p, sink);
      } else {
        queue := queue + [Reserved(p, sink, due)];
      }
    }

    // Sends a packet for which a reference is held, and gives the reference back.
    method SendHeld(p: Packet, sink: Sink)
      requires Lists(lists, buffered)
      modifies this
      ensures View() == GiveBack(Forward(old(View()), p, sink), p) && Lists(lists, buffered) && owed == old(owed)
    {
      Send(p, sink);
      ghost var sent := View();
      given := given + multiset{p.id};
      assert View() == GiveBack(sent, p);
    }

    // Reserves link time for a packet and places it.
    method PacePacket(p: Packet, route: Route, now: int)
      requires Lists(lists, buffered)
      modifies this
      ensures View() == Release(old(View()), p, route, now) && Lists(lists, buffered) && owed == old(owed)
    {
      released := released + [p.id];
      if route.pacer.None? || route.pacer.value >= |pacers| {
        Place(p, route.sink, Shaper.Admitted(0), now);
        return;
      }
      var k := route.pacer.value;
      var (pacer, verdict) := Reserve(pacers[k], p.size, now);
      pacers := pacers[k := pacer];
      Place(p, route.sink, verdict, now);
    }

    // The release callback of a handled packet.
    method ReleasePacket(p: Packet, route: Route, now: int)
      requires Lists(lists, buffered)
      modifies this
      ensures View() == Release(old(View()), p, route, now) && Lists(lists, buffered) && owed == old(owed)
      ensures Pacing.Outcome(old(View()), View(), p, route.sink, route.pacer, now)
    {
      Pacing.ReleaseOutcome(View(), p, route, now);
      PacePacket(p, route, now);
    }

    // Releases a packet for which a reference is held, and gives the reference back.
    method ReleaseHeld(p: Packet, route: Route, now: int)
      requires Lists(lists, buffered)
      modifies this
      ensures View() == GiveBack(Release(old(View()), p, route, now), p) && Lists(lists, buffered) && owed == old(owed)
    {
      PacePacket(p, route, now);
      given := given + multiset{p.id};
    }

    method AdvanceHold(flow: string) returns (due: Option<Held>)
      modifies this`held
      ensures held == Advanced(old(held), flow) && due == DueHeld(old(held), flow)
    {
      if flow !in held {
        return None;
      }
      var h := held[flow].(remaining := held[flow].remaining - 1);
      if h.remaining > 0 {
        held := held[flow := h];
        return None;
      }
      due := Some(held[flow]);
      held := held - {flow};
    }

    method ReleaseCopies(p: Packet, route: Route, now: int, count: int)
      requires Lists(lists, buffered)
      modifies this
      ensures View() == ReleaseTimes(old(View()), p, route, now, count) && Lists(lists, buffered) && owed == old(owed)
    {
      var i := 0;
      while i < count
        invariant 0 <= i && (i <= count || i == 0)
        invariant View() == ReleaseTimes(old(View()), p, route, now, i) && Lists(lists, buffered) && owed == old(owed)
      {
        PacePacket(p, route, now);
        i := i + 1;
      }
    }

    method DelayPacket(h: Handling, route: Route)
      requires Lists(lists, buffered) && h.flow.Some? && h.verdict.Delay? && route == RouteOf(View(), h)
      modifies this
      ensures View() == Act(old(View()), h) && Lists(lists, buffered) && owed == old(owed)
    {
      taken := taken + multiset{h.packet.id};
      if queueStopped {
        ReleaseHeld(h.packet, route, h.now);
      } else {
        queue := queue + [Delayed(h.packet, route, h.now + h.verdict.delay)];
      }
    }

    method HoldPacket(h: Handling, route: Route)
      requires Lists(lists, buffered) && h.flow.Some? && h.verdict.Reorder? && route == RouteOf(View(), h)
      modifies this
      ensures View() == Act(old(View()), h) && Lists(lists, buffered) && owed == old(owed)
    {
      taken := taken + multiset{h.packet.id};
      assert View() == Take(old(View()), h.packet);
      if h.flow.value in held {
        ReleaseHeld(h.packet, route, h.now);
      } else {
        held := held[h.flow.value := Held(h.verdict.count, h.packet, route)];
      }
    }

    method ActOn(h: Handling)
      requires h.flow.Some? && Lists(lists, buffered)
      modifies this
      ensures View() == Act(old(View()), h) && Lists(lists, buffered) && owed == old(owed)
    {
      var route := if h.dir.C2S? then Route(Stack, c2s) else Route(Batch(h.batch), s2c);
      match h.verdict {
        case Drop =>
        case Reset =>
        case Delay(_) => DelayPacket(h, route);
        case Duplicate(count) => ReleaseCopies(h.packet, route, h.now, count);
        case Reorder(_) => HoldPacket(h, route);
        case _ => PacePacket(h.packet, route, h.now);
      }
    }

    method RunPipeline(h: Handling)
      requires Lists(lists, buffered)
      modifies this
      ensures View() == Handle(old(View()), h) && Lists(lists, buffered) && owed == old(owed)
    {
      if !h.rules || stopped || h.flow.None? {
        var route := if h.dir.C2S? then Route(Stack, c2s) else Route(Batch(h.batch), s2c);
        ReleasePacket(h.packet, route, h.now);
        return;
      }
      var due := AdvanceHold(h.flow.value);
      ActOn(h);
      if due.Some? {
        ReleaseHeld(due.value.packet, due.value.route, h.now);
      }
    }

    /** Runs one packet through the rule pipeline. It is accounted for as often as its verdict asks. */
    method HandlePacket(h: Handling)
      requires Valid()
      modifies this
      ensures View() == Handle(old(View()), h) && Valid()
      ensures owed == OwedAfter(old(owed), old(View()), h)
    {
      HandleBalances(View(), h, owed);
      RunPipeline(h);
      owed := OwedAfter(owed, old(View()), h);
    }

    /** Handles a packet under the identifier computed from its endpoints. */
    method Deliver(p: Packet, dir: Direction, batch: nat, rules: bool, parsed: Option<Addressed>, verdict: Verdict, now: int)
      returns (h: Handling)
      requires Valid() && (parsed.Some? ==> parsed.value.srcPort < 0x1_0000 && parsed.value.dstPort < 0x1_0000)
      modifies this
      ensures Filed(h) && h.packet == p && h.parsed == parsed && h.verdict == verdict
      ensures View() == Handle(old(View()), h) && Valid() && owed == OwedAfter(old(owed), old(View()), h)
    {
      var flow: Option<string> := None;
      if parsed.Some? {
        var text := BuildFlow(Rendered(parsed.value));
        flow := Some(text);
      }
      h := Handling(p, dir, batch, rules, parsed, flow, verdict, now);
      HandlePacket(h);
    }

    method OpenBatch(b: nat)
      requires Valid() && b !in lists
      modifies this`lists
      ensures View() == old(View()).(open := old(lists.Keys) + {b}) && Valid() && b in lists
    {
      ghost var start := View().(open := lists.Keys + {b});
      OpenKeepsLists(lists, buffered, b);
      NothingMoves(View(), start);
      UnchangedBalances(View(), start, 0, owed);
      lists := lists[b := []];
      assert View() == start;
    }

    method HandleList(hs: seq<Handling>)
      requires Valid()
      modifies this
      ensures View() == HandleAll(old(View()), hs) && owed == OwedAfterAll(old(owed), old(View()), hs)
      ensures Valid() && lists.Keys == old(lists.Keys)
    {
      for i := 0 to |hs|
        invariant View() == HandleAll(old(View()), hs[..i]) && owed == OwedAfterAll(old(owed), old(View()), hs[..i])
        invariant Valid() && lists.Keys == old(lists.Keys)
      {
        assert hs[..i + 1][..i] == hs[..i];
        HandleKeepsBatches(View(), hs[i]);
        HandlePacket(hs[i]);
      }
      assert hs[..|hs|] == hs;
    }

    /** Handles a list of packets into a new batch, which is sealed on return. */
    method WritePackets(b: nat, hs: seq<Handling>) returns (n: nat)
      requires Valid() && b !in lists
      modifies this
      ensures n == |hs| && Valid() && lists.Keys == old(lists.Keys)
      ensures var start := old(View()).(open := old(lists.Keys) + {b});
        View() == Seal(HandleAll(start, hs), b) && owed == OwedAfterAll(old(owed), start, hs)
    {
      OpenBatch(b);
      HandleList(hs);
      SealBatch(b);
      n := |hs|;
    }

    /** Writes a batch's own packets in the order they were released, each once, and gives their references back. */
    method SealBatch(b: nat)
      requires Valid() && b in lists
      modifies this
      ensures out == old(out) + old(lists[b]) && given == old(given) + multiset(old(lists[b]))
      ensures lists == old(lists) - {b} && View() == Seal(old(View()), b)
      ensures Valid() && owed == old(owed)
    {
      SealKeepsLists(lists, buffered, b);
      SealPlaces(View(), b);
      UnchangedBalances(View(), Seal(View(), b), 0, owed);
      var list := lists[b];
      lists := lists - {b};
      buffered := OfBatch(buffered, b, false);
      WriteList(list);
    }

    method WriteList(list: seq<nat>)
      modifies this`out, this`given
      ensures out == old(out) + list && given == old(given) + multiset(list)
    {
      for i := 0 to |list|
        invariant out == old(out) + list[..i] && given == old(given) + multiset(list[..i])
      {
        assert list[..i + 1] == list[..i] + [list[i]];
        out := out + [list[i]];
        given := given + multiset{list[i]};
      }
      assert list[..|list|] == list;
    }

    /** Runs the queue's first callback. */
    method FireFirst(now: int)
      requires Valid() && |queue| > 0
      modifies this
      ensures View() == Fire(old(View()), 0, now) && Valid() && owed == old(owed) && lists.Keys == old(lists.Keys)
    {
      FirePlaces(View(), 0, now);
      UnchangedBalances(View(), Fire(View(), 0, now), queue[0].packet.id, owed);
      FireKeepsBatches(View(), 0, now);
      RunFirst(now);
    }

    method RunFirst(now: int)
      requires |queue| > 0 && Lists(lists, buffered)
      modifies this
      ensures View() == Fire(old(View()), 0, now) && Lists(lists, buffered) && owed == old(owed)
    {
      var d := queue[0];
      assert queue[..0] + queue[1..] == queue[1..];
      queue := queue[1..];
      if d.Delayed? {
        ReleaseHeld(d.packet, d.route, now);
      } else {
        SendHeld(d.packet, d.sink);
      }
    }

    method DrainOne(flow: string, now: int)
      requires Valid() && flow in held
      modifies this
      ensures View() == Drain(old(View()), flow, now) && Valid() && owed == old(owed) && lists.Keys == old(lists.Keys)
    {
      DrainPlaces(View(), flow, now);
      UnchangedBalances(View(), Drain(View(), flow, now), held[flow].packet.id, owed);
      ReleaseKeepsBatches(View().(held := held - {flow}), held[flow].packet, held[flow].route, now);
      RunHeld(flow, now);
    }

    method RunHeld(flow: string, now: int)
      requires flow in held && Lists(lists, buffered)
      modifies this
      ensures View() == Drain(old(View()), flow, now) && Lists(lists, buffered) && owed == old(owed)
    {
      var h := held[flow];
      held := held - {flow};
      ReleaseHeld(h.packet, h.route, now);
    }

    method DrainAll(now: int) returns (ghost states: seq<Net>, ghost steps: seq<Step>)
      requires Valid() && stopped
      modifies this
      ensures IsPath(states, steps) && OnlyFinishes(steps) && states[0] == old(View()) && states[|steps|] == View()
      ensures Valid() && owed == old(owed) && lists.Keys == old(lists.Keys) && stopped && held == map[]
    {
      states, steps := [View()], [];
      while held != map[]
        invariant stopped && IsPath(states, steps) && OnlyFinishes(steps)
        invariant states[0] == old(View()) && states[|steps|] == View()
        invariant Valid() && owed == old(owed) && lists.Keys == old(lists.Keys)
        decreases held.Keys
      {
        assert held.Keys != {};
        var flow :| flow in held.Keys;
        PathSnoc(states, steps, Drains(flow, now));
        DrainOne(flow, now);
        states, steps := states + [View()], steps + [Drains(flow, now)];
      }
    }

    method FlushQueue(now: int) returns (ghost states: seq<Net>, ghost steps: seq<Step>)
      requires Valid() && stopped && queueStopped && held == map[]
      modifies this
      ensures IsPath(states, steps) && OnlyFinishes(steps) && states[0] == old(View()) && states[|steps|] == View()
      ensures Valid() && owed == old(owed) && lists.Keys == old(lists.Keys)
      ensures stopped && queueStopped && held == map[] && queue == []
    {
      states, steps := [View()], [];
      while |queue| > 0
        invariant stopped && queueStopped && held == map[]
        invariant IsPath(states, steps) && OnlyFinishes(steps) && states[0] == old(View()) && states[|steps|] == View()
        invariant Valid() && owed == old(owed) && lists.Keys == old(lists.Keys)
        decreases |queue|
      {
        PathSnoc(states, steps, Fires(0, now));
        StoppedQueueShrinks(View(), 0, now);
        FireFirst(now);
        states, steps := states + [View()], steps + [Fires(0, now)];
      }
    }

    // Refuses further rule handling, then empties the reorder buffer.
    method StopHolding(now: int) returns (ghost states: seq<Net>, ghost steps: seq<Step>)
      requires Valid() && !stopped
      modifies this
      ensures IsPath(states, steps) && OnlyFinishes(steps) && states[0] == old(View()) && states[|steps|] == View()
      ensures Valid() && owed == old(owed) && lists.Keys == old(lists.Keys) && stopped && held == map[]
    {
      ghost var before, step := View(), CloseBegins;
      StepPlaces(before, step);
      UnchangedBalances(before, After(before, step), 0, owed);
      stopped := true;
      assert View() == After(before, step);
      ghost var more, taken' := DrainAll(now);
      PathCons(before, step, more, taken');
      states, steps := [before] + more, [step] + taken';
    }

    // Refuses further callbacks, then runs those that wait.
    method StopQueue(now: int) returns (ghost states: seq<Net>, ghost steps: seq<Step>)
      requires Valid() && stopped && held == map[]
      modifies this
      ensures IsPath(states, steps) && OnlyFinishes(steps) && states[0] == old(View()) && states[|steps|] == View()
      ensures Valid() && owed == old(owed) && lists.Keys == old(lists.Keys)
      ensures stopped && queueStopped && held == map[] && queue == []
    {
      ghost var before, step := View(), QueueStops;
      StepPlaces(before, step);
      UnchangedBalances(before, After(before, step), 0, owed);
      queueStopped := true;
      assert View() == After(before, step);
      ghost var more, taken' := FlushQueue(now);
      PathCons(before, step, more, taken');
      states, steps := [before] + more, [step] + taken';
    }

    /**
      Drains the reorder buffer, then stops and flushes the queue. With no batch open, every
      copy asked for has then been sent or dropped by the pacer and every reference given
      back. The steps taken are returned.
     */
    method Close(now: int) returns (ghost states: seq<Net>, ghost steps: seq<Step>)
      requires Valid()
      modifies this
      ensures IsPath(states, steps) && OnlyFinishes(steps) && states[0] == old(View()) && states[|steps|] == View()
      ensures Valid() && owed == old(owed) && lists.Keys == old(lists.Keys)
      ensures old(stopped) ==> View() == old(View())
      ensures !old(stopped) ==> stopped && queueStopped && held == map[] && queue == []
      ensures !old(stopped) && old(lists) == map[] ==> multiset(out) + paceDropped == owed && taken == given
    {
      states, steps := [View()], [];
      if stopped {
        return;
      }
      states, steps := StopHolding(now);
      ghost var more, taken' := StopQueue(now);
      PathJoin(states, steps, more, taken');
      states, steps := states + more[1..], steps + taken';
      if lists == map[] {
        SettledAccounts(View(), owed);
      }
    }
  }
}
