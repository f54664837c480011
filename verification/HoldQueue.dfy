/**
  The queue of held syscall notifications and the scheduler that releases them in a
  chosen order. A notification is named by a number; sending a decision on its
  one-slot channel is a delivery. Every method holds the queue's mutex.
 */
module HoldQueue {
  import opened Permutations

  datatype Decision = Decision(allow: bool, errno: int)

  const ALLOW := Decision(true, 0)

  datatype Delivery = Delivery(notif: nat, decision: Decision)

  datatype Hold = Hold(pending: seq<nat>, closed: bool, delivered: seq<Delivery>)

  function Deliver(notifs: seq<nat>, d: Decision): seq<Delivery> {
    seq(|notifs|, i requires 0 <= i < |notifs| => Delivery(notifs[i], d))
  }

  // --------------------------------------------------------------- steps

  datatype Step =
    | Enqueue(notif: nat)
    | ReleaseOne(d: Decision)
    | ReleaseAll(d: Decision)
    | ReleaseByIndex(i: int, d: Decision)
    | Close

  function After(h: Hold, step: Step): Hold {
    match step
    case Enqueue(x) =>
      if h.closed then h.(delivered := h.delivered + [Delivery(x, ALLOW)]) else h.(pending := h.pending + [x])
    case ReleaseOne(d) =>
      if |h.pending| == 0 then h
      else h.(pending := h.pending[1..], delivered := h.delivered + [Delivery(h.pending[0], d)])
    case ReleaseAll(d) => h.(pending := [], delivered := h.delivered + Deliver(h.pending, d))
    case ReleaseByIndex(i, d) =>
      if i < 0 || i >= |h.pending| then h
      else h.(pending := Without(h.pending, i), delivered := h.delivered + [Delivery(h.pending[i], d)])
    case Close =>
      if h.closed then h else Hold([], true, h.delivered + Deliver(h.pending, ALLOW))
  }

  // Everything that ever entered, each in the place it is now.
  ghost function Present(h: Hold): multiset<nat> {
    multiset(h.pending) + multiset(Receivers(h.delivered))
  }

  function Receivers(ds: seq<Delivery>): seq<nat> {
    seq(|ds|, i requires 0 <= i < |ds| => ds[i].notif)
  }

  // Delivering notifications that leave the queue keeps everything present.
  lemma DeliveryConserves(h: Hold, moved: seq<nat>, left: seq<nat>, d: Decision, closed: bool)
    requires multiset(h.pending) == multiset(moved) + multiset(left)
    ensures Present(Hold(left, closed, h.delivered + Deliver(moved, d))) == Present(h)
  {
    assert Receivers(h.delivered + Deliver(moved, d)) == Receivers(h.delivered) + moved;
  }

  // No step loses, duplicates or invents a notification.
  lemma StepConserves(h: Hold, step: Step)
    ensures Present(After(h, step)) == Present(h) + if step.Enqueue? then multiset{step.notif} else multiset{}
  {
    match step {
      case Enqueue(x) => assert Receivers(h.delivered + [Delivery(x, ALLOW)]) == Receivers(h.delivered) + [x];
      case ReleaseOne(d) =>
        if |h.pending| > 0 {
          assert h.pending == [h.pending[0]] + h.pending[1..];
          DeliveryConserves(h, [h.pending[0]], h.pending[1..], d, h.closed);
          assert Deliver([h.pending[0]], d) == [Delivery(h.pending[0], d)];
        }
      case ReleaseAll(d) => DeliveryConserves(h, h.pending, [], d, h.closed);
      case ReleaseByIndex(i, d) =>
        if 0 <= i < |h.pending| {
          WithoutCounts(h.pending, i);
          DeliveryConserves(h, [h.pending[i]], Without(h.pending, i), d, h.closed);
          assert Deliver([h.pending[i]], d) == [Delivery(h.pending[i], d)];
        }
      case Close => DeliveryConserves(h, h.pending, [], ALLOW, true);
    }
  }

  function Run(steps: seq<Step>): Hold {
    if |steps| == 0 then Hold([], false, []) else After(Run(steps[..|steps| - 1]), steps[|steps| - 1])
  }

  ghost function Enqueued(steps: seq<Step>): multiset<nat> {
    if |steps| == 0 then multiset{}
    else Enqueued(steps[..|steps| - 1])
         + if steps[|steps| - 1].Enqueue? then multiset{steps[|steps| - 1].notif} else multiset{}
  }

  lemma {:induction false} RunConserves(steps: seq<Step>)
    ensures Present(Run(steps)) == Enqueued(steps)
    ensures Run(steps).closed ==> Run(steps).pending == []
  {
    if |steps| > 0 {
      RunConserves(steps[..|steps| - 1]);
      StepConserves(Run(steps[..|steps| - 1]), steps[|steps| - 1]);
    }
  }

  /**
    In every run, a notification enqueued once receives at most one decision, so its
    one-slot channel never blocks the sender, and exactly one once the queue is closed.
   */
  lemma OneDecisionEach(steps: seq<Step>, x: nat)
    requires Enqueued(steps)[x] == 1
    ensures multiset(Receivers(Run(steps).delivered))[x] <= 1
    ensures x in Run(steps).pending ==> x !in Receivers(Run(steps).delivered)
    ensures Run(steps).closed ==> multiset(Receivers(Run(steps).delivered))[x] == 1
  {
    RunConserves(steps);
    var h := Run(steps);
    assert Present(h)[x] == multiset(h.pending)[x] + multiset(Receivers(h.delivered))[x];
    assert x in h.pending ==> x in multiset(h.pending);
    assert x in Receivers(h.delivered) ==> x in multiset(Receivers(h.delivered));
  }

  // --------------------------------------------------------------- who decides, and in what order

  // Everything enqueued, in order.
  ghost function Arrivals(steps: seq<Step>): seq<nat> {
    if |steps| == 0 then []
    else Arrivals(steps[..|steps| - 1]) + if steps[|steps| - 1].Enqueue? then [steps[|steps| - 1].notif] else []
  }

  // The decision a step hands out: a release its own, closing and late arrivals ALLOW.
  function HandsOut(step: Step): Decision {
    match step
    case ReleaseOne(d) => d
    case ReleaseAll(d) => d
    case ReleaseByIndex(_, d) => d
    case _ => ALLOW
  }

  // The k-th of the notifications a step lets go: the oldest, the one asked for, each in turn, or the late arrival.
  ghost predicate LetsGo(pending: seq<nat>, closed: bool, step: Step, k: nat, notif: nat) {
    match step
    case Enqueue(x) => closed && k == 0 && notif == x
    case ReleaseOne(_) => |pending| > 0 && k == 0 && notif == pending[0]
    case ReleaseByIndex(i, _) => 0 <= i < |pending| && k == 0 && notif == pending[i]
    case ReleaseAll(_) => k < |pending| && notif == pending[k]
    case Close => !closed && k < |pending| && notif == pending[k]
  }

  lemma StepDelivers(h: Hold, step: Step)
    ensures h.delivered <= After(h, step).delivered
    ensures forall k :: |h.delivered| <= k < |After(h, step).delivered| ==>
              var given := After(h, step).delivered[k];
              LetsGo(h.pending, h.closed, step, k - |h.delivered|, given.notif) && given.decision == HandsOut(step)
  {
  }

  /**
    In every run each delivery was made by one step: it carries that step's decision, and
    goes to the notification that step had to let go.
   */
  lemma {:induction false} DeliveredByStep(steps: seq<Step>, k: nat) returns (j: nat)
    requires k < |Run(steps).delivered|
    ensures j < |steps| && |Run(steps[..j]).delivered| <= k
    ensures var h, given := Run(steps[..j]), Run(steps).delivered[k];
      LetsGo(h.pending, h.closed, steps[j], k - |h.delivered|, given.notif) && given.decision == HandsOut(steps[j])
  {
    var n := |steps| - 1;
    var init := steps[..n];
    StepDelivers(Run(init), steps[n]);
    if k < |Run(init).delivered| {
      j := DeliveredByStep(init, k);
      assert init[..j] == steps[..j];
    } else {
      j := n;
    }
  }

  // Waiting notifications are some of those that arrived, at increasing places in the order of arrival.
  ghost predicate Among(pending: seq<nat>, arrivals: seq<nat>, at: seq<nat>) {
    && |at| == |pending| && (forall i, j :: 0 <= i < j < |at| ==> at[i] < at[j])
    && (forall i :: 0 <= i < |at| ==> at[i] < |arrivals| && arrivals[at[i]] == pending[i])
  }

  lemma AmongWithout(pending: seq<nat>, arrivals: seq<nat>, at: seq<nat>, i: nat)
    requires Among(pending, arrivals, at) && i < |pending|
    ensures Among(Without(pending, i), arrivals, Without(at, i))
  {
  }

  lemma StepKeepsArrivalOrder(h: Hold, step: Step, arrivals: seq<nat>, at: seq<nat>) returns (next: seq<nat>)
    requires Among(h.pending, arrivals, at)
    ensures Among(After(h, step).pending, arrivals + if step.Enqueue? then [step.notif] else [], next)
  {
    next := at;
    match step {
      case Enqueue(_) => if !h.closed { next := at + [|arrivals|]; }
      case ReleaseOne(_) =>
        if |h.pending| > 0 {
          AmongWithout(h.pending, arrivals, at, 0);
          next := Without(at, 0);
          assert Without(h.pending, 0) == h.pending[1..];
        }
      case ReleaseByIndex(i, _) =>
        if 0 <= i < |h.pending| {
          AmongWithout(h.pending, arrivals, at, i);
          next := Without(at, i);
        }
      case ReleaseAll(_) => next := [];
      case Close => if !h.closed { next := []; }
    }
  }

  /** At any point of any run the queue is in order of arrival, so its head is the oldest notification held. */
  lemma {:induction false} HeldInArrivalOrder(steps: seq<Step>) returns (at: seq<nat>)
    ensures Among(Run(steps).pending, Arrivals(steps), at)
  {
    at := [];
    if |steps| > 0 {
      var n := |steps| - 1;
      at := HeldInArrivalOrder(steps[..n]);
      at := StepKeepsArrivalOrder(Run(steps[..n]), steps[n], Arrivals(steps[..n]), at);
    }
  }

  ghost predicate WithoutPicking(steps: seq<Step>) {
    forall i :: 0 <= i < |steps| ==> !steps[i].ReleaseByIndex?
  }

  /** First in, first out: unless releases pick by index, decisions go out in the order of arrival. */
  lemma {:induction false} FirstInFirstOut(steps: seq<Step>)
    requires WithoutPicking(steps)
    ensures Receivers(Run(steps).delivered) + Run(steps).pending == Arrivals(steps)
  {
    if |steps| > 0 {
      var n := |steps| - 1;
      FirstInFirstOut(steps[..n]);
      RunConserves(steps[..n]);
      DeliversInOrder(Run(steps[..n]), steps[n]);
    }
  }

  lemma DeliversInOrder(h: Hold, step: Step)
    requires !step.ReleaseByIndex? && (h.closed ==> h.pending == [])
    ensures Receivers(After(h, step).delivered) + After(h, step).pending
         == Receivers(h.delivered) + h.pending + if step.Enqueue? then [step.notif] else []
  {
    match step {
      case ReleaseOne(_) => if |h.pending| > 0 { assert h.pending == [h.pending[0]] + h.pending[1..]; }
      case _ =>
    }
  }

  // --------------------------------------------------------------- positions shift

  // The elements whose original positions are not gone, in order.
  function Survivors(s: seq<nat>, gone: set<nat>): seq<nat> {
    if |s| == 0 then []
    else Survivors(s[..|s| - 1], gone) + if |s| - 1 in gone then [] else [s[|s| - 1]]
  }

  ghost function Below(gone: set<nat>, t: nat): nat {
    |set r | r in gone && r < t|
  }

  lemma BelowNext(gone: set<nat>, t: nat)
    ensures Below(gone, t + 1) == Below(gone, t) + if t in gone then 1 else 0
  {
    var low := set r | r in gone && r < t;
    assert (set r | r in gone && r < t + 1) == if t in gone then low + {t} else low;
  }

  lemma NoneBelow(t: nat)
    ensures Below({}, t) == 0
  {
    var none: set<nat> := {};
    assert (set r | r in none && r < t) == {};
  }

  lemma BelowAdd(gone: set<nat>, x: nat, t: nat)
    requires x !in gone
    ensures Below(gone + {x}, t) == Below(gone, t) + if x < t then 1 else 0
  {
    var more := gone + {x};
    var low := set r | r in gone && r < t;
    assert (set r | r in more && r < t) == if x < t then low + {x} else low;
  }

  lemma {:induction false} BelowAtMost(gone: set<nat>, t: nat)
    ensures Below(gone, t) <= t
  {
    if t > 0 {
      BelowAtMost(gone, t - 1);
      BelowNext(gone, t - 1);
    } else {
      assert (set r | r in gone && r < t) == {};
    }
  }

  lemma {:induction false} SurvivorsLength(s: seq<nat>, gone: set<nat>)
    ensures |Survivors(s, gone)| == |s| - Below(gone, |s|)
  {
    if |s| > 0 {
      SurvivorsLength(s[..|s| - 1], gone);
      BelowNext(gone, |s| - 1);
    } else {
      assert (set r | r in gone && r < |s|) == {};
    }
  }

  /** A survivor stands as many places further left as positions before it are gone. */
  lemma {:induction false} SurvivorShifts(s: seq<nat>, gone: set<nat>, t: nat)
    requires t < |s| && t !in gone
    ensures var c := t - Below(gone, t);
      && 0 <= c < |Survivors(s, gone)| && Survivors(s, gone)[c] == s[t]
      && Survivors(s, gone + {t}) == Without(Survivors(s, gone), c)
  {
    var n := |s| - 1;
    var c := t - Below(gone, t);
    BelowAtMost(gone, t);
    SurvivorsLength(s[..n], gone);
    if t == n {
      SurvivorsUnaffected(s[..n], gone, t);
      assert Survivors(s, gone)[..c] == Survivors(s[..n], gone);
    } else {
      SurvivorShifts(s[..n], gone, t);
      var init := Survivors(s[..n], gone);
      assert n in gone <==> n in gone + {t};
      if n !in gone {
        assert Without(init + [s[n]], c) == Without(init, c) + [s[n]];
      }
    }
  }

  lemma {:induction false} SurvivorsUnaffected(s: seq<nat>, gone: set<nat>, t: nat)
    requires t >= |s|
    ensures Survivors(s, gone + {t}) == Survivors(s, gone)
  {
    if |s| > 0 {
      SurvivorsUnaffected(s[..|s| - 1], gone, t);
    }
  }

  lemma {:induction false} NothingGone(s: seq<nat>)
    ensures Survivors(s, {}) == s
  {
    if |s| > 0 {
      NothingGone(s[..|s| - 1]);
    }
  }

  // --------------------------------------------------------------- permutations of positions

  ghost predicate Arrangement(perm: seq<nat>, n: nat) {
    |perm| == n && Distinct(perm) && forall i :: 0 <= i < n ==> perm[i] < n
  }

  lemma TwiceCounted(s: seq<nat>, i: nat, j: nat)
    requires i < j < |s| && s[i] == s[j]
    ensures multiset(s)[s[i]] >= 2
  {
    assert s == s[..i] + [s[i]] + s[i + 1..j] + [s[j]] + s[j + 1..];
  }

  lemma {:induction false} IdentityCounts(n: nat, x: nat)
    ensures multiset(Identity(n))[x] == if x < n then 1 else 0
  {
    if n > 0 {
      IdentityCounts(n - 1, x);
      assert Identity(n) == Identity(n - 1) + [n - 1];
    }
  }

  lemma DecodedIsArrangement(n: nat, index: nat)
    requires index < Total(CAP, n)
    ensures Arrangement(Decode(CAP, Identity(n), index), n)
  {
    var perm := Decode(CAP, Identity(n), index);
    DecodeIsPermutation(CAP, Identity(n), index);
    forall i | 0 <= i < n ensures perm[i] < n {
      IdentityCounts(n, perm[i]);
      assert perm[i] in multiset(perm);
    }
    forall i, j | 0 <= i < j < n ensures perm[i] != perm[j] {
      IdentityCounts(n, perm[i]);
      if perm[i] == perm[j] {
        TwiceCounted(perm, i, j);
      }
    }
  }

  ghost function Gone(perm: seq<nat>, k: nat): set<nat>
    requires k <= |perm|
  {
    set r | r in perm[..k]
  }

  // --------------------------------------------------------------- the queue as code

  class Queue {
    var pending: seq<nat>
    var closed: bool
    var delivered: seq<Delivery>

    ghost function View(): Hold
      reads this
    {
      Hold(pending, closed, delivered)
    }

    constructor ()
      ensures View() == Hold([], false, [])
    {
      pending, closed, delivered := [], false, [];
    }

    method Add(x: nat)
      modifies this
      ensures View() == After(old(View()), Enqueue(x))
    {
      if closed {
        delivered := delivered + [Delivery(x, ALLOW)];
        return;
      }
      pending := pending + [x];
    }

    method ReleaseOldest(d: Decision) returns (ok: bool)
      modifies this
      ensures View() == After(old(View()), ReleaseOne(d)) && ok == (|old(pending)| > 0)
    {
      if |pending| == 0 {
        return false;
      }
      var x := pending[0];
      pending := pending[1..];
      delivered := delivered + [Delivery(x, d)];
      return true;
    }

    method ReleaseEverything(d: Decision)
      modifies this
      ensures View() == After(old(View()), ReleaseAll(d))
    {
      ghost var all := Deliver(pending, d);
      for i := 0 to |pending|
        invariant pending == old(pending) && closed == old(closed)
        invariant delivered == old(delivered) + all[..i]
      {
        delivered := delivered + [Delivery(pending[i], d)];
      }
      pending := [];
    }

    method ReleaseAt(i: int, d: Decision) returns (ok: bool)
      modifies this
      ensures View() == After(old(View()), ReleaseByIndex(i, d)) && ok == (0 <= i < |old(pending)|)
    {
      if i < 0 || i >= |pending| {
        return false;
      }
      var x := pending[i];
      pending := pending[..i] + pending[i + 1..];
      delivered := delivered + [Delivery(x, d)];
      return true;
    }

    method Shut()
      modifies this
      ensures View() == After(old(View()), Close)
    {
      if closed {
        return;
      }
      ReleaseEverything(ALLOW);
      closed := true;
    }
  }

  // --------------------------------------------------------------- the scheduler

  datatype Result = Done(perm: seq<nat>) | Cancelled | Failed(perm: seq<nat>, step: nat) | Panicked

  // The decisions the first k releases deliver: the snapshot's positions in permuted order.
  ghost function Ordered(snapshot: seq<nat>, perm: seq<nat>, k: nat): seq<Delivery>
    requires k <= |perm| && forall i :: 0 <= i < |perm| ==> perm[i] < |snapshot|
  {
    seq(k, i requires 0 <= i < k => Delivery(snapshot[perm[i]], ALLOW))
  }

  ghost function Concat(parts: seq<seq<nat>>): seq<nat> {
    if |parts| == 0 then [] else Concat(parts[..|parts| - 1]) + parts[|parts| - 1]
  }

  // Where the element originally at perm[k] stands after perm[..k] were released.
  method CurrentIndex(perm: seq<nat>, k: nat) returns (index: int)
    requires k < |perm| && Distinct(perm)
    ensures index == perm[k] - Below(Gone(perm, k), perm[k])
  {
    index := perm[k];
    assert Gone(perm, 0) == {};
    NoneBelow(perm[k]);
    for j := 0 to k
      invariant index == perm[k] - Below(Gone(perm, j), perm[k])
    {
      assert Gone(perm, j + 1) == Gone(perm, j) + {perm[j]} && perm[j] !in Gone(perm, j);
      BelowAdd(Gone(perm, j), perm[j], perm[k]);
      if perm[j] < perm[k] {
        index := index - 1;
      }
    }
  }

  // The queue after k releases: what remains of the snapshot, then what arrived since.
  ghost predicate AfterReleases(h: Hold, snapshot: seq<nat>, before: seq<Delivery>, perm: seq<nat>, k: nat, arrived: seq<nat>)
    requires k <= |perm| && forall i :: 0 <= i < |perm| ==> perm[i] < |snapshot|
  {
    && !h.closed
    && h.pending == Survivors(snapshot, Gone(perm, k)) + arrived
    && h.delivered == before + Ordered(snapshot, perm, k)
  }

  lemma ReleaseIsOrdered(h: Hold, snapshot: seq<nat>, before: seq<Delivery>, perm: seq<nat>, k: nat, arrived: seq<nat>)
    requires Distinct(perm) && k < |perm| && forall i :: 0 <= i < |perm| ==> perm[i] < |snapshot|
    requires AfterReleases(h, snapshot, before, perm, k, arrived)
    ensures var index := perm[k] - Below(Gone(perm, k), perm[k]);
      && 0 <= index < |h.pending| && h.pending[index] == snapshot[perm[k]]
      && AfterReleases(After(h, ReleaseByIndex(index, ALLOW)), snapshot, before, perm, k + 1, arrived)
  {
    var index := perm[k] - Below(Gone(perm, k), perm[k]);
    assert perm[k] !in Gone(perm, k);
    assert Gone(perm, k + 1) == Gone(perm, k) + {perm[k]};
    SurvivorShifts(snapshot, Gone(perm, k), perm[k]);
    WithoutPrefix(Survivors(snapshot, Gone(perm, k)), arrived, index);
    assert Ordered(snapshot, perm, k + 1) == Ordered(snapshot, perm, k) + [Delivery(snapshot[perm[k]], ALLOW)];
  }

  // The queue when it was closed after k releases: everything still held was let go, in order.
  ghost predicate ClosedAfter(h: Hold, snapshot: seq<nat>, before: seq<Delivery>, perm: seq<nat>, k: nat, arrived: seq<nat>)
    requires k <= |perm| && forall i :: 0 <= i < |perm| ==> perm[i] < |snapshot|
  {
    && h.closed && h.pending == []
    && h.delivered == before + Ordered(snapshot, perm, k) + Deliver(Survivors(snapshot, Gone(perm, k)) + arrived, ALLOW)
  }

  // One pass of the release loop; if `closing`, the queue is closed just before it.
  method ReleaseNext(q: Queue, perm: seq<nat>, k: nat, closing: bool, ghost snapshot: seq<nat>, ghost before: seq<Delivery>,
                     ghost arrived: seq<nat>) returns (ok: bool)
    requires Distinct(perm) && k < |perm| && forall i :: 0 <= i < |perm| ==> perm[i] < |snapshot|
    requires AfterReleases(q.View(), snapshot, before, perm, k, arrived)
    modifies q
    ensures ok == !closing
    ensures ok ==> AfterReleases(q.View(), snapshot, before, perm, k + 1, arrived)
    ensures !ok ==> ClosedAfter(q.View(), snapshot, before, perm, k, arrived)
  {
    ReleaseIsOrdered(q.View(), snapshot, before, perm, k, arrived);
    if closing {
      q.Shut();
    }
    var index := CurrentIndex(perm, k);
    ok := q.ReleaseAt(index, ALLOW);
  }

  // The release loop; before release k, `arrivals[k]` come in and, at `closeAt`, the queue is closed.
  method ReleaseSnapshot(q: Queue, perm: seq<nat>, arrivals: seq<seq<nat>>, closeAt: int) returns (failedAt: int)
    requires !q.closed && |perm| == |arrivals| && Distinct(perm)
    requires forall i :: 0 <= i < |perm| ==> perm[i] < |q.pending|
    modifies q
    ensures failedAt == if 0 <= closeAt < |perm| then closeAt else |perm|
    ensures failedAt == |perm| ==>
              AfterReleases(q.View(), old(q.pending), old(q.delivered), perm, |perm|, Concat(arrivals))
    ensures failedAt < |perm| ==>
              ClosedAfter(q.View(), old(q.pending), old(q.delivered), perm, closeAt, Concat(arrivals[..closeAt + 1]))
  {
    ghost var snapshot := q.pending;
    NothingGone(snapshot);
    assert Gone(perm, 0) == {} && snapshot + [] == snapshot;
    var k := 0;
    while k < |perm|
      invariant 0 <= k <= |perm| && (closeAt < 0 || k <= closeAt || closeAt >= |perm|)
      invariant AfterReleases(q.View(), snapshot, old(q.delivered), perm, k, Concat(arrivals[..k]))
    {
      EnqueueAll(q, arrivals[k]);
      assert arrivals[..k + 1][..k] == arrivals[..k];
      var ok := ReleaseNext(q, perm, k, k == closeAt, snapshot, old(q.delivered), Concat(arrivals[..k + 1]));
      if !ok {
        return k;
      }
      k := k + 1;
    }
    assert arrivals[..k] == arrivals;
    return k;
  }

  // The first pass of the loop on a queue that was closed while waiting.
  method ReleaseClosed(q: Queue, perm: seq<nat>, arrived: seq<nat>) returns (ok: bool)
    requires q.closed && q.pending == [] && |perm| > 0 && Distinct(perm)
    modifies q
    ensures !ok && q.closed && q.pending == [] && q.delivered == old(q.delivered) + Deliver(arrived, ALLOW)
  {
    EnqueueAll(q, arrived);
    var index := CurrentIndex(perm, 0);
    ok := q.ReleaseAt(index, ALLOW);
  }

  ghost predicate Selectable(n: int, permIndex: int) {
    n > 0 && Rem(permIndex, Total(CAP, n)) >= 0
  }

  ghost function Selected(n: int, permIndex: int): seq<nat>
    requires Selectable(n, permIndex)
  {
    Decode(CAP, Identity(n), Rem(permIndex, Total(CAP, n)))
  }

  /** Every non-negative index selects the arrangement of its remainder; a negative one only if it is a multiple of the total. */
  lemma SelectableExactly(n: nat, permIndex: int)
    requires n > 0
    ensures Selectable(n, permIndex) <==> permIndex >= 0 || -permIndex % Total(CAP, n) == 0
    ensures Selectable(n, permIndex) ==>
              Selected(n, permIndex) == Decode(CAP, Identity(n), if permIndex >= 0 then permIndex % Total(CAP, n) else 0)
  {
    ResidueExactly(CAP, n, permIndex);
  }

  /**
    Releases the first n notifications that stood in the queue when the wait returned, in
    the order the permutation index selects, while `arrivals[k]` are enqueued before the
    k-th release and, if `closeAt` is below n, the queue is closed before that release. The
    k-th release is the notification that stood at position perm[k]. It succeeds whenever n
    were pending and nobody closed the queue; otherwise it fails at the first release after
    the close, which has let go of all that was left.
   */
  method ReleaseInOrder(q: Queue, permIndex: int, n: int, cancelled: bool, arrivals: seq<seq<nat>>, closeAt: int)
    returns (r: Result)
    requires n > 0 ==> |arrivals| == n
    requires cancelled || |q.pending| >= n || q.closed
    requires q.closed ==> q.pending == []
    modifies q
    ensures cancelled ==> r.Cancelled? && q.View() == old(q.View())
    ensures !cancelled && n <= 0 ==> r == Done([]) && q.View() == old(q.View())
    ensures !cancelled && n > 0 && !Selectable(n, permIndex) ==> r.Panicked? && q.View() == old(q.View())
    ensures !cancelled && Selectable(n, permIndex) && !old(q.closed) ==>
              var perm := Selected(n, permIndex);
              && Arrangement(perm, n)
              && (if 0 <= closeAt < n then
                    && r == Failed(perm, closeAt)
                    && ClosedAfter(q.View(), old(q.pending), old(q.delivered), perm, closeAt, Concat(arrivals[..closeAt + 1]))
                  else
                    && r == Done(perm)
                    && AfterReleases(q.View(), old(q.pending), old(q.delivered), perm, n, Concat(arrivals)))
    ensures !cancelled && Selectable(n, permIndex) && old(q.closed) ==>
              r == Failed(Selected(n, permIndex), 0) && q.pending == []
  {
    if cancelled {
      return Cancelled;
    }
    var chosen := PermutationFromIndex(n, permIndex);
    if chosen.Panic? {
      return Panicked;
    }
    var perm := chosen.perm;
    if n <= 0 {
      return Done(perm);
    }
    DecodedIsArrangement(n, Rem(permIndex, Total(CAP, n)));
    if q.closed {
      var ok := ReleaseClosed(q, perm, arrivals[0]);
      return Failed(perm, 0);
    }
    var failedAt := ReleaseSnapshot(q, perm, arrivals, closeAt);
    if failedAt < n {
      return Failed(perm, failedAt);
    }
    return Done(perm);
  }

  lemma WithoutPrefix(a: seq<nat>, b: seq<nat>, i: nat)
    requires i < |a|
    ensures Without(a + b, i) == Without(a, i) + b && (a + b)[i] == a[i]
  {
  }

  method EnqueueAll(q: Queue, xs: seq<nat>)
    modifies q
    ensures q.closed == old(q.closed)
    ensures !q.closed ==> q.pending == old(q.pending) + xs && q.delivered == old(q.delivered)
    ensures q.closed ==> q.pending == old(q.pending) && q.delivered == old(q.delivered) + Deliver(xs, ALLOW)
  {
    for i := 0 to |xs|
      invariant q.closed == old(q.closed)
      invariant !q.closed ==> q.pending == old(q.pending) + xs[..i] && q.delivered == old(q.delivered)
      invariant q.closed ==> q.pending == old(q.pending) && q.delivered == old(q.delivered) + Deliver(xs, ALLOW)[..i]
    {
      q.Add(xs[i]);
    }
  }
}
