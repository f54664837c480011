/**
  The bandwidth pacer: a single server that each admitted packet occupies for its
  transmission time. `nextFree` is when the link finishes its last reservation; a
  packet that would wait longer than the backlog bound is dropped. Times are integer
  nanoseconds; a packet's transmission time is given with it.
 */
module Shaper {

  const DEFAULT_BACKLOG := 250_000_000

  datatype Arrival = Arrival(size: int, tx: nat, now: int)

  datatype Verdict = Dropped | Admitted(wait: nat)

  datatype Link = Link(maxBacklog: nat, nextFree: int, admitted: nat, dropped: nat, peak: nat)

  function Max(a: int, b: int): int {
    if a < b then b else a
  }

  function NewLink(maxBacklog: int, nextFree: int): Link {
    Link(if maxBacklog <= 0 then DEFAULT_BACKLOG else maxBacklog, nextFree, 0, 0, 0)
  }

  function Admit(l: Link, a: Arrival): (Link, Verdict) {
    if a.size <= 0 then (l, Admitted(0))
    else
      var start := Max(l.nextFree, a.now);
      var backlog := start - a.now;
      if backlog > l.maxBacklog then (l.(nextFree := start, dropped := l.dropped + 1), Dropped)
      else (l.(nextFree := start + a.tx, admitted := l.admitted + 1, peak := Max(l.peak, backlog)), Admitted(backlog))
  }

  /** The backlog bound is the one asked for, or a quarter of a second when none or a senseless one is. */
  lemma BacklogBound(maxBacklog: int, nextFree: int)
    ensures NewLink(maxBacklog, nextFree).maxBacklog == if maxBacklog > 0 then maxBacklog else 250_000_000
  {
  }

  /** One direction of the link, reserved in place. */
  class Pacer {
    const maxBacklog: nat
    var nextFree: int
    var admitted: nat
    var dropped: nat
    var peak: nat

    ghost function View(): Link
      reads this
    {
      Link(maxBacklog, nextFree, admitted, dropped, peak)
    }

    constructor (backlog: int, start: int)
      ensures View() == NewLink(backlog, start)
    {
      maxBacklog := if backlog <= 0 then DEFAULT_BACKLOG else backlog;
      nextFree, admitted, dropped, peak := start, 0, 0, 0;
    }

    method Reserve(a: Arrival) returns (v: Verdict)
      modifies this
      ensures (View(), v) == Admit(old(View()), a)
    {
      if a.size <= 0 {
        return Admitted(0);
      }
      if nextFree < a.now {
        nextFree := a.now;
      }
      var backlog := nextFree - a.now;
      if backlog > maxBacklog {
        dropped := dropped + 1;
        return Dropped;
      }
      if backlog > peak {
        peak := backlog;
      }
      nextFree := nextFree + a.tx;
      admitted := admitted + 1;
      return Admitted(backlog);
    }
  }

  // --------------------------------------------------------------- whole runs

  // A packet that occupied the link: when it arrived, when it left, how long it took.
  datatype Departure = Departure(arrived: int, start: int, tx: nat)

  ghost predicate Ordered(arrivals: seq<Arrival>) {
    forall i, j :: 0 <= i < j < |arrivals| ==> arrivals[i].now <= arrivals[j].now
  }

  function Run(l: Link, arrivals: seq<Arrival>): Link {
    if |arrivals| == 0 then l else Admit(Run(l, arrivals[..|arrivals| - 1]), arrivals[|arrivals| - 1]).0
  }

  // The departure that admitting a packet adds, if it occupies the link.
  function Departing(l: Link, a: Arrival): seq<Departure> {
    match Admit(l, a).1
    case Dropped => []
    case Admitted(wait) => if a.size <= 0 then [] else [Departure(a.now, a.now + wait, a.tx)]
  }

  function Departures(l: Link, arrivals: seq<Arrival>): seq<Departure> {
    if |arrivals| == 0 then []
    else
      var init := arrivals[..|arrivals| - 1];
      Departures(l, init) + Departing(Run(l, init), arrivals[|arrivals| - 1])
  }

  function Occupying(arrivals: seq<Arrival>): nat {
    if |arrivals| == 0 then 0 else Occupying(arrivals[..|arrivals| - 1]) + if arrivals[|arrivals| - 1].size > 0 then 1 else 0
  }

  // When the link falls idle after these departures, given when it was free before them.
  function Finish(free: int, ds: seq<Departure>): int {
    if |ds| == 0 then free else ds[|ds| - 1].start + ds[|ds| - 1].tx
  }

  // Each packet leaves as soon as it has arrived and the link is free, after a bounded wait.
  ghost predicate Paced(free: int, maxBacklog: nat, ds: seq<Departure>) {
    forall i :: 0 <= i < |ds| ==>
                  && ds[i].start == Max(Finish(free, ds[..i]), ds[i].arrived)
                  && ds[i].start - ds[i].arrived <= maxBacklog
  }

  lemma PacedSnoc(free: int, maxBacklog: nat, ds: seq<Departure>, d: Departure)
    requires Paced(free, maxBacklog, ds)
    requires d.start == Max(Finish(free, ds), d.arrived) && d.start - d.arrived <= maxBacklog
    ensures Paced(free, maxBacklog, ds + [d])
  {
    var all := ds + [d];
    forall i | 0 <= i < |all| ensures all[i].start == Max(Finish(free, all[..i]), all[i].arrived) {
      assert all[..i] == if i < |ds| then ds[..i] else ds;
    }
  }

  // Admitting a packet keeps track of when the link falls idle.
  lemma AdmitFinishes(free: int, m: Link, ds: seq<Departure>, a: Arrival, now: int)
    requires a.now <= now && Max(m.nextFree, a.now) == Max(Finish(free, ds), a.now)
    ensures Max(Admit(m, a).0.nextFree, now) == Max(Finish(free, ds + Departing(m, a)), now)
  {
    var added := Departing(m, a);
    if |added| == 0 {
      assert ds + added == ds;
    }
  }

  // ... and paces the packet it adds.
  lemma AdmitPaces(free: int, m: Link, ds: seq<Departure>, a: Arrival)
    requires Paced(free, m.maxBacklog, ds) && Max(m.nextFree, a.now) == Max(Finish(free, ds), a.now)
    ensures Paced(free, m.maxBacklog, ds + Departing(m, a))
  {
    var added := Departing(m, a);
    if |added| == 0 {
      assert ds + added == ds;
    } else {
      PacedSnoc(free, m.maxBacklog, ds, added[0]);
    }
  }

  // `nextFree` is the end of the last reservation or, when idle, at most the last arrival time.
  lemma {:induction false} RunPaces(l: Link, arrivals: seq<Arrival>, now: int)
    requires Ordered(arrivals) && forall i :: 0 <= i < |arrivals| ==> arrivals[i].now <= now
    ensures var m, ds := Run(l, arrivals), Departures(l, arrivals);
      && m.maxBacklog == l.maxBacklog
      && Paced(l.nextFree, l.maxBacklog, ds)
      && Max(m.nextFree, now) == Max(Finish(l.nextFree, ds), now)
  {
    if |arrivals| > 0 {
      var init, last := arrivals[..|arrivals| - 1], arrivals[|arrivals| - 1];
      RunPaces(l, init, last.now);
      AdmitPaces(l.nextFree, Run(l, init), Departures(l, init), last);
      AdmitFinishes(l.nextFree, Run(l, init), Departures(l, init), last, now);
    }
  }

  // The peak bounds every wait and is one of them, once it has moved.
  ghost predicate IsPeak(from: int, peak: int, ds: seq<Departure>) {
    && from <= peak && (forall i :: 0 <= i < |ds| ==> ds[i].start - ds[i].arrived <= peak)
    && (peak == from || exists i :: 0 <= i < |ds| && ds[i].start - ds[i].arrived == peak)
  }

  lemma PeakSnoc(from: int, peak: int, ds: seq<Departure>, d: Departure)
    requires IsPeak(from, peak, ds)
    ensures IsPeak(from, Max(peak, d.start - d.arrived), ds + [d])
  {
    var all := ds + [d];
    assert all[|ds|] == d;
    if i :| 0 <= i < |ds| && ds[i].start - ds[i].arrived == peak {
      assert all[i].start - all[i].arrived == peak;
    }
  }

  lemma {:induction false} RunCounts(l: Link, arrivals: seq<Arrival>)
    ensures var m, ds := Run(l, arrivals), Departures(l, arrivals);
      && m.admitted == l.admitted + |ds|
      && m.admitted + m.dropped == l.admitted + l.dropped + Occupying(arrivals)
      && IsPeak(l.peak, m.peak, ds)
  {
    if |arrivals| > 0 {
      var init, last := arrivals[..|arrivals| - 1], arrivals[|arrivals| - 1];
      RunCounts(l, init);
      var ds, added := Departures(l, init), Departing(Run(l, init), last);
      if |added| == 0 {
        assert ds + added == ds;
      } else {
        PeakSnoc(l.peak, Run(l, init).peak, ds, added[0]);
      }
    }
  }

  /** Every admitted packet waits at most the backlog bound and leaves as early as the link allows. */
  lemma WaitIsBounded(l: Link, arrivals: seq<Arrival>)
    requires Ordered(arrivals)
    ensures Paced(l.nextFree, l.maxBacklog, Departures(l, arrivals))
  {
    RunPaces(l, arrivals, if |arrivals| == 0 then 0 else arrivals[|arrivals| - 1].now);
  }

  /** A packet is dropped exactly when the reservations made so far end more than the bound after its arrival. */
  lemma DropsExactlyWhenFull(l: Link, arrivals: seq<Arrival>, a: Arrival)
    requires Ordered(arrivals + [a]) && a.size > 0
    ensures Admit(Run(l, arrivals), a).1.Dropped?
       <==> Finish(l.nextFree, Departures(l, arrivals)) - a.now > l.maxBacklog
  {
    var all := arrivals + [a];
    assert forall i :: 0 <= i < |arrivals| ==> arrivals[i] == all[i] && all[i].now <= all[|arrivals|].now;
    RunPaces(l, arrivals, a.now);
  }

  lemma {:induction false} DeparturesSpaced(free: int, maxBacklog: nat, ds: seq<Departure>, i: nat, j: nat)
    requires Paced(free, maxBacklog, ds) && i < j < |ds|
    ensures ds[i].start + ds[i].tx <= ds[j].start
    decreases j - i
  {
    assert ds[..j][j - 1] == ds[j - 1];
    if i + 1 < j {
      DeparturesSpaced(free, maxBacklog, ds, i, j - 1);
    }
  }

  /** Consecutive departures are at least the earlier packet's transmission time apart. */
  lemma DeparturesDoNotOverlap(l: Link, arrivals: seq<Arrival>, i: nat, j: nat)
    requires Ordered(arrivals) && i < j < |Departures(l, arrivals)|
    ensures var ds := Departures(l, arrivals); ds[i].start + ds[i].tx <= ds[j].start
  {
    WaitIsBounded(l, arrivals);
    DeparturesSpaced(l.nextFree, l.maxBacklog, Departures(l, arrivals), i, j);
  }

  // --------------------------------------------------------------- the rate bound

  predicate In(d: Departure, a: int, b: int) {
    a <= d.arrived <= b
  }

  // Transmission time admitted from packets that arrived in [a, b].
  function WindowTime(ds: seq<Departure>, a: int, b: int): nat {
    if |ds| == 0 then 0
    else WindowTime(ds[..|ds| - 1], a, b) + if In(ds[|ds| - 1], a, b) then ds[|ds| - 1].tx else 0
  }

  // The last such packet, if there is one.
  function LastIn(ds: seq<Departure>, a: int, b: int): int
    ensures var i := LastIn(ds, a, b); -1 <= i < |ds| && (i >= 0 ==> In(ds[i], a, b))
  {
    if |ds| == 0 then -1 else if In(ds[|ds| - 1], a, b) then |ds| - 1 else LastIn(ds[..|ds| - 1], a, b)
  }

  lemma {:induction false} WindowBefore(free: int, maxBacklog: nat, ds: seq<Departure>, a: int, b: int)
    requires Paced(free, maxBacklog, ds)
    ensures var i := LastIn(ds, a, b);
      if i < 0 then WindowTime(ds, a, b) == 0 else WindowTime(ds, a, b) <= ds[i].start - a + ds[i].tx
  {
    if |ds| > 0 {
      var init := ds[..|ds| - 1];
      assert forall i :: 0 <= i < |init| ==> init[..i] == ds[..i];
      WindowBefore(free, maxBacklog, init, a, b);
      var i := LastIn(init, a, b);
      if In(ds[|ds| - 1], a, b) && i >= 0 {
        DeparturesSpaced(free, maxBacklog, ds, i, |ds| - 1);
      }
    }
  }

  /**
    The rate bound: the transmission time admitted in any window [a, b] is at most the
    window, plus the backlog bound, plus the last packet's own transmission time.
   */
  lemma WindowIsBounded(l: Link, arrivals: seq<Arrival>, a: int, b: int)
    requires Ordered(arrivals) && a <= b
    ensures var ds := Departures(l, arrivals);
      var i := LastIn(ds, a, b);
      WindowTime(ds, a, b) <= (b - a) + l.maxBacklog + if i < 0 then 0 else ds[i].tx
  {
    WaitIsBounded(l, arrivals);
    WindowBefore(l.nextFree, l.maxBacklog, Departures(l, arrivals), a, b);
  }

  /** The counters account for every packet that asked for the link, and the peak is the longest wait. */
  lemma StatsAreExact(maxBacklog: int, start: int, arrivals: seq<Arrival>)
    ensures var m := Run(NewLink(maxBacklog, start), arrivals);
      var ds := Departures(NewLink(maxBacklog, start), arrivals);
      m.admitted == |ds| && m.admitted + m.dropped == Occupying(arrivals) && IsPeak(0, m.peak, ds)
  {
    RunCounts(NewLink(maxBacklog, start), arrivals);
  }
}
