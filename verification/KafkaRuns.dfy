/**
  Safety of the Kafka group observer over whole runs: any finite interleaving of
  requests and responses, starting from an empty observer.
 */
module KafkaRuns {
  import opened Ownership
  import opened KafkaState
  import opened KafkaSteps

  datatype Run = Run(states: seq<System>, steps: seq<Step>)

  ghost predicate Initial(s: System) {
    s.obs.sequence == 0 && s.obs.groups == map[] && s.obs.sessions == map[] && s.obs.ambiguous == {} && s.pending == map[]
  }

  ghost predicate IsRun(run: Run) {
    && |run.states| == |run.steps| + 1 && Initial(run.states[0])
    && forall i :: 0 <= i < |run.steps| ==>
                     && Enabled(run.states[i], run.steps[i]) && Captured(run.states[i], run.steps[i])
                     && run.states[i + 1] == After(run.states[i], run.steps[i])
  }

  ghost function Groups(run: Run, i: nat): Groups
    requires i < |run.states|
  {
    run.states[i].obs.groups
  }

  // The events of the first i steps.
  ghost function Trace(run: Run, i: nat): seq<Event>
    requires IsRun(run) && i <= |run.steps|
  {
    if i == 0 then [] else Trace(run, i - 1) + Emits(run.states[i - 1], run.steps[i - 1])
  }

  // --------------------------------------------------------------- what every state satisfies

  /** Every reachable state satisfies the invariant. */
  lemma {:induction false} RunKeepsInv(run: Run, i: nat)
    requires IsRun(run) && i <= |run.steps|
    ensures Inv(run.states[i])
  {
    if i > 0 {
      RunKeepsInv(run, i - 1);
      StepKeepsInv(run.states[i - 1], run.steps[i - 1]);
    }
  }

  /** Epochs, generations and, within an epoch, assignments never decrease along a run. */
  lemma {:induction false} RunIsMonotone(run: Run, i: nat, j: nat)
    requires IsRun(run) && i <= j <= |run.steps|
    ensures Later(Groups(run, i), Groups(run, j))
    decreases j - i
  {
    if i < j {
      RunIsMonotone(run, i, j - 1);
      RunKeepsInv(run, j - 1);
      StepEvolves(run.states[j - 1], run.steps[j - 1]);
      LaterTransitive(Groups(run, i), Groups(run, j - 1), Groups(run, j));
    }
  }

  /** A pending request is exactly what some earlier step of the run recorded. */
  lemma {:induction false} PendingWasRequested(run: Run, j: nat, n: nat) returns (i: nat)
    requires IsRun(run) && j <= |run.steps| && n in run.states[j].pending
    ensures i < j && run.steps[i].Requested? && run.states[i].obs.sequence + 1 == n
    ensures var q := run.steps[i];
      run.states[j].pending[n] == Pending(q.req, q.client, n, q.source, q.positions)
  {
    assert j > 0;
    var before, step := run.states[j - 1], run.steps[j - 1];
    if step.Requested? && before.obs.sequence + 1 == n {
      i := j - 1;
    } else {
      i := PendingWasRequested(run, j - 1, n);
    }
  }

  // --------------------------------------------------------------- ready at most once

  ghost predicate SameReady(e: Event, f: Event) {
    && e.GroupReady? && f.GroupReady?
    && e.group == f.group && e.member == f.member && e.assignment == f.assignment && e.key == f.key
  }

  ghost predicate ReadyDistinct(trace: seq<Event>) {
    forall i, j :: 0 <= i < j < |trace| ==> !SameReady(trace[i], trace[j])
  }

  // A ready event speaks of an answered assignment that cannot become ready again.
  ghost predicate Settled(groups: Groups, sequence: nat, pending: set<nat>, e: Event) {
    e.GroupReady? ==>
      && 0 < e.assignment <= sequence && e.assignment !in pending
      && (HoldsAt(groups, e.group, e.member, e.key, e.assignment) ==> IsReady(groups, e.group, e.member, e.key))
  }

  ghost predicate AllSettled(groups: Groups, sequence: nat, pending: set<nat>, trace: seq<Event>) {
    forall i :: 0 <= i < |trace| ==> Settled(groups, sequence, pending, trace[i])
  }

  lemma {:induction false} FetchSettles(s: FetchState, p: Pending, positions: seq<FetchPosition>,
                                        statuses: map<TopicPartition, bool>, live: Liveness,
                                        sequence: nat, pending: map<nat, Pending>, trace: seq<Event>)
    requires p.req.Fetch? && s.events == [] && GroupsInv(s.groups, sequence, pending)
    requires AllSettled(s.groups, sequence, pending.Keys, trace) && ReadyDistinct(trace)
    ensures var t := FetchAll(s, p, positions, statuses, live);
      AllSettled(t.groups, sequence, pending.Keys, trace + t.events) && ReadyDistinct(trace + t.events)
  {
    if |positions| == 0 {
      assert trace + [] == trace;
    } else {
      var most := FetchAll(s, p, positions[..|positions| - 1], statuses, live);
      FetchSettles(s, p, positions[..|positions| - 1], statuses, live, sequence, pending, trace);
      FetchAllFacts(s, p, positions[..|positions| - 1], statuses, live);
      SameButReadyKeepsInv(s.groups, most.groups, sequence, pending);
      FetchOneSettles(most, p, positions[|positions| - 1], statuses, live, sequence, pending, trace + most.events);
      var t := FetchAll(s, p, positions, statuses, live);
      assert trace + most.events + t.events[|most.events|..] == trace + t.events;
    }
  }

  lemma FetchOneSettles(s: FetchState, p: Pending, pos: FetchPosition, statuses: map<TopicPartition, bool>,
                        live: Liveness, sequence: nat, pending: map<nat, Pending>, trace: seq<Event>)
    requires p.req.Fetch? && GroupsInv(s.groups, sequence, pending)
    requires AllSettled(s.groups, sequence, pending.Keys, trace) && ReadyDistinct(trace)
    ensures var t := FetchOne(s, p, pos, AcceptedNow(p.req, statuses, pos), live);
      && Extends(s.events, t.events)
      && AllSettled(t.groups, sequence, pending.Keys, trace + t.events[|s.events|..])
      && ReadyDistinct(trace + t.events[|s.events|..])
  {
    var t := FetchOne(s, p, pos, AcceptedNow(p.req, statuses, pos), live);
    FetchOneFacts(s, p, pos, statuses, live);
    if BecomesReady(s.groups, p, pos, statuses, live) {
      var e := ReadyEvent(s.groups, p, pos, pos.refs[0]);
      var seen := FetchPositionAt(p.client, pos.key, pos.offset, p.sequence);
      assert HoldsAt(s.groups, e.group, e.member, e.key, e.assignment);
      MarkReadySettles(s.groups, p, pos, sequence, pending, trace);
      assert t.events[|s.events|..] == [seen, e];
    }
  }

  lemma MarkReadySettles(groups: Groups, p: Pending, pos: FetchPosition, sequence: nat, pending: map<nat, Pending>,
                         trace: seq<Event>)
    requires GroupsInv(groups, sequence, pending) && |pos.refs| == 1
    requires HoldsAt(groups, pos.refs[0].group, pos.refs[0].member, pos.key, pos.refs[0].assignment)
    requires !IsReady(groups, pos.refs[0].group, pos.refs[0].member, pos.key)
    requires AllSettled(groups, sequence, pending.Keys, trace) && ReadyDistinct(trace)
    ensures var ref := pos.refs[0];
      var all := trace + [FetchPositionAt(p.client, pos.key, pos.offset, p.sequence), ReadyEvent(groups, p, pos, ref)];
      && AllSettled(MarkReady(groups, ref.group, ref.member, pos.key), sequence, pending.Keys, all)
      && ReadyDistinct(all)
  {
    var ref := pos.refs[0];
    var e, after := ReadyEvent(groups, p, pos, ref), MarkReady(groups, ref.group, ref.member, pos.key);
    assert GroupInv(groups[ref.group], sequence, pending);
    assert MemberInv(groups[ref.group].members[ref.member], groups[ref.group].epoch, sequence, pending.Keys);
    MarkReadyFacts(groups, ref.group, ref.member, pos.key);
    forall i | 0 <= i < |trace| ensures !SameReady(trace[i], e) && Settled(after, sequence, pending.Keys, trace[i]) {
      assert Settled(groups, sequence, pending.Keys, trace[i]);
    }
  }

  lemma SettledKept(a: Groups, b: Groups, newest: nat, sequence: nat, pending: set<nat>, sequence': nat,
                    pending': set<nat>, trace: seq<Event>)
    requires AllSettled(a, sequence, pending, trace) && Origin(a, b, newest)
    requires sequence <= sequence' && (newest in pending || newest == 0)
    requires forall n :: n in pending' ==> n in pending || n > sequence
    ensures AllSettled(b, sequence', pending', trace)
  {
    forall i | 0 <= i < |trace| ensures Settled(b, sequence', pending', trace[i]) {
      assert Settled(a, sequence, pending, trace[i]);
    }
  }

  /** The events of a step other than a fetch response are never "ready". */
  lemma OnlyFetchIsReady(s: System, step: Step, e: Event)
    requires Enabled(s, step) && e in Emits(s, step) && e.GroupReady?
    ensures step.Responded? && s.pending[step.sequence].req.Fetch? && step.response.error == 0
    ensures Admitted(s.pending[step.sequence], step.live, step.owner)
  {
    if step.Responded? {
      var p := s.pending[step.sequence];
      if Admitted(p, step.live, step.owner) {
        match p.req {
          case JoinGroup(_) =>
          case SyncGroup(_, _, _) =>
          case Heartbeat(_, _) =>
          case LeaveGroup(_, _, _) =>
          case Fetch(_, _, _, _) =>
          case OtherRequest =>
        }
      }
    }
  }

  lemma {:induction false} TraceSettled(run: Run, i: nat)
    requires IsRun(run) && i <= |run.steps|
    ensures AllSettled(Groups(run, i), run.states[i].obs.sequence, run.states[i].pending.Keys, Trace(run, i))
    ensures ReadyDistinct(Trace(run, i))
  {
    if i > 0 {
      TraceSettled(run, i - 1);
      RunKeepsInv(run, i - 1);
      StepSettled(run.states[i - 1], run.steps[i - 1], Trace(run, i - 1));
    }
  }

  lemma StepSettled(s: System, step: Step, trace: seq<Event>)
    requires Inv(s) && Enabled(s, step)
    requires AllSettled(s.obs.groups, s.obs.sequence, s.pending.Keys, trace) && ReadyDistinct(trace)
    ensures var t := After(s, step);
      AllSettled(t.obs.groups, t.obs.sequence, t.pending.Keys, trace + Emits(s, step))
    ensures ReadyDistinct(trace + Emits(s, step))
  {
    var t := After(s, step);
    StepKeepsInv(s, step);
    StepEvolves(s, step);
    SettledKept(s.obs.groups, t.obs.groups, FreshIn(step), s.obs.sequence, s.pending.Keys, t.obs.sequence,
                t.pending.Keys, trace);
    if exists e :: e in Emits(s, step) && e.GroupReady? {
      var e :| e in Emits(s, step) && e.GroupReady?;
      OnlyFetchIsReady(s, step, e);
      var p, r := s.pending[step.sequence], step.response;
      var start := FetchState(s.obs.groups, s.obs.ambiguous, []);
      AnsweredKeepsInv(s.obs.groups, "", Group(-1, 0, map[]), p.sequence, s.obs.sequence, s.pending);
      FetchSettles(start, p, p.positions, StatusesOf(s.obs.topics, r.statuses), step.live, s.obs.sequence,
                   s.pending - {p.sequence}, trace);
    }
  }

  /** Over a whole run each (group, member, assignment, partition) becomes ready at most once. */
  lemma ReadyAtMostOnce(run: Run)
    requires IsRun(run)
    ensures ReadyDistinct(Trace(run, |run.steps|))
  {
    TraceSettled(run, |run.steps|);
  }

  // --------------------------------------------------------------- ready only after a sync

  ghost predicate SyncAt(trace: seq<Event>, k: int, group: string, member: string, assignment: nat) {
    && 0 <= k < |trace| && trace[k].GroupSync?
    && trace[k].group == group && trace[k].member == member && trace[k].assignment == assignment
  }

  // The assignment was announced and the group has not been rebalanced since;
  // every earlier rebalance had a smaller epoch.
  ghost predicate Backed(trace: seq<Event>, group: string, member: string, assignment: nat) {
    exists k :: SyncAt(trace, k, group, member, assignment) && !Rebalanced(trace[k..], group)
                && OlderRebalances(trace, k, group, assignment)
  }

  ghost predicate OlderRebalances(trace: seq<Event>, k: int, group: string, assignment: nat) {
    forall i :: 0 <= i < k < |trace| && trace[i].GroupRebalance? && trace[i].group == group ==> trace[i].epoch < assignment
  }

  ghost predicate AllBacked(groups: Groups, trace: seq<Event>) {
    forall g, m, k, n :: HoldsAt(groups, g, m, k, n) ==> Backed(trace, g, m, n)
  }

  ghost predicate EpochsReached(groups: Groups, trace: seq<Event>) {
    forall i :: 0 <= i < |trace| && trace[i].GroupRebalance? ==> EpochReached(groups, trace[i])
  }

  lemma StepBacked(s: System, step: Step, trace: seq<Event>)
    requires Inv(s) && Enabled(s, step) && AllBacked(s.obs.groups, trace) && EpochsReached(s.obs.groups, trace)
    ensures AllBacked(After(s, step).obs.groups, trace + Emits(s, step))
    ensures EpochsReached(After(s, step).obs.groups, trace + Emits(s, step))
  {
    StepEvolves(s, step);
    StepKeepsInv(s, step);
    var a, b, events := s.obs.groups, After(s, step).obs.groups, Emits(s, step);
    assert EpochsReached(b, trace + events) by {
      forall i | 0 <= i < |trace| && trace[i].GroupRebalance? ensures EpochReached(b, trace[i]) {
        assert GroupLater(a[trace[i].group], b[trace[i].group]);
      }
    }
    var t := After(s, step);
    forall g, m, k, n | HoldsAt(b, g, m, k, n) ensures Backed(trace + events, g, m, n) {
      assert GroupInv(b[g], t.obs.sequence, t.pending);
      assert MemberInv(b[g].members[m], b[g].epoch, t.obs.sequence, t.pending.Keys);
      BackedKept(a, b, FreshIn(step), events, trace, g, m, k, n);
    }
  }

  lemma BackedKept(a: Groups, b: Groups, newest: nat, events: seq<Event>, trace: seq<Event>,
                   g: string, m: string, k: TopicPartition, n: nat)
    requires Evolves(a, b, newest, events) && AllBacked(a, trace) && EpochsReached(b, trace + events)
    requires HoldsAt(b, g, m, k, n) && b[g].epoch < n
    ensures Backed(trace + events, g, m, n)
  {
    var all := trace + events;
    assert !Rebalanced(events, g);
    var at: int;
    if n == newest {
      at := |all| - 1;
      assert all[at] == events[|events| - 1];
    } else {
      assert HoldsAt(a, g, m, k, n);
      at :| SyncAt(trace, at, g, m, n) && !Rebalanced(trace[at..], g) && OlderRebalances(trace, at, g, n);
      forall i | 0 <= i < |all[at..]| ensures !(all[at..][i].GroupRebalance? && all[at..][i].group == g) {
        if at + i < |trace| {
          assert all[at..][i] == trace[at..][i];
        } else {
          assert all[at..][i] == events[at + i - |trace|];
        }
      }
    }
    assert SyncAt(all, at, g, m, n);
    forall i | 0 <= i < at && all[i].GroupRebalance? && all[i].group == g ensures all[i].epoch < n {
      assert EpochReached(b, all[i]);
    }
    assert OlderRebalances(all, at, g, n);
    if n == newest {
      assert all[at..] == [all[at]];
    }
  }

  lemma {:induction false} TraceBacked(run: Run, i: nat)
    requires IsRun(run) && i <= |run.steps|
    ensures AllBacked(Groups(run, i), Trace(run, i)) && EpochsReached(Groups(run, i), Trace(run, i))
  {
    if i > 0 {
      TraceBacked(run, i - 1);
      RunKeepsInv(run, i - 1);
      StepBacked(run.states[i - 1], run.steps[i - 1], Trace(run, i - 1));
    }
  }

  /**
    When a step declares a member ready, its assignment was announced by an earlier
    SyncGroup event after which the group was not rebalanced, and every rebalance
    before that event has a smaller epoch: nothing becomes ready after a rebalance
    until a newer SyncGroup response lands.
   */
  lemma ReadyNeedsNewerSync(run: Run, j: nat, e: Event)
    requires IsRun(run) && j < |run.steps| && e in Emits(run.states[j], run.steps[j]) && e.GroupReady?
    ensures Backed(Trace(run, j), e.group, e.member, e.assignment)
  {
    TraceBacked(run, j);
    var pos := ReadyWitness(run.states[j], run.steps[j], e);
    assert HoldsAt(Groups(run, j), e.group, e.member, e.key, e.assignment);
  }

  // --------------------------------------------------------------- ready exactly when eligible

  ghost function PendingOf(s: System, step: Step): Pending
    requires step.Responded? && step.sequence in s.pending
  {
    s.pending[step.sequence]
  }

  lemma ReadyGrows(a: Groups, b: Groups)
    requires SameButReady(a, b)
    ensures forall g, m, k :: IsReady(a, g, m, k) ==> IsReady(b, g, m, k)
  {
    forall g, m, k | IsReady(a, g, m, k) ensures IsReady(b, g, m, k) {
      assert SameMemberButReady(a[g].members[m], b[g].members[m]);
    }
  }

  // The position that added a ready event was eligible.
  lemma WitnessHere(s: FetchState, p: Pending, pos: FetchPosition, statuses: map<TopicPartition, bool>, live: Liveness,
                    e: Event)
    requires p.req.Fetch? && e.GroupReady? && e !in s.events
    requires e in FetchOne(s, p, pos, AcceptedNow(p.req, statuses, pos), live).events
    ensures ReadyFor(e, p, pos) && BecomesReady(s.groups, p, pos, statuses, live)
  {
    FetchOneFacts(s, p, pos, statuses, live);
    var t := FetchOne(s, p, pos, AcceptedNow(p.req, statuses, pos), live);
    var i :| 0 <= i < |t.events| && t.events[i] == e;
    assert Extends(s.events, t.events);
    NewAt(s.events, t.events, i);
  }

  // ... also before the positions handled ahead of it.
  lemma LastWitness(a: Groups, s: FetchState, p: Pending, pos: FetchPosition, statuses: map<TopicPartition, bool>,
                    live: Liveness, e: Event)
    requires p.req.Fetch? && SameButReady(a, s.groups) && e.GroupReady? && e !in s.events
    requires e in FetchOne(s, p, pos, AcceptedNow(p.req, statuses, pos), live).events
    requires forall g, m, k :: IsReady(a, g, m, k) ==> IsReady(s.groups, g, m, k)
    ensures ReadyFor(e, p, pos) && BecomesReady(a, p, pos, statuses, live)
  {
    WitnessHere(s, p, pos, statuses, live, e);
    EligibleTransfers(a, s.groups, p, pos, statuses, live);
  }

  lemma NewAt(before: seq<Event>, after: seq<Event>, i: nat)
    requires Extends(before, after) && i < |after| && after[i] !in before
    ensures i >= |before|
  {
    assert forall k :: 0 <= k < |before| ==> before[k] == after[..|before|][k] == after[k];
  }

  lemma {:induction false} FetchWitness(s: FetchState, p: Pending, positions: seq<FetchPosition>,
                                        statuses: map<TopicPartition, bool>, live: Liveness, e: Event)
    returns (pos: FetchPosition)
    requires p.req.Fetch? && s.events == []
    requires e in FetchAll(s, p, positions, statuses, live).events && e.GroupReady?
    ensures pos in positions && ReadyFor(e, p, pos) && BecomesReady(s.groups, p, pos, statuses, live)
  {
    var init := positions[..|positions| - 1];
    var most := FetchAll(s, p, init, statuses, live);
    if e in most.events {
      pos := FetchWitness(s, p, init, statuses, live, e);
    } else {
      pos := positions[|positions| - 1];
      FetchAllFacts(s, p, init, statuses, live);
      ReadyGrows(s.groups, most.groups);
      LastWitness(s.groups, most, p, pos, statuses, live, e);
    }
  }

  lemma ReadyWitness(s: System, step: Step, e: Event) returns (pos: FetchPosition)
    requires Enabled(s, step) && e in Emits(s, step) && e.GroupReady?
    ensures step.Responded? && PendingOf(s, step).req.Fetch? && Active(step.live, PendingOf(s, step).source)
    ensures pos in PendingOf(s, step).positions && ReadyFor(e, PendingOf(s, step), pos)
    ensures BecomesReady(s.obs.groups, PendingOf(s, step), pos, StatusesOf(s.obs.topics, step.response.statuses), step.live)
  {
    OnlyFetchIsReady(s, step, e);
    pos := FetchWitness(FetchState(s.obs.groups, s.obs.ambiguous, []), PendingOf(s, step), PendingOf(s, step).positions,
                        StatusesOf(s.obs.topics, step.response.statuses), step.live, e);
  }

  ghost predicate KeysDistinct(positions: seq<FetchPosition>) {
    forall i, j :: 0 <= i < j < |positions| ==> positions[i].key != positions[j].key
  }

  lemma EligibleEmits(a: Groups, s: FetchState, p: Pending, pos: FetchPosition, statuses: map<TopicPartition, bool>,
                      live: Liveness)
    requires p.req.Fetch? && SameButReady(a, s.groups) && Eligible(a, p, pos, statuses, live)
    requires !IsReady(s.groups, pos.refs[0].group, pos.refs[0].member, pos.key)
    ensures var t := FetchOne(s, p, pos, AcceptedNow(p.req, statuses, pos), live);
      exists e :: e in t.events && ReadyFor(e, p, pos)
  {
    EligibleTransfers(a, s.groups, p, pos, statuses, live);
    FetchOneFacts(s, p, pos, statuses, live);
    var t := FetchOne(s, p, pos, AcceptedNow(p.req, statuses, pos), live);
    assert ReadyFor(t.events[|t.events| - 1], p, pos);
  }

  lemma OtherStaysUnready(s: FetchState, p: Pending, pos: FetchPosition, statuses: map<TopicPartition, bool>,
                          live: Liveness, g: string, m: string, k: TopicPartition)
    requires p.req.Fetch? && k != pos.key && !IsReady(s.groups, g, m, k)
    ensures !IsReady(FetchOne(s, p, pos, AcceptedNow(p.req, statuses, pos), live).groups, g, m, k)
  {
    FetchOneFacts(s, p, pos, statuses, live);
    if BecomesReady(s.groups, p, pos, statuses, live) {
      MarkReadyFacts(s.groups, pos.refs[0].group, pos.refs[0].member, pos.key);
    }
  }

  lemma {:induction false} KeyStaysUnready(s: FetchState, p: Pending, positions: seq<FetchPosition>,
                                           statuses: map<TopicPartition, bool>, live: Liveness,
                                           g: string, m: string, k: TopicPartition)
    requires p.req.Fetch? && !IsReady(s.groups, g, m, k) && forall i :: 0 <= i < |positions| ==> positions[i].key != k
    ensures !IsReady(FetchAll(s, p, positions, statuses, live).groups, g, m, k)
  {
    if |positions| > 0 {
      var init := positions[..|positions| - 1];
      KeyStaysUnready(s, p, init, statuses, live, g, m, k);
      OtherStaysUnready(FetchAll(s, p, init, statuses, live), p, positions[|positions| - 1], statuses, live, g, m, k);
    }
  }

  lemma {:induction false} FetchComplete(s: FetchState, p: Pending, positions: seq<FetchPosition>,
                                         statuses: map<TopicPartition, bool>, live: Liveness, pos: FetchPosition)
    requires p.req.Fetch? && s.events == [] && KeysDistinct(positions) && pos in positions
    requires BecomesReady(s.groups, p, pos, statuses, live)
    ensures exists e :: e in FetchAll(s, p, positions, statuses, live).events && ReadyFor(e, p, pos)
  {
    var init, last := positions[..|positions| - 1], positions[|positions| - 1];
    var most := FetchAll(s, p, init, statuses, live);
    if pos in init {
      FetchComplete(s, p, init, statuses, live, pos);
      var e :| e in most.events && ReadyFor(e, p, pos);
      FetchOneKeeps(most, p, last, statuses, live);
      assert e in FetchAll(s, p, positions, statuses, live).events;
    } else {
      assert pos == last;
      KeyStaysUnready(s, p, init, statuses, live, pos.refs[0].group, pos.refs[0].member, pos.key);
      FetchAllFacts(s, p, init, statuses, live);
      EligibleEmits(s.groups, most, p, pos, statuses, live);
    }
  }

  // Field by field: the position is accepted, its one captured assignment still stands, its member is the
  // only one that may claim the fetch, owners are known on both sides or on neither, and it was not ready.
  ghost predicate ReadyByFields(groups: Groups, p: Pending, pos: FetchPosition, statuses: map<TopicPartition, bool>,
                                live: Liveness)
    requires p.req.Fetch?
  {
    && (if pos.key in statuses then statuses[pos.key] else pos.accepted && p.req.sessionId > 0 && p.req.sessionEpoch > 0)
    && |pos.refs| == 1
    && var ref := pos.refs[0];
    && ref.group in groups && ref.member in groups[ref.group].members
    && var g, m := groups[ref.group], groups[ref.group].members[ref.member];
    && g.epoch == ref.epoch && g.generation == ref.generation && m.assignment == ref.assignment && m.source == ref.source
    && pos.key in m.partitions && !m.partitions[pos.key]
    && Claimants(groups, pos.key, p.client, p.source, live) == {(ref.group, ref.member)}
    && (p.source.instance == "" <==> m.source.instance == "")
  }

  lemma BecomesReadyByFields(groups: Groups, p: Pending, pos: FetchPosition, statuses: map<TopicPartition, bool>,
                             live: Liveness)
    requires p.req.Fetch?
    ensures BecomesReady(groups, p, pos, statuses, live) <==> ReadyByFields(groups, p, pos, statuses, live)
  {
    HoldersAreClaimants(groups, pos.key, p.client, p.source, live);
    if BecomesReady(groups, p, pos, statuses, live) {
      var ref := pos.refs[0];
      Singleton(Holders(groups, pos.key, p.client, p.source, live), (ref.group, ref.member));
    }
    if ReadyByFields(groups, p, pos, statuses, live) {
      var ref := pos.refs[0];
      assert (ref.group, ref.member) in Claimants(groups, pos.key, p.client, p.source, live);
    }
  }

  /**
    A fetch response of a run declares a position ready if and only if it accepts
    the position, one assignment was captured and still stands, one member holds the
    partition, ownership is known on both sides or on neither, and the partition was
    not ready before.
   */
  lemma ReadyExactly(run: Run, j: nat, pos: FetchPosition)
    requires IsRun(run) && j < |run.steps| && run.steps[j].Responded?
    requires var p := PendingOf(run.states[j], run.steps[j]);
      && p.req.Fetch? && pos in p.positions && Admitted(p, run.steps[j].live, run.steps[j].owner)
      && run.steps[j].response.error == 0
    ensures var s, step := run.states[j], run.steps[j];
      ReadyByFields(s.obs.groups, PendingOf(s, step), pos, StatusesOf(s.obs.topics, step.response.statuses), step.live)
      <==> exists e :: e in Emits(s, step) && ReadyFor(e, PendingOf(s, step), pos)
  {
    var s, step := run.states[j], run.steps[j];
    var i := PendingWasRequested(run, j, step.sequence);
    assert KeysDistinct(PendingOf(s, step).positions);
    ResponseReadyExactly(s, step, pos);
    BecomesReadyByFields(s.obs.groups, PendingOf(s, step), pos, StatusesOf(s.obs.topics, step.response.statuses), step.live);
  }

  lemma ResponseReadyExactly(s: System, step: Step, pos: FetchPosition)
    requires Enabled(s, step) && step.Responded?
    requires var p := PendingOf(s, step);
      p.req.Fetch? && pos in p.positions && KeysDistinct(p.positions) && Admitted(p, step.live, step.owner)
    requires step.response.error == 0
    ensures BecomesReady(s.obs.groups, PendingOf(s, step), pos, StatusesOf(s.obs.topics, step.response.statuses), step.live)
       <==> exists e :: e in Emits(s, step) && ReadyFor(e, PendingOf(s, step), pos)
  {
    var p, statuses := PendingOf(s, step), StatusesOf(s.obs.topics, step.response.statuses);
    if BecomesReady(s.obs.groups, p, pos, statuses, step.live) {
      FetchComplete(FetchState(s.obs.groups, s.obs.ambiguous, []), p, p.positions, statuses, step.live, pos);
    }
    if exists e :: e in Emits(s, step) && ReadyFor(e, p, pos) {
      var e :| e in Emits(s, step) && ReadyFor(e, p, pos);
      var q := ReadyWitness(s, step, e);
      assert q == pos;
    }
  }

  // --------------------------------------------------------------- what "ready" proves

  ghost predicate AsAnnounced(groups: Groups, e: Event)
    requires e.GroupReady?
  {
    && HoldsAt(groups, e.group, e.member, e.key, e.assignment)
    && groups[e.group].epoch == e.epoch && groups[e.group].generation == e.generation
  }

  lemma SandwichedAsAnnounced(a: Groups, b: Groups, c: Groups, e: Event)
    requires e.GroupReady? && Later(a, b) && Later(b, c) && AsAnnounced(a, e) && AsAnnounced(c, e)
    ensures AsAnnounced(b, e)
  {
    assert GroupLater(a[e.group], b[e.group]) && GroupLater(b[e.group], c[e.group]);
    assert MemberLater(a[e.group].members[e.member], b[e.group].members[e.member]);
    assert MemberLater(b[e.group].members[e.member], c[e.group].members[e.member]);
  }

  // Ownership is absent on both sides, or proven to be the same process instance.
  ghost predicate OwnershipAgrees(fetcher: Source, member: Source) {
    if fetcher.Known() then member.Known() && fetcher.instance == member.instance else !member.Known()
  }

  // The announced member has the announced client and a process not known to be gone; every other
  // holder of the partition has another client, a process known to be gone, or one known to be another.
  ghost predicate SoleClaim(groups: Groups, e: Event, source: Source, live: Liveness)
    requires e.GroupReady? && AsAnnounced(groups, e)
  {
    var m := groups[e.group].members[e.member];
    && m.client == e.client && (m.source.instance == "" || live(m.source))
    && forall g, n :: HoldsKey(groups, g, n, e.key) && (g, n) != (e.group, e.member) ==>
         var other := groups[g].members[n];
         || other.client != e.client || (other.source.instance != "" && !live(other.source))
         || (source.instance != "" && other.source.instance != "" && source.instance != other.source.instance)
  }

  lemma OnlyHolderIsSole(groups: Groups, e: Event, source: Source, live: Liveness)
    requires e.GroupReady? && AsAnnounced(groups, e)
    requires |Holders(groups, e.key, e.client, source, live)| == 1
    requires (e.group, e.member) in Holders(groups, e.key, e.client, source, live)
    ensures SoleClaim(groups, e, source, live)
  {
    var holders := Holders(groups, e.key, e.client, source, live);
    Singleton(holders, (e.group, e.member));
    HoldersAreClaimants(groups, e.key, e.client, source, live);
    forall g, n | HoldsKey(groups, g, n, e.key) && (g, n) != (e.group, e.member)
      ensures !Claims(groups[g].members[n], e.key, e.client, source, live)
    {
      assert (g, n) !in holders;
    }
  }

  /**
    In every interleaving, a member is declared ready only by the response to a Fetch
    that was requested in some earlier step i, such that in every state from that
    request to the response the member held the partition under the announced
    assignment, epoch and generation; both at the request and at the response it had the
    fetching client and no other holder could have sent the Fetch; and the ownership of the
    Fetch and of the member agree.
   */
  lemma ReadyIsSound(run: Run, j: nat, e: Event) returns (i: nat)
    requires IsRun(run) && j < |run.steps| && e in Emits(run.states[j], run.steps[j]) && e.GroupReady?
    ensures i < j && run.steps[i].Requested? && run.steps[i].req.Fetch? && run.steps[i].client == e.client
    ensures run.steps[j].Responded? && run.steps[j].sequence == run.states[i].obs.sequence + 1
    ensures e.offset >= 0 && e.key.topic != ""
    ensures forall k :: i <= k <= j ==> AsAnnounced(Groups(run, k), e)
    ensures var q := run.steps[i];
      && SoleClaim(Groups(run, i), e, q.source, q.live) && SoleClaim(Groups(run, j), e, q.source, run.steps[j].live)
      && OwnershipAgrees(q.source, Groups(run, j)[e.group].members[e.member].source)
  {
    var s, step := run.states[j], run.steps[j];
    var pos := ReadyWitness(s, step, e);
    i := PendingWasRequested(run, j, step.sequence);
    var q := run.steps[i];
    var ref := pos.refs[0];
    assert AsAnnounced(Groups(run, j), e);
    assert AsAnnounced(Groups(run, i), e) by {
      assert pos in q.positions;
      assert Captures(pos.refs, Groups(run, i), Holders(Groups(run, i), e.key, q.client, q.source, q.live));
      assert (ref.group, ref.member) in Holders(Groups(run, i), e.key, q.client, q.source, q.live);
    }
    forall k | i <= k <= j ensures AsAnnounced(Groups(run, k), e) {
      RunIsMonotone(run, i, k);
      RunIsMonotone(run, k, j);
      SandwichedAsAnnounced(Groups(run, i), Groups(run, k), Groups(run, j), e);
    }
    assert Captures(pos.refs, Groups(run, i), Holders(Groups(run, i), e.key, q.client, q.source, q.live));
    OnlyHolderIsSole(Groups(run, i), e, q.source, q.live);
    OnlyHolderIsSole(Groups(run, j), e, q.source, step.live);
  }

  lemma Singleton<T>(s: set<T>, x: T)
    requires |s| == 1 && x in s
    ensures s == {x}
  {
    assert |s - {x}| == 0;
    assert s == {x} + (s - {x});
  }
}
