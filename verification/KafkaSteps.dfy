/**
  What one step of the Kafka observer keeps. The observer is put beside the
  table of requests that are still unanswered; a response consumes its request.
 */
module KafkaSteps {
  import opened Options
  import opened Ownership
  import opened KafkaState

  datatype System = System(obs: Observer, pending: map<nat, Pending>)

  // Requests and responses of any number of connections, interleaved in any order.
  datatype Step =
    | Requested(req: Request, client: string, source: Source, live: Liveness, positions: seq<FetchPosition>)
    | Responded(sequence: nat, response: Response, live: Liveness, owner: Option<Source>)
    | Abandoned(sequence: nat)
    | Learned(topics: map<TopicId, string>)

  ghost predicate Enabled(s: System, step: Step) {
    step.Responded? ==> step.sequence in s.pending && Answers(s.pending[step.sequence].req, step.response)
  }

  // A request records what it captured when it was made.
  ghost predicate Captured(s: System, step: Step) {
    step.Requested? ==>
      IsPending(s.obs, step.req, step.client, step.source, step.live,
                Pending(step.req, step.client, s.obs.sequence + 1, step.source, step.positions))
  }

  ghost function After(s: System, step: Step): System
    requires Enabled(s, step)
  {
    match step
    case Requested(req, client, source, live, positions) =>
      var n := s.obs.sequence + 1;
      System(AfterRequest(s.obs, req, source, live), s.pending[n := Pending(req, client, n, source, positions)])
    case Responded(n, r, live, owner) =>
      System(AfterResponse(s.obs, s.pending[n], r, live, owner), s.pending - {n})
    case Abandoned(n) => s.(pending := s.pending - {n})
    case Learned(topics) => s.(obs := s.obs.(topics := topics))
  }

  ghost function Emits(s: System, step: Step): seq<Event>
    requires Enabled(s, step)
  {
    match step
    case Requested(req, _, source, live, _) => RequestEvents(s.obs, req, source, live)
    case Responded(n, r, live, owner) => ResponseEvents(s.obs, s.pending[n], r, live, owner)
    case Abandoned(_) => []
    case Learned(_) => []
  }

  // --------------------------------------------------------------- the invariant

  ghost predicate PendingInv(s: System) {
    forall n :: n in s.pending ==> s.pending[n].sequence == n && 1 <= n <= s.obs.sequence
  }

  // An assignment number is the sequence of an answered request, and a group's
  // partitions were all assigned after its last invalidation.
  ghost predicate MemberInv(m: Member, epoch: nat, sequence: nat, pending: set<nat>) {
    m.assignment <= sequence && m.assignment !in pending && (m.partitions != map[] ==> epoch < m.assignment)
  }

  ghost predicate GroupInv(g: Group, sequence: nat, pending: map<nat, Pending>) {
    && g.epoch <= sequence
    && (forall n :: n in pending && !pending[n].req.JoinGroup? ==> n != g.epoch)
    && (forall m :: m in g.members ==> MemberInv(g.members[m], g.epoch, sequence, pending.Keys))
  }

  ghost predicate GroupsInv(groups: Groups, sequence: nat, pending: map<nat, Pending>) {
    forall name :: name in groups ==> GroupInv(groups[name], sequence, pending)
  }

  ghost predicate Inv(s: System) {
    PendingInv(s) && GroupsInv(s.obs.groups, s.obs.sequence, s.pending)
  }

  // --------------------------------------------------------------- two-state relations

  ghost predicate MemberLater(x: Member, y: Member) {
    && x.assignment <= y.assignment
    && (x.assignment == y.assignment ==>
          && x.client == y.client && x.source == y.source && x.partitions.Keys == y.partitions.Keys
          && forall k :: k in x.partitions && x.partitions[k] ==> y.partitions[k])
  }

  ghost predicate GroupLater(g: Group, h: Group) {
    && g.epoch <= h.epoch && g.generation <= h.generation
    && (g.epoch == h.epoch ==>
          forall m :: m in g.members ==> m in h.members && MemberLater(g.members[m], h.members[m]))
  }

  // Epochs and generations never decrease; within an epoch members stay and their
  // assignments never decrease; within an assignment only readiness can change.
  ghost predicate Later(a: Groups, b: Groups) {
    forall name :: name in a ==> name in b && GroupLater(a[name], b[name])
  }

  ghost predicate HoldsAt(groups: Groups, group: string, member: string, key: TopicPartition, assignment: nat) {
    HoldsKey(groups, group, member, key) && groups[group].members[member].assignment == assignment
  }

  ghost predicate IsReady(groups: Groups, group: string, member: string, key: TopicPartition) {
    HoldsKey(groups, group, member, key) && groups[group].members[member].partitions[key]
  }

  // Partitions are held either as before or under the assignment `newest`.
  ghost predicate Origin(a: Groups, b: Groups, newest: nat) {
    forall g, m, k, n :: HoldsAt(b, g, m, k, n) && n != newest ==>
                           HoldsAt(a, g, m, k, n) && (IsReady(a, g, m, k) ==> IsReady(b, g, m, k))
  }

  ghost predicate Rebalanced(events: seq<Event>, group: string) {
    exists i :: 0 <= i < |events| && events[i].GroupRebalance? && events[i].group == group
  }

  ghost predicate EpochReached(groups: Groups, e: Event)
    requires e.GroupRebalance?
  {
    e.group in groups && e.epoch <= groups[e.group].epoch
  }

  // A rebalanced group has reached the announced epoch and holds nothing, and a fresh assignment is announced last.
  ghost predicate Announced(b: Groups, newest: nat, events: seq<Event>) {
    && (forall g, m, k :: Rebalanced(events, g) ==> !HoldsKey(b, g, m, k))
    && (forall i :: 0 <= i < |events| && events[i].GroupRebalance? ==> EpochReached(b, events[i]))
    && (forall g, m, k :: HoldsAt(b, g, m, k, newest) ==>
          |events| > 0 && var e := events[|events| - 1];
          e.GroupSync? && e.group == g && e.member == m && e.assignment == newest)
  }

  ghost predicate Evolves(a: Groups, b: Groups, newest: nat, events: seq<Event>) {
    Later(a, b) && Origin(a, b, newest) && Announced(b, newest, events)
  }

  lemma LaterTransitive(a: Groups, b: Groups, c: Groups)
    requires Later(a, b) && Later(b, c)
    ensures Later(a, c)
  {
    forall name | name in a ensures name in c && GroupLater(a[name], c[name]) {
      var g, h := a[name], c[name];
      if g.epoch == h.epoch {
        forall m | m in g.members ensures m in h.members && MemberLater(g.members[m], h.members[m]) {
          assert MemberLater(g.members[m], b[name].members[m]);
          assert MemberLater(b[name].members[m], h.members[m]);
        }
      }
    }
  }

  // --------------------------------------------------------------- steps on groups

  // No held partition was assigned at `n`, because `n` is unanswered (or zero).
  lemma NothingHeldAt(groups: Groups, n: nat, sequence: nat, pending: map<nat, Pending>)
    requires GroupsInv(groups, sequence, pending) && (n in pending || n == 0)
    ensures forall g, m, k :: !HoldsAt(groups, g, m, k, n)
  {
    forall g, m, k ensures !HoldsAt(groups, g, m, k, n) {
      if HoldsKey(groups, g, m, k) {
        assert MemberInv(groups[g].members[m], groups[g].epoch, sequence, pending.Keys);
      }
    }
  }

  lemma TouchEvolves(groups: Groups, name: string, newest: nat, sequence: nat, pending: map<nat, Pending>)
    requires GroupsInv(groups, sequence, pending) && (newest in pending || newest == 0)
    ensures Evolves(groups, Touch(groups, name), newest, [])
    ensures Evolves(groups, groups, newest, [])
  {
    NothingHeldAt(groups, newest, sequence, pending);
    var after := Touch(groups, name);
    assert forall g, m, k, n :: HoldsAt(after, g, m, k, n) ==> HoldsAt(groups, g, m, k, n);
  }

  // Clearing a group's partitions under a later epoch.
  lemma InvalidateEvolves(groups: Groups, reduced: Groups, name: string, n: nat, newest: nat, sequence: nat,
                          pending: map<nat, Pending>, events: seq<Event>)
    requires GroupsInv(groups, sequence, pending) && (newest in pending || newest == 0)
    requires name in reduced && reduced == groups[name := reduced[name]]
    requires reduced[name].epoch == GroupOf(groups, name).epoch < n
    requires reduced[name].generation == GroupOf(groups, name).generation
    requires forall i :: 0 <= i < |events| && events[i].GroupRebalance? ==> events[i].group == name && events[i].epoch == n
    ensures Evolves(groups, Invalidate(reduced, name, n), newest, events)
  {
    NothingHeldAt(groups, newest, sequence, pending);
    InvalidateOrigin(groups, reduced, name, n, newest);
  }

  // What is held after clearing a group was held before, in another group.
  lemma InvalidateOrigin(groups: Groups, reduced: Groups, name: string, n: nat, newest: nat)
    requires name in reduced && reduced == groups[name := reduced[name]]
    ensures Origin(groups, Invalidate(reduced, name, n), newest)
    ensures forall m, k :: !HoldsKey(Invalidate(reduced, name, n), name, m, k)
    ensures forall g, m, k, a :: HoldsAt(Invalidate(reduced, name, n), g, m, k, a) ==> HoldsAt(groups, g, m, k, a)
  {
    var after := Invalidate(reduced, name, n);
    assert forall m, k :: !HoldsKey(after, name, m, k);
    assert forall g, m, k, a :: HoldsAt(after, g, m, k, a) ==> g != name && HoldsAt(groups, g, m, k, a);
    assert forall g, m, k :: IsReady(groups, g, m, k) && g != name ==> IsReady(after, g, m, k);
  }

  lemma SyncOrigin(groups: Groups, p: Pending, r: Response, sequence: nat, pending: map<nat, Pending>)
    requires GroupsInv(groups, sequence, pending) && p.sequence in pending && p.req.SyncGroup? && r.SyncGroupOk?
    requires SyncAccepted(groups, p, r)
    ensures Origin(groups, AfterSync(groups, p, r), p.sequence)
    ensures forall g, m, k :: HoldsAt(AfterSync(groups, p, r), g, m, k, p.sequence) ==> g == p.req.group && m == p.req.member
  {
    NothingHeldAt(groups, p.sequence, sequence, pending);
    var after := AfterSync(groups, p, r);
    assert forall g, m, k, n :: HoldsAt(after, g, m, k, n) && n != p.sequence ==> HoldsAt(groups, g, m, k, n);
    assert forall g, m, k, n :: HoldsAt(after, g, m, k, n) && n != p.sequence && IsReady(groups, g, m, k)
                                ==> IsReady(after, g, m, k);
    forall g, m, k | HoldsAt(after, g, m, k, p.sequence) ensures g == p.req.group && m == p.req.member {
      if g != p.req.group || m != p.req.member {
        assert HoldsAt(groups, g, m, k, p.sequence);
      }
    }
  }

  lemma SyncEvolves(groups: Groups, p: Pending, r: Response, sequence: nat, pending: map<nat, Pending>)
    requires GroupsInv(groups, sequence, pending) && p.sequence in pending && p.req.SyncGroup? && r.SyncGroupOk?
    requires SyncAccepted(groups, p, r)
    ensures Evolves(groups, AfterSync(groups, p, r), p.sequence, SyncEvents(groups, p, r))
  {
    SyncOrigin(groups, p, r, sequence, pending);
    var events := SyncEvents(groups, p, r);
    var name := p.req.group;
    assert forall i :: 0 <= i < |events| ==> !events[i].GroupRebalance?;
    if name in groups && p.req.member in groups[name].members {
      assert MemberInv(groups[name].members[p.req.member], groups[name].epoch, sequence, pending.Keys);
    }
  }

  lemma JoinAcceptedEvolves(groups: Groups, name: string, g: Group, newest: nat, sequence: nat, pending: map<nat, Pending>,
                            e: Event)
    requires GroupsInv(groups, sequence, pending) && newest in pending && !e.GroupRebalance?
    requires var h := GroupOf(groups, name);
      && g.epoch == h.epoch && h.generation <= g.generation
      && (forall m :: m in h.members ==> m in g.members && g.members[m] == h.members[m])
      && (forall m :: m in g.members ==> m in h.members || g.members[m].partitions == map[])
    ensures Evolves(groups, groups[name := g], newest, [e])
  {
    NothingHeldAt(groups, newest, sequence, pending);
    var after := groups[name := g];
    assert forall g, m, k, n :: HoldsAt(after, g, m, k, n) ==> HoldsAt(groups, g, m, k, n);
    assert forall g, m, k :: IsReady(groups, g, m, k) ==> IsReady(after, g, m, k);
  }

  lemma JoinEvolves(groups: Groups, p: Pending, r: Response, sequence: nat, pending: map<nat, Pending>)
    requires GroupsInv(groups, sequence, pending) && p.sequence in pending && p.req.JoinGroup? && r.JoinGroupOk?
    ensures Evolves(groups, AfterJoin(groups, p, r), p.sequence, JoinEvents(groups, p, r))
  {
    var name := p.req.group;
    if r.error != 0 || r.generation < GroupOf(groups, name).generation {
      TouchEvolves(groups, name, p.sequence, sequence, pending);
    } else {
      JoinAcceptedEvolves(groups, name, AfterJoin(groups, p, r)[name], p.sequence, sequence, pending,
                          JoinEvents(groups, p, r)[0]);
    }
  }

  // --------------------------------------------------------------- fetch responses on groups

  ghost predicate SameMemberButReady(x: Member, y: Member) {
    && x.client == y.client && x.source == y.source && x.assignment == y.assignment
    && x.partitions.Keys == y.partitions.Keys
    && forall k :: k in x.partitions && x.partitions[k] ==> y.partitions[k]
  }

  ghost predicate SameGroupButReady(g: Group, h: Group) {
    && g.epoch == h.epoch && g.generation == h.generation && g.members.Keys == h.members.Keys
    && forall m :: m in g.members ==> SameMemberButReady(g.members[m], h.members[m])
  }

  // Only readiness flags differ, and only from false to true.
  ghost predicate SameButReady(a: Groups, b: Groups) {
    a.Keys == b.Keys && forall name :: name in a ==> SameGroupButReady(a[name], b[name])
  }

  lemma SameButReadyTransitive(a: Groups, b: Groups, c: Groups)
    requires SameButReady(a, b) && SameButReady(b, c)
    ensures SameButReady(a, c)
  {
    forall name | name in a ensures SameGroupButReady(a[name], c[name]) {
      forall m | m in a[name].members ensures SameMemberButReady(a[name].members[m], c[name].members[m]) {
        assert SameMemberButReady(b[name].members[m], c[name].members[m]);
      }
    }
  }

  lemma SameButReadyHolders(a: Groups, b: Groups, key: TopicPartition, client: string, source: Source, live: Liveness)
    requires SameButReady(a, b)
    ensures Holders(a, key, client, source, live) == Holders(b, key, client, source, live)
  {
    forall g, m | g in a && m in a[g].members
      ensures HoldsKey(a, g, m, key) == HoldsKey(b, g, m, key)
      ensures MatchesSource(a[g].members[m], client, source, live) == MatchesSource(b[g].members[m], client, source, live)
    {
      assert SameMemberButReady(a[g].members[m], b[g].members[m]);
    }
  }

  lemma SameButReadyCurrent(a: Groups, b: Groups, ref: AssignmentRef, client: string, source: Source, live: Liveness)
    requires SameButReady(a, b)
    ensures StillCurrent(a, ref, client, source, live) == StillCurrent(b, ref, client, source, live)
  {
    if ref.group in a && ref.member in a[ref.group].members {
      assert SameMemberButReady(a[ref.group].members[ref.member], b[ref.group].members[ref.member]);
    }
  }

  // Everything `observeFetch` requires before it declares position `pos` ready.
  ghost predicate Eligible(groups: Groups, p: Pending, pos: FetchPosition, statuses: map<TopicPartition, bool>,
                           live: Liveness)
    requires p.req.Fetch?
  {
    && AcceptedNow(p.req, statuses, pos)
    && |pos.refs| == 1
    && |Holders(groups, pos.key, p.client, p.source, live)| == 1
    && StillCurrent(groups, pos.refs[0], p.client, p.source, live)
    && (p.source.Known() <==> pos.refs[0].source.Known())
    && HoldsKey(groups, pos.refs[0].group, pos.refs[0].member, pos.key)
  }

  ghost predicate ReadyFor(e: Event, p: Pending, pos: FetchPosition) {
    && e.GroupReady? && |pos.refs| == 1
    && e.key == pos.key && e.offset == pos.offset && e.client == p.client
    && e.group == pos.refs[0].group && e.member == pos.refs[0].member && e.assignment == pos.refs[0].assignment
    && e.generation == pos.refs[0].generation && e.epoch == pos.refs[0].epoch
    && e.byProcess == (p.source.Known() && pos.refs[0].source.Known())
  }

  lemma EligibleTransfers(a: Groups, b: Groups, p: Pending, pos: FetchPosition,
                          statuses: map<TopicPartition, bool>, live: Liveness)
    requires p.req.Fetch? && SameButReady(a, b)
    ensures Eligible(a, p, pos, statuses, live) == Eligible(b, p, pos, statuses, live)
  {
    SameButReadyHolders(a, b, pos.key, p.client, p.source, live);
    if |pos.refs| == 1 {
      var ref := pos.refs[0];
      SameButReadyCurrent(a, b, ref, p.client, p.source, live);
      if ref.group in a && ref.member in a[ref.group].members {
        assert SameMemberButReady(a[ref.group].members[ref.member], b[ref.group].members[ref.member]);
      }
    }
  }

  // One position is declared ready exactly when it is eligible and was not ready yet.
  ghost predicate BecomesReady(groups: Groups, p: Pending, pos: FetchPosition, statuses: map<TopicPartition, bool>,
                               live: Liveness)
    requires p.req.Fetch?
  {
    Eligible(groups, p, pos, statuses, live) && !IsReady(groups, pos.refs[0].group, pos.refs[0].member, pos.key)
  }

  ghost predicate Extends(s: seq<Event>, t: seq<Event>) {
    |s| <= |t| && t[..|s|] == s
  }

  lemma FetchOneFacts(s: FetchState, p: Pending, pos: FetchPosition, statuses: map<TopicPartition, bool>, live: Liveness)
    requires p.req.Fetch?
    ensures var t := FetchOne(s, p, pos, AcceptedNow(p.req, statuses, pos), live);
      if BecomesReady(s.groups, p, pos, statuses, live) then
        && t.groups == MarkReady(s.groups, pos.refs[0].group, pos.refs[0].member, pos.key)
        && t.events == s.events + [FetchPositionAt(p.client, pos.key, pos.offset, p.sequence),
                                   ReadyEvent(s.groups, p, pos, pos.refs[0])]
      else
        && t.groups == s.groups
        && Extends(s.events, t.events)
        && forall i :: |s.events| <= i < |t.events| ==> !t.events[i].GroupReady? && !t.events[i].GroupRebalance?
  {
    var holders := Holders(s.groups, pos.key, p.client, p.source, live);
    var key := ClientPartition(p.client, p.source.instance, pos.key);
    var seen := s.(events := s.events + [FetchPositionAt(p.client, pos.key, pos.offset, p.sequence)],
                   ambiguous := s.ambiguous - {key});
    if AcceptedNow(p.req, statuses, pos) && |pos.refs| == 1 && |holders| == 1 {
      AttributeFacts(seen, p, pos, live);
    }
  }

  lemma AttributeFacts(s: FetchState, p: Pending, pos: FetchPosition, live: Liveness)
    requires |pos.refs| == 1
    ensures var t := Attribute(s, p, pos, live);
      var ref := pos.refs[0];
      if && StillCurrent(s.groups, ref, p.client, p.source, live) && (p.source.Known() <==> ref.source.Known())
         && HoldsKey(s.groups, ref.group, ref.member, pos.key) && !IsReady(s.groups, ref.group, ref.member, pos.key)
      then
        && t.groups == MarkReady(s.groups, ref.group, ref.member, pos.key)
        && t.events == s.events + [ReadyEvent(s.groups, p, pos, ref)]
      else
        t.groups == s.groups && (t.events == s.events || t.events == s.events + [AttributionUnavailable(p.client)])
  {
  }

  lemma MarkReadyFacts(groups: Groups, group: string, member: string, key: TopicPartition)
    requires HoldsKey(groups, group, member, key)
    ensures var after := MarkReady(groups, group, member, key);
      && SameButReady(groups, after)
      && forall g, m, k :: IsReady(after, g, m, k) <==> IsReady(groups, g, m, k) || (g == group && m == member && k == key)
  {
  }

  lemma FetchEvolves(o: Observer, p: Pending, r: Response, live: Liveness, sequence: nat, pending: map<nat, Pending>)
    requires GroupsInv(o.groups, sequence, pending) && p.sequence in pending && p.req.Fetch? && r.FetchOk?
    ensures var out := FetchOutcome(o, p, r, live);
      && SameButReady(o.groups, out.groups)
      && Evolves(o.groups, out.groups, p.sequence, out.events)
  {
    NothingHeldAt(o.groups, p.sequence, sequence, pending);
    var start := FetchState(o.groups, o.ambiguous, []);
    var out := FetchOutcome(o, p, r, live);
    if r.error == 0 {
      FetchAllFacts(start, p, p.positions, StatusesOf(o.topics, r.statuses), live);
    }
    SameButReadyLater(o.groups, out.groups, p.sequence);
  }

  lemma SameButReadyLater(a: Groups, b: Groups, newest: nat)
    requires SameButReady(a, b) && forall g, m, k :: !HoldsAt(a, g, m, k, newest)
    ensures Later(a, b) && Origin(a, b, newest) && forall g, m, k :: !HoldsAt(b, g, m, k, newest)
  {
    assert forall g, m, k, n :: HoldsAt(b, g, m, k, n) ==> HoldsAt(a, g, m, k, n);
    assert forall g, m, k :: IsReady(a, g, m, k) ==> IsReady(b, g, m, k);
    forall name | name in a ensures GroupLater(a[name], b[name]) {
      forall m | m in a[name].members ensures MemberLater(a[name].members[m], b[name].members[m]) {
        assert SameMemberButReady(a[name].members[m], b[name].members[m]);
      }
    }
  }

  lemma FetchOneKeeps(s: FetchState, p: Pending, pos: FetchPosition, statuses: map<TopicPartition, bool>, live: Liveness)
    requires p.req.Fetch?
    ensures var t := FetchOne(s, p, pos, AcceptedNow(p.req, statuses, pos), live);
      && SameButReady(s.groups, t.groups)
      && Extends(s.events, t.events)
      && forall i :: |s.events| <= i < |t.events| ==> !t.events[i].GroupRebalance?
  {
    FetchOneFacts(s, p, pos, statuses, live);
    if BecomesReady(s.groups, p, pos, statuses, live) {
      MarkReadyFacts(s.groups, pos.refs[0].group, pos.refs[0].member, pos.key);
    }
  }

  lemma {:induction false} FetchAllFacts(s: FetchState, p: Pending, positions: seq<FetchPosition>,
                                         statuses: map<TopicPartition, bool>, live: Liveness)
    requires p.req.Fetch?
    ensures var t := FetchAll(s, p, positions, statuses, live);
      && SameButReady(s.groups, t.groups)
      && Extends(s.events, t.events)
      && forall i :: |s.events| <= i < |t.events| ==> !t.events[i].GroupRebalance?
  {
    if |positions| > 0 {
      var most := FetchAll(s, p, positions[..|positions| - 1], statuses, live);
      FetchAllFacts(s, p, positions[..|positions| - 1], statuses, live);
      FetchOneKeeps(most, p, positions[|positions| - 1], statuses, live);
      SameButReadyTransitive(s.groups, most.groups, FetchAll(s, p, positions, statuses, live).groups);
    }
  }

  // --------------------------------------------------------------- every step

  function FreshIn(step: Step): nat {
    if step.Responded? then step.sequence else 0
  }

  lemma SyncResponseEvolves(groups: Groups, p: Pending, r: Response, sequence: nat, pending: map<nat, Pending>)
    requires GroupsInv(groups, sequence, pending) && p.sequence in pending && p.req.SyncGroup? && r.SyncGroupOk?
    ensures Evolves(groups, AfterSync(groups, p, r), p.sequence, SyncEvents(groups, p, r))
  {
    if SyncAccepted(groups, p, r) {
      SyncEvolves(groups, p, r, sequence, pending);
    } else {
      TouchEvolves(groups, p.req.group, p.sequence, sequence, pending);
    }
  }

  lemma HeartbeatEvolves(groups: Groups, p: Pending, r: Response, sequence: nat, pending: map<nat, Pending>)
    requires GroupsInv(groups, sequence, pending) && p.req.Heartbeat? && r.HeartbeatOk?
    requires p.sequence in pending && pending[p.sequence] == p && 1 <= p.sequence
    ensures Evolves(groups, AfterHeartbeat(groups, p, r), p.sequence, HeartbeatEvents(groups, p, r))
  {
    var name := p.req.group;
    if HeartbeatInvalidates(groups, p, r) {
      assert name in groups ==> GroupInv(groups[name], sequence, pending);
      InvalidateExistingEvolves(groups, name, p.sequence, p.sequence, HeartbeatError(r.error), sequence, pending);
    } else {
      TouchEvolves(groups, name, p.sequence, sequence, pending);
    }
  }

  lemma LeaveEvolves(groups: Groups, p: Pending, r: Response, sequence: nat, pending: map<nat, Pending>)
    requires GroupsInv(groups, sequence, pending) && p.req.LeaveGroup? && r.LeaveGroupOk?
    requires p.sequence in pending && pending[p.sequence] == p && 1 <= p.sequence
    ensures Evolves(groups, AfterLeave(groups, p, r), p.sequence, LeaveEvents(groups, p, r))
  {
    var name := p.req.group;
    if LeaveAccepted(groups, p, r) {
      assert name in groups ==> GroupInv(groups[name], sequence, pending);
      var g := GroupOf(groups, name);
      var gone := set m | m in Leaving(p, r);
      InvalidateEvolves(groups, groups[name := g.(members := g.members - gone)], name, p.sequence, p.sequence, sequence,
                        pending, LeaveEvents(groups, p, r));
    } else {
      TouchEvolves(groups, name, p.sequence, sequence, pending);
    }
  }

  lemma ResponseEvolves(s: System, step: Step)
    requires Inv(s) && step.Responded? && Enabled(s, step)
    ensures Evolves(s.obs.groups, After(s, step).obs.groups, step.sequence, Emits(s, step))
  {
    var groups, p, r := s.obs.groups, s.pending[step.sequence], step.response;
    if Admitted(p, step.live, step.owner) {
      match p.req {
        case JoinGroup(_) => JoinEvolves(groups, p, r, s.obs.sequence, s.pending);
        case SyncGroup(_, _, _) => SyncResponseEvolves(groups, p, r, s.obs.sequence, s.pending);
        case Heartbeat(_, _) => HeartbeatEvolves(groups, p, r, s.obs.sequence, s.pending);
        case LeaveGroup(_, _, _) => LeaveEvolves(groups, p, r, s.obs.sequence, s.pending);
        case Fetch(_, _, _, _) => FetchEvolves(s.obs, p, r, step.live, s.obs.sequence, s.pending);
        case OtherRequest => TouchEvolves(groups, "", p.sequence, s.obs.sequence, s.pending);
      }
    } else {
      SilentEvolves(groups, p.sequence, s.obs.sequence, s.pending, Emits(s, step));
    }
  }

  lemma SilentEvolves(groups: Groups, newest: nat, sequence: nat, pending: map<nat, Pending>, events: seq<Event>)
    requires GroupsInv(groups, sequence, pending) && (newest in pending || newest == 0)
    requires forall i :: 0 <= i < |events| ==> !events[i].GroupRebalance?
    ensures Evolves(groups, groups, newest, events)
  {
    TouchEvolves(groups, "", newest, sequence, pending);
    NothingHeldAt(groups, newest, sequence, pending);
  }

  lemma TouchSameInvalidate(groups: Groups, name: string, n: nat)
    ensures Invalidate(Touch(groups, name), name, n) == Invalidate(groups, name, n)
  {
    assert Touch(groups, name)[name := Invalidate(groups, name, n)[name]] == Invalidate(groups, name, n);
  }

  lemma InvalidateExistingEvolves(groups: Groups, name: string, n: nat, newest: nat, reason: Reason, sequence: nat,
                                  pending: map<nat, Pending>)
    requires GroupsInv(groups, sequence, pending) && (newest in pending || newest == 0)
    requires GroupOf(groups, name).epoch < n
    ensures Evolves(groups, Invalidate(groups, name, n), newest, [Rebalance(groups, name, n, reason)])
  {
    TouchSameInvalidate(groups, name, n);
    InvalidateEvolves(groups, Touch(groups, name), name, n, newest, sequence, pending,
                      [Rebalance(groups, name, n, reason)]);
  }

  lemma JoinRequestEvolves(groups: Groups, name: string, sequence: nat, pending: map<nat, Pending>)
    requires GroupsInv(groups, sequence, pending)
    ensures Evolves(groups, Invalidate(groups, name, sequence + 1), 0, [Rebalance(groups, name, sequence + 1, JoinRequested)])
  {
    assert name in groups ==> GroupInv(groups[name], sequence, pending);
    InvalidateExistingEvolves(groups, name, sequence + 1, 0, JoinRequested, sequence, pending);
  }

  lemma RequestEvolves(o: Observer, req: Request, source: Source, live: Liveness, pending: map<nat, Pending>)
    requires GroupsInv(o.groups, o.sequence, pending)
    ensures Evolves(o.groups, AfterRequest(o, req, source, live).groups, 0, RequestEvents(o, req, source, live))
  {
    var after, events := AfterRequest(o, req, source, live).groups, RequestEvents(o, req, source, live);
    if req.JoinGroup? && Active(live, source) {
      assert after == Invalidate(o.groups, req.group, o.sequence + 1);
      assert events == [Rebalance(o.groups, req.group, o.sequence + 1, JoinRequested)];
      JoinRequestEvolves(o.groups, req.group, o.sequence, pending);
    } else {
      SilentEvolves(o.groups, 0, o.sequence, pending, events);
    }
  }

  lemma StepEvolves(s: System, step: Step)
    requires Inv(s) && Enabled(s, step)
    ensures Evolves(s.obs.groups, After(s, step).obs.groups, FreshIn(step), Emits(s, step))
  {
    match step {
      case Responded(_, _, _, _) => ResponseEvolves(s, step);
      case Requested(req, _, source, live, _) => RequestEvolves(s.obs, req, source, live, s.pending);
      case Abandoned(_) => TouchEvolves(s.obs.groups, "", 0, s.obs.sequence, s.pending);
      case Learned(_) => TouchEvolves(s.obs.groups, "", 0, s.obs.sequence, s.pending);
    }
  }

  // --------------------------------------------------------------- the invariant is kept

  lemma AnsweredKeepsInv(groups: Groups, name: string, g: Group, n: nat, sequence: nat, pending: map<nat, Pending>)
    requires GroupsInv(groups, sequence, pending) && GroupInv(g, sequence, pending - {n})
    ensures GroupsInv(groups[name := g], sequence, pending - {n})
    ensures GroupsInv(groups, sequence, pending - {n})
  {
    forall other | other in groups ensures GroupInv(groups[other], sequence, pending - {n}) {
      assert GroupInv(groups[other], sequence, pending);
    }
  }

  lemma ResponseKeepsInv(s: System, step: Step)
    requires Inv(s) && step.Responded? && Enabled(s, step)
    ensures Inv(After(s, step))
  {
    var groups, n, p, r := s.obs.groups, step.sequence, s.pending[step.sequence], step.response;
    AnsweredKeepsInv(groups, "", Group(-1, 0, map[]), n, s.obs.sequence, s.pending);
    if Admitted(p, step.live, step.owner) {
      if p.req.Fetch? {
        FetchEvolves(s.obs, p, r, step.live, s.obs.sequence, s.pending);
        SameButReadyKeepsInv(groups, After(s, step).obs.groups, s.obs.sequence, s.pending - {n});
      } else if !p.req.OtherRequest? {
        AnsweredGroupsInv(groups, p, r, s.obs.sequence, s.pending);
        assert After(s, step).obs.groups == GroupsAnswered(groups, p, r);
      }
    }
  }

  lemma AnsweredGroupsInv(groups: Groups, p: Pending, r: Response, sequence: nat, pending: map<nat, Pending>)
    requires Answers(p.req, r) && !p.req.Fetch? && !p.req.OtherRequest?
    requires p.sequence in pending && pending[p.sequence] == p && p.sequence <= sequence && 0 !in pending
    requires GroupsInv(groups, sequence, pending)
    ensures GroupsInv(GroupsAnswered(groups, p, r), sequence, pending - {p.sequence})
  {
    var name, after := p.req.group, GroupsAnswered(groups, p, r);
    assert GroupInv(GroupOf(groups, name), sequence, pending);
    AnsweredGroupInv(groups, p, r, sequence, pending);
    AnsweredKeepsInv(groups, name, GroupOf(after, name), p.sequence, sequence, pending);
    assert after == groups || after == groups[name := GroupOf(after, name)];
  }

  ghost function GroupsAnswered(groups: Groups, p: Pending, r: Response): Groups
    requires Answers(p.req, r) && !p.req.Fetch? && !p.req.OtherRequest?
  {
    match p.req
    case JoinGroup(_) => AfterJoin(groups, p, r)
    case SyncGroup(_, _, _) => AfterSync(groups, p, r)
    case Heartbeat(_, _) => AfterHeartbeat(groups, p, r)
    case LeaveGroup(_, _, _) => AfterLeave(groups, p, r)
  }

  lemma AnsweredGroupInv(groups: Groups, p: Pending, r: Response, sequence: nat, pending: map<nat, Pending>)
    requires Answers(p.req, r) && !p.req.Fetch? && !p.req.OtherRequest?
    requires p.sequence in pending && pending[p.sequence] == p && p.sequence <= sequence && 0 !in pending
    requires GroupInv(GroupOf(groups, p.req.group), sequence, pending)
    ensures GroupInv(GroupOf(GroupsAnswered(groups, p, r), p.req.group), sequence, pending - {p.sequence})
  {
    var g := GroupOf(groups, p.req.group);
    var h := GroupOf(GroupsAnswered(groups, p, r), p.req.group);
    var left := pending - {p.sequence};
    assert h.epoch == g.epoch || h.epoch == p.sequence;
    forall m | m in h.members ensures MemberInv(h.members[m], h.epoch, sequence, left.Keys) {
      assert m in g.members ==> MemberInv(g.members[m], g.epoch, sequence, pending.Keys);
    }
  }

  lemma SameButReadyKeepsInv(a: Groups, b: Groups, sequence: nat, pending: map<nat, Pending>)
    requires SameButReady(a, b) && GroupsInv(a, sequence, pending)
    ensures GroupsInv(b, sequence, pending)
  {
    forall name | name in b ensures GroupInv(b[name], sequence, pending) {
      assert SameGroupButReady(a[name], b[name]) && GroupInv(a[name], sequence, pending);
      forall m | m in b[name].members ensures MemberInv(b[name].members[m], b[name].epoch, sequence, pending.Keys) {
        var x, y := a[name].members[m], b[name].members[m];
        assert MemberInv(x, a[name].epoch, sequence, pending.Keys) && SameMemberButReady(x, y);
        assert y.partitions != map[] ==> x.partitions.Keys != {};
      }
    }
  }

  lemma RequestKeepsInv(o: Observer, req: Request, source: Source, live: Liveness, pending: map<nat, Pending>, p: Pending)
    requires GroupsInv(o.groups, o.sequence, pending) && p.req == req
    ensures GroupsInv(AfterRequest(o, req, source, live).groups, o.sequence + 1, pending[o.sequence + 1 := p])
  {
    var after := AfterRequest(o, req, source, live).groups;
    var more := pending[o.sequence + 1 := p];
    forall name | name in after ensures GroupInv(after[name], o.sequence + 1, more) {
      if name in o.groups {
        assert GroupInv(o.groups[name], o.sequence, pending);
        forall m | m in o.groups[name].members
          ensures MemberInv(o.groups[name].members[m], o.groups[name].epoch, o.sequence + 1, more.Keys)
        {
          assert MemberInv(o.groups[name].members[m], o.groups[name].epoch, o.sequence, pending.Keys);
        }
      }
    }
  }

  lemma RequestedKeepsPending(s: System, t: System, p: Pending)
    requires PendingInv(s) && t.obs.sequence == s.obs.sequence + 1 == p.sequence && t.pending == s.pending[p.sequence := p]
    ensures PendingInv(t)
  {
  }

  lemma RequestStepAfter(s: System, step: Step)
    requires step.Requested? && Enabled(s, step)
    ensures var n := s.obs.sequence + 1;
      && After(s, step).obs == AfterRequest(s.obs, step.req, step.source, step.live) && After(s, step).obs.sequence == n
      && After(s, step).pending == s.pending[n := Pending(step.req, step.client, n, step.source, step.positions)]
  {
  }

  lemma RequestStepKeepsInv(s: System, step: Step)
    requires Inv(s) && step.Requested? && Enabled(s, step)
    ensures Inv(After(s, step))
  {
    var p := Pending(step.req, step.client, s.obs.sequence + 1, step.source, step.positions);
    RequestStepAfter(s, step);
    RequestedKeepsPending(s, After(s, step), p);
    RequestKeepsInv(s.obs, step.req, step.source, step.live, s.pending, p);
  }

  lemma AbandonKeepsInv(s: System, step: Step)
    requires Inv(s) && step.Abandoned? && Enabled(s, step)
    ensures Inv(After(s, step))
  {
    AnsweredKeepsInv(s.obs.groups, "", Group(-1, 0, map[]), step.sequence, s.obs.sequence, s.pending);
  }

  lemma LearnKeepsInv(s: System, step: Step)
    requires Inv(s) && step.Learned? && Enabled(s, step)
    ensures Inv(After(s, step))
  {
  }

  /** Every step keeps the invariant. */
  lemma StepKeepsInv(s: System, step: Step)
    requires Inv(s) && Enabled(s, step)
    ensures Inv(After(s, step))
  {
    match step {
      case Responded(_, _, _, _) => ResponseKeepsInv(s, step);
      case Requested(_, _, _, _, _) => RequestStepKeepsInv(s, step);
      case Abandoned(_) => AbandonKeepsInv(s, step);
      case Learned(_) => LearnKeepsInv(s, step);
    }
  }
}
