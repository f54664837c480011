/**
  The observer as the program runs it: fields updated in place under one mutex.
  Each method is proved against the step functions of KafkaState, so the run
  theorems hold of every interleaving of these calls.
 */
module KafkaObserver {
  import opened Options
  import opened Ownership
  import opened KafkaState

  class Observing {
    var sequence: nat
    var groups: Groups
    var fetchSessions: map<SessionKey, Session>
    var ambiguous: set<ClientPartition>
    var topics: map<TopicId, string>

    ghost function View(): Observer
      reads this
    {
      Observer(sequence, groups, fetchSessions, ambiguous, topics)
    }

    constructor ()
      ensures View() == Observer(0, map[], map[], {}, map[])
    {
      sequence, groups, fetchSessions, ambiguous, topics := 0, map[], map[], {}, map[];
    }

    /** Stamps a request, captures the assignments a Fetch may serve, and rebalances on JoinGroup. */
    method Request(req: KafkaState.Request, client: string, source: Source, live: Liveness)
      returns (p: Pending, events: seq<Event>)
      modifies this
      ensures View() == AfterRequest(old(View()), req, source, live)
      ensures IsPending(old(View()), req, client, source, live, p)
      ensures events == RequestEvents(old(View()), req, source, live)
    {
      sequence := sequence + 1;
      p, events := Pending(req, client, sequence, source, []), [];
      if !Active(live, source) {
        return;
      }
      if req.JoinGroup? {
        var e := InvalidateGroup(req.group, sequence, JoinRequested);
        events := [e];
      } else if req.Fetch? {
        var requested := Requested(req, client, source);
        var positions := Capture(requested, client, source, live);
        p := p.(positions := positions);
        ghost var before := old(View());
        assert requested == RequestedPositions(before, req, client, source);
      }
    }

    // Looks a group up, creating it.
    method FindGroup(name: string) returns (g: Group)
      modifies this`groups
      ensures groups == Touch(old(groups), name) && g == GroupOf(old(groups), name)
    {
      if name !in groups {
        groups := groups[name := Group(-1, 0, map[])];
      }
      g := groups[name];
      assert groups == Touch(old(groups), name);
    }

    // The members, with the partitions of all but those still to do cleared.
    static ghost function Clearing(members: map<string, Member>, todo: set<string>): map<string, Member> {
      map m | m in members :: if m in todo then members[m] else members[m].(partitions := map[])
    }

    static lemma ClearOne(members: map<string, Member>, todo: set<string>, m: string)
      requires m in members && m in todo
      ensures Clearing(members, todo)[m := Clearing(members, todo)[m].(partitions := map[])] == Clearing(members, todo - {m})
    {
    }

    /** Raises a group's epoch and takes every member's partitions away, one member after the other. */
    method InvalidateGroup(name: string, n: nat, reason: Reason) returns (e: Event)
      modifies this`groups
      ensures groups == Invalidate(old(groups), name, n) && e == Rebalance(old(groups), name, n, reason)
    {
      var g := FindGroup(name);
      g := g.(epoch := n);
      ghost var before := g.members;
      var todo := g.members.Keys;
      assert g.members == Clearing(before, todo);
      while todo != {}
        invariant groups == Touch(old(groups), name)
        invariant todo <= before.Keys && g == GroupOf(old(groups), name).(epoch := n, members := Clearing(before, todo))
      {
        var m :| m in todo;
        ClearOne(before, todo, m);
        g := g.(members := g.members[m := g.members[m].(partitions := map[])]);
        todo := todo - {m};
      }
      assert Clearing(before, {}) == Cleared(before);
      groups := groups[name := g];
      assert groups == old(groups)[name := g];
      e := GroupRebalance(name, g.generation, g.epoch, reason);
    }

    // The session positions a Fetch asks for: forget first, then update.
    method Requested(req: KafkaState.Request, client: string, source: Source) returns (positions: Session)
      requires req.Fetch?
      ensures positions == RequestedPositions(View(), req, client, source)
    {
      positions := map[];
      var key := KeyOf(req.sessionId, source, client);
      if req.sessionId > 0 && req.sessionEpoch > 0 && key in fetchSessions {
        positions := fetchSessions[key];
      }
      positions := ForgetTopics(positions, req.forgotten);
      positions := UpdateTopics(positions, req.topics);
    }

    method ForgetTopics(base: Session, ts: seq<Topic<int>>) returns (positions: Session)
      ensures positions == Forget(base, ForgottenKeys(topics, ts))
    {
      positions := base;
      for i := 0 to |ts|
        invariant positions == Forget(base, ForgottenKeys(topics, ts[..i]))
      {
        var t := ts[i];
        var name := TopicName(topics, t);
        ghost var done := ForgottenKeys(topics, ts[..i]);
        for j := 0 to |t.partitions|
          invariant positions == Forget(base, done + TopicKeys(name, t.partitions[..j]))
        {
          positions := positions - {TopicPartition(name, t.partitions[j])};
          assert TopicKeys(name, t.partitions[..j + 1])
              == TopicKeys(name, t.partitions[..j]) + [TopicPartition(name, t.partitions[j])];
        }
        assert t.partitions[..|t.partitions|] == t.partitions;
        assert ts[..i + 1][..i] == ts[..i];
      }
      assert ts[..|ts|] == ts;
    }

    method UpdateTopics(base: Session, ts: seq<Topic<PartitionOffset>>) returns (positions: Session)
      ensures positions == ApplyUpdates(base, UpdatesOf(topics, ts))
    {
      positions := base;
      for i := 0 to |ts|
        invariant positions == ApplyUpdates(base, UpdatesOf(topics, ts[..i]))
      {
        var t := ts[i];
        var name := TopicName(topics, t);
        assert UpdatesOf(topics, ts[..i]) + TopicUpdates(name, t.partitions[..0]) == UpdatesOf(topics, ts[..i]);
        ghost var done := UpdatesOf(topics, ts[..i]);
        for j := 0 to |t.partitions|
          invariant positions == ApplyUpdates(base, done + TopicUpdates(name, t.partitions[..j]))
        {
          var part := t.partitions[j];
          var key := TopicPartition(name, part.partition);
          UpdateSnoc(base, done, name, t.partitions, j);
          positions := positions[key := SessionPosition(part.offset, AcceptedIn(positions, key))];
        }
        assert t.partitions[..|t.partitions|] == t.partitions;
        assert ts[..i + 1][..i] == ts[..i];
      }
      assert ts[..|ts|] == ts;
    }

    static lemma UpdateSnoc(base: Session, done: seq<Update>, name: string, parts: seq<PartitionOffset>, j: nat)
      requires j < |parts|
      ensures var before := ApplyUpdates(base, done + TopicUpdates(name, parts[..j]));
        var key := TopicPartition(name, parts[j].partition);
        ApplyUpdates(base, done + TopicUpdates(name, parts[..j + 1]))
        == before[key := SessionPosition(parts[j].offset, AcceptedIn(before, key))]
    {
      var longer := done + TopicUpdates(name, parts[..j + 1]);
      assert longer[..|longer| - 1] == done + TopicUpdates(name, parts[..j]);
    }

    // Lists the usable positions with the assignments that hold them now.
    method Capture(requested: Session, client: string, source: Source, live: Liveness)
      returns (positions: seq<FetchPosition>)
      ensures Listed(requested, requested.Keys, client, source, live, positions)
    {
      positions := [];
      var todo := requested.Keys;
      while todo != {}
        invariant todo <= requested.Keys
        invariant Listed(requested, requested.Keys - todo, client, source, live, positions)
      {
        var key :| key in todo;
        var pos := requested[key];
        if Usable(key, pos) {
          var refs := CollectRefs(key, client, source, live);
          var found := FetchPosition(key, pos.offset, pos.accepted, refs);
          ListedSnoc(requested, requested.Keys - todo, client, source, live, positions, found);
          positions := positions + [found];
        }
        assert requested.Keys - (todo - {key}) == (requested.Keys - todo) + {key};
        todo := todo - {key};
      }
    }

    // `positions` lists the usable positions among the keys already walked.
    ghost predicate Listed(requested: Session, walked: set<TopicPartition>, client: string, source: Source,
                           live: Liveness, positions: seq<FetchPosition>)
      reads this
      requires walked <= requested.Keys
    {
      && (forall i, j :: 0 <= i < j < |positions| ==> positions[i].key != positions[j].key)
      && (forall i :: 0 <= i < |positions| ==>
            var p := positions[i];
            && p.key in walked && Usable(p.key, requested[p.key])
            && SessionPosition(p.offset, p.accepted) == requested[p.key]
            && Captures(p.refs, groups, Holders(groups, p.key, client, source, live)))
      && (forall k :: k in walked && Usable(k, requested[k]) ==> exists i :: 0 <= i < |positions| && positions[i].key == k)
    }

    lemma ListedSnoc(requested: Session, walked: set<TopicPartition>, client: string, source: Source, live: Liveness,
                     positions: seq<FetchPosition>, p: FetchPosition)
      requires walked <= requested.Keys && p.key in requested && p.key !in walked
      requires Listed(requested, walked, client, source, live, positions)
      requires Usable(p.key, requested[p.key]) && SessionPosition(p.offset, p.accepted) == requested[p.key]
      requires Captures(p.refs, groups, Holders(groups, p.key, client, source, live))
      ensures Listed(requested, walked + {p.key}, client, source, live, positions + [p])
    {
      var all := positions + [p];
      assert all[|positions|].key == p.key;
      forall k | k in walked && Usable(k, requested[k]) ensures exists i :: 0 <= i < |all| && all[i].key == k {
        var i :| 0 <= i < |positions| && positions[i].key == k;
        assert all[i].key == k;
      }
    }

    static lemma CapturesSnoc(refs: seq<AssignmentRef>, groups: Groups, holders: set<(string, string)>, group: string,
                              member: string)
      requires Captures(refs, groups, holders) && (group, member) !in holders
      requires group in groups && member in groups[group].members
      ensures Captures(refs + [RefTo(groups, group, member)], groups, holders + {(group, member)})
    {
    }

    method CollectRefs(key: TopicPartition, client: string, source: Source, live: Liveness)
      returns (refs: seq<AssignmentRef>)
      ensures Captures(refs, groups, Holders(groups, key, client, source, live))
      ensures Captures(refs, groups, Claimants(groups, key, client, source, live))
    {
      HoldersAreClaimants(groups, key, client, source, live);
      refs := [];
      ghost var holders := Holders(groups, key, client, source, live);
      ghost var walked: set<(string, string)> := {};
      var todo := groups.Keys;
      while todo != {}
        invariant todo <= groups.Keys
        invariant forall h :: h in walked <==> h in holders && h.0 !in todo
        invariant Captures(refs, groups, walked)
      {
        var group :| group in todo;
        var g := groups[group];
        var members := g.members.Keys;
        while members != {}
          invariant members <= g.members.Keys
          invariant forall h :: h in walked <==> h in holders && (h.0 !in todo || (h.0 == group && h.1 !in members))
          invariant Captures(refs, groups, walked)
        {
          var member :| member in members;
          var m := g.members[member];
          if key in m.partitions && MatchesSource(m, client, source, live) {
            assert HoldsKey(groups, group, member, key) && (group, member) in holders;
            CapturesSnoc(refs, groups, walked, group, member);
            refs := refs + [AssignmentRef(group, member, g.generation, g.epoch, m.assignment, m.source)];
            walked := walked + {(group, member)};
          }
          members := members - {member};
        }
        todo := todo - {group};
      }
      assert walked == holders;
    }

    method CountHolders(key: TopicPartition, client: string, source: Source, live: Liveness) returns (matches: nat)
      ensures matches == |Holders(groups, key, client, source, live)| == |Claimants(groups, key, client, source, live)|
    {
      HoldersAreClaimants(groups, key, client, source, live);
      matches := 0;
      ghost var holders := Holders(groups, key, client, source, live);
      ghost var walked: set<(string, string)> := {};
      var todo := groups.Keys;
      while todo != {}
        invariant todo <= groups.Keys
        invariant forall h :: h in walked <==> h in holders && h.0 !in todo
        invariant matches == |walked|
      {
        var group :| group in todo;
        var g := groups[group];
        var members := g.members.Keys;
        while members != {}
          invariant members <= g.members.Keys
          invariant forall h :: h in walked <==> h in holders && (h.0 !in todo || (h.0 == group && h.1 !in members))
          invariant matches == |walked|
        {
          var member :| member in members;
          if key in g.members[member].partitions && MatchesSource(g.members[member], client, source, live) {
            assert HoldsKey(groups, group, member, key) && (group, member) in holders;
            matches := matches + 1;
            walked := walked + {(group, member)};
          }
          members := members - {member};
        }
        todo := todo - {group};
      }
      assert walked == holders;
    }

    /** Applies a response to the request it answers. */
    method ObserveGroup(p: Pending, r: Response, live: Liveness, owner: Option<Source>) returns (events: seq<Event>)
      requires Answers(p.req, r)
      modifies this
      ensures View() == AfterResponse(old(View()), p, r, live, owner)
      ensures events == ResponseEvents(old(View()), p, r, live, owner)
    {
      events := [];
      if !Active(live, p.source) {
        return;
      }
      if owner.Some? && owner.value != p.source {
        events := [AttributionUnavailable(p.client)];
        return;
      }
      match p.req {
        case JoinGroup(_) => events := ObserveJoin(p, r);
        case SyncGroup(_, _, _) => events := ObserveSync(p, r);
        case Heartbeat(_, _) => events := ObserveHeartbeat(p, r);
        case LeaveGroup(_, _, _) => events := ObserveLeave(p, r);
        case Fetch(_, _, _, _) => events := ObserveFetch(p, r, live);
        case OtherRequest =>
      }
    }

    method ObserveJoin(p: Pending, r: Response) returns (events: seq<Event>)
      requires p.req.JoinGroup? && r.JoinGroupOk?
      modifies this`groups
      ensures groups == AfterJoin(old(groups), p, r) && events == JoinEvents(old(groups), p, r)
    {
      events := [];
      if r.error != 0 {
        return;
      }
      var g := FindGroup(p.req.group);
      if r.generation < g.generation {
        return;
      }
      g := g.(generation := r.generation);
      if r.member !in g.members {
        g := g.(members := g.members[r.member := Member(p.client, p.source, 0, map[])]);
      }
      groups := groups[p.req.group := g];
      events := [GroupJoin(p.req.group, r.member, p.client, g.generation, g.epoch)];
    }

    method ObserveHeartbeat(p: Pending, r: Response) returns (events: seq<Event>)
      requires p.req.Heartbeat? && r.HeartbeatOk?
      modifies this`groups
      ensures groups == AfterHeartbeat(old(groups), p, r) && events == HeartbeatEvents(old(groups), p, r)
    {
      events := [];
      var g := FindGroup(p.req.group);
      if r.error != 0 && p.req.generation == g.generation && p.sequence >= g.epoch {
        ghost var touched := groups;
        var e := InvalidateGroup(p.req.group, p.sequence, HeartbeatError(r.error));
        events := [e];
        InvalidateTouched(old(groups), p.req.group, p.sequence);
      }
    }

    static lemma InvalidateTouched(groups: Groups, name: string, n: nat)
      ensures Invalidate(Touch(groups, name), name, n) == Invalidate(groups, name, n)
    {
    }

    method ObserveSync(p: Pending, r: Response) returns (events: seq<Event>)
      requires p.req.SyncGroup? && r.SyncGroupOk?
      modifies this`groups
      ensures groups == AfterSync(old(groups), p, r) && events == SyncEvents(old(groups), p, r)
    {
      events := [];
      var name := p.req.group;
      var g := FindGroup(name);
      if r.error != 0 || p.req.generation != g.generation || p.sequence < g.epoch {
        return;
      }
      if p.req.member in g.members && g.members[p.req.member].assignment > p.sequence {
        return;
      }
      if r.decoded.None? {
        return;
      }
      var partitions, given := Assignments(p, r.decoded.value, g);
      var m := Member(p.client, p.source, p.sequence, partitions);
      groups := groups[name := g.(members := g.members[p.req.member := m])];
      assert groups == old(groups)[name := g.(members := g.members[p.req.member := m])];
      events := given + [GroupSync(name, p.req.member, p.client, g.generation, g.epoch, |partitions|, p.sequence)];
    }

    // The partitions of an assignment, none of them ready, and an event for each.
    method Assignments(p: Pending, keys: seq<TopicPartition>, g: Group)
      returns (partitions: map<TopicPartition, bool>, events: seq<Event>)
      requires p.req.SyncGroup?
      ensures partitions == map k | k in keys :: false
      ensures events == seq(|keys|, i requires 0 <= i < |keys| =>
                Assign(p.req.group, p.req.member, p.client, g.generation, g.epoch, keys[i], p.sequence))
    {
      partitions, events := map[], [];
      for i := 0 to |keys|
        invariant partitions == map k | k in keys[..i] :: false
        invariant |events| == i
        invariant forall j :: 0 <= j < i ==>
          events[j] == Assign(p.req.group, p.req.member, p.client, g.generation, g.epoch, keys[j], p.sequence)
      {
        partitions := partitions[keys[i] := false];
        events := events + [Assign(p.req.group, p.req.member, p.client, g.generation, g.epoch, keys[i], p.sequence)];
      }
      assert keys[..|keys|] == keys;
    }

    method ObserveLeave(p: Pending, r: Response) returns (events: seq<Event>)
      requires p.req.LeaveGroup? && r.LeaveGroupOk?
      modifies this`groups
      ensures groups == AfterLeave(old(groups), p, r) && events == LeaveEvents(old(groups), p, r)
    {
      events := [];
      if r.error != 0 {
        return;
      }
      var name := p.req.group;
      var g := FindGroup(name);
      if p.sequence < g.epoch {
        return;
      }
      var leaving := [p.req.member];
      if p.req.version >= 3 {
        leaving := [];
        for i := 0 to |r.members|
          invariant leaving == LeftMembers(r.members[..i])
        {
          if r.members[i].error == 0 {
            leaving := leaving + [r.members[i].member];
          }
          assert r.members[..i + 1][..i] == r.members[..i];
        }
        assert r.members[..|r.members|] == r.members;
      }
      var members := g.members;
      for i := 0 to |leaving|
        invariant members == g.members - set m | m in leaving[..i]
        invariant events == LeaveEvents(old(groups), p, r)[..i]
      {
        members := members - {leaving[i]};
        events := events + [GroupLeave(name, leaving[i], p.client, g.generation, g.epoch)];
      }
      assert leaving[..|leaving|] == leaving;
      groups := groups[name := g.(members := members)];
      assert groups == old(groups)[name := g.(members := members)];
      var e := InvalidateGroup(name, p.sequence, MemberLeft);
      events := events + [e];
    }

    method Statuses(ts: seq<Topic<PartitionError>>) returns (statuses: map<TopicPartition, bool>)
      ensures statuses == StatusesOf(topics, ts)
    {
      statuses := map[];
      for i := 0 to |ts|
        invariant statuses == StatusesOf(topics, ts[..i])
      {
        var t := ts[i];
        var name := TopicName(topics, t);
        ghost var done := statuses;
        for j := 0 to |t.partitions|
          invariant statuses == TopicStatuses(done, name, t.partitions[..j])
        {
          statuses := statuses[TopicPartition(name, t.partitions[j].partition) := t.partitions[j].error == 0];
          assert t.partitions[..j + 1][..j] == t.partitions[..j];
        }
        assert t.partitions[..|t.partitions|] == t.partitions;
        assert ts[..i + 1][..i] == ts[..i];
      }
      assert ts[..|ts|] == ts;
    }

    method ObserveFetch(p: Pending, r: Response, live: Liveness) returns (events: seq<Event>)
      requires p.req.Fetch? && r.FetchOk?
      modifies this`groups, this`ambiguous, this`fetchSessions
      ensures var out := FetchOutcome(old(View()), p, r, live);
        groups == out.groups && ambiguous == out.ambiguous && events == out.events
      ensures fetchSessions == AfterSession(old(View()), p, r)
    {
      events := [];
      var asked := KeyOf(p.req.sessionId, p.source, p.client);
      if r.error != 0 {
        fetchSessions := fetchSessions - {asked};
        return;
      }
      var statuses := Statuses(r.statuses);
      var session: Session := map[];
      ghost var start := FetchState(groups, ambiguous, []);
      for i := 0 to |p.positions|
        invariant FetchState(groups, ambiguous, events) == FetchAll(start, p, p.positions[..i], statuses, live)
        invariant session == SessionOf(p.req, statuses, p.positions[..i])
        invariant fetchSessions == old(fetchSessions)
      {
        var pos := p.positions[i];
        var accepted := AcceptedNow(p.req, statuses, pos);
        session := session[pos.key := SessionPosition(pos.offset, accepted)];
        assert p.positions[..i + 1][..i] == p.positions[..i];
        var more := ObservePosition(p, pos, accepted, live, events);
        events := more;
      }
      assert p.positions[..|p.positions|] == p.positions;
      if r.sessionId > 0 {
        fetchSessions := fetchSessions[KeyOf(r.sessionId, p.source, p.client) := session];
      }
      if p.req.sessionEpoch == -1 {
        fetchSessions := fetchSessions - {asked};
      }
    }

    // One position of a fetch response: attribute it to the one assignment it can serve.
    method ObservePosition(p: Pending, pos: FetchPosition, accepted: bool, live: Liveness, before: seq<Event>)
      returns (events: seq<Event>)
      modifies this`groups, this`ambiguous
      ensures FetchState(groups, ambiguous, events)
           == FetchOne(FetchState(old(groups), old(ambiguous), before), p, pos, accepted, live)
    {
      events := before;
      if !accepted {
        return;
      }
      events := events + [FetchPositionAt(p.client, pos.key, pos.offset, p.sequence)];
      var matches := CountHolders(pos.key, p.client, p.source, live);
      var key := ClientPartition(p.client, p.source.instance, pos.key);
      if |pos.refs| > 1 || matches > 1 {
        if key !in ambiguous {
          ambiguous := ambiguous + {key};
          events := events + [ReadyAmbiguous(p.client, pos.key)];
        }
        return;
      }
      ambiguous := ambiguous - {key};
      if |pos.refs| != 1 || matches != 1 {
        return;
      }
      var ref := pos.refs[0];
      if ref.group !in groups || groups[ref.group].epoch != ref.epoch || groups[ref.group].generation != ref.generation {
        return;
      }
      var g := groups[ref.group];
      if ref.member !in g.members {
        return;
      }
      var m := g.members[ref.member];
      if m.assignment != ref.assignment || m.source != ref.source || !MatchesSource(m, p.client, p.source, live) {
        return;
      }
      if p.source.Known() != m.source.Known() {
        events := events + [AttributionUnavailable(p.client)];
        return;
      }
      if pos.key !in m.partitions || m.partitions[pos.key] {
        return;
      }
      var byProcess := p.source.Known() && m.source.Known() && p.source.instance == m.source.instance;
      events := events + [GroupReady(ref.group, ref.member, p.client, g.generation, g.epoch, pos.key, pos.offset,
                                     ref.assignment, byProcess)];
      m := m.(partitions := m.partitions[pos.key := true]);
      groups := groups[ref.group := g.(members := g.members[ref.member := m])];
    }
  }
}
