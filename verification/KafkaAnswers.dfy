/**
  What each answered request does to the observer, field by field: which answers are
  accepted, what they change, what they leave alone and which events they cause.
 */
module KafkaAnswers {
  import opened Options
  import opened Ownership
  import opened KafkaState

  // The fields of a group; one that was never seen has generation -1, epoch 0 and no members.
  function GenerationOf(groups: Groups, name: string): int {
    if name in groups then groups[name].generation else -1
  }

  function EpochOf(groups: Groups, name: string): nat {
    if name in groups then groups[name].epoch else 0
  }

  function MembersOf(groups: Groups, name: string): map<string, Member> {
    if name in groups then groups[name].members else map[]
  }

  ghost predicate OthersKept(a: Groups, b: Groups, name: string) {
    forall g :: g != name ==> (g in a <==> g in b) && (g in a ==> a[g] == b[g])
  }

  ghost predicate FieldsKept(a: Groups, b: Groups, name: string) {
    && OthersKept(a, b, name) && GenerationOf(b, name) == GenerationOf(a, name)
    && EpochOf(b, name) == EpochOf(a, name) && MembersOf(b, name) == MembersOf(a, name)
  }

  // All members of b are those of a but for `gone`, with nothing assigned.
  ghost predicate AllRevoked(a: map<string, Member>, b: map<string, Member>, gone: set<string>) {
    && b.Keys == a.Keys - gone
    && forall m :: m in b ==> b[m].partitions == map[] && b[m].client == a[m].client && b[m].source == a[m].source
                              && b[m].assignment == a[m].assignment
  }

  // The group is invalidated by the request with this number.
  ghost predicate Invalidated(a: Groups, b: Groups, name: string, sequence: nat, gone: set<string>) {
    && OthersKept(a, b, name) && name in b && b[name].generation == GenerationOf(a, name)
    && b[name].epoch == sequence && AllRevoked(MembersOf(a, name), b[name].members, gone)
  }

  // --------------------------------------------------------------- who is heard at all

  /** An answer to a request whose owner is known to be gone, or whose connection changed hands, changes nothing. */
  lemma UnheardChangesNothing(o: Observer, p: Pending, r: Response, live: Liveness, owner: Option<Source>)
    requires Answers(p.req, r)
    requires (p.source.instance != "" && !live(p.source)) || (owner.Some? && owner.value != p.source)
    ensures AfterResponse(o, p, r, live, owner) == o
    ensures forall e :: e in ResponseEvents(o, p, r, live, owner) ==> e == AttributionUnavailable(p.client)
    ensures ResponseEvents(o, p, r, live, owner) == [] <==> p.source.instance != "" && !live(p.source)
  {
  }

  /** A join request of a live owner invalidates its group at once, before it is answered; no other request changes a group. */
  lemma RequestExactly(o: Observer, req: Request, source: Source, live: Liveness)
    ensures AfterRequest(o, req, source, live).sequence == o.sequence + 1
    ensures if req.JoinGroup? && (source.instance != "" ==> live(source)) then
              && Invalidated(o.groups, AfterRequest(o, req, source, live).groups, req.group, o.sequence + 1, {})
              && RequestEvents(o, req, source, live)
                 == [GroupRebalance(req.group, GenerationOf(o.groups, req.group), o.sequence + 1, JoinRequested)]
            else AfterRequest(o, req, source, live).groups == o.groups && RequestEvents(o, req, source, live) == []
  {
  }

  // --------------------------------------------------------------- joining and syncing

  /** A join that succeeds, and is not of an older generation, sets the generation and adds its member if it is new. */
  lemma JoinExactly(o: Observer, p: Pending, r: Response, live: Liveness, owner: Option<Source>)
    requires p.req.JoinGroup? && r.JoinGroupOk? && Admitted(p, live, owner)
    ensures var a, b, name := o.groups, AfterResponse(o, p, r, live, owner).groups, p.req.group;
      var events := ResponseEvents(o, p, r, live, owner);
      if r.error == 0 && GenerationOf(a, name) <= r.generation then
        && OthersKept(a, b, name) && name in b && b[name].generation == r.generation && b[name].epoch == EpochOf(a, name)
        && b[name].members.Keys == MembersOf(a, name).Keys + {r.member}
        && (forall m :: m in MembersOf(a, name) ==> b[name].members[m] == MembersOf(a, name)[m])
        && (r.member !in MembersOf(a, name) ==> b[name].members[r.member] == Member(p.client, p.source, 0, map[]))
        && events == [GroupJoin(name, r.member, p.client, r.generation, EpochOf(a, name))]
      else FieldsKept(a, b, name) && events == []
  {
  }

  // The answer tells the member what it is assigned, and nothing newer is known.
  ghost predicate Tells(groups: Groups, p: Pending, r: Response)
    requires p.req.SyncGroup? && r.SyncGroupOk?
  {
    var members := MembersOf(groups, p.req.group);
    && r.error == 0 && r.decoded.Some? && p.req.generation == GenerationOf(groups, p.req.group)
    && EpochOf(groups, p.req.group) <= p.sequence
    && (p.req.member in members ==> members[p.req.member].assignment <= p.sequence)
  }

  ghost predicate HoldsNow(m: Member, p: Pending, keys: seq<TopicPartition>) {
    && m.client == p.client && m.source == p.source && m.assignment == p.sequence
    && (forall k :: k in m.partitions <==> k in keys) && (forall k :: k in m.partitions ==> !m.partitions[k])
  }

  ghost predicate AnnouncesSync(events: seq<Event>, groups: Groups, p: Pending, keys: seq<TopicPartition>)
    requires p.req.SyncGroup?
  {
    var generation, epoch := GenerationOf(groups, p.req.group), EpochOf(groups, p.req.group);
    && |events| == |keys| + 1
    && (forall i :: 0 <= i < |keys| ==>
          events[i] == Assign(p.req.group, p.req.member, p.client, generation, epoch, keys[i], p.sequence))
    && events[|keys|] == GroupSync(p.req.group, p.req.member, p.client, generation, epoch, |set k | k in keys|, p.sequence)
  }

  // The member holds what it was told; everything else is as it was.
  ghost predicate Synced(a: Groups, b: Groups, p: Pending, keys: seq<TopicPartition>)
    requires p.req.SyncGroup?
  {
    var name, before := p.req.group, MembersOf(a, p.req.group);
    && OthersKept(a, b, name) && name in b && b[name].generation == GenerationOf(a, name)
    && b[name].epoch == EpochOf(a, name)
    && b[name].members.Keys == before.Keys + {p.req.member}
    && (forall m :: m in before && m != p.req.member ==> b[name].members[m] == before[m])
    && HoldsNow(b[name].members[p.req.member], p, keys)
  }

  lemma SyncAccepts(groups: Groups, p: Pending, r: Response)
    requires p.req.SyncGroup? && r.SyncGroupOk? && Tells(groups, p, r)
    ensures Synced(groups, AfterSync(groups, p, r), p, r.decoded.value)
  {
    assert SyncAccepted(groups, p, r);
  }

  lemma SyncAnnounces(groups: Groups, p: Pending, r: Response)
    requires p.req.SyncGroup? && r.SyncGroupOk? && Tells(groups, p, r)
    ensures AnnouncesSync(SyncEvents(groups, p, r), groups, p, r.decoded.value)
  {
    assert Assigned(p, r).partitions.Keys == set k | k in r.decoded.value;
  }

  lemma SyncIgnores(groups: Groups, p: Pending, r: Response)
    requires p.req.SyncGroup? && r.SyncGroupOk? && !Tells(groups, p, r)
    ensures FieldsKept(groups, AfterSync(groups, p, r), p.req.group) && SyncEvents(groups, p, r) == []
  {
    assert !SyncAccepted(groups, p, r);
  }

  /**
    A sync answer is accepted exactly when it succeeded, decodes, and is for the group's
    generation and not older than its epoch or the member's assignment. Then the member holds
    just the partitions it was told, none ready, and each is announced; otherwise nothing changes.
   */
  lemma SyncExactly(o: Observer, p: Pending, r: Response, live: Liveness, owner: Option<Source>)
    requires p.req.SyncGroup? && r.SyncGroupOk? && Admitted(p, live, owner)
    ensures var a, b, events := o.groups, AfterResponse(o, p, r, live, owner).groups, ResponseEvents(o, p, r, live, owner);
      if Tells(a, p, r) then Synced(a, b, p, r.decoded.value) && AnnouncesSync(events, a, p, r.decoded.value)
      else FieldsKept(a, b, p.req.group) && events == []
  {
    if Tells(o.groups, p, r) {
      SyncAccepts(o.groups, p, r);
      SyncAnnounces(o.groups, p, r);
    } else {
      SyncIgnores(o.groups, p, r);
    }
  }

  // --------------------------------------------------------------- heartbeats and leaving

  /** A heartbeat invalidates the group exactly when it failed for the current generation and is not older than the epoch. */
  lemma HeartbeatExactly(o: Observer, p: Pending, r: Response, live: Liveness, owner: Option<Source>)
    requires p.req.Heartbeat? && r.HeartbeatOk? && Admitted(p, live, owner)
    ensures var a, b, name := o.groups, AfterResponse(o, p, r, live, owner).groups, p.req.group;
      var events := ResponseEvents(o, p, r, live, owner);
      if r.error != 0 && p.req.generation == GenerationOf(a, name) && EpochOf(a, name) <= p.sequence then
        && Invalidated(a, b, name, p.sequence, {})
        && events == [GroupRebalance(name, GenerationOf(a, name), p.sequence, HeartbeatError(r.error))]
      else FieldsKept(a, b, name) && events == []
  {
  }

  // The member leaves: named by an old-version request, or listed without an error in the answer.
  ghost predicate Leaves(p: Pending, r: Response, member: string)
    requires p.req.LeaveGroup? && r.LeaveGroupOk?
  {
    if p.req.version >= 3 then exists i :: 0 <= i < |r.members| && r.members[i] == MemberError(member, 0)
    else member == p.req.member
  }

  lemma {:induction false} LeftExactly(ms: seq<MemberError>, member: string)
    ensures member in LeftMembers(ms) <==> exists i :: 0 <= i < |ms| && ms[i] == MemberError(member, 0)
  {
    if |ms| > 0 {
      var n := |ms| - 1;
      LeftExactly(ms[..n], member);
      if ms[n] == MemberError(member, 0) {
        assert member in LeftMembers(ms);
      }
      if i :| 0 <= i < |ms| && ms[i] == MemberError(member, 0) {
        assert i < n ==> ms[..n][i] == MemberError(member, 0);
      }
    }
  }

  lemma LeavingExactly(p: Pending, r: Response, member: string)
    requires p.req.LeaveGroup? && r.LeaveGroupOk?
    ensures member in Leaving(p, r) <==> Leaves(p, r, member)
  {
    LeftExactly(r.members, member);
  }

  // A leave for every member that leaves and for no other, then one rebalance.
  ghost predicate AnnouncesLeave(events: seq<Event>, groups: Groups, p: Pending, r: Response)
    requires p.req.LeaveGroup? && r.LeaveGroupOk?
  {
    var name := p.req.group;
    var generation, epoch := GenerationOf(groups, name), EpochOf(groups, name);
    && |events| > 0 && events[|events| - 1] == GroupRebalance(name, generation, p.sequence, MemberLeft)
    && (forall i :: 0 <= i < |events| - 1 ==>
          && events[i].GroupLeave? && Leaves(p, r, events[i].member)
          && events[i] == GroupLeave(name, events[i].member, p.client, generation, epoch))
    && (forall m: string :: Leaves(p, r, m) ==> GroupLeave(name, m, p.client, generation, epoch) in events)
  }

  lemma LeaveAnnounced(groups: Groups, p: Pending, r: Response)
    requires p.req.LeaveGroup? && r.LeaveGroupOk? && LeaveAccepted(groups, p, r)
    ensures AnnouncesLeave(LeaveEvents(groups, p, r), groups, p, r)
  {
    var events, gone := LeaveEvents(groups, p, r), Leaving(p, r);
    forall i | 0 <= i < |events| - 1 ensures Leaves(p, r, gone[i]) {
      LeavingExactly(p, r, gone[i]);
    }
    forall m: string | Leaves(p, r, m)
      ensures GroupLeave(p.req.group, m, p.client, GenerationOf(groups, p.req.group), EpochOf(groups, p.req.group)) in events
    {
      LeavingExactly(p, r, m);
      var i :| 0 <= i < |gone| && gone[i] == m;
      assert events[i].member == m;
    }
  }

  /**
    A leave is accepted exactly when it succeeded and is not older than the group's epoch.
    Then the members that left are gone, the rest hold nothing, and each leaving is announced.
   */
  lemma LeaveExactly(o: Observer, p: Pending, r: Response, live: Liveness, owner: Option<Source>)
    requires p.req.LeaveGroup? && r.LeaveGroupOk? && Admitted(p, live, owner)
    ensures var a, b, name := o.groups, AfterResponse(o, p, r, live, owner).groups, p.req.group;
      var events := ResponseEvents(o, p, r, live, owner);
      if r.error == 0 && EpochOf(a, name) <= p.sequence then
        && (exists gone: set<string> ::
              (forall m: string :: m in gone <==> Leaves(p, r, m)) && Invalidated(a, b, name, p.sequence, gone))
        && AnnouncesLeave(events, a, p, r)
      else FieldsKept(a, b, name) && events == []
  {
    var a, b, name := o.groups, AfterResponse(o, p, r, live, owner).groups, p.req.group;
    if r.error == 0 && EpochOf(a, name) <= p.sequence {
      LeaveAnnounced(a, p, r);
      var gone := set m | m in Leaving(p, r);
      forall m: string ensures m in gone <==> Leaves(p, r, m) {
        LeavingExactly(p, r, m);
      }
      assert Invalidated(a, b, name, p.sequence, gone);
    }
  }

  // --------------------------------------------------------------- the statuses of a fetch answer

  // The topic's name: the one written, else that of its identifier, else none.
  ghost predicate Named<P>(topics: map<TopicId, string>, t: Topic<P>, name: string) {
    || (t.name == name && name != "")
    || (t.name == "" && t.id in topics && topics[t.id] == name)
    || (t.name == "" && t.id !in topics && name == "")
  }

  // Entry (i, j) of the answer speaks of the partition.
  ghost predicate Mentions(topics: map<TopicId, string>, ts: seq<Topic<PartitionError>>, i: nat, j: nat,
                           key: TopicPartition)
  {
    && i < |ts| && j < |ts[i].partitions| && Named(topics, ts[i], key.topic)
    && ts[i].partitions[j].partition == key.partition
  }

  // No later entry speaks of it.
  ghost predicate LastMention(topics: map<TopicId, string>, ts: seq<Topic<PartitionError>>, i: nat, j: nat,
                              key: TopicPartition)
  {
    && Mentions(topics, ts, i, j, key)
    && forall k: nat, l: nat :: Mentions(topics, ts, k, l, key) ==> k < i || (k == i && l <= j)
  }

  // Which entry of one topic's partitions speaks last of a partition, if any.
  ghost predicate LastIn(parts: seq<PartitionError>, j: nat, partition: int) {
    && j < |parts| && parts[j].partition == partition
    && forall l :: j < l < |parts| ==> parts[l].partition != partition
  }

  lemma {:induction false} TopicStatusExactly(before: map<TopicPartition, bool>, name: string, parts: seq<PartitionError>,
                                              key: TopicPartition)
    ensures var after := TopicStatuses(before, name, parts);
      if key.topic == name && exists j: nat :: LastIn(parts, j, key.partition) then
        key in after && forall j: nat :: LastIn(parts, j, key.partition) ==> (after[key] <==> parts[j].error == 0)
      else (key in after <==> key in before) && (key in before ==> after[key] == before[key])
  {
    if |parts| > 0 {
      var n := |parts| - 1;
      TopicStatusExactly(before, name, parts[..n], key);
      if parts[n].partition == key.partition {
        assert LastIn(parts, n, key.partition);
      } else {
        assert forall j: nat :: LastIn(parts, j, key.partition) <==> LastIn(parts[..n], j, key.partition);
      }
    }
  }

  /**
    The status of a partition is the error of its last entry in the answer, topics being
    resolved by name or identifier; a partition without an entry has none.
   */
  lemma {:induction false} StatusExactly(topics: map<TopicId, string>, ts: seq<Topic<PartitionError>>, key: TopicPartition)
    returns (i: nat, j: nat)
    ensures var statuses := StatusesOf(topics, ts);
      if key in statuses then LastMention(topics, ts, i, j, key) && (statuses[key] <==> ts[i].partitions[j].error == 0)
      else forall k: nat, l: nat :: !Mentions(topics, ts, k, l, key)
  {
    i, j := 0, 0;
    if |ts| > 0 {
      var n := |ts| - 1;
      var before, name, parts := StatusesOf(topics, ts[..n]), TopicName(topics, ts[n]), ts[n].partitions;
      i, j := StatusExactly(topics, ts[..n], key);
      TopicStatusExactly(before, name, parts, key);
      SameMentions(topics, ts, key);
      var last := LastOf(parts, key.partition);
      if key.topic == name && 0 <= last {
        i, j := n, last;
      }
    }
  }

  lemma SameMentions(topics: map<TopicId, string>, ts: seq<Topic<PartitionError>>, key: TopicPartition)
    requires |ts| > 0
    ensures forall k: nat, l: nat :: k < |ts| - 1 ==>
              (Mentions(topics, ts, k, l, key) <==> Mentions(topics, ts[..|ts| - 1], k, l, key))
  {
  }

  lemma {:induction false} LastOf(parts: seq<PartitionError>, partition: int) returns (last: int)
    ensures if last < 0 then forall l :: 0 <= l < |parts| ==> parts[l].partition != partition else LastIn(parts, last, partition)
  {
    last := -1;
    if |parts| > 0 {
      var n := |parts| - 1;
      if parts[n].partition == partition {
        last := n;
      } else {
        last := LastOf(parts[..n], partition);
      }
    }
  }

  // --------------------------------------------------------------- what a fetch asks for

  // How many entries the first i topics have.
  function Start<P>(ts: seq<Topic<P>>, i: nat): nat
    requires i <= |ts|
  {
    if i == 0 then 0 else Start(ts, i - 1) + |ts[i - 1].partitions|
  }

  lemma {:induction false} StartOf<P>(ts: seq<Topic<P>>, i: nat)
    requires i < |ts|
    ensures Start(ts[..|ts| - 1], i) == Start(ts, i)
  {
    if i > 0 {
      StartOf(ts, i - 1);
    }
  }

  /** Each partition of a request, topic by topic, becomes one offset update, under the topic's resolved name. */
  lemma {:induction false} UpdatesExactly(topics: map<TopicId, string>, ts: seq<Topic<PartitionOffset>>, i: nat, j: nat)
    ensures |UpdatesOf(topics, ts)| == Start(ts, |ts|)
    ensures i < |ts| && j < |ts[i].partitions| ==>
              && Start(ts, i) + j < |UpdatesOf(topics, ts)|
              && var update, asked := UpdatesOf(topics, ts)[Start(ts, i) + j], ts[i].partitions[j];
              Named(topics, ts[i], update.key.topic) && update.key.partition == asked.partition && update.offset == asked.offset
  {
    if |ts| > 0 {
      UpdatesExactly(topics, ts[..|ts| - 1], i, j);
      AllStarts(ts);
      if i < |ts| {
        StartOf(ts, i);
      }
    }
  }

  lemma AllStarts<P>(ts: seq<Topic<P>>)
    requires |ts| > 0
    ensures Start(ts, |ts|) == Start(ts[..|ts| - 1], |ts| - 1) + |ts[|ts| - 1].partitions|
  {
    StartOf(ts, |ts| - 1);
  }

  /** Each forgotten partition, topic by topic, is one forgotten key. */
  lemma {:induction false} ForgottenExactly(topics: map<TopicId, string>, ts: seq<Topic<int>>, i: nat, j: nat)
    ensures |ForgottenKeys(topics, ts)| == Start(ts, |ts|)
    ensures i < |ts| && j < |ts[i].partitions| ==>
              && Start(ts, i) + j < |ForgottenKeys(topics, ts)|
              && var key := ForgottenKeys(topics, ts)[Start(ts, i) + j];
              Named(topics, ts[i], key.topic) && key.partition == ts[i].partitions[j]
  {
    if |ts| > 0 {
      ForgottenExactly(topics, ts[..|ts| - 1], i, j);
      AllStarts(ts);
      if i < |ts| {
        StartOf(ts, i);
      }
    }
  }

  // --------------------------------------------------------------- sessions and ambiguity

  /**
    A fetch answer with an error, or one that closes its session, leaves no session under the
    asked key; a successful one with a session number stores one there; other sessions stay.
   */
  lemma SessionExactly(o: Observer, p: Pending, r: Response, live: Liveness, owner: Option<Source>)
    requires p.req.Fetch? && r.FetchOk? && Admitted(p, live, owner)
    ensures var before, after := o.sessions, AfterResponse(o, p, r, live, owner).sessions;
      var asked := SessionKey(p.req.sessionId, p.source.instance, p.client);
      var given := SessionKey(r.sessionId, p.source.instance, p.client);
      && (r.error != 0 || p.req.sessionEpoch == -1 ==> asked !in after)
      && (r.error == 0 && r.sessionId > 0 && (p.req.sessionEpoch != -1 || given != asked) ==> given in after)
      && (forall k :: k != asked && k != given ==> (k in after <==> k in before) && (k in before ==> after[k] == before[k]))
      && (r.error != 0 || r.sessionId <= 0 ==> forall k :: k in after ==> k in before && after[k] == before[k])
      && (r.error == 0 && p.req.sessionEpoch != -1 ==> forall k :: k in before ==> k in after)
  {
  }

  /**
    What an accepted position does besides readiness: it is reported; while several assignments
    or members may claim it, the client's partition is ambiguous, and that is reported when it
    becomes so; otherwise it is not ambiguous any more.
   */
  lemma AmbiguousExactly(s: FetchState, p: Pending, pos: FetchPosition, accepted: bool, live: Liveness)
    ensures var t := FetchOne(s, p, pos, accepted, live);
      var mine := ClientPartition(p.client, p.source.instance, pos.key);
      var several := |pos.refs| > 1 || |Claimants(s.groups, pos.key, p.client, p.source, live)| > 1;
      if !accepted then t == s
      else
        && s.events <= t.events && |s.events| < |t.events|
        && t.events[|s.events|] == FetchPositionAt(p.client, pos.key, pos.offset, p.sequence)
        && (mine in t.ambiguous <==> several) && t.ambiguous - {mine} == s.ambiguous - {mine}
        && (several ==> t.groups == s.groups)
        && (ReadyAmbiguous(p.client, pos.key) in t.events[|s.events|..] <==> several && mine !in s.ambiguous)
  {
    HoldersAreClaimants(s.groups, pos.key, p.client, p.source, live);
    var t := FetchOne(s, p, pos, accepted, live);
    if accepted {
      var more := t.events[|s.events|..];
      assert forall i :: 0 <= i < |more| ==> more[i] == t.events[|s.events| + i];
      assert |more| <= 2 && !more[0].ReadyAmbiguous?;
      var several := |pos.refs| > 1 || |Holders(s.groups, pos.key, p.client, p.source, live)| > 1;
      if several && ClientPartition(p.client, p.source.instance, pos.key) !in s.ambiguous {
        assert more[1] == ReadyAmbiguous(p.client, pos.key);
      } else {
        assert |more| == 2 ==> !more[1].ReadyAmbiguous?;
      }
    }
  }
}
