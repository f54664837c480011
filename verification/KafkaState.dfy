/**
  The state of the Kafka group observer and its two steps: a request arriving
  and a response leaving. Each step holds the observer's mutex, so it is one
  function of the state. Process liveness is an oracle that is fixed within a step.
  Group, member and partition names are values; the two places where the observer
  walks a Go map in an unspecified order appear here as sets.
 */
module KafkaState {
  import opened Options
  import opened Ownership

  datatype TopicPartition = TopicPartition(topic: string, partition: int)

  // `partitions` maps each assigned partition to "starting position acknowledged".
  datatype Member = Member(client: string, source: Source, assignment: nat, partitions: map<TopicPartition, bool>)

  datatype Group = Group(generation: int, epoch: nat, members: map<string, Member>)

  datatype AssignmentRef = AssignmentRef(group: string, member: string, generation: int,
                                         epoch: nat, assignment: nat, source: Source)

  datatype SessionPosition = SessionPosition(offset: int, accepted: bool)

  type Session = map<TopicPartition, SessionPosition>

  datatype FetchPosition = FetchPosition(key: TopicPartition, offset: int, accepted: bool, refs: seq<AssignmentRef>)

  datatype SessionKey = SessionKey(id: int, instance: string, client: string)

  datatype ClientPartition = ClientPartition(client: string, instance: string, key: TopicPartition)

  type TopicId = nat

  // A topic as the wire carries it: by name, or by identifier when the name is empty.
  datatype Topic<+P> = Topic(name: string, id: TopicId, partitions: seq<P>)

  datatype PartitionOffset = PartitionOffset(partition: int, offset: int)

  datatype PartitionError = PartitionError(partition: int, error: int)

  datatype MemberError = MemberError(member: string, error: int)

  datatype Request =
    | JoinGroup(group: string)
    | SyncGroup(group: string, generation: int, member: string)
    | Heartbeat(group: string, generation: int)
    | LeaveGroup(group: string, member: string, version: int)
    | Fetch(sessionId: int, sessionEpoch: int, forgotten: seq<Topic<int>>, topics: seq<Topic<PartitionOffset>>)
    | OtherRequest

  datatype Response =
    | JoinGroupOk(error: int, generation: int, member: string)
    | SyncGroupOk(error: int, decoded: Option<seq<TopicPartition>>)
    | HeartbeatOk(error: int)
    | LeaveGroupOk(error: int, members: seq<MemberError>)
    | FetchOk(error: int, sessionId: int, statuses: seq<Topic<PartitionError>>)
    | OtherResponse

  datatype Pending = Pending(req: Request, client: string, sequence: nat, source: Source,
                             positions: seq<FetchPosition>)

  datatype Reason = JoinRequested | HeartbeatError(code: int) | MemberLeft

  datatype Event =
    | GroupRebalance(group: string, generation: int, epoch: nat, reason: Reason)
    | GroupJoin(group: string, member: string, client: string, generation: int, epoch: nat)
    | Assign(group: string, member: string, client: string, generation: int, epoch: nat,
             key: TopicPartition, assignment: nat)
    | GroupSync(group: string, member: string, client: string, generation: int, epoch: nat,
                count: nat, assignment: nat)
    | GroupLeave(group: string, member: string, client: string, generation: int, epoch: nat)
    | FetchPositionAt(client: string, key: TopicPartition, offset: int, sequence: nat)
    | ReadyAmbiguous(client: string, key: TopicPartition)
    | AttributionUnavailable(client: string)
    | GroupReady(group: string, member: string, client: string, generation: int, epoch: nat,
                 key: TopicPartition, offset: int, assignment: nat, byProcess: bool)

  type Groups = map<string, Group>

  datatype Observer = Observer(sequence: nat, groups: Groups, sessions: map<SessionKey, Session>,
                               ambiguous: set<ClientPartition>, topics: map<TopicId, string>)

  type Liveness = Source -> bool

  predicate Active(live: Liveness, source: Source) {
    !source.Known() || live(source)
  }

  predicate MatchesSource(m: Member, client: string, source: Source, live: Liveness) {
    && m.client == client
    && Active(live, m.source)
    && (!source.Known() || !m.source.Known() || source.instance == m.source.instance)
  }

  // --------------------------------------------------------------- groups

  function GroupOf(groups: Groups, name: string): Group {
    if name in groups then groups[name] else Group(-1, 0, map[])
  }

  // Looking a group up creates it.
  function Touch(groups: Groups, name: string): Groups {
    groups[name := GroupOf(groups, name)]
  }

  function Cleared(members: map<string, Member>): map<string, Member> {
    map m | m in members :: members[m].(partitions := map[])
  }

  function Invalidate(groups: Groups, name: string, sequence: nat): Groups {
    var g := GroupOf(groups, name);
    groups[name := g.(epoch := sequence, members := Cleared(g.members))]
  }

  function Rebalance(groups: Groups, name: string, sequence: nat, reason: Reason): Event {
    GroupRebalance(name, GroupOf(groups, name).generation, sequence, reason)
  }

  // --------------------------------------------------------------- fetch requests

  function TopicName<P>(topics: map<TopicId, string>, t: Topic<P>): string {
    if t.name != "" then t.name else if t.id in topics then topics[t.id] else ""
  }

  function ForgottenKeys(topics: map<TopicId, string>, ts: seq<Topic<int>>): seq<TopicPartition> {
    if |ts| == 0 then [] else
      ForgottenKeys(topics, ts[..|ts| - 1]) + TopicKeys(TopicName(topics, ts[|ts| - 1]), ts[|ts| - 1].partitions)
  }

  function TopicKeys(name: string, parts: seq<int>): seq<TopicPartition> {
    seq(|parts|, i requires 0 <= i < |parts| => TopicPartition(name, parts[i]))
  }

  datatype Update = Update(key: TopicPartition, offset: int)

  function UpdatesOf(topics: map<TopicId, string>, ts: seq<Topic<PartitionOffset>>): seq<Update> {
    if |ts| == 0 then [] else
      UpdatesOf(topics, ts[..|ts| - 1]) + TopicUpdates(TopicName(topics, ts[|ts| - 1]), ts[|ts| - 1].partitions)
  }

  function TopicUpdates(name: string, parts: seq<PartitionOffset>): seq<Update> {
    seq(|parts|, i requires 0 <= i < |parts| => Update(TopicPartition(name, parts[i].partition), parts[i].offset))
  }

  function Forget(session: Session, keys: seq<TopicPartition>): Session {
    session - set k | k in keys
  }

  function AcceptedIn(session: Session, key: TopicPartition): bool {
    key in session && session[key].accepted
  }

  // A new offset keeps the acknowledgement the partition already had.
  function ApplyUpdates(session: Session, updates: seq<Update>): Session {
    if |updates| == 0 then session else
      var before := ApplyUpdates(session, updates[..|updates| - 1]);
      var u := updates[|updates| - 1];
      before[u.key := SessionPosition(u.offset, AcceptedIn(before, u.key))]
  }

  predicate Incremental(req: Request)
    requires req.Fetch?
  {
    req.sessionId > 0 && req.sessionEpoch > 0
  }

  function KeyOf(id: int, source: Source, client: string): SessionKey {
    SessionKey(id, source.instance, client)
  }

  function BaseSession(o: Observer, req: Request, client: string, source: Source): Session
    requires req.Fetch?
  {
    var key := KeyOf(req.sessionId, source, client);
    if Incremental(req) && key in o.sessions then o.sessions[key] else map[]
  }

  function RequestedPositions(o: Observer, req: Request, client: string, source: Source): Session
    requires req.Fetch?
  {
    ApplyUpdates(Forget(BaseSession(o, req, client, source), ForgottenKeys(o.topics, req.forgotten)),
                 UpdatesOf(o.topics, req.topics))
  }

  // Unresolved topics and negative offsets take no part in attribution.
  predicate Usable(key: TopicPartition, pos: SessionPosition) {
    key.topic != "" && pos.offset >= 0
  }

  predicate HoldsKey(groups: Groups, group: string, member: string, key: TopicPartition) {
    group in groups && member in groups[group].members && key in groups[group].members[member].partitions
  }

  // The (group, member) pairs that hold a partition and may be this client.
  ghost function Holders(groups: Groups, key: TopicPartition, client: string, source: Source, live: Liveness)
    : set<(string, string)>
  {
    set g, m | g in groups && m in groups[g].members && HoldsKey(groups, g, m, key)
               && MatchesSource(groups[g].members[m], client, source, live) :: (g, m)
  }

  // Field by field: a member that holds the partition under this client, whose process is
  // not known to be gone, nor known to be another than the fetching one.
  ghost predicate Claims(m: Member, key: TopicPartition, client: string, source: Source, live: Liveness) {
    && key in m.partitions && m.client == client
    && (m.source.instance == "" || live(m.source))
    && (m.source.instance == "" || source.instance == "" || m.source.instance == source.instance)
  }

  ghost function Claimants(groups: Groups, key: TopicPartition, client: string, source: Source, live: Liveness)
    : set<(string, string)>
  {
    set g, m | g in groups && m in groups[g].members && Claims(groups[g].members[m], key, client, source, live) :: (g, m)
  }

  /** Whom the observer takes for possible owners of a fetch: exactly the members that may claim it. */
  lemma HoldersAreClaimants(groups: Groups, key: TopicPartition, client: string, source: Source, live: Liveness)
    ensures Holders(groups, key, client, source, live) == Claimants(groups, key, client, source, live)
  {
    forall g, m | g in groups && m in groups[g].members
      ensures HoldsKey(groups, g, m, key) && MatchesSource(groups[g].members[m], client, source, live)
              <==> Claims(groups[g].members[m], key, client, source, live)
    {
    }
  }

  function RefTo(groups: Groups, group: string, member: string): AssignmentRef
    requires group in groups && member in groups[group].members
  {
    var g := groups[group];
    var m := g.members[member];
    AssignmentRef(group, member, g.generation, g.epoch, m.assignment, m.source)
  }

  // `refs` lists the holders' assignments, each once, in the order the maps were walked.
  ghost predicate Captures(refs: seq<AssignmentRef>, groups: Groups, holders: set<(string, string)>) {
    && |refs| == |holders|
    && (forall i, j :: 0 <= i < j < |refs| ==> refs[i] != refs[j])
    && (forall i :: 0 <= i < |refs| ==>
          && (refs[i].group, refs[i].member) in holders
          && refs[i].group in groups && refs[i].member in groups[refs[i].group].members
          && refs[i] == RefTo(groups, refs[i].group, refs[i].member))
  }

  // `positions` lists the usable requested positions, each key once, with the assignments captured now.
  ghost predicate Positions(o: Observer, req: Request, client: string, source: Source, live: Liveness,
                            positions: seq<FetchPosition>)
    requires req.Fetch?
  {
    var requested := RequestedPositions(o, req, client, source);
    && (forall i, j :: 0 <= i < j < |positions| ==> positions[i].key != positions[j].key)
    && (forall i :: 0 <= i < |positions| ==>
          var p := positions[i];
          && p.key in requested && Usable(p.key, requested[p.key])
          && SessionPosition(p.offset, p.accepted) == requested[p.key]
          && Captures(p.refs, o.groups, Holders(o.groups, p.key, client, source, live)))
    && (forall k :: k in requested && Usable(k, requested[k]) ==> exists i :: 0 <= i < |positions| && positions[i].key == k)
  }

  // --------------------------------------------------------------- request step

  ghost predicate IsPending(o: Observer, req: Request, client: string, source: Source, live: Liveness, p: Pending) {
    && p.req == req && p.client == client && p.source == source && p.sequence == o.sequence + 1
    && if req.Fetch? && Active(live, source) then Positions(o, req, client, source, live, p.positions)
       else p.positions == []
  }

  function AfterRequest(o: Observer, req: Request, source: Source, live: Liveness): Observer {
    if req.JoinGroup? && Active(live, source) then
      o.(sequence := o.sequence + 1, groups := Invalidate(o.groups, req.group, o.sequence + 1))
    else
      o.(sequence := o.sequence + 1)
  }

  function RequestEvents(o: Observer, req: Request, source: Source, live: Liveness): seq<Event> {
    if req.JoinGroup? && Active(live, source) then
      [Rebalance(o.groups, req.group, o.sequence + 1, JoinRequested)]
    else []
  }

  // --------------------------------------------------------------- response step

  predicate Answers(req: Request, r: Response) {
    match req
    case JoinGroup(_) => r.JoinGroupOk?
    case SyncGroup(_, _, _) => r.SyncGroupOk?
    case Heartbeat(_, _) => r.HeartbeatOk?
    case LeaveGroup(_, _, _) => r.LeaveGroupOk?
    case Fetch(_, _, _, _) => r.FetchOk?
    case OtherRequest => r.OtherResponse?
  }

  function AfterJoin(groups: Groups, p: Pending, r: Response): Groups
    requires p.req.JoinGroup? && r.JoinGroupOk?
  {
    var g := GroupOf(groups, p.req.group);
    if r.error != 0 then groups
    else if r.generation < g.generation then Touch(groups, p.req.group)
    else
      var members := if r.member in g.members then g.members
                     else g.members[r.member := Member(p.client, p.source, 0, map[])];
      groups[p.req.group := g.(generation := r.generation, members := members)]
  }

  function JoinEvents(groups: Groups, p: Pending, r: Response): seq<Event>
    requires p.req.JoinGroup? && r.JoinGroupOk?
  {
    var g := GroupOf(groups, p.req.group);
    if r.error != 0 || r.generation < g.generation then []
    else [GroupJoin(p.req.group, r.member, p.client, r.generation, g.epoch)]
  }

  predicate SyncAccepted(groups: Groups, p: Pending, r: Response)
    requires p.req.SyncGroup? && r.SyncGroupOk?
  {
    var g := GroupOf(groups, p.req.group);
    && r.error == 0 && p.req.generation == g.generation && g.epoch <= p.sequence
    && (p.req.member in g.members ==> g.members[p.req.member].assignment <= p.sequence)
    && r.decoded.Some?
  }

  function Assigned(p: Pending, r: Response): Member
    requires r.SyncGroupOk? && r.decoded.Some?
  {
    Member(p.client, p.source, p.sequence, map k | k in r.decoded.value :: false)
  }

  function AfterSync(groups: Groups, p: Pending, r: Response): Groups
    requires p.req.SyncGroup? && r.SyncGroupOk?
  {
    if SyncAccepted(groups, p, r) then
      var g := GroupOf(groups, p.req.group);
      groups[p.req.group := g.(members := g.members[p.req.member := Assigned(p, r)])]
    else Touch(groups, p.req.group)
  }

  function SyncEvents(groups: Groups, p: Pending, r: Response): seq<Event>
    requires p.req.SyncGroup? && r.SyncGroupOk?
  {
    if SyncAccepted(groups, p, r) then
      var g := GroupOf(groups, p.req.group);
      var keys := r.decoded.value;
      seq(|keys|, i requires 0 <= i < |keys| =>
        Assign(p.req.group, p.req.member, p.client, g.generation, g.epoch, keys[i], p.sequence))
      + [GroupSync(p.req.group, p.req.member, p.client, g.generation, g.epoch,
                   |Assigned(p, r).partitions|, p.sequence)]
    else []
  }

  predicate HeartbeatInvalidates(groups: Groups, p: Pending, r: Response)
    requires p.req.Heartbeat? && r.HeartbeatOk?
  {
    var g := GroupOf(groups, p.req.group);
    r.error != 0 && p.req.generation == g.generation && g.epoch <= p.sequence
  }

  function AfterHeartbeat(groups: Groups, p: Pending, r: Response): Groups
    requires p.req.Heartbeat? && r.HeartbeatOk?
  {
    if HeartbeatInvalidates(groups, p, r) then Invalidate(groups, p.req.group, p.sequence)
    else Touch(groups, p.req.group)
  }

  function HeartbeatEvents(groups: Groups, p: Pending, r: Response): seq<Event>
    requires p.req.Heartbeat? && r.HeartbeatOk?
  {
    if HeartbeatInvalidates(groups, p, r) then
      [Rebalance(groups, p.req.group, p.sequence, HeartbeatError(r.error))]
    else []
  }

  function Leaving(p: Pending, r: Response): seq<string>
    requires p.req.LeaveGroup? && r.LeaveGroupOk?
  {
    if p.req.version >= 3 then LeftMembers(r.members) else [p.req.member]
  }

  function LeftMembers(ms: seq<MemberError>): seq<string> {
    if |ms| == 0 then [] else
      LeftMembers(ms[..|ms| - 1]) + if ms[|ms| - 1].error == 0 then [ms[|ms| - 1].member] else []
  }

  predicate LeaveAccepted(groups: Groups, p: Pending, r: Response)
    requires p.req.LeaveGroup? && r.LeaveGroupOk?
  {
    r.error == 0 && GroupOf(groups, p.req.group).epoch <= p.sequence
  }

  function AfterLeave(groups: Groups, p: Pending, r: Response): Groups
    requires p.req.LeaveGroup? && r.LeaveGroupOk?
  {
    if LeaveAccepted(groups, p, r) then
      var g := GroupOf(groups, p.req.group);
      var gone := set m | m in Leaving(p, r);
      Invalidate(groups[p.req.group := g.(members := g.members - gone)], p.req.group, p.sequence)
    else if r.error == 0 then Touch(groups, p.req.group)
    else groups
  }

  function LeaveEvents(groups: Groups, p: Pending, r: Response): seq<Event>
    requires p.req.LeaveGroup? && r.LeaveGroupOk?
  {
    if LeaveAccepted(groups, p, r) then
      var g := GroupOf(groups, p.req.group);
      var gone := Leaving(p, r);
      seq(|gone|, i requires 0 <= i < |gone| => GroupLeave(p.req.group, gone[i], p.client, g.generation, g.epoch))
      + [Rebalance(groups, p.req.group, p.sequence, MemberLeft)]
    else []
  }

  // --------------------------------------------------------------- fetch responses

  function StatusesOf(topics: map<TopicId, string>, ts: seq<Topic<PartitionError>>): map<TopicPartition, bool> {
    if |ts| == 0 then map[] else
      TopicStatuses(StatusesOf(topics, ts[..|ts| - 1]), TopicName(topics, ts[|ts| - 1]), ts[|ts| - 1].partitions)
  }

  function TopicStatuses(before: map<TopicPartition, bool>, name: string, parts: seq<PartitionError>)
    : map<TopicPartition, bool>
  {
    if |parts| == 0 then before else
      var last := parts[|parts| - 1];
      TopicStatuses(before, name, parts[..|parts| - 1])[TopicPartition(name, last.partition) := last.error == 0]
  }

  // An incremental response omits unchanged partitions: they keep their status.
  predicate AcceptedNow(req: Request, statuses: map<TopicPartition, bool>, pos: FetchPosition)
    requires req.Fetch?
  {
    if pos.key in statuses then statuses[pos.key] else pos.accepted && Incremental(req)
  }

  function SessionOf(req: Request, statuses: map<TopicPartition, bool>, positions: seq<FetchPosition>): Session
    requires req.Fetch?
  {
    if |positions| == 0 then map[] else
      var last := positions[|positions| - 1];
      SessionOf(req, statuses, positions[..|positions| - 1])
        [last.key := SessionPosition(last.offset, AcceptedNow(req, statuses, last))]
  }

  datatype FetchState = FetchState(groups: Groups, ambiguous: set<ClientPartition>, events: seq<Event>)

  // The captured assignment still stands and may still be this client.
  predicate StillCurrent(groups: Groups, ref: AssignmentRef, client: string, source: Source, live: Liveness) {
    && ref.group in groups
    && groups[ref.group].epoch == ref.epoch
    && groups[ref.group].generation == ref.generation
    && ref.member in groups[ref.group].members
    && var m := groups[ref.group].members[ref.member];
    m.assignment == ref.assignment && m.source == ref.source && MatchesSource(m, client, source, live)
  }

  function MarkReady(groups: Groups, group: string, member: string, key: TopicPartition): Groups
    requires group in groups && member in groups[group].members
  {
    var g := groups[group];
    var m := g.members[member];
    groups[group := g.(members := g.members[member := m.(partitions := m.partitions[key := true])])]
  }

  function ReadyEvent(groups: Groups, p: Pending, pos: FetchPosition, ref: AssignmentRef): Event
    requires ref.group in groups && ref.member in groups[ref.group].members
  {
    var g := groups[ref.group];
    var m := g.members[ref.member];
    GroupReady(ref.group, ref.member, p.client, g.generation, g.epoch, pos.key, pos.offset, ref.assignment,
               p.source.Known() && m.source.Known() && p.source.instance == m.source.instance)
  }

  // The outcome for a position with exactly one captured assignment and one holder.
  function Attribute(s: FetchState, p: Pending, pos: FetchPosition, live: Liveness): FetchState
    requires |pos.refs| == 1
  {
    var ref := pos.refs[0];
    if !StillCurrent(s.groups, ref, p.client, p.source, live) then s
    else
      var m := s.groups[ref.group].members[ref.member];
      if p.source.Known() != m.source.Known() then s.(events := s.events + [AttributionUnavailable(p.client)])
      else if pos.key !in m.partitions || m.partitions[pos.key] then s
      else s.(groups := MarkReady(s.groups, ref.group, ref.member, pos.key),
              events := s.events + [ReadyEvent(s.groups, p, pos, ref)])
  }

  ghost function FetchOne(s: FetchState, p: Pending, pos: FetchPosition, accepted: bool, live: Liveness): FetchState {
    if !accepted then s else
      var seen := s.(events := s.events + [FetchPositionAt(p.client, pos.key, pos.offset, p.sequence)]);
      var holders := Holders(s.groups, pos.key, p.client, p.source, live);
      var key := ClientPartition(p.client, p.source.instance, pos.key);
      if |pos.refs| > 1 || |holders| > 1 then
        if key in s.ambiguous then seen
        else seen.(ambiguous := s.ambiguous + {key}, events := seen.events + [ReadyAmbiguous(p.client, pos.key)])
      else
        var settled := seen.(ambiguous := s.ambiguous - {key});
        if |pos.refs| == 1 && |holders| == 1 then Attribute(settled, p, pos, live) else settled
  }

  ghost function FetchAll(s: FetchState, p: Pending, positions: seq<FetchPosition>,
                          statuses: map<TopicPartition, bool>, live: Liveness): FetchState
    requires p.req.Fetch?
  {
    if |positions| == 0 then s else
      var last := positions[|positions| - 1];
      FetchOne(FetchAll(s, p, positions[..|positions| - 1], statuses, live),
               p, last, AcceptedNow(p.req, statuses, last), live)
  }

  function AfterSession(o: Observer, p: Pending, r: Response): map<SessionKey, Session>
    requires p.req.Fetch? && r.FetchOk?
  {
    var asked := KeyOf(p.req.sessionId, p.source, p.client);
    if r.error != 0 then o.sessions - {asked}
    else
      var session := SessionOf(p.req, StatusesOf(o.topics, r.statuses), p.positions);
      var stored := if r.sessionId > 0 then o.sessions[KeyOf(r.sessionId, p.source, p.client) := session]
                    else o.sessions;
      if p.req.sessionEpoch == -1 then stored - {asked} else stored
  }

  ghost function FetchOutcome(o: Observer, p: Pending, r: Response, live: Liveness): FetchState
    requires p.req.Fetch? && r.FetchOk?
  {
    var start := FetchState(o.groups, o.ambiguous, []);
    if r.error != 0 then start
    else FetchAll(start, p, p.positions, StatusesOf(o.topics, r.statuses), live)
  }

  // A live source whose connection still belongs to it.
  predicate Admitted(p: Pending, live: Liveness, owner: Option<Source>) {
    Active(live, p.source) && (owner.Some? ==> owner.value == p.source)
  }

  ghost function AfterResponse(o: Observer, p: Pending, r: Response, live: Liveness, owner: Option<Source>): Observer
    requires Answers(p.req, r)
  {
    if !Admitted(p, live, owner) then o else
      match p.req
      case JoinGroup(_) => o.(groups := AfterJoin(o.groups, p, r))
      case SyncGroup(_, _, _) => o.(groups := AfterSync(o.groups, p, r))
      case Heartbeat(_, _) => o.(groups := AfterHeartbeat(o.groups, p, r))
      case LeaveGroup(_, _, _) => o.(groups := AfterLeave(o.groups, p, r))
      case Fetch(_, _, _, _) =>
        var out := FetchOutcome(o, p, r, live);
        o.(groups := out.groups, ambiguous := out.ambiguous, sessions := AfterSession(o, p, r))
      case OtherRequest => o
  }

  ghost function ResponseEvents(o: Observer, p: Pending, r: Response, live: Liveness, owner: Option<Source>): seq<Event>
    requires Answers(p.req, r)
  {
    if !Active(live, p.source) then []
    else if !Admitted(p, live, owner) then [AttributionUnavailable(p.client)]
    else
      match p.req
      case JoinGroup(_) => JoinEvents(o.groups, p, r)
      case SyncGroup(_, _, _) => SyncEvents(o.groups, p, r)
      case Heartbeat(_, _) => HeartbeatEvents(o.groups, p, r)
      case LeaveGroup(_, _, _) => LeaveEvents(o.groups, p, r)
      case Fetch(_, _, _, _) => FetchOutcome(o, p, r, live).events
      case OtherRequest => []
  }
}
