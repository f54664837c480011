/**
  Which managed process owns a TCP connection. Processes register; proxies bridge an
  upstream connection to the client connection they serve; a binding resolves lazily and
  keeps what it found. Binding objects are entries of a table. The process table and the
  socket scans are oracles that are fixed within one resolution.
 */
module ConnTracker {
  import opened Options
  import opened Ownership
  import opened Text

  // The two endpoints of a connection, as addresses with ports.
  datatype Tuple = Tuple(source: string, target: string)

  datatype Registration = Registration(source: Source, start: nat, token: nat)

  datatype Binding = Binding(tuple: Tuple, valid: bool, closed: bool, source: Source)

  datatype Tracker = Tracker(identity: string, next: nat, registrations: map<string, Registration>,
                             bridges: Bridges, bindings: map<nat, Binding>)

  // Start times of running processes.
  type Processes = int -> Option<nat>

  // --------------------------------------------------------------- registrations

  function Instance(identity: string, pid: nat, start: nat, token: nat): string {
    identity + ['/'] + Decimal(pid) + ['/'] + Decimal(start) + ['/'] + Decimal(token)
  }

  function Register(t: Tracker, service: string, pid: int, processes: Processes): (Tracker, Option<Registration>) {
    if service == "" || pid <= 0 || processes(pid).None? then (t, None)
    else
      var token, start := t.next + 1, processes(pid).value;
      var instance := Instance(t.identity, pid, start, token);
      var reg := Registration(Source(service, instance, pid), start, token);
      (t.(next := token, registrations := t.registrations[instance := reg]), Some(reg))
  }

  function Unregister(t: Tracker, reg: Registration): Tracker {
    var key := reg.source.instance;
    if key in t.registrations && t.registrations[key].token == reg.token
    then t.(registrations := t.registrations - {key})
    else t
  }

  predicate IsActive(t: Tracker, source: Source, processes: Processes) {
    && source.Known() && source.instance in t.registrations
    && var reg := t.registrations[source.instance];
    reg.source == source && processes(source.pid) == Some(reg.start)
  }

  // --------------------------------------------------------------- scanning the sockets

  // What scanning one registration's process tree found, whether the scan was complete,
  // whether the registration still stood afterwards, and whether its process was alive.
  datatype Scan = Scan(owned: bool, complete: bool, registered: bool, active: bool)

  type Scans = (Registration, Tuple) -> Scan

  ghost predicate Owns(scans: Scans, reg: Registration, key: Tuple) {
    var s := scans(reg, key);
    s.registered && s.active && s.owned
  }

  ghost predicate AllComplete(regs: set<Registration>, scans: Scans, key: Tuple) {
    forall reg :: reg in regs && scans(reg, key).registered ==> scans(reg, key).complete
  }

  ghost function Owners(regs: set<Registration>, scans: Scans, key: Tuple): set<Source> {
    set reg | reg in regs && Owns(scans, reg, key) :: reg.source
  }

  // The direct owner: the one live owner when every standing scan is complete.
  ghost function DirectOwner(regs: set<Registration>, scans: Scans, key: Tuple): Source {
    if AllComplete(regs, scans, key) && |Owners(regs, scans, key)| == 1
    then var s :| s in Owners(regs, scans, key); s
    else UNKNOWN
  }

  ghost predicate AllKnown(regs: set<Registration>) {
    forall reg :: reg in regs ==> reg.source.Known()
  }

  lemma SingleOwner(regs: set<Registration>, scans: Scans, key: Tuple, s: Source)
    requires AllComplete(regs, scans, key) && Owners(regs, scans, key) == {s}
    ensures DirectOwner(regs, scans, key) == s
  {
  }

  lemma OwnersGrow(regs: set<Registration>, reg: Registration, scans: Scans, key: Tuple)
    ensures Owners(regs + {reg}, scans, key)
         == if Owns(scans, reg, key) then Owners(regs, scans, key) + {reg.source} else Owners(regs, scans, key)
  {
    var all := regs + {reg};
    forall r | r in all && Owns(scans, r, key) ensures r == reg || r.source in Owners(regs, scans, key) {
      if r != reg {
        assert r in regs;
      }
    }
    forall s | s in Owners(regs, scans, key) ensures s in Owners(all, scans, key) {
      var r :| r in regs && Owns(scans, r, key) && r.source == s;
      assert r in all;
    }
  }

  lemma OwnersMonotone(some: set<Registration>, all: set<Registration>, scans: Scans, key: Tuple)
    requires some <= all
    ensures Owners(some, scans, key) <= Owners(all, scans, key)
  {
  }

  lemma TwoOwners(s: set<Source>, x: Source, y: Source)
    requires x in s && y in s && x != y
    ensures |s| != 1
  {
    var others := s - {x};
    assert y in others && s == others + {x};
  }

  function Members(regs: seq<Registration>): set<Registration> {
    set r | r in regs
  }

  /** The scan's answer does not depend on the order the registrations are walked in. */
  method ScanRegistrations(regs: seq<Registration>, scans: Scans, key: Tuple) returns (found: Source)
    requires AllKnown(Members(regs))
    ensures found == DirectOwner(Members(regs), scans, key)
  {
    ghost var all := Members(regs);
    found := UNKNOWN;
    for i := 0 to |regs|
      invariant AllComplete(Members(regs[..i]), scans, key)
      invariant found.Known() || found == UNKNOWN
      invariant Owners(Members(regs[..i]), scans, key) == if found.Known() then {found} else {}
    {
      var reg := regs[i];
      var scan := scans(reg, key);
      ghost var some := Members(regs[..i]);
      assert Members(regs[..i + 1]) == some + {reg};
      OwnersGrow(some, reg, scans, key);
      if !scan.registered {
        continue;
      }
      if !scan.complete {
        assert reg in all;
        return UNKNOWN;
      }
      if !scan.active {
        continue;
      }
      if scan.owned {
        if found.Known() && found != reg.source {
          OwnersMonotone(some + {reg}, all, scans, key);
          TwoOwners(Owners(all, scans, key), found, reg.source);
          return UNKNOWN;
        }
        found := reg.source;
      }
    }
    assert regs[..|regs|] == regs;
    if found.Known() {
      SingleOwner(all, scans, key, found);
    }
  }

  // s is the source of a live registration that owns the tuple, and of every such one.
  ghost predicate SoleOwner(regs: set<Registration>, scans: Scans, key: Tuple, s: Source) {
    && (exists reg :: reg in regs && reg.source == s
                      && scans(reg, key).registered && scans(reg, key).active && scans(reg, key).owned)
    && (forall reg :: reg in regs && scans(reg, key).registered && scans(reg, key).active && scans(reg, key).owned ==>
                        reg.source == s)
  }

  // No registration that still stands was scanned in part only.
  ghost predicate ScannedWhole(regs: set<Registration>, scans: Scans, key: Tuple) {
    forall reg :: reg in regs && scans(reg, key).registered ==> scans(reg, key).complete
  }

  /**
    An owner is known without a bridge exactly when every standing scan was complete and
    it is the sole live owner: an incomplete scan or a second owner leaves it unknown.
   */
  lemma DirectOwnerIsProven(regs: set<Registration>, scans: Scans, key: Tuple, s: Source)
    requires s.Known()
    ensures DirectOwner(regs, scans, key) == s <==> ScannedWhole(regs, scans, key) && SoleOwner(regs, scans, key, s)
  {
    var owners := Owners(regs, scans, key);
    if DirectOwner(regs, scans, key) == s {
      forall reg | reg in regs && Owns(scans, reg, key) ensures reg.source == s {
        assert reg.source in owners;
        if reg.source != s {
          TwoOwners(owners, reg.source, s);
        }
      }
    }
    if ScannedWhole(regs, scans, key) && SoleOwner(regs, scans, key, s) {
      assert owners == {s};
      SingleOwner(regs, scans, key, s);
    }
  }

  // --------------------------------------------------------------- resolving a binding

  predicate Settled(b: Binding) {
    b.source.Known() || b.closed || !b.valid
  }

  type Bridges = map<Tuple, map<nat, nat>>

  function Entries(bridges: Bridges, key: Tuple): map<nat, nat> {
    if key in bridges then bridges[key] else map[]
  }

  function Without(bridges: Bridges, key: Tuple, token: nat): Bridges {
    var left := Entries(bridges, key) - {token};
    if |left| == 0 then bridges - {key} else bridges[key := left]
  }

  function BridgesOf(t: Tracker, key: Tuple): map<nat, nat> {
    Entries(t.bridges, key)
  }

  // The binding behind the only bridge of a tuple.
  ghost function OnlyBridge(t: Tracker, key: Tuple): nat
    requires |BridgesOf(t, key)| == 1
  {
    var token :| token in BridgesOf(t, key);
    BridgesOf(t, key)[token]
  }

  lemma OnlyOne(t: Tracker, key: Tuple, token: nat)
    requires |BridgesOf(t, key)| == 1 && token in BridgesOf(t, key)
    ensures OnlyBridge(t, key) == BridgesOf(t, key)[token]
  {
    var tokens := BridgesOf(t, key).Keys;
    assert |tokens| == 1 && token in tokens;
    assert tokens == {token} by {
      assert |tokens - {token}| == 0;
      assert tokens == {token} + (tokens - {token});
    }
  }

  ghost function Direct(t: Tracker, scans: Scans, key: Tuple): Source {
    DirectOwner(t.registrations.Values, scans, key)
  }

  function Remember(t: Tracker, id: nat, s: Source): Tracker
    requires id in t.bindings
  {
    t.(bindings := t.bindings[id := t.bindings[id].(source := s)])
  }

  /** Follows bridges until an owner is known, remembering it on the way back. Cycles end at a binding already seen. */
  ghost function Resolve(t: Tracker, id: nat, seen: set<nat>, scans: Scans): (r: (Tracker, Source))
    ensures r.0.bindings.Keys == t.bindings.Keys
    decreases t.bindings.Keys - seen, 0
  {
    if id !in t.bindings then (t, UNKNOWN)
    else if Settled(t.bindings[id]) then (t, t.bindings[id].source)
    else if id in seen then (t, UNKNOWN)
    else
      assert t.bindings.Keys - (seen + {id}) < t.bindings.Keys - seen;
      var (u, s) := ResolveTuple(t, t.bindings[id].tuple, seen + {id}, scans);
      if s.Known() then (Remember(u, id, s), s) else (u, t.bindings[id].source)
  }

  ghost function ResolveTuple(t: Tracker, key: Tuple, seen: set<nat>, scans: Scans): (r: (Tracker, Source))
    ensures r.0.bindings.Keys == t.bindings.Keys
    decreases t.bindings.Keys - seen, 1
  {
    if |BridgesOf(t, key)| > 1 then (t, UNKNOWN)
    else if |BridgesOf(t, key)| == 1 then Resolve(t, OnlyBridge(t, key), seen, scans)
    else (t, Direct(t, scans, key))
  }

  // --------------------------------------------------------------- what an answer proves

  // x is unresolved and its tuple has exactly one bridge, which leads to y.
  ghost predicate Hop(t: Tracker, x: nat, y: nat) {
    && x in t.bindings && !Settled(t.bindings[x])
    && |BridgesOf(t, t.bindings[x].tuple)| == 1 && y == OnlyBridge(t, t.bindings[x].tuple)
  }

  // x knows s already, or has no bridge and s owns it directly.
  ghost predicate Ends(t: Tracker, scans: Scans, x: nat, s: Source) {
    && x in t.bindings && s.Known()
    && (t.bindings[x].source == s
        || (!Settled(t.bindings[x]) && |BridgesOf(t, t.bindings[x].tuple)| == 0 && Direct(t, scans, t.bindings[x].tuple) == s))
  }

  ghost predicate Leads(t: Tracker, scans: Scans, path: seq<nat>, s: Source) {
    && |path| > 0 && Ends(t, scans, path[|path| - 1], s)
    && forall i :: 0 <= i < |path| - 1 ==> Hop(t, path[i], path[i + 1])
  }

  lemma LeadsTail(t: Tracker, scans: Scans, path: seq<nat>, s: Source)
    requires Leads(t, scans, path, s) && |path| > 1
    ensures Leads(t, scans, path[1..], s) && Hop(t, path[0], path[1])
  {
    var rest := path[1..];
    assert Hop(t, path[0], path[0 + 1]);
    forall i | 0 <= i < |rest| - 1 ensures Hop(t, rest[i], rest[i + 1]) {
      assert Hop(t, path[i + 1], path[i + 1 + 1]);
    }
  }

  // The chain from a binding is determined, so it has one length and one answer.
  lemma {:induction false} LeadsUnique(t: Tracker, scans: Scans, p: seq<nat>, s: Source, q: seq<nat>, r: Source)
    requires Leads(t, scans, p, s) && Leads(t, scans, q, r) && p[0] == q[0]
    ensures |p| == |q| && s == r
    decreases |p|
  {
    if |p| > 1 && |q| > 1 {
      LeadsTail(t, scans, p, s);
      LeadsTail(t, scans, q, r);
      LeadsUnique(t, scans, p[1..], s, q[1..], r);
    } else if |p| > 1 {
      LeadsTail(t, scans, p, s);
    } else if |q| > 1 {
      LeadsTail(t, scans, q, r);
    }
  }

  lemma {:induction false} LeadsSuffix(t: Tracker, scans: Scans, p: seq<nat>, s: Source, i: nat)
    requires Leads(t, scans, p, s) && i < |p|
    ensures Leads(t, scans, p[i..], s)
  {
    if i > 0 {
      LeadsSuffix(t, scans, p, s, i - 1);
      LeadsTail(t, scans, p[i - 1..], s);
      assert p[i - 1..][1..] == p[i..];
    }
  }

  lemma LeadsDistinct(t: Tracker, scans: Scans, p: seq<nat>, s: Source, i: nat, j: nat)
    requires Leads(t, scans, p, s) && i < j < |p|
    ensures p[i] != p[j]
  {
    LeadsSuffix(t, scans, p, s, i);
    LeadsSuffix(t, scans, p, s, j);
    if p[i] == p[j] {
      LeadsUnique(t, scans, p[i..], s, p[j..], s);
    }
  }

  lemma {:induction false} ResolveSound(t: Tracker, id: nat, seen: set<nat>, scans: Scans) returns (path: seq<nat>)
    requires Resolve(t, id, seen, scans).1.Known()
    ensures Leads(t, scans, path, Resolve(t, id, seen, scans).1) && path[0] == id
    decreases t.bindings.Keys - seen
  {
    var b, s := t.bindings[id], Resolve(t, id, seen, scans).1;
    path := [id];
    if !Settled(b) && |BridgesOf(t, b.tuple)| == 1 {
      var next := OnlyBridge(t, b.tuple);
      assert ResolveTuple(t, b.tuple, seen + {id}, scans) == Resolve(t, next, seen + {id}, scans);
      var rest := ResolveSound(t, next, seen + {id}, scans);
      path := [id] + rest;
      forall i | 0 <= i < |path| - 1 ensures Hop(t, path[i], path[i + 1]) {
        if i > 0 {
          assert Hop(t, rest[i - 1], rest[i - 1 + 1]);
        }
      }
    }
  }

  lemma {:induction false} ResolveComplete(t: Tracker, path: seq<nat>, seen: set<nat>, scans: Scans, s: Source)
    requires Leads(t, scans, path, s) && forall i :: 0 <= i < |path| ==> path[i] !in seen
    ensures Resolve(t, path[0], seen, scans).1 == s
    decreases |path|
  {
    if |path| > 1 {
      LeadsTail(t, scans, path, s);
      forall i | 0 <= i < |path| - 1 ensures path[1..][i] !in seen + {path[0]} {
        LeadsDistinct(t, scans, path, s, 0, i + 1);
      }
      ResolveComplete(t, path[1..], seen + {path[0]}, scans, s);
    }
  }

  /**
    A binding's source is s exactly when a chain of unresolved bindings, each with one
    bridge to the next, leads to one that knows s already or that s owns directly. A
    cycle of bridges or a conflict leads nowhere: the owner stays unknown.
   */
  lemma ResolvesExactlyAlongChains(t: Tracker, id: nat, scans: Scans, s: Source)
    requires s.Known()
    ensures Resolve(t, id, {}, scans).1 == s <==> exists path :: Leads(t, scans, path, s) && path[0] == id
  {
    if Resolve(t, id, {}, scans).1 == s {
      var path := ResolveSound(t, id, {}, scans);
    }
    if exists path :: Leads(t, scans, path, s) && path[0] == id {
      var path :| Leads(t, scans, path, s) && path[0] == id;
      ResolveComplete(t, path, {}, scans, s);
    }
  }

  /** A resolution that finds a source remembers it; one that does not changes nothing. */
  lemma {:induction false} ResolveRemembers(t: Tracker, id: nat, seen: set<nat>, scans: Scans)
    ensures var (u, s) := Resolve(t, id, seen, scans);
      if s.Known() then id in u.bindings && u.bindings[id].source == s else u == t
    decreases t.bindings.Keys - seen
  {
    if id in t.bindings && !Settled(t.bindings[id]) && id !in seen {
      var key := t.bindings[id].tuple;
      if |BridgesOf(t, key)| == 1 {
        ResolveRemembers(t, OnlyBridge(t, key), seen + {id}, scans);
      }
    }
  }

  // --------------------------------------------------------------- whole runs

  // u differs from t at most in sources learnt by open, unresolved bindings.
  ghost predicate OnlyLearns(t: Tracker, u: Tracker) {
    && u.(bindings := t.bindings) == t && u.bindings.Keys == t.bindings.Keys
    && forall id :: id in t.bindings ==>
                      && u.bindings[id].(source := t.bindings[id].source) == t.bindings[id]
                      && (Settled(t.bindings[id]) ==> u.bindings[id] == t.bindings[id])
  }

  lemma {:induction false} ResolveOnlyLearns(t: Tracker, id: nat, seen: set<nat>, scans: Scans)
    ensures OnlyLearns(t, Resolve(t, id, seen, scans).0)
    ensures forall x :: x in seen && x in t.bindings ==> Resolve(t, id, seen, scans).0.bindings[x] == t.bindings[x]
    decreases t.bindings.Keys - seen
  {
    if id in t.bindings && !Settled(t.bindings[id]) && id !in seen {
      var key := t.bindings[id].tuple;
      if |BridgesOf(t, key)| == 1 {
        ResolveOnlyLearns(t, OnlyBridge(t, key), seen + {id}, scans);
      }
    }
  }

  // A proxied connection: its upstream tuple and the binding of the client it serves.
  function Forward(t: Tracker, key: Tuple, valid: bool, id: nat, client: Tuple, clientValid: bool): Tracker
    requires id !in t.bindings
  {
    if !valid then t
    else t.(next := t.next + 1,
            bridges := t.bridges[key := BridgesOf(t, key)[t.next + 1 := id]],
            bindings := t.bindings[id := Binding(client, clientValid, false, UNKNOWN)])
  }

  function Close(t: Tracker, id: nat): Tracker {
    if id in t.bindings then t.(bindings := t.bindings[id := t.bindings[id].(closed := true)]) else t
  }

  function Cleanup(t: Tracker, key: Tuple, token: nat, id: nat): Tracker {
    Close(t, id).(bridges := Without(t.bridges, key, token))
  }

  function Bind(t: Tracker, id: nat, tuple: Tuple, valid: bool): Tracker
    requires id !in t.bindings
  {
    t.(bindings := t.bindings[id := Binding(tuple, valid, false, UNKNOWN)])
  }

  function Learn(t: Tracker, id: nat, s: Source): Tracker {
    if id in t.bindings && !t.bindings[id].closed && !t.bindings[id].source.Known() && s.Known()
    then Remember(t, id, s) else t
  }

  // Learns lets a resolution that was overtaken by other steps store whatever it found.
  datatype Step =
    | Registers(service: string, pid: int, processes: Processes)
    | Unregisters(reg: Registration)
    | Binds(id: nat, tuple: Tuple, valid: bool)
    | Closes(id: nat)
    | Forwards(key: Tuple, valid: bool, id: nat, tuple: Tuple, clientValid: bool)
    | Cleans(key: Tuple, token: nat, id: nat)
    | Resolves(id: nat, scans: Scans)
    | Learns(id: nat, source: Source)

  // New bindings are new objects, and only a valid binding is ever looked up.
  ghost predicate Enabled(t: Tracker, step: Step) {
    && (step.Binds? || step.Forwards? ==> step.id !in t.bindings)
    && (step.Learns? ==> step.id in t.bindings && t.bindings[step.id].valid)
  }

  ghost function After(t: Tracker, step: Step): Tracker
    requires Enabled(t, step)
  {
    match step
    case Registers(service, pid, processes) => Register(t, service, pid, processes).0
    case Unregisters(reg) => Unregister(t, reg)
    case Binds(id, tuple, valid) => Bind(t, id, tuple, valid)
    case Closes(id) => Close(t, id)
    case Forwards(key, valid, id, tuple, clientValid) => Forward(t, key, valid, id, tuple, clientValid)
    case Cleans(key, token, id) => Cleanup(t, key, token, id)
    case Resolves(id, scans) => Resolve(t, id, {}, scans).0
    case Learns(id, source) => Learn(t, id, source)
  }

  ghost predicate Moves(t: Tracker, step: Step, u: Tracker) {
    Enabled(t, step) && u == After(t, step)
  }

  ghost predicate IsRun(states: seq<Tracker>, steps: seq<Step>) {
    && |states| == |steps| + 1
    && states[0] == Tracker(states[0].identity, 0, map[], map[], map[])
    && forall i :: 0 <= i < |steps| ==> Moves(states[i], steps[i], states[i + 1])
  }

  // A settled binding keeps its source and stays settled.
  ghost predicate KeepsSource(t: Tracker, u: Tracker, id: nat)
    requires id in t.bindings
  {
    id in u.bindings && u.bindings[id].source == t.bindings[id].source && Settled(u.bindings[id])
  }

  lemma ResolveKeepsSource(t: Tracker, other: nat, scans: Scans, id: nat)
    requires id in t.bindings && Settled(t.bindings[id])
    ensures KeepsSource(t, Resolve(t, other, {}, scans).0, id)
  {
    ResolveOnlyLearns(t, other, {}, scans);
  }

  lemma BindKeepsSource(t: Tracker, other: nat, tuple: Tuple, valid: bool, id: nat)
    requires other !in t.bindings && id in t.bindings && Settled(t.bindings[id])
    ensures KeepsSource(t, Bind(t, other, tuple, valid), id)
  {
  }

  lemma CloseKeepsSource(t: Tracker, other: nat, id: nat)
    requires id in t.bindings && Settled(t.bindings[id])
    ensures KeepsSource(t, Close(t, other), id)
  {
  }

  lemma LearnKeepsSource(t: Tracker, other: nat, source: Source, id: nat)
    requires id in t.bindings && Settled(t.bindings[id])
    requires other in t.bindings ==> t.bindings[other].valid
    ensures KeepsSource(t, Learn(t, other, source), id)
  {
  }

  lemma ForwardKeepsSource(t: Tracker, key: Tuple, valid: bool, other: nat, client: Tuple, ok: bool, id: nat)
    requires other !in t.bindings && id in t.bindings && Settled(t.bindings[id])
    ensures KeepsSource(t, Forward(t, key, valid, other, client, ok), id)
  {
  }

  lemma CleanupKeepsSource(t: Tracker, key: Tuple, token: nat, other: nat, id: nat)
    requires id in t.bindings && Settled(t.bindings[id])
    ensures KeepsSource(t, Cleanup(t, key, token, other), id)
  {
    CloseKeepsSource(t, other, id);
    assert Cleanup(t, key, token, other).bindings == Close(t, other).bindings;
  }

  lemma RegistrationsKeepSource(t: Tracker, u: Tracker, id: nat)
    requires id in t.bindings && Settled(t.bindings[id]) && u.bindings == t.bindings
    ensures KeepsSource(t, u, id)
  {
  }

  lemma StepKeepsSource(t: Tracker, step: Step, id: nat)
    requires Enabled(t, step) && id in t.bindings && Settled(t.bindings[id])
    ensures KeepsSource(t, After(t, step), id)
  {
    match step {
      case Registers(service, pid, processes) => RegistrationsKeepSource(t, Register(t, service, pid, processes).0, id);
      case Unregisters(reg) => RegistrationsKeepSource(t, Unregister(t, reg), id);
      case Binds(other, tuple, valid) => BindKeepsSource(t, other, tuple, valid, id);
      case Closes(other) => CloseKeepsSource(t, other, id);
      case Forwards(key, valid, other, client, ok) => ForwardKeepsSource(t, key, valid, other, client, ok, id);
      case Cleans(key, token, other) => CleanupKeepsSource(t, key, token, other, id);
      case Resolves(other, scans) => ResolveKeepsSource(t, other, scans, id);
      case Learns(other, source) => LearnKeepsSource(t, other, source, id);
    }
  }

  lemma {:induction false} SettledStays(states: seq<Tracker>, steps: seq<Step>, i: nat, j: nat, id: nat)
    requires IsRun(states, steps) && i <= j <= |steps| && id in states[i].bindings && Settled(states[i].bindings[id])
    ensures id in states[j].bindings && Settled(states[j].bindings[id])
    ensures states[j].bindings[id].source == states[i].bindings[id].source
    decreases j - i
  {
    if i < j {
      SettledStays(states, steps, i, j - 1, id);
      assert Moves(states[j - 1], steps[j - 1], states[j - 1 + 1]);
      StepKeepsSource(states[j - 1], steps[j - 1], id);
    }
  }

  /**
    Along any run, however resolutions interleave with other steps, the source of a binding
    that is known, closed or invalid never changes again, and is what resolving it answers.
   */
  lemma SettledSourceNeverChanges(states: seq<Tracker>, steps: seq<Step>, i: nat, j: nat, id: nat, scans: Scans)
    requires IsRun(states, steps) && i <= j <= |steps| && id in states[i].bindings
    requires var b := states[i].bindings[id]; b.source.instance != "" || b.closed || !b.valid
    ensures id in states[j].bindings && states[j].bindings[id].source == states[i].bindings[id].source
    ensures Resolve(states[j], id, {}, scans) == (states[j], states[i].bindings[id].source)
  {
    SettledStays(states, steps, i, j, id);
  }

  ghost predicate IssuedAs(t: Tracker, instance: string, pid: nat, start: nat, token: nat) {
    0 < token <= t.next && instance == Instance(t.identity, pid, start, token)
  }

  // The instance carries a token that was handed out before.
  ghost predicate IssuedBy(t: Tracker, instance: string) {
    exists pid, start, token :: IssuedAs(t, instance, pid, start, token)
  }

  lemma TokensIdentify(identity: string, pid: nat, start: nat, token: nat, pid': nat, start': nat, token': nat)
    requires Instance(identity, pid, start, token) == Instance(identity, pid', start', token')
    ensures token == token'
  {
    LastSplitUnique(identity + ['/'] + Decimal(pid) + ['/'] + Decimal(start),
                    identity + ['/'] + Decimal(pid') + ['/'] + Decimal(start'), '/', Decimal(token), Decimal(token'));
    DecimalInjective(token, token');
  }

  lemma NewInstance(t: Tracker, instance: string, pid: nat, start: nat)
    requires IssuedBy(t, instance)
    ensures instance != Instance(t.identity, pid, start, t.next + 1)
  {
    var pid', start', token' :| IssuedAs(t, instance, pid', start', token');
    if instance == Instance(t.identity, pid, start, t.next + 1) {
      TokensIdentify(t.identity, pid, start, t.next + 1, pid', start', token');
    }
  }

  lemma IssuedStays(t: Tracker, u: Tracker, instance: string)
    requires IssuedBy(t, instance) && t.identity == u.identity && t.next <= u.next
    ensures IssuedBy(u, instance)
  {
    var pid, start, token :| IssuedAs(t, instance, pid, start, token);
    assert IssuedAs(u, instance, pid, start, token);
  }

  lemma StepForgets(t: Tracker, step: Step, instance: string)
    requires Enabled(t, step) && IssuedBy(t, instance) && instance !in t.registrations
    ensures IssuedBy(After(t, step), instance) && instance !in After(t, step).registrations
  {
    if step.Resolves? {
      ResolveOnlyLearns(t, step.id, {}, step.scans);
    }
    IssuedStays(t, After(t, step), instance);
    if step.Registers? && Register(t, step.service, step.pid, step.processes).1.Some? {
      NewInstance(t, instance, step.pid, step.processes(step.pid).value);
    }
  }

  /** A source that was registered and no longer is never becomes active again, whatever processes run. */
  lemma {:induction false} UnregisteredStaysInactive(states: seq<Tracker>, steps: seq<Step>, i: nat, j: nat,
                                                     source: Source, processes: Processes)
    requires IsRun(states, steps) && i <= j <= |steps|
    requires IssuedBy(states[i], source.instance) && source.instance !in states[i].registrations
    ensures source.instance !in states[j].registrations && !IsActive(states[j], source, processes)
    ensures IssuedBy(states[j], source.instance)
    decreases j - i
  {
    if i < j {
      UnregisteredStaysInactive(states, steps, i, j - 1, source, processes);
      assert Moves(states[j - 1], steps[j - 1], states[j - 1 + 1]);
      StepForgets(states[j - 1], steps[j - 1], source.instance);
    }
  }

  // --------------------------------------------------------------- what every step keeps

  ghost predicate RegistrationsValid(t: Tracker) {
    forall k :: k in t.registrations ==> t.registrations[k].source.instance == k && IssuedBy(t, k)
  }

  ghost predicate BridgesValid(t: Tracker) {
    && (forall key :: key in t.bridges ==> t.bridges[key] != map[])
    && (forall key, token :: key in t.bridges && token in t.bridges[key] ==>
                               0 < token <= t.next && t.bridges[key][token] in t.bindings)
  }

  ghost predicate Inv(t: Tracker) {
    RegistrationsValid(t) && BridgesValid(t)
  }

  lemma RegisterKeepsInv(t: Tracker, service: string, pid: int, processes: Processes)
    requires RegistrationsValid(t)
    ensures RegistrationsValid(Register(t, service, pid, processes).0)
  {
    var (u, reg) := Register(t, service, pid, processes);
    if reg.Some? {
      assert IssuedAs(u, reg.value.source.instance, pid, processes(pid).value, u.next);
      forall k | k in u.registrations ensures u.registrations[k].source.instance == k && IssuedBy(u, k) {
        if k != reg.value.source.instance {
          IssuedStays(t, u, k);
        }
      }
    }
  }

  lemma SameRegistrations(t: Tracker, u: Tracker)
    requires RegistrationsValid(t) && t.identity == u.identity && t.next <= u.next
    requires forall k :: k in u.registrations ==> k in t.registrations && u.registrations[k] == t.registrations[k]
    ensures RegistrationsValid(u)
  {
    forall k | k in u.registrations ensures u.registrations[k].source.instance == k && IssuedBy(u, k) {
      IssuedStays(t, u, k);
    }
  }

  lemma ForwardKeepsBridges(t: Tracker, key: Tuple, valid: bool, id: nat, client: Tuple, clientValid: bool)
    requires BridgesValid(t) && id !in t.bindings
    ensures BridgesValid(Forward(t, key, valid, id, client, clientValid))
  {
    if valid {
      var u := Forward(t, key, valid, id, client, clientValid);
      assert t.next + 1 in u.bridges[key];
      forall k, token | k in u.bridges && token in u.bridges[k]
        ensures 0 < token <= u.next && u.bridges[k][token] in u.bindings
      {
        if k != key || token != t.next + 1 {
          assert token in t.bridges[k];
        }
      }
    }
  }

  lemma CleanupKeepsBridges(t: Tracker, key: Tuple, token: nat, id: nat)
    requires BridgesValid(t)
    ensures BridgesValid(Cleanup(t, key, token, id))
  {
    var u := Cleanup(t, key, token, id);
    forall k, n | k in u.bridges && n in u.bridges[k] ensures 0 < n <= u.next && u.bridges[k][n] in u.bindings {
      assert n in t.bridges[k];
    }
  }

  lemma ForwardKeepsInv(t: Tracker, key: Tuple, valid: bool, id: nat, client: Tuple, clientValid: bool)
    requires Inv(t) && id !in t.bindings
    ensures Inv(Forward(t, key, valid, id, client, clientValid))
  {
    ForwardKeepsBridges(t, key, valid, id, client, clientValid);
    SameRegistrations(t, Forward(t, key, valid, id, client, clientValid));
  }

  lemma CleanupKeepsInv(t: Tracker, key: Tuple, token: nat, id: nat)
    requires Inv(t)
    ensures Inv(Cleanup(t, key, token, id))
  {
    CleanupKeepsBridges(t, key, token, id);
    SameRegistrations(t, Cleanup(t, key, token, id));
  }

  // Steps that leave the bridges alone and lose no binding.
  lemma BindingsKeepInv(t: Tracker, u: Tracker)
    requires Inv(t) && u.identity == t.identity && u.next == t.next && u.bridges == t.bridges
    requires forall k :: k in u.registrations ==> k in t.registrations && u.registrations[k] == t.registrations[k]
    requires forall id :: id in t.bindings ==> id in u.bindings
    ensures Inv(u)
  {
    SameRegistrations(t, u);
  }

  lemma ResolveKeepsInv(t: Tracker, id: nat, scans: Scans)
    requires Inv(t)
    ensures Inv(Resolve(t, id, {}, scans).0)
  {
    ResolveOnlyLearns(t, id, {}, scans);
    BindingsKeepInv(t, Resolve(t, id, {}, scans).0);
  }

  lemma StepKeepsInv(t: Tracker, step: Step)
    requires Inv(t) && Enabled(t, step)
    ensures Inv(After(t, step))
  {
    match step {
      case Registers(service, pid, processes) => RegisterStepKeepsInv(t, service, pid, processes);
      case Forwards(key, valid, id, client, clientValid) => ForwardKeepsInv(t, key, valid, id, client, clientValid);
      case Cleans(key, token, id) => CleanupKeepsInv(t, key, token, id);
      case Resolves(id, scans) => ResolveKeepsInv(t, id, scans);
      case Unregisters(reg) => BindingsKeepInv(t, Unregister(t, reg));
      case Binds(id, tuple, valid) => BindingsKeepInv(t, Bind(t, id, tuple, valid));
      case Closes(id) => BindingsKeepInv(t, Close(t, id));
      case Learns(id, source) => BindingsKeepInv(t, Learn(t, id, source));
    }
  }

  lemma RegisterStepKeepsInv(t: Tracker, service: string, pid: int, processes: Processes)
    requires Inv(t)
    ensures Inv(Register(t, service, pid, processes).0)
  {
    RegisterKeepsInv(t, service, pid, processes);
  }

  lemma {:induction false} RunKeepsInv(states: seq<Tracker>, steps: seq<Step>, i: nat)
    requires IsRun(states, steps) && i <= |steps|
    ensures Inv(states[i])
  {
    if i > 0 {
      RunKeepsInv(states, steps, i - 1);
      assert Moves(states[i - 1], steps[i - 1], states[i - 1 + 1]);
      StepKeepsInv(states[i - 1], steps[i - 1]);
    }
  }

  /** Registering fails exactly on a bad service or process; otherwise unregistering removes just what it added. */
  lemma RegistrationLifecycle(t: Tracker, service: string, pid: int, processes: Processes)
    requires Inv(t)
    ensures var (u, reg) := Register(t, service, pid, processes);
      && (reg.None? <==> service == "" || pid <= 0 || processes(pid).None?)
      && (reg.None? ==> u == t)
      && (reg.Some? ==>
            && reg.value.source.service == service && reg.value.source.pid == pid
            && IssuedBy(u, reg.value.source.instance) && IsActive(u, reg.value.source, processes)
            && reg.value.source.instance !in t.registrations
            && Unregister(u, reg.value).registrations == t.registrations)
  {
    var (u, reg) := Register(t, service, pid, processes);
    if reg.Some? {
      var instance := reg.value.source.instance;
      assert IssuedAs(u, instance, pid, processes(pid).value, u.next);
      if instance in t.registrations {
        NewInstance(t, instance, pid, processes(pid).value);
      }
    }
  }

  // Step k gives up the registration.
  ghost predicate GivesUp(steps: seq<Step>, k: nat, reg: Registration) {
    && k < |steps| && steps[k].Unregisters?
    && steps[k].reg.source.instance == reg.source.instance && steps[k].reg.token == reg.token
  }

  ghost predicate RegisteredBy(states: seq<Tracker>, steps: seq<Step>, i: nat, reg: Registration) {
    && i < |steps| && i < |states| && steps[i].Registers?
    && Register(states[i], steps[i].service, steps[i].pid, steps[i].processes).1 == Some(reg)
  }

  ghost predicate GivenUp(steps: seq<Step>, i: nat, j: nat, reg: Registration) {
    exists k :: i < k < j && GivesUp(steps, k, reg)
  }

  lemma RegistrationStays(t: Tracker, step: Step, reg: Registration)
    requires Enabled(t, step) && reg.source.instance in t.registrations
    requires t.registrations[reg.source.instance] == reg && IssuedBy(t, reg.source.instance)
    ensures var u, key := After(t, step), reg.source.instance;
      if GivesUp([step], 0, reg) then key !in u.registrations else key in u.registrations && u.registrations[key] == reg
  {
    match step {
      case Resolves(id, scans) => ResolveOnlyLearns(t, id, {}, scans);
      case Registers(service, pid, processes) =>
        if Register(t, service, pid, processes).1.Some? {
          NewInstance(t, reg.source.instance, pid, processes(pid).value);
        }
      case _ =>
    }
  }

  // The registration stands under its key, or its key is gone.
  ghost predicate Stands(t: Tracker, reg: Registration, given: bool) {
    && IssuedBy(t, reg.source.instance)
    && (if given then reg.source.instance !in t.registrations
        else reg.source.instance in t.registrations && t.registrations[reg.source.instance] == reg)
  }

  lemma StepStands(t: Tracker, step: Step, reg: Registration, given: bool)
    requires Enabled(t, step) && Stands(t, reg, given)
    ensures Stands(After(t, step), reg, given || GivesUp([step], 0, reg))
  {
    StepIssues(t, step, reg.source.instance);
    if given {
      StepForgets(t, step, reg.source.instance);
    } else {
      RegistrationStays(t, step, reg);
    }
  }

  lemma RegisteredStands(t: Tracker, step: Step, reg: Registration)
    requires Inv(t) && RegisteredBy([t], [step], 0, reg)
    ensures Stands(After(t, step), reg, false)
  {
    RegistrationLifecycle(t, step.service, step.pid, step.processes);
  }

  lemma GivenUpStep(steps: seq<Step>, i: nat, j: nat, reg: Registration)
    requires i < j < |steps|
    ensures GivenUp(steps, i, j + 1, reg) <==> GivenUp(steps, i, j, reg) || GivesUp([steps[j]], 0, reg)
  {
    assert GivesUp([steps[j]], 0, reg) <==> GivesUp(steps, j, reg);
  }

  lemma {:induction false} StandsOn(states: seq<Tracker>, steps: seq<Step>, i: nat, j: nat, reg: Registration)
    requires IsRun(states, steps) && i < j <= |steps| && Stands(states[i + 1], reg, false)
    ensures Stands(states[j], reg, GivenUp(steps, i, j, reg))
  {
    if i + 1 < j {
      StandsOn(states, steps, i, j - 1, reg);
      assert Moves(states[j - 1], steps[j - 1], states[j - 1 + 1]);
      StepStands(states[j - 1], steps[j - 1], reg, GivenUp(steps, i, j - 1, reg));
      GivenUpStep(steps, i, j - 1, reg);
    }
  }

  lemma RegistrationStands(states: seq<Tracker>, steps: seq<Step>, i: nat, j: nat, reg: Registration)
    requires IsRun(states, steps) && i < j <= |steps| && RegisteredBy(states, steps, i, reg)
    ensures Stands(states[j], reg, GivenUp(steps, i, j, reg))
  {
    assert Moves(states[i], steps[i], states[i + 1]);
    RunKeepsInv(states, steps, i);
    RegisteredStands(states[i], steps[i], reg);
    StandsOn(states, steps, i, j, reg);
  }

  lemma StepIssues(t: Tracker, step: Step, instance: string)
    requires Enabled(t, step) && IssuedBy(t, instance)
    ensures IssuedBy(After(t, step), instance)
  {
    if step.Resolves? {
      ResolveOnlyLearns(t, step.id, {}, step.scans);
    }
    IssuedStays(t, After(t, step), instance);
  }

  /**
    Along any run a registered source is active exactly while its registration has not been
    given up and the process with its number is the one that ran when it was registered.
   */
  lemma ActiveExactly(states: seq<Tracker>, steps: seq<Step>, i: nat, j: nat, reg: Registration, processes: Processes)
    requires IsRun(states, steps) && i < j <= |steps| && RegisteredBy(states, steps, i, reg)
    ensures IsActive(states[j], reg.source, processes)
            <==> !GivenUp(steps, i, j, reg) && processes(steps[i].pid) == steps[i].processes(steps[i].pid)
  {
    RegistrationStands(states, steps, i, j, reg);
    var pid, start, token :| IssuedAs(states[j], reg.source.instance, pid, start, token);
  }

  lemma {:induction false} RegistrationWasMade(states: seq<Tracker>, steps: seq<Step>, j: nat, k: string) returns (i: nat)
    requires IsRun(states, steps) && j <= |steps| && k in states[j].registrations
    ensures i < j && RegisteredBy(states, steps, i, states[j].registrations[k])
  {
    assert Moves(states[j - 1], steps[j - 1], states[j - 1 + 1]);
    if steps[j - 1].Resolves? {
      ResolveOnlyLearns(states[j - 1], steps[j - 1].id, {}, steps[j - 1].scans);
    }
    if k in states[j - 1].registrations && states[j - 1].registrations[k] == states[j].registrations[k] {
      i := RegistrationWasMade(states, steps, j - 1, k);
    } else {
      i := j - 1;
    }
  }

  /** Along any run only sources that some step registered are ever active. */
  lemma ActiveWasRegistered(states: seq<Tracker>, steps: seq<Step>, j: nat, source: Source, processes: Processes)
    returns (i: nat, reg: Registration)
    requires IsRun(states, steps) && j <= |steps| && IsActive(states[j], source, processes)
    ensures i < j && RegisteredBy(states, steps, i, reg) && reg.source == source
  {
    reg := states[j].registrations[source.instance];
    i := RegistrationWasMade(states, steps, j, source.instance);
  }

  lemma AddThenRemove(bridges: Bridges, key: Tuple, token: nat, id: nat)
    requires token !in Entries(bridges, key) && (key in bridges ==> bridges[key] != map[])
    ensures Without(bridges[key := Entries(bridges, key)[token := id]], key, token) == bridges
  {
    var before := Entries(bridges, key);
    assert before[token := id] - {token} == before;
    assert |before| == 0 <==> key !in bridges;
  }

  lemma AddedEntry(entries: map<nat, nat>, token: nat, id: nat)
    requires token !in entries
    ensures |entries[token := id]| == |entries| + 1
  {
    assert entries[token := id].Keys == entries.Keys + {token};
    assert |entries.Keys + {token}| == |entries.Keys| + 1;
  }

  /** Cleaning up after Forward restores the bridges and closes the client's binding. */
  lemma BridgeLifecycle(t: Tracker, key: Tuple, id: nat, client: Tuple, clientValid: bool)
    requires Inv(t) && id !in t.bindings
    ensures var u := Forward(t, key, true, id, client, clientValid);
      && |BridgesOf(u, key)| == |BridgesOf(t, key)| + 1
      && Cleanup(u, key, u.next, id).bridges == t.bridges && Cleanup(u, key, u.next, id).bindings[id].closed
      && (|BridgesOf(t, key)| == 0 ==> StandsFor(u, key, client, clientValid))
  {
    ForwardStandsFor(t, key, id, client, clientValid);
    NewToken(t, key);
    ForwardAdds(t, key, id, client, clientValid);
    ForwardThenCleanup(t, key, id, client, clientValid);
  }

  lemma ForwardAdds(t: Tracker, key: Tuple, id: nat, client: Tuple, clientValid: bool)
    requires id !in t.bindings && t.next + 1 !in Entries(t.bridges, key)
    ensures |BridgesOf(Forward(t, key, true, id, client, clientValid), key)| == |BridgesOf(t, key)| + 1
  {
    AddedEntry(Entries(t.bridges, key), t.next + 1, id);
    assert BridgesOf(Forward(t, key, true, id, client, clientValid), key) == Entries(t.bridges, key)[t.next + 1 := id];
  }

  lemma ForwardThenCleanup(t: Tracker, key: Tuple, id: nat, client: Tuple, clientValid: bool)
    requires id !in t.bindings && t.next + 1 !in Entries(t.bridges, key) && (key in t.bridges ==> t.bridges[key] != map[])
    ensures var u := Forward(t, key, true, id, client, clientValid);
      Cleanup(u, key, u.next, id).bridges == t.bridges && Cleanup(u, key, u.next, id).bindings[id].closed
  {
    var u := Forward(t, key, true, id, client, clientValid);
    AddThenRemove(t.bridges, key, t.next + 1, id);
    assert u.bridges == t.bridges[key := Entries(t.bridges, key)[t.next + 1 := id]];
  }

  lemma NewToken(t: Tracker, key: Tuple)
    requires BridgesValid(t)
    ensures t.next + 1 !in Entries(t.bridges, key) && (key in t.bridges ==> t.bridges[key] != map[])
  {
  }

  /** Cleaning up never removes a bridge with another token, so a reused tuple keeps its newer bridge. */
  lemma CleanupKeepsOthers(t: Tracker, key: Tuple, token: nat, id: nat, k: Tuple, n: nat)
    requires n in BridgesOf(t, k) && (k != key || n != token)
    ensures n in BridgesOf(Cleanup(t, key, token, id), k)
    ensures BridgesOf(Cleanup(t, key, token, id), k)[n] == BridgesOf(t, k)[n]
  {
    if k == key {
      assert n in BridgesOf(t, key) - {token};
    }
  }

  // --------------------------------------------------------------- an upstream connection stands for its client

  // Wherever an unresolved binding of the upstream tuple leads, a new binding of the client tuple would lead.
  ghost predicate StandsFor(u: Tracker, key: Tuple, client: Tuple, clientValid: bool) {
    forall b: nat, newer: nat, scans: Scans, s: Source ::
      Awaits(u, b, key) && newer !in u.bindings && s.Known() ==>
        (Resolve(u, b, {}, scans).1 == s <==> Resolve(Bind(u, newer, client, clientValid), newer, {}, scans).1 == s)
  }

  ghost predicate Awaits(u: Tracker, b: nat, key: Tuple) {
    b in u.bindings && !Settled(u.bindings[b]) && u.bindings[b].tuple == key
  }

  lemma LeadsCons(t: Tracker, scans: Scans, x: nat, path: seq<nat>, s: Source)
    requires Leads(t, scans, path, s) && Hop(t, x, path[0])
    ensures Leads(t, scans, [x] + path, s)
  {
    var all := [x] + path;
    forall i | 0 <= i < |all| - 1 ensures Hop(t, all[i], all[i + 1]) {
      if i > 0 {
        assert Hop(t, path[i - 1], path[i - 1 + 1]);
      }
    }
  }

  // One more binding, to which no bridge leads, changes no chain of the others.
  ghost predicate Extended(u: Tracker, v: Tracker, f: nat) {
    && BridgesValid(u) && f !in u.bindings && f in v.bindings
    && v.bridges == u.bridges && v.registrations == u.registrations
    && (forall x :: x in u.bindings ==> x in v.bindings && v.bindings[x] == u.bindings[x])
  }

  lemma OnlyBridgeIsBinding(u: Tracker, key: Tuple)
    requires BridgesValid(u) && |BridgesOf(u, key)| == 1
    ensures OnlyBridge(u, key) in u.bindings
  {
    assert BridgesOf(u, key).Keys != {};
    var token :| token in BridgesOf(u, key);
    OnlyOne(u, key, token);
  }

  lemma SameBridge(u: Tracker, v: Tracker, key: Tuple)
    requires v.bridges == u.bridges && |BridgesOf(u, key)| == 1
    ensures OnlyBridge(v, key) == OnlyBridge(u, key)
  {
    assert BridgesOf(u, key).Keys != {};
    var token :| token in BridgesOf(u, key);
    OnlyOne(u, key, token);
    OnlyOne(v, key, token);
  }

  lemma HopExtends(u: Tracker, v: Tracker, f: nat, x: nat, y: nat)
    requires Extended(u, v, f) && x in u.bindings
    ensures Hop(u, x, y) <==> Hop(v, x, y)
    ensures Hop(u, x, y) ==> y in u.bindings
  {
    var key := u.bindings[x].tuple;
    if |BridgesOf(u, key)| == 1 {
      SameBridge(u, v, key);
      OnlyBridgeIsBinding(u, key);
    }
  }

  lemma {:induction false} LeadsExtends(u: Tracker, v: Tracker, f: nat, scans: Scans, path: seq<nat>, s: Source)
    requires Extended(u, v, f) && |path| > 0 && path[0] in u.bindings
    ensures Leads(u, scans, path, s) <==> Leads(v, scans, path, s)
    decreases |path|
  {
    if |path| > 1 {
      HopExtends(u, v, f, path[0], path[1]);
      if Leads(u, scans, path, s) {
        LeadsTail(u, scans, path, s);
        LeadsExtends(u, v, f, scans, path[1..], s);
        LeadsCons(v, scans, path[0], path[1..], s);
        assert [path[0]] + path[1..] == path;
      }
      if Leads(v, scans, path, s) {
        LeadsTail(v, scans, path, s);
        LeadsExtends(u, v, f, scans, path[1..], s);
        LeadsCons(u, scans, path[0], path[1..], s);
        assert [path[0]] + path[1..] == path;
      }
    } else {
      assert Ends(u, scans, path[0], s) <==> Ends(v, scans, path[0], s);
    }
  }

  // Bindings of the same connection lead to the same places.
  lemma TwinLeads(v: Tracker, scans: Scans, x: nat, f: nat, path: seq<nat>, s: Source)
    requires x in v.bindings && f in v.bindings && v.bindings[x] == v.bindings[f]
    requires Leads(v, scans, path, s) && path[0] == x
    ensures Leads(v, scans, [f] + path[1..], s)
  {
    if |path| > 1 {
      LeadsTail(v, scans, path, s);
      LeadsCons(v, scans, f, path[1..], s);
    }
  }

  // The forwarded connection: one bridge on its tuple, to the binding of its client.
  ghost predicate Bridged(u: Tracker, key: Tuple, id: nat, client: Tuple, clientValid: bool) {
    && BridgesValid(u) && |BridgesOf(u, key)| == 1 && OnlyBridge(u, key) == id
    && id in u.bindings && u.bindings[id] == Binding(client, clientValid, false, UNKNOWN)
  }

  lemma UpstreamLeadsAsClient(u: Tracker, key: Tuple, id: nat, client: Tuple, clientValid: bool,
                              b: nat, f: nat, scans: Scans, s: Source)
    requires Bridged(u, key, id, client, clientValid) && Awaits(u, b, key) && f !in u.bindings && s.Known()
    requires Resolve(u, b, {}, scans).1 == s
    ensures Resolve(Bind(u, f, client, clientValid), f, {}, scans).1 == s
  {
    var v := Bind(u, f, client, clientValid);
    var path := ResolveSound(u, b, {}, scans);
    assert |path| > 1;
    LeadsTail(u, scans, path, s);
    LeadsExtends(u, v, f, scans, path[1..], s);
    TwinLeads(v, scans, id, f, path[1..], s);
    ResolveComplete(v, [f] + path[1..][1..], {}, scans, s);
  }

  lemma ClientLeadsAsUpstream(u: Tracker, key: Tuple, id: nat, client: Tuple, clientValid: bool,
                              b: nat, f: nat, scans: Scans, s: Source)
    requires Bridged(u, key, id, client, clientValid) && Awaits(u, b, key) && f !in u.bindings && s.Known()
    requires Resolve(Bind(u, f, client, clientValid), f, {}, scans).1 == s
    ensures Resolve(u, b, {}, scans).1 == s
  {
    var v := Bind(u, f, client, clientValid);
    var path := ResolveSound(v, f, {}, scans);
    TwinLeads(v, scans, f, id, path, s);
    LeadsExtends(u, v, f, scans, [id] + path[1..], s);
    LeadsCons(u, scans, b, [id] + path[1..], s);
    ResolveComplete(u, [b] + ([id] + path[1..]), {}, scans, s);
  }

  lemma BridgedStandsFor(u: Tracker, key: Tuple, id: nat, client: Tuple, clientValid: bool)
    requires Bridged(u, key, id, client, clientValid)
    ensures StandsFor(u, key, client, clientValid)
  {
    forall b: nat, f: nat, scans: Scans, s: Source | Awaits(u, b, key) && f !in u.bindings && s.Known()
      ensures Resolve(u, b, {}, scans).1 == s <==> Resolve(Bind(u, f, client, clientValid), f, {}, scans).1 == s
    {
      if Resolve(u, b, {}, scans).1 == s {
        UpstreamLeadsAsClient(u, key, id, client, clientValid, b, f, scans, s);
      }
      if Resolve(Bind(u, f, client, clientValid), f, {}, scans).1 == s {
        ClientLeadsAsUpstream(u, key, id, client, clientValid, b, f, scans, s);
      }
    }
  }

  /**
    Forwarding preserves ownership: afterwards an unresolved binding of the upstream
    connection resolves to a known source exactly when a new binding of the client's
    connection would, and to the same one; a second bridge on the upstream tuple makes
    its owner unknown instead.
   */
  lemma ForwardStandsFor(t: Tracker, key: Tuple, id: nat, client: Tuple, clientValid: bool)
    requires Inv(t) && id !in t.bindings
    ensures var u := Forward(t, key, true, id, client, clientValid);
      if |BridgesOf(t, key)| == 0 then StandsFor(u, key, client, clientValid)
      else forall b: nat, scans: Scans :: Awaits(u, b, key) ==> !Resolve(u, b, {}, scans).1.Known()
  {
    var u := Forward(t, key, true, id, client, clientValid);
    NewToken(t, key);
    ForwardAdds(t, key, id, client, clientValid);
    if |BridgesOf(t, key)| == 0 {
      ForwardKeepsBridges(t, key, true, id, client, clientValid);
      OnlyOne(u, key, t.next + 1);
      BridgedStandsFor(u, key, id, client, clientValid);
    }
  }

  /** A new binding of a connection without bridges resolves to exactly its proven direct owner, if its addresses are usable. */
  lemma BoundOwner(t: Tracker, f: nat, tuple: Tuple, valid: bool, scans: Scans, s: Source)
    requires f !in t.bindings && |BridgesOf(t, tuple)| == 0 && s.Known()
    ensures Resolve(Bind(t, f, tuple, valid), f, {}, scans).1 == s
            <==> valid && ScannedWhole(t.registrations.Values, scans, tuple)
                 && SoleOwner(t.registrations.Values, scans, tuple, s)
  {
    var v := Bind(t, f, tuple, valid);
    DirectOwnerIsProven(t.registrations.Values, scans, tuple, s);
    assert ResolveTuple(v, tuple, {f}, scans) == (v, Direct(t, scans, tuple));
  }

  /** So a client that is owned directly, and not itself bridged, owns the upstream connection. */
  lemma ForwardedOwner(t: Tracker, key: Tuple, id: nat, client: Tuple, b: nat, scans: Scans, s: Source)
    requires Inv(t) && id !in t.bindings && |BridgesOf(t, key)| == 0
    requires client != key && |BridgesOf(t, client)| == 0 && s.Known() && Direct(t, scans, client) == s
    requires Awaits(Forward(t, key, true, id, client, true), b, key)
    ensures Resolve(Forward(t, key, true, id, client, true), b, {}, scans).1 == s
  {
    var u := Forward(t, key, true, id, client, true);
    ForwardStandsFor(t, key, id, client, true);
    var f := NewBinding(u.bindings.Keys);
    var v := Bind(u, f, client, true);
    assert Leads(v, scans, [f], s);
    ResolveComplete(v, [f], {}, scans, s);
  }

  lemma {:induction false} NewBinding(ids: set<nat>) returns (f: nat)
    ensures f !in ids && forall x :: x in ids ==> x < f
  {
    f := 0;
    if ids != {} {
      var x :| x in ids;
      var g := NewBinding(ids - {x});
      f := if x < g then g else x + 1;
      assert forall y :: y in ids ==> y == x || y in ids - {x};
    }
  }

  // --------------------------------------------------------------- the object

  lemma KnownRegistrations(t: Tracker)
    requires RegistrationsValid(t)
    ensures AllKnown(t.registrations.Values)
  {
    forall reg | reg in t.registrations.Values ensures reg.source.Known() {
      var k :| k in t.registrations && t.registrations[k] == reg;
      var pid, start, token :| IssuedAs(t, k, pid, start, token);
    }
  }

  /** Lists a map's values in whatever order the walk takes. */
  method Snapshot(registrations: map<string, Registration>) returns (regs: seq<Registration>)
    ensures Members(regs) == registrations.Values
  {
    regs := [];
    var left := registrations.Keys;
    while left != {}
      invariant left <= registrations.Keys
      invariant Members(regs) == set k | k in registrations.Keys - left :: registrations[k]
    {
      var k :| k in left;
      ghost var done := set l | l in registrations.Keys - left :: registrations[l];
      assert (set l | l in registrations.Keys - (left - {k}) :: registrations[l]) == done + {registrations[k]};
      assert Members(regs + [registrations[k]]) == Members(regs) + {registrations[k]};
      regs := regs + [registrations[k]];
      left := left - {k};
    }
  }

  /** The tracker with its mutable tables. */
  class Attribution {
    const identity: string
    var next: nat
    var registrations: map<string, Registration>
    var bridges: Bridges
    var bindings: map<nat, Binding>

    ghost function View(): Tracker
      reads this
    {
      Tracker(identity, next, registrations, bridges, bindings)
    }

    constructor (identity: string)
      ensures View() == Tracker(identity, 0, map[], map[], map[]) && Inv(View())
    {
      this.identity := identity;
      next, registrations, bridges, bindings := 0, map[], map[], map[];
    }

    method RegisterProcess(service: string, pid: int, processes: Processes) returns (reg: Option<Registration>)
      requires Inv(View())
      modifies this
      ensures (View(), reg) == Register(old(View()), service, pid, processes)
      ensures Inv(View())
    {
      RegisterKeepsInv(View(), service, pid, processes);
      if service == "" || pid <= 0 {
        return None;
      }
      var start := processes(pid);
      if start.None? {
        return None;
      }
      next := next + 1;
      var instance := Instance(identity, pid, start.value, next);
      var added := Registration(Source(service, instance, pid), start.value, next);
      registrations := registrations[instance := added];
      return Some(added);
    }

    method UnregisterProcess(reg: Registration)
      requires Inv(View())
      modifies this
      ensures View() == Unregister(old(View()), reg) && Inv(View())
    {
      var key := reg.source.instance;
      if key in registrations && registrations[key].token == reg.token {
        registrations := registrations - {key};
      }
      SameRegistrations(old(View()), View());
    }

    method BindConnection(id: nat, tuple: Tuple, valid: bool)
      requires Inv(View()) && id !in bindings
      modifies this
      ensures View() == Bind(old(View()), id, tuple, valid) && Inv(View())
    {
      bindings := bindings[id := Binding(tuple, valid, false, UNKNOWN)];
      SameRegistrations(old(View()), View());
    }

    method ForwardConnection(key: Tuple, valid: bool, id: nat, client: Tuple, clientValid: bool) returns (token: nat)
      requires Inv(View()) && id !in bindings
      modifies this
      ensures View() == Forward(old(View()), key, valid, id, client, clientValid) && Inv(View())
      ensures valid ==> token == next
      ensures valid && |Entries(old(bridges), key)| == 0 ==> StandsFor(View(), key, client, clientValid)
    {
      if valid {
        ForwardStandsFor(View(), key, id, client, clientValid);
      }
      ForwardKeepsInv(View(), key, valid, id, client, clientValid);
      if !valid {
        return 0;
      }
      bindings := bindings[id := Binding(client, clientValid, false, UNKNOWN)];
      next := next + 1;
      token := next;
      AddBridge(key, token, id);
    }

    method AddBridge(key: Tuple, token: nat, id: nat)
      modifies this`bridges
      ensures bridges == old(bridges)[key := Entries(old(bridges), key)[token := id]]
    {
      if key !in bridges {
        bridges := bridges[key := map[]];
      }
      var entries: map<nat, nat> := bridges[key];
      bridges := bridges[key := entries[token := id]];
    }

    method RemoveBridge(key: Tuple, token: nat)
      modifies this`bridges
      ensures bridges == Without(old(bridges), key, token)
    {
      if key in bridges {
        var entries: map<nat, nat> := bridges[key];
        bridges := bridges[key := entries - {token}];
      }
      if key !in bridges || |bridges[key]| == 0 {
        bridges := bridges - {key};
      }
    }

    method MarkClosed(id: nat)
      modifies this`bindings
      ensures View() == Close(old(View()), id)
    {
      if id in bindings {
        bindings := bindings[id := bindings[id].(closed := true)];
      }
    }

    method CloseBinding(id: nat)
      requires Inv(View())
      modifies this`bindings
      ensures View() == Close(old(View()), id) && Inv(View())
    {
      MarkClosed(id);
      SameRegistrations(old(View()), View());
    }

    method CleanUp(key: Tuple, token: nat, id: nat)
      requires Inv(View())
      modifies this`bindings, this`bridges
      ensures View() == Cleanup(old(View()), key, token, id) && Inv(View())
    {
      CleanupKeepsInv(View(), key, token, id);
      MarkClosed(id);
      RemoveBridge(key, token);
    }

    /** Ends on every table, also one whose bridges form a cycle. */
    method ResolveBinding(id: nat, seen: set<nat>, scans: Scans) returns (source: Source)
      requires Inv(View())
      modifies this`bindings
      ensures (View(), source) == Resolve(old(View()), id, seen, scans) && Inv(View())
      decreases bindings.Keys - seen, 0
    {
      ResolveOnlyLearns(View(), id, seen, scans);
      if id !in bindings {
        return UNKNOWN;
      }
      if bindings[id].source.Known() || bindings[id].closed || !bindings[id].valid {
        return bindings[id].source;
      }
      if id in seen {
        return UNKNOWN;
      }
      source := ResolveKey(bindings[id].tuple, seen + {id}, scans);
      if !bindings[id].closed && !bindings[id].source.Known() && source.Known() {
        bindings := bindings[id := bindings[id].(source := source)];
      }
      SameRegistrations(old(View()), View());
      return bindings[id].source;
    }

    method ResolveKey(key: Tuple, seen: set<nat>, scans: Scans) returns (source: Source)
      requires Inv(View())
      modifies this`bindings
      ensures (View(), source) == ResolveTuple(old(View()), key, seen, scans) && Inv(View())
      ensures OnlyLearns(old(View()), View())
      ensures forall x :: x in seen && x in old(bindings) ==> bindings[x] == old(bindings[x])
      decreases bindings.Keys - seen, 1
    {
      var found := if key in bridges then bridges[key] else map[];
      if |found| > 1 {
        return UNKNOWN;
      }
      if |found| == 1 {
        var token :| token in found;
        OnlyOne(View(), key, token);
        ResolveOnlyLearns(View(), found[token], seen, scans);
        source := ResolveBinding(found[token], seen, scans);
        return;
      }
      var regs := Snapshot(registrations);
      KnownRegistrations(View());
      source := ScanRegistrations(regs, scans, key);
    }
  }
}
