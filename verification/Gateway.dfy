/**
  The gateway's rule book: rules for a named consumer are scoped to the address of its
  (consumer, service, interface) triple. A rule is an object: installing mutates it, so rules are named by number in a store.
 */
module Gateway {
  import opened Options
  import opened Conversations
  import opened Text
  import opened Addresses

  // --------------------------------------------------------------- matching

  datatype Direction = C2S | S2C

  datatype View = View(dir: Direction, proto: string, flags: bv8, dstPort: nat, dstIp: string, payloadLen: int,
                       payload: seq<bv8>)

  datatype Match = Match(dir: Option<Direction>, proto: string, flagsSet: bv8, flagsClear: bv8, port: nat, dstIp: string,
                         len: Option<int>, lenGt: Option<int>, lenLt: Option<int>,
                         prefix: seq<bv8>, contains: seq<bv8>, where: Option<View -> bool>)

  predicate Contains(s: seq<bv8>, part: seq<bv8>) {
    exists i :: 0 <= i <= |s| && part <= s[i..]
  }

  predicate MatchesDeclarative(m: Match, p: View) {
    && (m.dir.Some? ==> m.dir.value == p.dir)
    && (m.proto != "" ==> m.proto == p.proto)
    && (m.flagsSet != 0 ==> p.flags & m.flagsSet == m.flagsSet)
    && (m.flagsClear != 0 ==> p.flags & m.flagsClear == 0)
    && (m.port != 0 ==> p.dstPort == m.port)
    && (m.dstIp != "" ==> p.dstIp == m.dstIp)
    && (m.len.Some? ==> p.payloadLen == m.len.value)
    && (m.lenGt.Some? ==> p.payloadLen > m.lenGt.value)
    && (m.lenLt.Some? ==> p.payloadLen < m.lenLt.value)
    && (|m.prefix| > 0 ==> m.prefix <= p.payload)
    && (|m.contains| > 0 ==> Contains(p.payload, m.contains))
  }

  predicate Matches(m: Match, p: View) {
    MatchesDeclarative(m, p) && (m.where.Some? ==> m.where.value(p))
  }

  // --------------------------------------------------------------- the rule book

  // `store` holds the rule objects, `rules` the installed rule sets by key.
  datatype Book = Book(alloc: Allocator, store: map<nat, Match>, rules: map<string, seq<nat>>)

  function Port16(port: nat): nat {
    port % 65536
  }

  function Scoped(m: Match, ga: Address): Match {
    m.(port := if m.port == 0 then Port16(ga.port) else m.port, dstIp := ga.ip)
  }

  ghost function ScopedStore(store: map<nat, Match>, rs: seq<nat>, ga: Address): map<nat, Match> {
    map r | r in store :: if r in rs then Scoped(store[r], ga) else store[r]
  }

  // The caller's new rule objects, then the scoping of a named consumer's rules.
  ghost function Installed(b: Book, consumer: string, service: string, iface: string, rs: seq<nat>,
                           created: map<nat, Match>, valid: bool): Book
  {
    var key := Key(consumer, service, iface);
    var store := b.store + created;
    if !valid then b.(store := store)
    else if consumer == "" then b.(store := store, rules := b.rules[key := rs])
    else if key !in b.alloc.byKey then b.(store := store)
    else b.(store := ScopedStore(store, rs, b.alloc.byKey[key]), rules := b.rules[key := rs])
  }

  datatype Step =
    | Allocates(ask: Ask)
    | Installs(consumer: string, service: string, iface: string, rules: seq<nat>, created: map<nat, Match>, valid: bool)
    | Clears(consumer: string, service: string, iface: string)

  // Freshly installed: the rules are new objects.
  ghost predicate Enabled(b: Book, step: Step) {
    step.Installs? ==> step.created.Keys == (set r | r in step.rules) && step.created.Keys !! b.store.Keys
  }

  ghost function After(b: Book, step: Step): Book {
    match step
    case Allocates(a) => b.(alloc := Allocate(b.alloc, a.consumer, a.service, a.iface, a.port, a.upstream).0)
    case Installs(c, s, i, rs, created, valid) => Installed(b, c, s, i, rs, created, valid)
    case Clears(c, s, i) => b.(rules := b.rules - {Key(c, s, i)})
  }

  // The key of a triple whose consumer is named.
  predicate Named(key: string) {
    |key| > 0 && key[0] != NUL
  }

  ghost predicate ScopedTo(b: Book, key: string)
    requires key in b.rules
  {
    key in b.alloc.byKey && forall r :: r in b.rules[key] ==> r in b.store && b.store[r].dstIp == b.alloc.byKey[key].ip
  }

  ghost predicate Owned(b: Book) {
    forall k, r :: k in b.rules && r in b.rules[k] ==> r in b.store
  }

  ghost predicate BookInv(b: Book) {
    AllocInv(b.alloc) && Owned(b) && forall k :: k in b.rules && Named(k) ==> ScopedTo(b, k)
  }

  lemma StepKeepsBook(b: Book, step: Step)
    requires BookInv(b) && Enabled(b, step)
    ensures BookInv(After(b, step))
  {
    match step {
      case Allocates(a) =>
        AllocateKeepsInv(b.alloc, a.consumer, a.service, a.iface, a.port, a.upstream);
        forall k | k in b.rules && Named(k) ensures ScopedTo(After(b, step), k) {
          assert ScopedTo(b, k);
        }
      case Installs(c, s, i, rs, created, valid) => InstallKeepsBook(b, c, s, i, rs, created, valid);
      case Clears(c, s, i) =>
        forall k | k in After(b, step).rules && Named(k) ensures ScopedTo(After(b, step), k) {
          assert ScopedTo(b, k);
        }
    }
  }

  // Adding a rule set under a key that is not a named consumer's, or whose rules are scoped already.
  lemma AddKeepsBook(b: Book, after: Book, key: string, rs: seq<nat>)
    requires BookInv(b) && after.alloc == b.alloc && after.rules == b.rules[key := rs]
    requires forall r :: r in b.store ==> r in after.store && after.store[r] == b.store[r]
    requires forall r :: r in rs ==> r in after.store
    requires Named(key) ==> ScopedTo(after, key)
    ensures BookInv(after)
  {
    forall k | k in after.rules && Named(k) ensures ScopedTo(after, k) {
      if k != key {
        OthersStayScoped(b, after, k);
      }
    }
  }

  lemma GrowKeepsBook(b: Book, after: Book)
    requires BookInv(b) && after.alloc == b.alloc && after.rules == b.rules
    requires forall r :: r in b.store ==> r in after.store && after.store[r] == b.store[r]
    ensures BookInv(after)
  {
    forall k | k in after.rules && Named(k) ensures ScopedTo(after, k) {
      OthersStayScoped(b, after, k);
    }
  }

  lemma InstallKeepsBook(b: Book, c: string, s: string, i: string, rs: seq<nat>, created: map<nat, Match>, valid: bool)
    requires BookInv(b) && created.Keys == (set r | r in rs) && created.Keys !! b.store.Keys
    ensures BookInv(Installed(b, c, s, i, rs, created, valid))
  {
    var after := Installed(b, c, s, i, rs, created, valid);
    var key := Key(c, s, i);
    assert forall r :: r in rs ==> r in created;
    if !valid || (c != "" && key !in b.alloc.byKey) {
      GrowKeepsBook(b, after);
    } else {
      assert c == "" ==> !Named(key);
      AddKeepsBook(b, after, key, rs);
    }
  }

  // New rules leave the store entries of a key's rules alone.
  lemma OthersStayScoped(b: Book, after: Book, k: string)
    requires k in b.rules && ScopedTo(b, k) && k in after.rules && after.rules[k] == b.rules[k]
    requires after.alloc == b.alloc && forall r :: r in b.store ==> r in after.store && after.store[r] == b.store[r]
    ensures ScopedTo(after, k)
  {
  }

  ghost predicate IsRun(states: seq<Book>, steps: seq<Step>, address: Quad, ones: nat) {
    && |states| == |steps| + 1 && states[0] == Book(NewAllocator(address, ones), map[], map[])
    && forall i :: 0 <= i < |steps| ==> Enabled(states[i], steps[i]) && states[i + 1] == After(states[i], steps[i])
  }

  lemma {:induction false} RunKeepsBook(states: seq<Book>, steps: seq<Step>, address: Quad, ones: nat, i: nat)
    requires IsRun(states, steps, address, ones) && 16 <= ones <= 24 && i <= |steps|
    ensures BookInv(states[i])
  {
    if i > 0 {
      RunKeepsBook(states, steps, address, ones, i - 1);
      StepKeepsBook(states[i - 1], steps[i - 1]);
    } else {
      HostCounts(ones);
    }
  }

  /**
    Through any sequence of allocations, installs of new rules and clears, rules
    installed for two different named-consumer triples never both match a packet.
   */
  lemma RulesAreIsolated(states: seq<Book>, steps: seq<Step>, address: Quad, ones: nat, a: Ask, b: Ask,
                         r: nat, q: nat, p: View)
    requires IsRun(states, steps, address, ones) && 16 <= ones <= 24
    requires WellNamed(a.service, a.iface) && WellNamed(b.service, b.iface)
    requires |a.consumer| > 0 && a.consumer[0] != NUL && |b.consumer| > 0 && b.consumer[0] != NUL
    requires (a.consumer, a.service, a.iface) != (b.consumer, b.service, b.iface)
    requires var rules := states[|steps|].rules;
      var j, k := Key(a.consumer, a.service, a.iface), Key(b.consumer, b.service, b.iface);
      j in rules && k in rules && r in rules[j] && q in rules[k]
    ensures r in states[|steps|].store && q in states[|steps|].store
    ensures !(Matches(states[|steps|].store[r], p) && Matches(states[|steps|].store[q], p))
  {
    var s := states[|steps|];
    RunKeepsBook(states, steps, address, ones, |steps|);
    var j, k := Key(a.consumer, a.service, a.iface), Key(b.consumer, b.service, b.iface);
    if j == k {
      KeysDistinct(a, b);
    }
    assert Named(j) && Named(k) && ScopedTo(s, j) && ScopedTo(s, k);
    var m: nat :| Issued(s.alloc, s.alloc.byKey[j].ip, m);
    assert s.alloc.byKey[j].ip != "" && s.alloc.byKey[j].ip != s.alloc.byKey[k].ip;
    var n: nat :| Issued(s.alloc, s.alloc.byKey[k].ip, n);
    assert s.alloc.byKey[k].ip != "";
  }

  // --------------------------------------------------------------- publishing in a fixed order

  predicate AtMost(a: string, b: string) {
    !Less(b, a)
  }

  ghost predicate Sorted(s: seq<string>) {
    forall i, j :: 0 <= i < j < |s| ==> AtMost(s[i], s[j])
  }

  lemma AtMostTransitive(a: string, b: string, c: string)
    requires AtMost(a, b) && AtMost(b, c)
    ensures AtMost(a, c)
  {
    LessIsStrictTotal(a, b);
    LessIsStrictTotal(b, c);
    if a != b && b != c {
      LessTransitive(a, b, c);
      LessIsStrictTotal(a, c);
    }
  }

  lemma SortedHeads(s: seq<string>, t: seq<string>)
    requires Sorted(s) && Sorted(t) && |s| > 0 && |t| > 0 && s[0] in t && t[0] in s
    ensures s[0] == t[0]
  {
    var i :| 0 <= i < |t| && t[i] == s[0];
    var j :| 0 <= j < |s| && s[j] == t[0];
    LessIsStrictTotal(s[0], t[0]);
    assert i == 0 || AtMost(t[0], t[i]);
    assert j == 0 || AtMost(s[0], s[j]);
  }

  lemma TailOf(s: seq<string>)
    requires |s| > 0
    ensures multiset(s[1..]) == multiset(s) - multiset{s[0]}
    ensures Sorted(s) ==> Sorted(s[1..])
  {
    assert s == [s[0]] + s[1..];
  }

  /** Sorting has one result: the order of published rules does not depend on how the map was walked. */
  lemma {:induction false} SortedUnique(s: seq<string>, t: seq<string>)
    requires Sorted(s) && Sorted(t) && multiset(s) == multiset(t)
    ensures s == t
    decreases |s|
  {
    assert |s| == |multiset(s)| == |multiset(t)| == |t|;
    if |s| > 0 {
      assert s[0] in multiset(t) && t[0] in multiset(s);
      SortedHeads(s, t);
      TailOf(s);
      TailOf(t);
      SortedUnique(s[1..], t[1..]);
      assert s == [s[0]] + s[1..] && t == [t[0]] + t[1..];
    }
  }

  /** Insertion sort in place. */
  method SortStrings(s: array<string>)
    modifies s
    ensures Sorted(s[..]) && multiset(s[..]) == multiset(old(s[..]))
  {
    var i := 1;
    while i < s.Length
      invariant 1 <= i && (i <= s.Length || (s.Length == 0 && i == 1))
      invariant Sorted(s[..if i <= s.Length then i else s.Length])
      invariant multiset(s[..]) == multiset(old(s[..]))
    {
      SinkInto(s, i);
      i := i + 1;
    }
    assert s[..s.Length] == s[..];
  }

  // The prefix is sorted except that its element j may be too large for its place.
  ghost predicate SortedBut(s: seq<string>, j: nat)
    requires j < |s|
  {
    && (forall p, q :: 0 <= p < q < |s| && p != j && q != j ==> AtMost(s[p], s[q]))
    && (forall q :: j < q < |s| ==> AtMost(s[j], s[q]))
  }

  method SinkInto(s: array<string>, i: nat)
    requires i < s.Length && Sorted(s[..i])
    modifies s
    ensures Sorted(s[..i + 1]) && multiset(s[..]) == multiset(old(s[..]))
  {
    var j := i;
    while j > 0 && Less(s[j], s[j - 1])
      invariant 0 <= j <= i && SortedBut(s[..i + 1], j)
      invariant multiset(s[..]) == multiset(old(s[..]))
    {
      SwapDown(s[..i + 1], j);
      ghost var before := s[..];
      s[j], s[j - 1] := s[j - 1], s[j];
      assert s[..i + 1] == before[..i + 1][j := before[j - 1]][j - 1 := before[j]];
      j := j - 1;
    }
    StoppedSorted(s[..i + 1], j);
  }

  lemma SwapDown(s: seq<string>, j: nat)
    requires 0 < j < |s| && SortedBut(s, j) && Less(s[j], s[j - 1])
    ensures SortedBut(s[j := s[j - 1]][j - 1 := s[j]], j - 1)
  {
    LessIsStrictTotal(s[j], s[j - 1]);
  }

  lemma StoppedSorted(s: seq<string>, j: nat)
    requires j < |s| && SortedBut(s, j) && (j > 0 ==> AtMost(s[j - 1], s[j]))
    ensures Sorted(s)
  {
    forall p, q | 0 <= p < q < |s| ensures AtMost(s[p], s[q]) {
      if q == j && p < j - 1 {
        AtMostTransitive(s[p], s[j - 1], s[j]);
      }
    }
  }

  ghost predicate Lists(keys: seq<string>, names: set<string>) {
    Sorted(keys) && multiset(keys) == multiset(names)
  }

  // The list is cut into contiguous blocks, one per key and in the order of the keys; each block is the key's rule set.
  ghost predicate InBlocks(rules: map<string, seq<nat>>, keys: seq<string>, cuts: seq<nat>, list: seq<nat>) {
    && |cuts| == |keys| + 1 && cuts[0] == 0 && cuts[|keys|] == |list|
    && forall i :: 0 <= i < |keys| ==> IsBlock(rules, keys[i], list, cuts[i], cuts[i + 1])
  }

  ghost predicate IsBlock(rules: map<string, seq<nat>>, key: string, list: seq<nat>, from: nat, upto: nat) {
    key in rules && from <= upto <= |list| && list[from..upto] == rules[key]
  }

  // All rule sets together, the keys taken one by one.
  ghost function Together(rules: map<string, seq<nat>>, keys: seq<string>): multiset<nat> {
    if |keys| == 0 then multiset{}
    else Together(rules, keys[..|keys| - 1]) + RulesOf(rules, keys[|keys| - 1])
  }

  ghost function RulesOf(rules: map<string, seq<nat>>, key: string): multiset<nat> {
    if key in rules then multiset(rules[key]) else multiset{}
  }

  /**
    What it means to publish a rule book: the list consists of the rule sets as contiguous
    blocks, that of a smaller key before that of a greater one, and holds every rule of every
    set as often as the sets do, in whatever order their keys are counted.
   */
  ghost predicate Publishes(rules: map<string, seq<nat>>, list: seq<nat>) {
    && (exists keys, cuts :: Lists(keys, rules.Keys) && InBlocks(rules, keys, cuts, list))
    && (forall keys: seq<string> :: multiset(keys) == multiset(rules.Keys) ==> multiset(list) == Together(rules, keys))
  }

  lemma {:induction false} BlocksTogether(rules: map<string, seq<nat>>, keys: seq<string>, cuts: seq<nat>, list: seq<nat>, i: nat)
    requires InBlocks(rules, keys, cuts, list) && i <= |keys|
    ensures cuts[i] <= |list| && multiset(list[..cuts[i]]) == Together(rules, keys[..i])
  {
    if i > 0 {
      BlocksTogether(rules, keys, cuts, list, i - 1);
      assert IsBlock(rules, keys[i - 1], list, cuts[i - 1], cuts[i - 1 + 1]);
      assert list[..cuts[i]] == list[..cuts[i - 1]] + list[cuts[i - 1]..cuts[i]];
      assert keys[..i][..i - 1] == keys[..i - 1];
    }
  }

  lemma TogetherSnoc(rules: map<string, seq<nat>>, keys: seq<string>, key: string)
    ensures Together(rules, keys + [key]) == Together(rules, keys) + RulesOf(rules, key)
  {
    assert (keys + [key])[..|keys|] == keys;
  }

  lemma Exchanged(a: multiset<nat>, b: multiset<nat>, c: multiset<nat>)
    ensures a + b + c == a + c + b
  {
  }

  lemma {:induction false} TogetherWithout(rules: map<string, seq<nat>>, keys: seq<string>, i: nat)
    requires i < |keys|
    ensures Together(rules, keys) == Together(rules, keys[..i] + keys[i + 1..]) + RulesOf(rules, keys[i])
  {
    var n := |keys| - 1;
    var init := keys[..n];
    assert keys == init + [keys[n]];
    TogetherSnoc(rules, init, keys[n]);
    if i == n {
      assert keys[..i] + keys[i + 1..] == init;
    } else {
      var less := init[..i] + init[i + 1..];
      TogetherWithout(rules, init, i);
      TogetherSnoc(rules, less, keys[n]);
      assert keys[..i] + keys[i + 1..] == less + [keys[n]];
      Exchanged(Together(rules, less), RulesOf(rules, keys[i]), RulesOf(rules, keys[n]));
    }
  }

  lemma MultisetWithout(keys: seq<string>, i: nat)
    requires i < |keys|
    ensures multiset(keys) == multiset(keys[..i] + keys[i + 1..]) + multiset{keys[i]}
  {
    assert keys == keys[..i] + [keys[i]] + keys[i + 1..];
  }

  lemma Cancel(a: multiset<string>, b: multiset<string>, key: string)
    requires a + multiset{key} == b + multiset{key}
    ensures a == b
  {
    forall k: string ensures a[k] == b[k] {
      assert (a + multiset{key})[k] == (b + multiset{key})[k];
    }
  }

  lemma ListsOnly(keys: seq<string>, names: set<string>)
    requires multiset(keys) == multiset(names)
    ensures forall i :: 0 <= i < |keys| ==> keys[i] in names
  {
    forall i | 0 <= i < |keys| ensures keys[i] in names {
      assert keys[i] in multiset(keys);
    }
  }

  // The order in which the keys are counted does not matter.
  lemma {:induction false} TogetherPermutes(rules: map<string, seq<nat>>, ks: seq<string>, ls: seq<string>)
    requires multiset(ks) == multiset(ls)
    ensures Together(rules, ks) == Together(rules, ls)
    decreases |ks|
  {
    assert |ks| == |multiset(ks)| == |multiset(ls)| == |ls|;
    if |ks| > 0 {
      var n := |ks| - 1;
      assert ks[n] in multiset(ls);
      var i :| 0 <= i < |ls| && ls[i] == ks[n];
      TogetherWithout(rules, ls, i);
      MultisetWithout(ls, i);
      MultisetWithout(ks, n);
      assert ks[..n] + ks[n + 1..] == ks[..n];
      Cancel(multiset(ks[..n]), multiset(ls[..i] + ls[i + 1..]), ks[n]);
      TogetherPermutes(rules, ks[..n], ls[..i] + ls[i + 1..]);
    }
  }

  lemma BlocksPublish(rules: map<string, seq<nat>>, keys: seq<string>, cuts: seq<nat>, list: seq<nat>)
    requires Lists(keys, rules.Keys) && InBlocks(rules, keys, cuts, list)
    ensures Publishes(rules, list)
  {
    forall ks: seq<string> | multiset(ks) == multiset(rules.Keys) ensures multiset(list) == Together(rules, ks) {
      BlocksTogether(rules, keys, cuts, list, |keys|);
      assert list[..|list|] == list && keys[..|keys|] == keys;
      TogetherPermutes(rules, keys, ks);
    }
  }

  lemma {:induction false} SameBlocks(rules: map<string, seq<nat>>, keys: seq<string>, c: seq<nat>, l: seq<nat>,
                                      d: seq<nat>, m: seq<nat>, i: nat)
    requires InBlocks(rules, keys, c, l) && InBlocks(rules, keys, d, m) && i <= |keys|
    ensures c[i] == d[i] && c[i] <= |l| && c[i] <= |m| && l[..c[i]] == m[..c[i]]
  {
    if i > 0 {
      SameBlocks(rules, keys, c, l, d, m, i - 1);
      assert IsBlock(rules, keys[i - 1], l, c[i - 1], c[i - 1 + 1]) && IsBlock(rules, keys[i - 1], m, d[i - 1], d[i - 1 + 1]);
      assert l[..c[i]] == l[..c[i - 1]] + l[c[i - 1]..c[i]];
      assert m[..d[i]] == m[..d[i - 1]] + m[d[i - 1]..d[i]];
    }
  }

  /** What is published depends only on the rule book, not on how its map is walked. */
  lemma PublicationIsDetermined(rules: map<string, seq<nat>>, l: seq<nat>, m: seq<nat>)
    requires Publishes(rules, l) && Publishes(rules, m)
    ensures l == m
  {
    var ks, c :| Lists(ks, rules.Keys) && InBlocks(rules, ks, c, l);
    var ls, d :| Lists(ls, rules.Keys) && InBlocks(rules, ls, d, m);
    SortedUnique(ks, ls);
    SameBlocks(rules, ks, c, l, d, m, |ks|);
    assert l[..|l|] == l && m[..|m|] == m;
  }

  // One more key: its block goes to the end.
  lemma BlocksSnoc(rules: map<string, seq<nat>>, keys: seq<string>, cuts: seq<nat>, list: seq<nat>, key: string)
    requires InBlocks(rules, keys, cuts, list) && key in rules
    ensures InBlocks(rules, keys + [key], cuts + [|list| + |rules[key]|], list + rules[key])
  {
    var more, all, longer := keys + [key], cuts + [|list| + |rules[key]|], list + rules[key];
    forall i | 0 <= i < |more| ensures IsBlock(rules, more[i], longer, all[i], all[i + 1]) {
      if i < |keys| {
        assert IsBlock(rules, keys[i], list, cuts[i], cuts[i + 1]);
        assert longer[cuts[i]..cuts[i + 1]] == list[cuts[i]..cuts[i + 1]];
      }
    }
  }

  class RuleBook {
    var alloc: Allocator
    var store: map<nat, Match>
    var rules: map<string, seq<nat>>
    var published: seq<nat>

    ghost function Contents(): Book
      reads this
    {
      Book(alloc, store, rules)
    }

    constructor (address: Quad, ones: nat)
      ensures Contents() == Book(NewAllocator(address, ones), map[], map[])
    {
      alloc, store, rules, published := NewAllocator(address, ones), map[], map[], [];
    }

    // What the endpoint has is what the book says, in key order.
    ghost predicate Published()
      reads this
    {
      Publishes(rules, published)
    }

    method Reserve(a: Ask) returns (ga: Option<Address>)
      modifies this`alloc
      ensures Contents() == After(old(Contents()), Allocates(a))
      ensures (alloc, ga) == Allocate(old(alloc), a.consumer, a.service, a.iface, a.port, a.upstream)
    {
      var key := Key(a.consumer, a.service, a.iface);
      if key in alloc.byKey {
        return Some(alloc.byKey[key]);
      }
      if alloc.nextId > MaxHosts(alloc.ones) {
        return None;
      }
      var address := Address(a.consumer, a.service, a.iface, IpForOffset(alloc.base, alloc.nextId), a.port, a.upstream);
      alloc := alloc.(nextId := alloc.nextId + 1, byKey := alloc.byKey[key := address]);
      ga := Some(address);
    }

    method InstallRules(consumer: string, service: string, iface: string, rs: seq<nat>, created: map<nat, Match>,
                        valid: bool) returns (ok: bool)
      requires created.Keys == (set r | r in rs) && created.Keys !! store.Keys
      modifies this
      ensures Contents() == After(old(Contents()), Installs(consumer, service, iface, rs, created, valid))
      ensures ok <==> valid && (consumer != "" ==> Key(consumer, service, iface) in alloc.byKey)
      ensures ok ==> Published()
    {
      store := store + created;
      var key := Key(consumer, service, iface);
      if !valid {
        return false;
      }
      if consumer != "" {
        if key !in alloc.byKey {
          return false;
        }
        ScopeRules(rs, alloc.byKey[key]);
      }
      rules := rules[key := rs];
      Republish();
      ok := true;
    }

    method ScopeRules(rs: seq<nat>, ga: Address)
      requires forall r :: r in rs ==> r in store
      modifies this`store
      ensures store == ScopedStore(old(store), rs, ga)
    {
      for i := 0 to |rs|
        invariant store == ScopedStore(old(store), rs[..i], ga)
      {
        ghost var before := store;
        var m := store[rs[i]];
        if m.port == 0 {
          m := m.(port := Port16(ga.port));
        }
        store := store[rs[i] := m.(dstIp := ga.ip)];
        ScopeOneMore(old(store), rs, i, ga);
      }
      assert rs[..|rs|] == rs;
    }

    static lemma ScopeOneMore(store: map<nat, Match>, rs: seq<nat>, i: nat, ga: Address)
      requires i < |rs| && rs[i] in store
      ensures ScopedStore(store, rs[..i + 1], ga)
           == ScopedStore(store, rs[..i], ga)[rs[i] := Scoped(ScopedStore(store, rs[..i], ga)[rs[i]], ga)]
    {
      assert forall r :: r in rs[..i + 1] <==> r in rs[..i] || r == rs[i];
    }

    method ClearRules(consumer: string, service: string, iface: string)
      modifies this
      ensures Contents() == After(old(Contents()), Clears(consumer, service, iface)) && Published()
    {
      rules := rules - {Key(consumer, service, iface)};
      Republish();
    }

    method Republish()
      modifies this`published
      ensures Published()
    {
      var keys := KeysOf(rules.Keys);
      SortStrings(keys);
      ghost var sorted := keys[..];
      ListsOnly(sorted, rules.Keys);
      var all := [];
      ghost var cuts: seq<nat> := [0];
      for i := 0 to keys.Length
        invariant keys[..] == sorted && InBlocks(rules, sorted[..i], cuts, all)
      {
        assert sorted[..i + 1] == sorted[..i] + [keys[i]];
        BlocksSnoc(rules, sorted[..i], cuts, all, keys[i]);
        all := all + rules[keys[i]];
        cuts := cuts + [|all|];
      }
      assert sorted[..|sorted|] == sorted;
      BlocksPublish(rules, sorted, cuts, all);
      published := all;
    }
  }

  // The keys in whatever order the map yields them.
  method KeysOf(names: set<string>) returns (keys: array<string>)
    ensures fresh(keys) && multiset(keys[..]) == multiset(names)
  {
    var todo, list := names, [];
    while todo != {}
      invariant todo <= names && multiset(list) == multiset(names - todo)
      decreases todo
    {
      var k :| k in todo;
      list := list + [k];
      assert names - (todo - {k}) == (names - todo) + {k};
      todo := todo - {k};
    }
    keys := new string[|list|](i requires 0 <= i < |list| => list[i]);
    assert keys[..] == list && names - {} == names;
  }
}
