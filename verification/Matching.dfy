/**
  What a packet rule's criteria mean. Every criterion is optional and the set is a
  conjunction; flags are read bit by bit, lengths as an interval, payloads as slices.
 */
module Matching {
  import opened Options
  import opened Conversations
  import opened Text
  import opened Addresses
  import opened Gateway

  predicate OneBit(bit: bv8) {
    bit == 1 || bit == 2 || bit == 4 || bit == 8 || bit == 16 || bit == 32 || bit == 64 || bit == 128
  }

  predicate Has(flags: bv8, bit: bv8) {
    flags & bit != 0
  }

  lemma BitsDecide(flags: bv8, mask: bv8)
    ensures flags & mask == mask <==> forall bit :: OneBit(bit) && Has(mask, bit) ==> Has(flags, bit)
    ensures flags & mask == 0 <==> forall bit :: OneBit(bit) && Has(mask, bit) ==> !Has(flags, bit)
  {
    if forall bit :: OneBit(bit) && Has(mask, bit) ==> Has(flags, bit) {
      SomeBits(flags, mask);
    }
    if forall bit :: OneBit(bit) && Has(mask, bit) ==> !Has(flags, bit) {
      NoBits(flags, mask);
    }
  }

  lemma SomeBits(flags: bv8, mask: bv8)
    requires forall bit :: OneBit(bit) && Has(mask, bit) ==> Has(flags, bit)
    ensures flags & mask == mask
  {
    assert (Has(mask, 1) ==> Has(flags, 1)) && (Has(mask, 2) ==> Has(flags, 2));
    assert (Has(mask, 4) ==> Has(flags, 4)) && (Has(mask, 8) ==> Has(flags, 8));
    assert (Has(mask, 16) ==> Has(flags, 16)) && (Has(mask, 32) ==> Has(flags, 32));
    assert (Has(mask, 64) ==> Has(flags, 64)) && (Has(mask, 128) ==> Has(flags, 128));
  }

  lemma NoBits(flags: bv8, mask: bv8)
    requires forall bit :: OneBit(bit) && Has(mask, bit) ==> !Has(flags, bit)
    ensures flags & mask == 0
  {
    assert (Has(mask, 1) ==> !Has(flags, 1)) && (Has(mask, 2) ==> !Has(flags, 2));
    assert (Has(mask, 4) ==> !Has(flags, 4)) && (Has(mask, 8) ==> !Has(flags, 8));
    assert (Has(mask, 16) ==> !Has(flags, 16)) && (Has(mask, 32) ==> !Has(flags, 32));
    assert (Has(mask, 64) ==> !Has(flags, 64)) && (Has(mask, 128) ==> !Has(flags, 128));
  }

  predicate StandsAt(s: seq<bv8>, part: seq<bv8>, i: nat) {
    i + |part| <= |s| && s[i..i + |part|] == part
  }

  lemma ContainsIsSlice(s: seq<bv8>, part: seq<bv8>)
    ensures (|part| > 0 ==> Contains(s, part)) <==> exists i: nat :: StandsAt(s, part, i)
  {
    if |part| == 0 {
      assert StandsAt(s, part, 0);
    } else if Contains(s, part) {
      var i :| 0 <= i <= |s| && part <= s[i..];
      assert s[i..i + |part|] == s[i..][..|part|] == part;
      assert StandsAt(s, part, i);
    }
    if i: nat :| StandsAt(s, part, i) {
      assert s[i..][..|part|] == s[i..i + |part|];
    }
  }

  // Direction, protocol, port and address: unset, or those of the packet.
  predicate Addressed(m: Match, p: View) {
    m.dir in {None, Some(p.dir)} && m.proto in {"", p.proto} && m.port in {0, p.dstPort} && m.dstIp in {"", p.dstIp}
  }

  // Every bit listed as set is present, every bit listed as clear absent; other bits do not matter.
  ghost predicate Flagged(m: Match, p: View) {
    forall bit :: OneBit(bit) ==> (Has(m.flagsSet, bit) ==> Has(p.flags, bit)) && (Has(m.flagsClear, bit) ==> !Has(p.flags, bit))
  }

  // The payload length lies strictly between the bounds, and is the exact one if that is given.
  predicate Sized(m: Match, p: View) {
    && (m.lenGt.Some? ==> m.lenGt.value < p.payloadLen) && (m.lenLt.Some? ==> p.payloadLen < m.lenLt.value)
    && m.len in {None, Some(p.payloadLen)}
  }

  // One run of bytes stands at the front of the payload, the other anywhere in it.
  ghost predicate Loaded(m: Match, p: View) {
    StandsAt(p.payload, m.prefix, 0) && exists i: nat :: StandsAt(p.payload, m.contains, i)
  }

  lemma FlaggedExactly(m: Match, p: View)
    ensures Flagged(m, p)
            <==> && (m.flagsSet != 0 ==> p.flags & m.flagsSet == m.flagsSet)
                 && (m.flagsClear != 0 ==> p.flags & m.flagsClear == 0)
  {
    BitsDecide(p.flags, m.flagsSet);
    BitsDecide(p.flags, m.flagsClear);
  }

  lemma LoadedExactly(m: Match, p: View)
    ensures Loaded(m, p)
            <==> (|m.prefix| > 0 ==> m.prefix <= p.payload) && (|m.contains| > 0 ==> Contains(p.payload, m.contains))
  {
    ContainsIsSlice(p.payload, m.contains);
    assert StandsAt(p.payload, m.prefix, 0) <==> m.prefix <= p.payload;
  }

  /**
    Every criterion is optional and they are a conjunction: a rule matches exactly the packets
    with its addresses, its flags bit by bit, its length and its payload bytes, and then its
    predicate decides.
   */
  lemma MatchesExactly(m: Match, p: View)
    ensures Matches(m, p) <==>
            Addressed(m, p) && Flagged(m, p) && Sized(m, p) && Loaded(m, p) && (m.where.Some? ==> m.where.value(p))
  {
    FlaggedExactly(m, p);
    LoadedExactly(m, p);
    if Matches(m, p) {
      assert Addressed(m, p);
      assert Sized(m, p);
      assert Flagged(m, p);
      assert Loaded(m, p);
    }
    if Addressed(m, p) && Flagged(m, p) && Sized(m, p) && Loaded(m, p) {
      assert MatchesDeclarative(m, p);
    }
  }

  // --------------------------------------------------------------- scoping

  /**
    Scoping narrows a rule to the address of its triple, and to its port when the rule names
    none; all other criteria stay as they were.
   */
  lemma ScopingNarrows(m: Match, ga: Address, p: View)
    requires ga.ip != ""
    ensures Matches(Scoped(m, ga), p) <==>
            && Matches(m.(dstIp := ""), p) && p.dstIp == ga.ip
            && (m.port == 0 && ga.port % 65536 != 0 ==> p.dstPort == ga.port % 65536)
  {
  }

  // --------------------------------------------------------------- the book along a run

  // Step j installs rules for the key, and is accepted.
  ghost predicate InstallsFor(states: seq<Book>, steps: seq<Step>, j: nat, key: string) {
    && j < |steps| && j < |states| && steps[j].Installs? && steps[j].valid
    && Key(steps[j].consumer, steps[j].service, steps[j].iface) == key
    && (steps[j].consumer != "" ==> key in states[j].alloc.byKey)
  }

  ghost predicate ClearsFor(steps: seq<Step>, j: nat, key: string) {
    j < |steps| && steps[j].Clears? && Key(steps[j].consumer, steps[j].service, steps[j].iface) == key
  }

  // Step j is the last before i that changed the key's rules, and installed them.
  ghost predicate LastInstall(states: seq<Book>, steps: seq<Step>, j: nat, i: nat, key: string) {
    && j < i && InstallsFor(states, steps, j, key)
    && forall k :: j < k < i ==> !InstallsFor(states, steps, k, key) && !ClearsFor(steps, k, key)
  }

  lemma StepChanges(b: Book, step: Step, key: string)
    requires Enabled(b, step)
    ensures InstallsFor([b], [step], 0, key) ==> key in After(b, step).rules && After(b, step).rules[key] == step.rules
    ensures ClearsFor([step], 0, key) ==> key !in After(b, step).rules
    ensures !InstallsFor([b], [step], 0, key) && !ClearsFor([step], 0, key) ==>
              (key in After(b, step).rules <==> key in b.rules)
              && (key in b.rules ==> After(b, step).rules[key] == b.rules[key])
  {
  }

  /**
    Along any run a key has rules exactly when its last accepted change installed some, and
    they are those it installed: no other call touches them.
   */
  lemma {:induction false} RulesAreLastInstalled(states: seq<Book>, steps: seq<Step>, address: Quad, ones: nat, i: nat,
                                                 key: string)
    requires IsRun(states, steps, address, ones) && i <= |steps|
    ensures key in states[i].rules <==> exists j: nat :: LastInstall(states, steps, j, i, key)
    ensures forall j: nat :: LastInstall(states, steps, j, i, key) && key in states[i].rules ==>
                               states[i].rules[key] == steps[j].rules
  {
    if i > 0 {
      var before := i - 1;
      RulesAreLastInstalled(states, steps, address, ones, before, key);
      StepChanges(states[i - 1], steps[i - 1], key);
      assert InstallsFor([states[i - 1]], [steps[i - 1]], 0, key) <==> InstallsFor(states, steps, i - 1, key);
      assert ClearsFor([steps[i - 1]], 0, key) <==> ClearsFor(steps, i - 1, key);
      LastInstallStep(states, steps, i, key);
      if InstallsFor(states, steps, i - 1, key) {
        assert LastInstall(states, steps, i - 1, i, key);
      } else if exists j: nat :: LastInstall(states, steps, j, before, key) {
        var j: nat :| LastInstall(states, steps, j, before, key);
        assert ClearsFor(steps, i - 1, key) || LastInstall(states, steps, j, i, key);
      }
    }
  }

  lemma LastInstallStep(states: seq<Book>, steps: seq<Step>, i: nat, key: string)
    requires |states| == |steps| + 1 && 0 < i <= |steps|
    ensures InstallsFor(states, steps, i - 1, key) ==>
              forall j: nat :: LastInstall(states, steps, j, i, key) <==> j == i - 1
    ensures ClearsFor(steps, i - 1, key) ==> forall j: nat :: !LastInstall(states, steps, j, i, key)
    ensures !InstallsFor(states, steps, i - 1, key) && !ClearsFor(steps, i - 1, key) ==>
              forall j: nat :: LastInstall(states, steps, j, i, key) <==> LastInstall(states, steps, j, i - 1, key)
  {
  }
}
