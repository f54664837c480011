/**
  The gateway's address book. Every (consumer, service, interface) triple gets an address
  from the gateway's IPv4 subnet when it is first asked for.
 */
module Addresses {
  import opened Options
  import opened Conversations
  import opened Text

  const NUL := 0 as char

  datatype Address = Address(consumer: string, service: string, iface: string, ip: string, port: nat, upstream: string)

  // The subnet is the masked base and the length of its prefix.
  datatype Allocator = Allocator(base: Quad, ones: nat, byKey: map<string, Address>, nextId: nat)

  datatype Ask = Ask(consumer: string, service: string, iface: string, port: nat, upstream: string)

  const FIRST_GUEST := 2

  // --------------------------------------------------------------- subnets

  function ShiftRight(x: nat, k: nat): nat {
    if k == 0 then x else ShiftRight(x / 2, k - 1)
  }

  function ShiftLeft(x: nat, k: nat): nat {
    if k == 0 then x else 2 * ShiftLeft(x, k - 1)
  }

  // How many low bits of octet i (from the left) lie outside a prefix of this length.
  function HostBits(ones: nat, i: nat): nat {
    if ones <= 8 * i then 8 else if ones >= 8 * i + 8 then 0 else 8 * i + 8 - ones
  }

  function MaskOctet(x: nat, bits: nat): nat {
    ShiftLeft(ShiftRight(x, bits), bits)
  }

  function Masked(q: Quad, ones: nat): Quad {
    Quad(MaskOctet(q.a, HostBits(ones, 0)), MaskOctet(q.b, HostBits(ones, 1)), MaskOctet(q.c, HostBits(ones, 2)),
         MaskOctet(q.d, HostBits(ones, 3)))
  }

  ghost predicate IsAddress(q: Quad) {
    q.a < 256 && q.b < 256 && q.c < 256 && q.d < 256
  }

  ghost predicate SamePrefix(p: Quad, q: Quad, ones: nat) {
    && ShiftRight(p.a, HostBits(ones, 0)) == ShiftRight(q.a, HostBits(ones, 0))
    && ShiftRight(p.b, HostBits(ones, 1)) == ShiftRight(q.b, HostBits(ones, 1))
    && ShiftRight(p.c, HostBits(ones, 2)) == ShiftRight(q.c, HostBits(ones, 2))
    && ShiftRight(p.d, HostBits(ones, 3)) == ShiftRight(q.d, HostBits(ones, 3))
  }

  // The text is an address whose first `ones` bits are those of the base.
  ghost predicate InSubnet(base: Quad, ones: nat, ip: string) {
    exists q :: IsAddress(q) && ip == Dotted(q) && SamePrefix(base, q, ones)
  }

  // Without the network and the broadcast address.
  function MaxHosts(ones: nat): int {
    if ones > 32 then -1 else ShiftLeft(1, 32 - ones) - 2
  }

  // --------------------------------------------------------------- allocation

  function Key(consumer: string, service: string, iface: string): string {
    consumer + [NUL] + (service + [NUL] + iface)
  }

  // Only the last two octets are filled in.
  function IpForOffset(base: Quad, n: nat): string {
    Dotted(Quad(base.a, base.b, n / 256 % 256, n % 256))
  }

  function HostIp(al: Allocator): string {
    IpForOffset(al.base, 1)
  }

  // A prefix longer than 24 bits is refused by the caller of this.
  function NewAllocator(address: Quad, ones: nat): Allocator {
    Allocator(Masked(address, ones), ones, map[], FIRST_GUEST)
  }

  function Allocate(al: Allocator, consumer: string, service: string, iface: string, port: nat, upstream: string)
    : (Allocator, Option<Address>)
  {
    var key := Key(consumer, service, iface);
    if key in al.byKey then (al, Some(al.byKey[key]))
    else if al.nextId > MaxHosts(al.ones) then (al, None)
    else
      var ga := Address(consumer, service, iface, IpForOffset(al.base, al.nextId), port, upstream);
      (al.(byKey := al.byKey[key := ga], nextId := al.nextId + 1), Some(ga))
  }

  function AllocateAll(al: Allocator, asks: seq<Ask>): Allocator {
    if |asks| == 0 then al
    else
      var a := asks[|asks| - 1];
      Allocate(AllocateAll(al, asks[..|asks| - 1]), a.consumer, a.service, a.iface, a.port, a.upstream).0
  }

  // --------------------------------------------------------------- which addresses coincide

  lemma OffsetsDistinct(base: Quad, m: nat, n: nat)
    requires m < 65536 && n < 65536 && IpForOffset(base, m) == IpForOffset(base, n)
    ensures m == n
  {
    DottedInjective(Quad(base.a, base.b, m / 256 % 256, m % 256), Quad(base.a, base.b, n / 256 % 256, n % 256));
  }

  lemma DivideBy256(x: nat, q: nat, r: nat)
    requires r < 256 && x == 256 * q + r
    ensures x / 256 == q && x % 256 == r
  {
  }

  lemma OctetsOfRemainder(n: nat)
    ensures n % 65536 / 256 % 256 == n / 256 % 256 && n % 65536 % 256 == n % 256
  {
    var q := n / 256;
    DivideBy256(q, q / 256, q % 256);
    DivideBy256(n, q, n % 256);
    assert n == 65536 * (q / 256) + (256 * (q % 256) + n % 256);
    assert n % 65536 == 256 * (q % 256) + n % 256;
    DivideBy256(n % 65536, q % 256, n % 256);
  }

  /** Two offsets share an address exactly when they are a multiple of 65536 apart. */
  lemma OffsetsShareExactly(base: Quad, m: nat, n: nat)
    ensures IpForOffset(base, m) == IpForOffset(base, n) <==> m % 65536 == n % 65536
  {
    OctetsOfRemainder(m);
    OctetsOfRemainder(n);
    if IpForOffset(base, m) == IpForOffset(base, n) {
      assert IpForOffset(base, m % 65536) == IpForOffset(base, n % 65536);
      OffsetsDistinct(base, m % 65536, n % 65536);
    }
  }

  lemma {:induction false} ShiftedAway(x: nat, k: nat)
    requires x < ShiftLeft(1, k)
    ensures ShiftRight(x, k) == 0
    decreases k
  {
    if k > 0 {
      ShiftedAway(x / 2, k - 1);
    }
  }

  lemma {:induction false} ShiftBack(y: nat, k: nat)
    ensures ShiftRight(ShiftLeft(y, k), k) == y
  {
    if k > 0 {
      ShiftBack(y, k - 1);
      assert ShiftLeft(y, k) / 2 == ShiftLeft(y, k - 1);
    }
  }

  lemma {:induction false} ShiftZero(k: nat)
    ensures ShiftLeft(0, k) == 0 && ShiftRight(0, k) == 0
  {
    if k > 0 {
      ShiftZero(k - 1);
    }
  }

  lemma {:induction false} MaskLowers(x: nat, k: nat)
    ensures MaskOctet(x, k) <= x
    decreases k
  {
    if k > 0 {
      MaskLowers(x / 2, k - 1);
    }
  }

  lemma ShiftOctet(x: nat, k: nat)
    ensures ShiftLeft(x, k + 8) == 256 * ShiftLeft(x, k)
  {
    assert ShiftLeft(x, k + 2) == 4 * ShiftLeft(x, k);
    assert ShiftLeft(x, k + 4) == 4 * ShiftLeft(x, k + 2);
    assert ShiftLeft(x, k + 6) == 4 * ShiftLeft(x, k + 4);
    assert ShiftLeft(x, k + 8) == 4 * ShiftLeft(x, k + 6);
  }

  lemma {:induction false} ShiftGrows(j: nat, k: nat)
    requires j <= k
    ensures 1 <= ShiftLeft(1, j) <= ShiftLeft(1, k)
  {
    if k > 0 {
      ShiftGrows(if j < k then j else j - 1, k - 1);
    }
  }

  lemma PowersOfTwo()
    ensures ShiftLeft(1, 8) == 256 && ShiftLeft(1, 16) == 65536 && ShiftLeft(1, 17) == 131072
  {
    ShiftOctet(1, 0);
    ShiftOctet(1, 8);
  }

  // How many guests and hosts a subnet has room for.
  lemma HostCounts(ones: nat)
    requires ones <= 24
    ensures 254 <= MaxHosts(ones)
    ensures 16 <= ones <==> MaxHosts(ones) <= 65536
  {
    PowersOfTwo();
    ShiftGrows(8, 32 - ones);
    if 16 <= ones {
      ShiftGrows(32 - ones, 16);
    } else {
      ShiftGrows(17, 32 - ones);
    }
  }

  /** A /24 has room for 254 addresses besides its network and broadcast addresses, and one bit less of prefix for twice as many. */
  lemma HostsDouble(ones: nat)
    requires 1 <= ones <= 32
    ensures MaxHosts(24) == 254 && MaxHosts(ones - 1) + 2 == 2 * (MaxHosts(ones) + 2)
  {
    PowersOfTwo();
  }

  lemma SmallRemainders(m: nat, n: nat)
    requires 1 <= m < n <= 65536
    ensures m % 65536 != n % 65536
  {
  }

  lemma SmallOffsetsDiffer(base: Quad, m: nat, n: nat)
    requires 1 <= m < n <= 65536
    ensures IpForOffset(base, m) != IpForOffset(base, n)
  {
    SmallRemainders(m, n);
    OffsetsShareExactly(base, m, n);
  }

  // Every offset of the host and its guests has an address of its own.
  ghost predicate Unambiguous(base: Quad, maxHosts: int) {
    forall m: nat, n: nat :: 1 <= m < n <= maxHosts ==> IpForOffset(base, m) != IpForOffset(base, n)
  }

  lemma CountIsUnambiguousExactly(base: Quad, maxHosts: int)
    ensures Unambiguous(base, maxHosts) <==> maxHosts <= 65536
  {
    if maxHosts <= 65536 {
      forall m: nat, n: nat | 1 <= m < n <= maxHosts ensures IpForOffset(base, m) != IpForOffset(base, n) {
        SmallOffsetsDiffer(base, m, n);
      }
    } else {
      var last := 65537;
      OffsetsShareExactly(base, 1, last);
    }
  }

  /** The host and guest offsets of a subnet have distinct addresses exactly when it is no wider than a /16. */
  lemma SubnetIsUnambiguousExactly(base: Quad, ones: nat)
    requires ones <= 24
    ensures Unambiguous(base, MaxHosts(ones)) <==> 16 <= ones
  {
    HostCounts(ones);
    CountIsUnambiguousExactly(base, MaxHosts(ones));
  }

  // --------------------------------------------------------------- which addresses lie in the subnet

  lemma OctetAway(x: nat)
    requires x < 256
    ensures ShiftRight(x, 8) == 0
  {
    PowersOfTwo();
    ShiftedAway(x, 8);
  }

  // The third octet of an offset has no bits in a prefix that reaches into it.
  lemma OffsetKeepsThird(ones: nat, n: nat)
    requires 16 < ones <= 24 && n <= MaxHosts(ones)
    ensures n / 256 % 256 == n / 256 && ShiftRight(n / 256, 24 - ones) == 0
  {
    var room := ShiftLeft(1, 24 - ones);
    ShiftOctet(1, 24 - ones);
    PowersOfTwo();
    ShiftGrows(24 - ones, 8);
    assert n < 256 * room && n / 256 < room <= 256;
    ShiftedAway(n / 256, 24 - ones);
  }

  lemma ThirdOctet(c: nat, ones: nat, n: nat)
    requires 16 < ones <= 24 && n <= MaxHosts(ones)
    ensures var k := HostBits(ones, 2);
      ShiftRight(MaskOctet(c, k), k) == ShiftRight(n / 256 % 256, k) <==> MaskOctet(c, k) == 0
  {
    var k := HostBits(ones, 2);
    OffsetKeepsThird(ones, n);
    ShiftBack(ShiftRight(c, k), k);
    ShiftZero(k);
  }

  lemma PrefixExactly(address: Quad, ones: nat, n: nat)
    requires IsAddress(address) && ones <= 24 && n <= MaxHosts(ones)
    ensures var base := Masked(address, ones);
      && IsAddress(base)
      && (SamePrefix(base, Quad(base.a, base.b, n / 256 % 256, n % 256), ones) <==> ones <= 16 || base.c == 0)
  {
    var base := Masked(address, ones);
    MaskLowers(address.a, HostBits(ones, 0));
    MaskLowers(address.b, HostBits(ones, 1));
    MaskLowers(address.c, HostBits(ones, 2));
    MaskLowers(address.d, HostBits(ones, 3));
    OctetAway(base.d);
    OctetAway(n % 256);
    if ones <= 16 {
      OctetAway(base.c);
      OctetAway(n / 256 % 256);
    } else {
      ThirdOctet(address.c, ones, n);
    }
  }

  /** An offset's address lies in the subnet exactly when the prefix ends within the first two octets or the third is zero. */
  lemma OffsetInSubnetExactly(address: Quad, ones: nat, n: nat)
    requires IsAddress(address) && ones <= 24 && n <= MaxHosts(ones)
    ensures var base := Masked(address, ones);
      InSubnet(base, ones, IpForOffset(base, n)) <==> ones <= 16 || base.c == 0
  {
    var base := Masked(address, ones);
    var q := Quad(base.a, base.b, n / 256 % 256, n % 256);
    PrefixExactly(address, ones, n);
    if InSubnet(base, ones, IpForOffset(base, n)) {
      var p :| IsAddress(p) && IpForOffset(base, n) == Dotted(p) && SamePrefix(base, p, ones);
      DottedInjective(p, q);
    } else {
      assert !(IsAddress(q) && IpForOffset(base, n) == Dotted(q) && SamePrefix(base, q, ones));
    }
  }

  // The host and every guest get addresses of the subnet.
  ghost predicate KeepsToSubnet(base: Quad, ones: nat) {
    forall n: nat :: 1 <= n <= MaxHosts(ones) ==> InSubnet(base, ones, IpForOffset(base, n))
  }

  /** All addresses handed out lie in the subnet exactly when it is at least as wide as a /16 or its third octet is zero. */
  lemma KeepsToSubnetExactly(address: Quad, ones: nat)
    requires IsAddress(address) && ones <= 24
    ensures KeepsToSubnet(Masked(address, ones), ones) <==> ones <= 16 || Masked(address, ones).c == 0
  {
    var base := Masked(address, ones);
    HostCounts(ones);
    OffsetInSubnetExactly(address, ones, 1);
    forall n: nat | 1 <= n <= MaxHosts(ones)
      ensures InSubnet(base, ones, IpForOffset(base, n)) <==> ones <= 16 || base.c == 0
    {
      OffsetInSubnetExactly(address, ones, n);
    }
  }

  lemma MaskedTo24(a: nat, b: nat, c: nat)
    ensures Masked(Quad(a, b, c, 0), 24) == Quad(a, b, c, 0)
  {
    ShiftZero(8);
  }

  lemma SmallOffset(a: nat, b: nat, c: nat, n: nat)
    requires n <= 254
    ensures IpForOffset(Quad(a, b, c, 0), n) == Dotted(Quad(a, b, 0, n))
  {
    assert n / 256 == 0 && n % 256 == n;
  }

  // With a third octet other than zero, every offset of a /24 leads to the subnet with a third octet of zero.
  lemma NarrowOffsetIsOutside(a: nat, b: nat, c: nat, n: nat)
    requires a < 256 && b < 256 && 0 < c < 256 && n <= 254
    ensures !InSubnet(Quad(a, b, c, 0), 24, IpForOffset(Quad(a, b, c, 0), n))
  {
    MaskedTo24(a, b, c);
    HostCounts(24);
    OffsetInSubnetExactly(Quad(a, b, c, 0), 24, n);
  }

  /** In 10.99.5.0/24 the host and the first guest get 10.99.0.1 and 10.99.0.2, outside the subnet. */
  lemma NarrowSubnetIsLeft()
    ensures var al := NewAllocator(Quad(10, 99, 5, 0), 24);
      && HostIp(al) == Dotted(Quad(10, 99, 0, 1)) && !InSubnet(al.base, 24, HostIp(al))
      && IpForOffset(al.base, FIRST_GUEST) == Dotted(Quad(10, 99, 0, 2))
      && !InSubnet(al.base, 24, IpForOffset(al.base, FIRST_GUEST))
  {
    MaskedTo24(10, 99, 5);
    NarrowOffsetIsOutside(10, 99, 5, 1);
    NarrowOffsetIsOutside(10, 99, 5, 2);
    SmallOffset(10, 99, 5, 1);
    SmallOffset(10, 99, 5, 2);
  }

  // --------------------------------------------------------------- what every allocation keeps

  ghost predicate Issued(al: Allocator, ip: string, n: nat) {
    FIRST_GUEST <= n < al.nextId && ip == IpForOffset(al.base, n)
  }

  ghost predicate AllocInv(al: Allocator) {
    && FIRST_GUEST <= al.nextId <= MaxHosts(al.ones) + 1 && 16 <= al.ones <= 24
    && (forall k :: k in al.byKey ==> exists n :: Issued(al, al.byKey[k].ip, n))
    && (forall k, l :: k in al.byKey && l in al.byKey && k != l ==> al.byKey[k].ip != al.byKey[l].ip)
    && (forall k :: k in al.byKey ==> k == Key(al.byKey[k].consumer, al.byKey[k].service, al.byKey[k].iface))
  }

  lemma NextIsNew(al: Allocator, ip: string, n: nat)
    requires Issued(al, ip, n) && 16 <= al.ones <= 24 && al.nextId <= MaxHosts(al.ones)
    ensures ip != IpForOffset(al.base, al.nextId)
  {
    HostCounts(al.ones);
    SmallOffsetsDiffer(al.base, n, al.nextId);
  }

  lemma AddKeepsInv(al: Allocator, bl: Allocator, key: string, ga: Address)
    requires AllocInv(al) && key !in al.byKey && al.nextId <= MaxHosts(al.ones)
    requires bl == al.(byKey := al.byKey[key := ga], nextId := al.nextId + 1)
    requires ga.ip == IpForOffset(al.base, al.nextId) && key == Key(ga.consumer, ga.service, ga.iface)
    ensures AllocInv(bl)
  {
    assert Issued(bl, ga.ip, al.nextId);
    forall k | k in al.byKey ensures al.byKey[k].ip != ga.ip && exists n :: Issued(bl, al.byKey[k].ip, n) {
      var n :| Issued(al, al.byKey[k].ip, n);
      assert Issued(bl, al.byKey[k].ip, n);
      NextIsNew(al, al.byKey[k].ip, n);
    }
  }

  lemma AllocateKeepsInv(al: Allocator, consumer: string, service: string, iface: string, port: nat, upstream: string)
    requires AllocInv(al)
    ensures var (bl, ga) := Allocate(al, consumer, service, iface, port, upstream);
      && AllocInv(bl) && bl.base == al.base && bl.ones == al.ones
      && (forall k :: k in al.byKey ==> k in bl.byKey && bl.byKey[k] == al.byKey[k])
      && (ga.Some? ==> Key(consumer, service, iface) in bl.byKey && bl.byKey[Key(consumer, service, iface)] == ga.value)
  {
    var (bl, ga) := Allocate(al, consumer, service, iface, port, upstream);
    var key := Key(consumer, service, iface);
    if key !in al.byKey && al.nextId <= MaxHosts(al.ones) {
      AddKeepsInv(al, bl, key, ga.value);
    }
  }

  lemma {:induction false} RunKeepsAllocInv(address: Quad, ones: nat, asks: seq<Ask>)
    requires 16 <= ones <= 24
    ensures var al := AllocateAll(NewAllocator(address, ones), asks);
      AllocInv(al) && al.base == Masked(address, ones) && al.ones == ones
  {
    if |asks| > 0 {
      RunKeepsAllocInv(address, ones, asks[..|asks| - 1]);
      var a := asks[|asks| - 1];
      AllocateKeepsInv(AllocateAll(NewAllocator(address, ones), asks[..|asks| - 1]), a.consumer, a.service, a.iface,
                       a.port, a.upstream);
    } else {
      HostCounts(ones);
    }
  }

  // --------------------------------------------------------------- keys

  // At most one of the parts can be misread: service and interface contain no NUL.
  ghost predicate WellNamed(service: string, iface: string) {
    Free(service, NUL) && Free(iface, NUL)
  }

  /** Different triples have different keys when services and interfaces contain no NUL. */
  lemma KeysDistinct(a: Ask, b: Ask)
    requires WellNamed(a.service, a.iface) && WellNamed(b.service, b.iface)
    requires Key(a.consumer, a.service, a.iface) == Key(b.consumer, b.service, b.iface)
    ensures a.consumer == b.consumer && a.service == b.service && a.iface == b.iface
  {
    var x, y := a.consumer + [NUL] + a.service, b.consumer + [NUL] + b.service;
    assert Key(a.consumer, a.service, a.iface) == x + [NUL] + a.iface;
    assert Key(b.consumer, b.service, b.iface) == y + [NUL] + b.iface;
    LastSplitUnique(x, y, NUL, a.iface, b.iface);
    LastSplitUnique(a.consumer, b.consumer, NUL, a.service, b.service);
  }

  lemma KeyAt(a: Ask, i: nat)
    requires i < |Key(a.consumer, a.service, a.iface)|
    ensures Key(a.consumer, a.service, a.iface)[i] ==
            var c, d := |a.consumer|, |a.consumer| + 1 + |a.service|;
            if i < c then a.consumer[i] else if i == c || i == d then NUL
            else if i < d then a.service[i - c - 1] else a.iface[i - d - 1]
  {
  }

  lemma KeyNulls(a: Ask, i: nat)
    requires Free(a.consumer, NUL) && WellNamed(a.service, a.iface)
    requires i < |Key(a.consumer, a.service, a.iface)| && Key(a.consumer, a.service, a.iface)[i] == NUL
    ensures i == |a.consumer| || i == |a.consumer| + 1 + |a.service|
  {
    KeyAt(a, i);
  }

  lemma NullFreeKeyIsUnique(a: Ask, b: Ask)
    requires Free(a.consumer, NUL) && WellNamed(a.service, a.iface)
    requires Key(a.consumer, a.service, a.iface) == Key(b.consumer, b.service, b.iface)
    ensures SameTriple(a, b)
  {
    var key := Key(b.consumer, b.service, b.iface);
    var p, q := |b.consumer|, |b.consumer| + 1 + |b.service|;
    assert key[p] == NUL && key[q] == NUL;
    KeyNulls(a, p);
    KeyNulls(a, q);
    assert a.consumer == key[..p] && b.consumer == key[..p];
    assert a.service == key[p + 1..q] && b.service == key[p + 1..q];
    assert a.iface == key[q + 1..] && b.iface == key[q + 1..];
  }

  ghost predicate SameTriple(a: Ask, b: Ask) {
    a.consumer == b.consumer && a.service == b.service && a.iface == b.iface
  }

  // Reads a separator inside a name as one between names.
  lemma OtherReading(a: Ask) returns (b: Ask)
    requires !Free(a.consumer, NUL) || !WellNamed(a.service, a.iface)
    ensures !SameTriple(a, b) && Key(a.consumer, a.service, a.iface) == Key(b.consumer, b.service, b.iface)
  {
    if !Free(a.consumer, NUL) {
      var i :| 0 <= i < |a.consumer| && a.consumer[i] == NUL;
      var x, y := a.consumer[..i], a.consumer[i + 1..];
      assert a.consumer == x + [NUL] + y && |x| < |a.consumer|;
      Regroup(x, y, a.service, a.iface);
      b := a.(consumer := x, service := y + [NUL] + a.service);
    } else if !Free(a.service, NUL) {
      var i :| 0 <= i < |a.service| && a.service[i] == NUL;
      var x, y := a.service[..i], a.service[i + 1..];
      assert a.service == x + [NUL] + y && |y| < |a.service|;
      Regroup(a.consumer, x, y, a.iface);
      b := a.(consumer := a.consumer + [NUL] + x, service := y);
    } else {
      var i :| 0 <= i < |a.iface| && a.iface[i] == NUL;
      var x, y := a.iface[..i], a.iface[i + 1..];
      assert a.iface == x + [NUL] + y && |y| < |a.iface|;
      Regroup(a.consumer, a.service, x, y);
      b := a.(service := a.service + [NUL] + x, iface := y);
    }
  }

  lemma Regroup(w: string, x: string, y: string, z: string)
    ensures Key(w + [NUL] + x, y, z) == Key(w, x + [NUL] + y, z) == Key(w, x, y + [NUL] + z)
  {
    assert Key(w + [NUL] + x, y, z) == w + [NUL] + x + [NUL] + y + [NUL] + z;
    assert Key(w, x + [NUL] + y, z) == w + [NUL] + x + [NUL] + y + [NUL] + z;
    assert Key(w, x, y + [NUL] + z) == w + [NUL] + x + [NUL] + y + [NUL] + z;
  }

  /** A triple shares its key, and so its address, with no other exactly when none of its names contains a NUL. */
  lemma KeyIsUniqueExactly(a: Ask)
    ensures (forall b: Ask :: Key(a.consumer, a.service, a.iface) == Key(b.consumer, b.service, b.iface) ==> SameTriple(a, b))
       <==> Free(a.consumer, NUL) && WellNamed(a.service, a.iface)
  {
    if Free(a.consumer, NUL) && WellNamed(a.service, a.iface) {
      forall b: Ask | Key(a.consumer, a.service, a.iface) == Key(b.consumer, b.service, b.iface) ensures SameTriple(a, b) {
        NullFreeKeyIsUnique(a, b);
      }
    } else {
      var b := OtherReading(a);
    }
  }

  /**
    After any allocations in a subnet between /16 and /24, different triples have different
    addresses, none of them the host's, and an address lies in the subnet exactly when the
    subnet is a /16 or its third octet is zero.
   */
  lemma AddressesAreDistinct(address: Quad, ones: nat, asks: seq<Ask>, a: Ask, b: Ask)
    requires IsAddress(address) && 16 <= ones <= 24
    requires WellNamed(a.service, a.iface) && WellNamed(b.service, b.iface) && !SameTriple(a, b)
    requires var al := AllocateAll(NewAllocator(address, ones), asks);
      Key(a.consumer, a.service, a.iface) in al.byKey && Key(b.consumer, b.service, b.iface) in al.byKey
    ensures var al := AllocateAll(NewAllocator(address, ones), asks);
      var x, y := al.byKey[Key(a.consumer, a.service, a.iface)].ip, al.byKey[Key(b.consumer, b.service, b.iface)].ip;
      && x != y && x != HostIp(al)
      && (InSubnet(Masked(address, ones), ones, x) <==> ones == 16 || Masked(address, ones).c == 0)
  {
    var al := AllocateAll(NewAllocator(address, ones), asks);
    var key := Key(a.consumer, a.service, a.iface);
    RunKeepsAllocInv(address, ones, asks);
    if key == Key(b.consumer, b.service, b.iface) {
      KeysDistinct(a, b);
    }
    var n :| Issued(al, al.byKey[key].ip, n);
    HostCounts(ones);
    SmallOffsetsDiffer(al.base, 1, n);
    OffsetInSubnetExactly(address, ones, n);
  }

  // --------------------------------------------------------------- the order of requests

  // The keys asked for, each where it is asked for first.
  function FirstSeen(asks: seq<Ask>): seq<string> {
    if |asks| == 0 then []
    else
      var seen, last := FirstSeen(asks[..|asks| - 1]), asks[|asks| - 1];
      var key := Key(last.consumer, last.service, last.iface);
      if key in seen then seen else seen + [key]
  }

  // Those of them the subnet has room for.
  function Served(ones: nat, asks: seq<Ask>): seq<string>
    requires ones <= 24
  {
    var seen := FirstSeen(asks);
    if 1 <= MaxHosts(ones) <= |seen| then seen[..MaxHosts(ones) - 1] else seen
  }

  ghost predicate Distinct(s: seq<string>) {
    forall i, j :: 0 <= i < j < |s| ==> s[i] != s[j]
  }

  lemma {:induction false} FirstSeenIsDistinct(asks: seq<Ask>)
    ensures Distinct(FirstSeen(asks))
  {
    if |asks| > 0 {
      FirstSeenIsDistinct(asks[..|asks| - 1]);
    }
  }

  // The allocator serves exactly these keys, counting up from the first guest.
  ghost predicate CountsUp(al: Allocator, base: Quad, ones: nat, served: seq<string>) {
    && al.base == base && al.ones == ones && al.nextId == FIRST_GUEST + |served|
    && (forall k :: k in al.byKey <==> k in served)
    && (forall i :: 0 <= i < |served| ==> al.byKey[served[i]].ip == IpForOffset(base, FIRST_GUEST + i))
  }

  lemma AllocateCountsUp(al: Allocator, base: Quad, ones: nat, served: seq<string>, a: Ask)
    requires CountsUp(al, base, ones, served)
    ensures var bl := Allocate(al, a.consumer, a.service, a.iface, a.port, a.upstream).0;
      var key := Key(a.consumer, a.service, a.iface);
      CountsUp(bl, base, ones, if key in served || FIRST_GUEST + |served| > MaxHosts(ones) then served else served + [key])
  {
    var key := Key(a.consumer, a.service, a.iface);
    if key !in served {
      assert forall k :: k in served + [key] <==> k in served || k == key;
    }
  }

  lemma NothingServed(ones: nat)
    requires ones <= 24
    ensures Served(ones, []) == []
  {
    HostCounts(ones);
  }

  lemma OneMoreCountsUp(al: Allocator, base: Quad, ones: nat, init: seq<Ask>, last: Ask)
    requires ones <= 24 && CountsUp(al, base, ones, Served(ones, init))
    ensures CountsUp(Allocate(al, last.consumer, last.service, last.iface, last.port, last.upstream).0, base, ones,
                     Served(ones, init + [last]))
  {
    AllocateCountsUp(al, base, ones, Served(ones, init), last);
    ServedSnoc(ones, init, last);
  }

  lemma {:induction false} AllCountUp(start: Allocator, asks: seq<Ask>)
    requires start.ones <= 24 && start.byKey == map[] && start.nextId == FIRST_GUEST
    ensures CountsUp(AllocateAll(start, asks), start.base, start.ones, Served(start.ones, asks))
  {
    if |asks| > 0 {
      var init, last := asks[..|asks| - 1], asks[|asks| - 1];
      AllCountUp(start, init);
      OneMoreCountsUp(AllocateAll(start, init), start.base, start.ones, init, last);
      assert asks == init + [last];
    } else {
      NothingServed(start.ones);
      assert asks == [];
    }
  }

  /** After any requests, the i-th key to be asked for first has the i-th guest address, while there is room. */
  lemma AllocatesInOrder(address: Quad, ones: nat, asks: seq<Ask>)
    requires ones <= 24
    ensures CountsUp(AllocateAll(NewAllocator(address, ones), asks), Masked(address, ones), ones, Served(ones, asks))
  {
    AllCountUp(NewAllocator(address, ones), asks);
  }

  function KeyOf(a: Ask): string {
    Key(a.consumer, a.service, a.iface)
  }

  // Ask i is the first for its key.
  ghost predicate FirstFor(asks: seq<Ask>, i: nat, key: string) {
    i < |asks| && KeyOf(asks[i]) == key && forall j :: 0 <= j < i ==> KeyOf(asks[j]) != key
  }

  // A key asked for has an address, or there is no room any more.
  lemma {:induction false} AskedOrFull(start: Allocator, asks: seq<Ask>, i: nat)
    requires i < |asks|
    ensures var al := AllocateAll(start, asks); KeyOf(asks[i]) in al.byKey || al.nextId > MaxHosts(al.ones)
  {
    var n := |asks| - 1;
    if i < n {
      AskedOrFull(start, asks[..n], i);
    }
  }

  /** An address is recorded for the first request of its key: its names, port and upstream are those of that request. */
  lemma {:induction false} RecordsFirstAsk(start: Allocator, asks: seq<Ask>, key: string) returns (i: nat)
    requires start.byKey == map[] && key in AllocateAll(start, asks).byKey
    ensures FirstFor(asks, i, key)
    ensures var ga := AllocateAll(start, asks).byKey[key];
      Ask(ga.consumer, ga.service, ga.iface, ga.port, ga.upstream) == asks[i]
  {
    var n := |asks| - 1;
    var init := asks[..n];
    if key in AllocateAll(start, init).byKey {
      i := RecordsFirstAsk(start, init, key);
    } else {
      i := n;
      forall j | 0 <= j < n ensures KeyOf(asks[j]) != key {
        AskedOrFull(start, init, j);
      }
    }
  }

  /** A request is answered with the address its key has afterwards, and refused exactly when it has none. */
  lemma AllocateAnswers(al: Allocator, a: Ask)
    ensures var (bl, ga) := Allocate(al, a.consumer, a.service, a.iface, a.port, a.upstream);
      && (ga.Some? <==> KeyOf(a) in bl.byKey) && (ga.Some? ==> ga.value == bl.byKey[KeyOf(a)])
      && (forall k :: k in al.byKey ==> k in bl.byKey && bl.byKey[k] == al.byKey[k])
  {
  }

  lemma ServedSnoc(ones: nat, init: seq<Ask>, last: Ask)
    requires ones <= 24
    ensures var served, key := Served(ones, init), Key(last.consumer, last.service, last.iface);
      Served(ones, init + [last])
      == if key in served || FIRST_GUEST + |served| > MaxHosts(ones) then served else served + [key]
  {
    HostCounts(ones);
    assert (init + [last])[..|init|] == init;
  }

  // Both books hold the same keys under the same addresses.
  ghost predicate SameAddresses(al: Allocator, bl: Allocator) {
    && (forall k :: k in al.byKey <==> k in bl.byKey)
    && (forall k :: k in al.byKey && k in bl.byKey ==> al.byKey[k].ip == bl.byKey[k].ip)
  }

  lemma SamePlace(base: Quad, ones: nat, al: Allocator, bl: Allocator, s: seq<string>, t: seq<string>, i: nat)
    requires |s| < 65536 && |t| < 65536
    requires CountsUp(al, base, ones, s) && CountsUp(bl, base, ones, t) && SameAddresses(al, bl) && i < |s|
    ensures i < |t| && s[i] == t[i]
  {
    assert s[i] in al.byKey && s[i] in t;
    var j :| 0 <= j < |t| && t[j] == s[i];
    assert al.byKey[s[i]].ip == bl.byKey[t[j]].ip;
    GuestOffsets(base, i, j);
  }

  lemma GuestOffsets(base: Quad, i: nat, j: nat)
    requires i < 65535 && j < 65535
    requires IpForOffset(base, FIRST_GUEST + i) == IpForOffset(base, FIRST_GUEST + j)
    ensures i == j
  {
    var first, second := FIRST_GUEST + if i < j then i else j, FIRST_GUEST + if i < j then j else i;
    if i != j {
      SmallOffsetsDiffer(base, first, second);
    }
  }

  /**
    Two request sequences get the same addresses exactly when the keys served were first
    asked for in the same order. Asking for the same triples in another order is not enough.
    A subnet wider than a /16 repeats its addresses, so there it takes fewer than 65536 keys.
   */
  lemma SameAddressesExactly(address: Quad, ones: nat, xs: seq<Ask>, ys: seq<Ask>)
    requires ones <= 24 && (16 <= ones || (|FirstSeen(xs)| < 65536 && |FirstSeen(ys)| < 65536))
    ensures SameAddresses(AllocateAll(NewAllocator(address, ones), xs), AllocateAll(NewAllocator(address, ones), ys))
       <==> Served(ones, xs) == Served(ones, ys)
  {
    var base, s, t := Masked(address, ones), Served(ones, xs), Served(ones, ys);
    var al, bl := AllocateAll(NewAllocator(address, ones), xs), AllocateAll(NewAllocator(address, ones), ys);
    AllocatesInOrder(address, ones, xs);
    AllocatesInOrder(address, ones, ys);
    HostCounts(ones);
    if SameAddresses(al, bl) {
      SamePlaces(base, ones, al, bl, s, t);
    }
    if s == t {
      SameServed(al, bl, base, ones, s);
    }
  }

  lemma SamePlaces(base: Quad, ones: nat, al: Allocator, bl: Allocator, s: seq<string>, t: seq<string>)
    requires CountsUp(al, base, ones, s) && CountsUp(bl, base, ones, t) && SameAddresses(al, bl)
    requires |s| < 65536 && |t| < 65536
    ensures s == t
  {
    forall i | 0 <= i < |s| ensures i < |t| && s[i] == t[i] {
      SamePlace(base, ones, al, bl, s, t, i);
    }
    if |s| > 0 {
      SamePlace(base, ones, al, bl, s, t, |s| - 1);
    }
    if |t| > 0 {
      SamePlace(base, ones, bl, al, t, s, |t| - 1);
    }
  }

  lemma SameServed(al: Allocator, bl: Allocator, base: Quad, ones: nat, s: seq<string>)
    requires CountsUp(al, base, ones, s) && CountsUp(bl, base, ones, s)
    ensures SameAddresses(al, bl)
  {
    forall k | k in al.byKey ensures al.byKey[k].ip == bl.byKey[k].ip {
      var i :| 0 <= i < |s| && s[i] == k;
    }
  }

  /** Two different triples swap their addresses when they are asked for in the other order. */
  lemma OrderMatters(address: Quad, ones: nat, a: Ask, b: Ask)
    requires 16 <= ones <= 24 && Key(a.consumer, a.service, a.iface) != Key(b.consumer, b.service, b.iface)
    ensures var al, bl := AllocateAll(NewAllocator(address, ones), [a, b]), AllocateAll(NewAllocator(address, ones), [b, a]);
      !SameAddresses(al, bl)
  {
    SeenTwo(a, b);
    SeenTwo(b, a);
    HostCounts(ones);
    SameAddressesExactly(address, ones, [a, b], [b, a]);
  }

  lemma SeenTwo(a: Ask, b: Ask)
    requires Key(a.consumer, a.service, a.iface) != Key(b.consumer, b.service, b.iface)
    ensures FirstSeen([a, b]) == [Key(a.consumer, a.service, a.iface), Key(b.consumer, b.service, b.iface)]
  {
    assert [a, b][..1] == [a] && [a][..0] == [];
    assert FirstSeen([a]) == [Key(a.consumer, a.service, a.iface)];
  }

  /** In the default subnet, web's and api's addresses for the same database depend on which is asked for first. */
  lemma OrderMattersForTwoConsumers()
    ensures var a, b := Ask("web", "db", "main", 5432, "db:5432"), Ask("api", "db", "main", 5432, "db:5432");
      var al, bl := AllocateAll(NewAllocator(Quad(10, 99, 0, 0), 16), [a, b]),
                    AllocateAll(NewAllocator(Quad(10, 99, 0, 0), 16), [b, a]);
      !SameAddresses(al, bl)
  {
    var a, b := Ask("web", "db", "main", 5432, "db:5432"), Ask("api", "db", "main", 5432, "db:5432");
    assert Key("web", "db", "main")[0] == 'w' && Key("api", "db", "main")[0] == 'a';
    OrderMatters(Quad(10, 99, 0, 0), 16, a, b);
  }
}
