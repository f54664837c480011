/**
  Text that identifiers are built from: decimal numbers, dotted quads, and
  concatenations with separators. What matters is that distinct parts give distinct text.
 */
module Text {
  import opened Conversations

  function Digit(d: nat): char
    requires d < 10
  {
    ('0' as int + d) as char
  }

  predicate IsDigit(c: char) {
    '0' <= c <= '9'
  }

  function Decimal(n: nat): (s: string)
    ensures |s| > 0 && forall i :: 0 <= i < |s| ==> IsDigit(s[i])
  {
    (if n < 10 then "" else Decimal(n / 10)) + [Digit(n % 10)]
  }

  lemma {:induction false} DecimalInjective(m: nat, n: nat)
    requires Decimal(m) == Decimal(n)
    ensures m == n
    decreases m
  {
    var s, t := Decimal(m), Decimal(n);
    assert s[|s| - 1] == Digit(m % 10) && t[|t| - 1] == Digit(n % 10);
    assert m % 10 == n % 10;
    assert (if m < 10 then "" else Decimal(m / 10)) == s[..|s| - 1];
    assert (if n < 10 then "" else Decimal(n / 10)) == t[..|t| - 1];
    if m >= 10 && n >= 10 {
      DecimalInjective(m / 10, n / 10);
    }
  }

  // What a run of digits denotes.
  function Value(s: string): int {
    if |s| == 0 then 0 else 10 * Value(s[..|s| - 1]) + (s[|s| - 1] as int - '0' as int)
  }

  /** The text of a number denotes it, and has no leading zero. */
  lemma {:induction false} DecimalMeans(n: nat)
    ensures Value(Decimal(n)) == n && (Decimal(n)[0] == '0' ==> n == 0 && |Decimal(n)| == 1)
  {
    var s := Decimal(n);
    if n >= 10 {
      DecimalMeans(n / 10);
      assert s[..|s| - 1] == Decimal(n / 10);
    } else {
      assert s[..|s| - 1] == "";
    }
  }

  function Pow10(k: nat): nat {
    if k == 0 then 1 else 10 * Pow10(k - 1)
  }

  lemma {:induction false} DecimalLength(n: nat, k: nat)
    requires n < Pow10(k) && k > 0
    ensures |Decimal(n)| <= k
  {
    if n >= 10 {
      DecimalLength(n / 10, k - 1);
    }
  }

  const UINT64_LIMIT := 0x1_0000_0000_0000_0000

  lemma Uint64Fits()
    ensures UINT64_LIMIT < Pow10(20)
  {
    assert Pow10(4) == 10_000;
    assert Pow10(8) == 1_0000_0000;
    assert Pow10(12) == 1_0000_0000_0000;
    assert Pow10(16) == 1_0000_0000_0000_0000;
  }

  // The last digit moves from the number to the text after it.
  lemma DecimalTail(n: nat, rest: string)
    ensures Decimal(n) + rest == (if n < 10 then "" else Decimal(n / 10)) + ([Digit(n % 10)] + rest)
  {
  }

  /** Digits are produced from the least significant one into the tail of a 20-byte buffer. */
  method WriteUint(v: nat) returns (s: string)
    requires v < UINT64_LIMIT
    ensures s == Decimal(v)
  {
    var tmp := new char[20](_ => '0');
    var i, left := 20, v;
    Uint64Fits();
    DecimalLength(v, 20);
    while true
      invariant 0 < i <= 20
      invariant Decimal(left) + tmp[i..] == Decimal(v)
      decreases left
    {
      ghost var before := tmp[i..];
      DecimalTail(left, before);
      i := i - 1;
      tmp[i] := Digit(left % 10);
      assert tmp[i..] == [Digit(left % 10)] + before;
      if left / 10 == 0 {
        break;
      }
      left := left / 10;
    }
    s := tmp[i..];
  }

  ghost predicate Free(s: string, c: char) {
    forall i :: 0 <= i < |s| ==> s[i] != c
  }

  /** A part that does not contain the separator ends at the first one. */
  lemma {:induction false} SplitUnique(a: string, b: string, c: char, r: string, t: string)
    requires Free(a, c) && Free(b, c) && a + [c] + r == b + [c] + t
    ensures a == b && r == t
  {
    var s := a + [c] + r;
    assert s[|a|] == c && s[|b|] == c;
    assert forall i :: 0 <= i < |a| ==> s[i] == a[i];
    assert forall i :: 0 <= i < |b| ==> s[i] == b[i];
    assert |a| == |b|;
    assert a == s[..|a|] && b == s[..|b|];
    assert r == s[|a| + 1..] && t == s[|b| + 1..];
  }

  /** A part that does not contain the separator begins after the last one. */
  lemma LastSplitUnique(a: string, b: string, c: char, r: string, t: string)
    requires Free(r, c) && Free(t, c) && a + [c] + r == b + [c] + t
    ensures a == b && r == t
  {
    var s := a + [c] + r;
    assert s[|a|] == c && s[|b|] == c;
    assert forall i :: |a| < i < |s| ==> s[i] == r[i - |a| - 1];
    assert forall i :: |b| < i < |s| ==> s[i] == t[i - |b| - 1];
    assert |a| == |b|;
    assert a == s[..|a|] && b == s[..|b|] && r == s[|a| + 1..] && t == s[|b| + 1..];
  }

  // Byte-wise lexicographic order.
  predicate Less(a: string, b: string) {
    if |b| == 0 then false
    else if |a| == 0 then true
    else a[0] < b[0] || (a[0] == b[0] && Less(a[1..], b[1..]))
  }

  lemma {:induction false} LessIsStrictTotal(a: string, b: string)
    ensures !(Less(a, b) && Less(b, a))
    ensures a == b || Less(a, b) || Less(b, a)
    ensures a == b ==> !Less(a, b)
  {
    if |a| > 0 && |b| > 0 {
      LessIsStrictTotal(a[1..], b[1..]);
      assert a == [a[0]] + a[1..] && b == [b[0]] + b[1..];
    }
  }

  lemma {:induction false} LessTransitive(a: string, b: string, c: string)
    requires Less(a, b) && Less(b, c)
    ensures Less(a, c)
  {
    if |a| > 0 && a[0] == b[0] && b[0] == c[0] {
      LessTransitive(a[1..], b[1..], c[1..]);
    }
  }

  // The strings agree up to position k, where a ends first or has the smaller character.
  predicate DiffersAt(a: string, b: string, k: nat) {
    k < |b| && k <= |a| && a[..k] == b[..k] && (k < |a| ==> a[k] < b[k])
  }

  /** The order compares strings by their first difference; a proper prefix comes first. */
  lemma {:induction false} LessIsLexicographic(a: string, b: string)
    ensures Less(a, b) <==> exists k: nat :: DiffersAt(a, b, k)
  {
    if |a| > 0 && |b| > 0 {
      LessIsLexicographic(a[1..], b[1..]);
      if a[0] < b[0] {
        assert DiffersAt(a, b, 0);
      } else if a[0] == b[0] {
        if k: nat :| DiffersAt(a[1..], b[1..], k) {
          assert a[..k + 1] == [a[0]] + a[1..][..k] && b[..k + 1] == [b[0]] + b[1..][..k];
          assert DiffersAt(a, b, k + 1);
        }
        if k: nat :| DiffersAt(a, b, k) {
          assert a[1..][..k - 1] == a[..k][1..] && b[1..][..k - 1] == b[..k][1..];
          assert DiffersAt(a[1..], b[1..], k - 1);
        }
      }
    } else if |b| > 0 {
      assert DiffersAt(a, b, 0);
    }
  }

  // --------------------------------------------------------------- IPv4 addresses

  function Dotted(q: Quad): string {
    Decimal(q.a) + ['.'] + (Decimal(q.b) + ['.'] + (Decimal(q.c) + ['.'] + Decimal(q.d)))
  }

  lemma DottedInjective(p: Quad, q: Quad)
    requires Dotted(p) == Dotted(q)
    ensures p == q
  {
    SplitUnique(Decimal(p.a), Decimal(q.a), '.', Decimal(p.b) + ['.'] + (Decimal(p.c) + ['.'] + Decimal(p.d)),
                Decimal(q.b) + ['.'] + (Decimal(q.c) + ['.'] + Decimal(q.d)));
    SplitUnique(Decimal(p.b), Decimal(q.b), '.', Decimal(p.c) + ['.'] + Decimal(p.d), Decimal(q.c) + ['.'] + Decimal(q.d));
    SplitUnique(Decimal(p.c), Decimal(q.c), '.', Decimal(p.d), Decimal(q.d));
    DecimalInjective(p.a, q.a);
    DecimalInjective(p.b, q.b);
    DecimalInjective(p.c, q.c);
    DecimalInjective(p.d, q.d);
  }

  lemma DottedFree(q: Quad, c: char)
    requires !IsDigit(c) && c != '.'
    ensures Free(Dotted(q), c)
  {
  }
}
