/**
  The factorial number system: an index selects a permutation. Factorials are capped
  at 12!, and integer division truncates toward zero, as in Go.
 */
module Permutations {

  // Multiplication, quotient and remainder as repeated addition and subtraction, so
  // that proofs about digits and weights stay linear.

  function Mul(a: nat, b: nat): nat {
    if a == 0 then 0 else b + Mul(a - 1, b)
  }

  function Div(x: nat, f: nat): nat
    requires f > 0
  {
    if x < f then 0 else 1 + Div(x - f, f)
  }

  function Mod(x: nat, f: nat): (r: nat)
    requires f > 0
    ensures r < f
  {
    if x < f then x else Mod(x - f, f)
  }

  lemma {:induction false} MulIsProduct(a: nat, b: nat)
    ensures Mul(a, b) == a * b
  {
    if a > 0 {
      MulIsProduct(a - 1, b);
    }
  }

  lemma {:induction false} DivMod(x: nat, f: nat)
    requires f > 0
    ensures x == Mul(Div(x, f), f) + Mod(x, f)
  {
    if x >= f {
      DivMod(x - f, f);
    }
  }

  lemma DivIsQuotient(x: nat, f: nat)
    requires f > 0
    ensures Div(x, f) == x / f && Mod(x, f) == x % f
  {
    DivMod(x, f);
    MulIsProduct(Div(x, f), f);
    QuotientUnique(x, f, Div(x, f), Mod(x, f));
  }

  lemma QuotientUnique(x: nat, f: nat, q: nat, r: nat)
    requires f > 0 && r < f && x == q * f + r
    ensures q == x / f && r == x % f
  {
    var p, s := x / f, x % f;
    assert x == p * f + s;
    ProductGap(p, q, f);
    ProductGap(q, p, f);
  }

  lemma {:induction false} MulGap(a: nat, b: nat, f: nat)
    requires a < b
    ensures Mul(a, f) + f <= Mul(b, f)
  {
    if a + 1 < b {
      MulGap(a, b - 1, f);
    } else if a > 0 {
      MulGap(a - 1, b - 1, f);
    }
  }

  lemma ProductGap(a: nat, b: nat, f: nat)
    ensures a < b ==> a * f + f <= b * f
  {
    if a < b {
      MulGap(a, b, f);
      MulIsProduct(a, f);
      MulIsProduct(b, f);
    }
  }

  lemma {:induction false} DivBelow(x: nat, f: nat, m: nat)
    requires f > 0 && x < Mul(m, f)
    ensures Div(x, f) < m
  {
    if x >= f {
      DivBelow(x - f, f, m - 1);
    }
  }

  lemma {:induction false} DivModOrder(i: nat, j: nat, f: nat)
    requires f > 0 && i < j
    ensures Div(i, f) < Div(j, f) || (Div(i, f) == Div(j, f) && Mod(i, f) < Mod(j, f))
  {
    if i >= f {
      DivModOrder(i - f, j - f, f);
    }
  }

  lemma {:induction false} Compose(d: nat, f: nat, r: nat, m: nat)
    requires d < m && r < f
    ensures Mul(d, f) + r < Mul(m, f) && Div(Mul(d, f) + r, f) == d && Mod(Mul(d, f) + r, f) == r
  {
    if d > 0 {
      Compose(d - 1, f, r, m - 1);
    }
  }

  // --------------------------------------------------------------- factorials

  function Fact(n: nat): nat {
    if n == 0 then 1 else n * Fact(n - 1)
  }

  const CAP := 12

  // The capped factorial: the number of indices that select distinct arrangements.
  function Total(cap: nat, m: nat): (t: nat)
    ensures t > 0
  {
    if m <= 1 then 1 else if m > cap then Total(cap, m - 1) else Mul(m, Total(cap, m - 1))
  }

  lemma {:induction false} TotalIsFactorial(cap: nat, m: nat)
    ensures m <= cap ==> Total(cap, m) == Fact(m)
  {
    if m > 1 {
      TotalIsFactorial(cap, m - 1);
      MulIsProduct(m, Total(cap, m - 1));
    }
  }

  method Factorial(n: int) returns (result: nat)
    ensures result == Total(CAP, if n < 0 then 0 else n)
  {
    if n <= 1 {
      return 1;
    }
    var m := Capped(n);
    result := 1;
    var i := 2;
    while i <= m
      invariant 2 <= i <= m + 1 && result == Total(CAP, i - 1)
    {
      result := Scaled(i, result);
      i := i + 1;
    }
  }

  method Capped(n: nat) returns (m: nat)
    requires n > 1
    ensures 1 < m <= CAP && Total(CAP, m) == Total(CAP, n)
  {
    m := if n > 12 then 12 else n;
    CappedTotal(CAP, m, n);
  }

  method Scaled(i: nat, result: nat) returns (r: nat)
    ensures r == Mul(i, result)
  {
    MulIsProduct(i, result);
    r := result * i;
  }

  lemma {:induction false} CappedTotal(cap: nat, m: nat, n: nat)
    requires m <= n && (m < n ==> m >= cap)
    ensures Total(cap, m) == Total(cap, n)
  {
    if m < n {
      CappedTotal(cap, m, n - 1);
    }
  }

  // --------------------------------------------------------------- decoding

  function Without<T>(s: seq<T>, i: nat): seq<T>
    requires i < |s|
  {
    s[..i] + s[i + 1..]
  }

  lemma DigitInRange(cap: nat, m: nat, index: nat)
    requires m > 0 && index < Total(cap, m)
    ensures Div(index, Total(cap, m - 1)) < m
    ensures m > cap ==> Div(index, Total(cap, m - 1)) == 0 && Mod(index, Total(cap, m - 1)) == index
  {
    if 1 < m <= cap {
      DivBelow(index, Total(cap, m - 1), m);
    }
  }

  // The leading digit of an index among m elements, and what remains for the others.
  function Digit(cap: nat, m: nat, index: nat): (d: nat)
    requires m > 0 && index < Total(cap, m)
    ensures d < m
  {
    DigitInRange(cap, m, index);
    Div(index, Total(cap, m - 1))
  }

  function Rest(cap: nat, m: nat, index: nat): (r: nat)
    requires m > 0
    ensures r < Total(cap, m - 1)
  {
    Mod(index, Total(cap, m - 1))
  }

  // The arrangement of `available` that `index` selects.
  function Decode(cap: nat, available: seq<nat>, index: nat): (perm: seq<nat>)
    requires index < Total(cap, |available|)
    ensures |perm| == |available|
    decreases |available|
  {
    if |available| == 0 then []
    else
      var d := Digit(cap, |available|, index);
      [available[d]] + Decode(cap, Without(available, d), Rest(cap, |available|, index))
  }

  function Identity(n: nat): seq<nat> {
    seq(n, i => i)
  }

  datatype Outcome = Permutation(perm: seq<nat>) | Panic

  function Abs(x: int): nat {
    if x < 0 then -x else x
  }

  // Go's quotient and remainder: truncated, with the sign of the dividend.
  function Quo(x: int, y: nat): int
    requires y > 0
  {
    if x < 0 then 0 - Div(-x, y) else Div(x, y)
  }

  function Rem(x: int, y: nat): int
    requires y > 0
  {
    if x < 0 then 0 - Mod(-x, y) else Mod(x, y)
  }

  // The truncated operations on both signs, in terms of the ones on non-negative numbers.
  lemma TruncatedDivision(x: int, y: nat)
    requires y > 0
    ensures x >= 0 ==> Quo(x, y) == x / y && Rem(x, y) == x % y
    ensures x < 0 ==> Quo(x, y) == -(-x / y) && Rem(x, y) == -(-x % y)
  {
    DivIsQuotient(Abs(x), y);
  }

  lemma Digits(cap: nat, m: nat, left: int)
    requires m > 0 && Abs(left) < Total(cap, m)
    ensures var f := Total(cap, m - 1);
      Abs(Quo(left, f)) == Digit(cap, m, Abs(left)) && Abs(Rem(left, f)) == Rest(cap, m, Abs(left))
    ensures left < 0 <= Quo(left, Total(cap, m - 1)) ==> Rem(left, Total(cap, m - 1)) < 0
  {
    DivMod(Abs(left), Total(cap, m - 1));
  }

  /**
    A non-negative index selects the arrangement its residue selects; a negative one
    indexes out of range, unless it is a multiple of the total.
   */
  // One more digit of the index picks one more element.
  lemma PicksOneMore(perm: seq<nat>, available: seq<nat>, left: nat)
    requires |available| > 0 && left < Total(CAP, |available|)
    ensures var f := Total(CAP, |available| - 1);
      && 0 <= Quo(left, f) < |available| && 0 <= Rem(left, f) < f
      && perm + Decode(CAP, available, left)
         == perm + [available[Quo(left, f)]] + Decode(CAP, Without(available, Quo(left, f)), Rem(left, f))
  {
    Digits(CAP, |available|, left);
  }

  method PermutationFromIndex(n: int, index: int) returns (r: Outcome)
    ensures n <= 0 ==> r == Permutation([])
    ensures n > 0 && Rem(index, Total(CAP, n)) >= 0 ==> r == Permutation(Decode(CAP, Identity(n), Rem(index, Total(CAP, n))))
    ensures n > 0 ==> (r.Panic? <==> Rem(index, Total(CAP, n)) < 0)
  {
    if n <= 0 {
      return Permutation([]);
    }
    var total := Factorial(n);
    var left := Rem(index, total);
    ghost var start := left;
    var available := Identity(n);
    var perm: seq<nat> := [];
    var i := 0;
    while i < n
      invariant 0 <= i <= n && |available| == n - i && Abs(left) < Total(CAP, |available|)
      invariant left < 0 <==> start < 0
      invariant left >= 0 ==> perm + Decode(CAP, available, left) == Decode(CAP, Identity(n), start)
    {
      var f := Factorial(n - 1 - i);
      var digit := Quo(left, f);
      Digits(CAP, |available|, left);
      if left >= 0 {
        PicksOneMore(perm, available, left);
      }
      if digit < 0 || digit >= |available| {
        return Panic;
      }
      left := Rem(left, f);
      perm := perm + [available[digit]];
      available := Without(available, digit);
      i := i + 1;
    }
    return Permutation(perm);
  }

  /** When an index selects an arrangement, and which, in terms of the ordinary remainder. */
  lemma ResidueExactly(cap: nat, n: nat, index: int)
    ensures Rem(index, Total(cap, n)) >= 0 <==> index >= 0 || -index % Total(cap, n) == 0
    ensures Rem(index, Total(cap, n)) >= 0 ==> Rem(index, Total(cap, n)) == if index >= 0 then index % Total(cap, n) else 0
  {
    TruncatedDivision(index, Total(cap, n));
  }

  // --------------------------------------------------------------- permutations

  ghost predicate Distinct(s: seq<nat>) {
    forall i, j :: 0 <= i < j < |s| ==> s[i] != s[j]
  }

  ghost predicate Ascending(s: seq<nat>) {
    forall i, j :: 0 <= i < j < |s| ==> s[i] < s[j]
  }

  ghost predicate IsPermutation(perm: seq<nat>, of: seq<nat>) {
    multiset(perm) == multiset(of)
  }

  lemma WithoutCounts(s: seq<nat>, i: nat)
    requires i < |s|
    ensures multiset(s) == multiset{s[i]} + multiset(Without(s, i))
  {
    assert s == s[..i] + [s[i]] + s[i + 1..];
  }

  /** Every index, for every size, selects a permutation. */
  lemma {:induction false} DecodeIsPermutation(cap: nat, available: seq<nat>, index: nat)
    requires index < Total(cap, |available|)
    ensures IsPermutation(Decode(cap, available, index), available)
    decreases |available|
  {
    if |available| > 0 {
      var d := Digit(cap, |available|, index);
      DecodeIsPermutation(cap, Without(available, d), Rest(cap, |available|, index));
      WithoutCounts(available, d);
    }
  }

  ghost predicate LexLess(a: seq<nat>, b: seq<nat>) {
    |a| > 0 && |b| > 0 && (a[0] < b[0] || (a[0] == b[0] && LexLess(a[1..], b[1..])))
  }

  lemma AscendingWithout(s: seq<nat>, i: nat)
    requires Ascending(s) && i < |s|
    ensures Ascending(Without(s, i))
  {
    var t := Without(s, i);
    assert forall k :: 0 <= k < |t| ==> t[k] == s[if k < i then k else k + 1];
  }

  lemma DigitsOrder(cap: nat, m: nat, i: nat, j: nat)
    requires m > 0 && i < j < Total(cap, m)
    ensures Digit(cap, m, i) < Digit(cap, m, j) || (Digit(cap, m, i) == Digit(cap, m, j) && Rest(cap, m, i) < Rest(cap, m, j))
  {
    DivModOrder(i, j, Total(cap, m - 1));
  }

  /** Larger indices select lexicographically larger permutations, whatever the size. */
  lemma {:induction false} DecodeIsIncreasing(cap: nat, available: seq<nat>, i: nat, j: nat)
    requires Ascending(available) && i < j < Total(cap, |available|)
    ensures LexLess(Decode(cap, available, i), Decode(cap, available, j))
    decreases |available|
  {
    var m := |available|;
    DigitsOrder(cap, m, i, j);
    var d := Digit(cap, m, i);
    if d == Digit(cap, m, j) {
      AscendingWithout(available, d);
      DecodeIsIncreasing(cap, Without(available, d), Rest(cap, m, i), Rest(cap, m, j));
      assert Decode(cap, available, i)[1..] == Decode(cap, Without(available, d), Rest(cap, m, i));
      assert Decode(cap, available, j)[1..] == Decode(cap, Without(available, d), Rest(cap, m, j));
    }
  }

  lemma {:induction false} LexIrreflexive(a: seq<nat>)
    ensures !LexLess(a, a)
  {
    if |a| > 0 {
      LexIrreflexive(a[1..]);
    }
  }

  /** Distinct indices select distinct permutations, for every size. */
  lemma DecodeIsInjective(cap: nat, available: seq<nat>, i: nat, j: nat)
    requires Ascending(available) && i < Total(cap, |available|) && j < Total(cap, |available|)
    requires Decode(cap, available, i) == Decode(cap, available, j)
    ensures i == j
  {
    LexIrreflexive(Decode(cap, available, i));
    if i < j {
      DecodeIsIncreasing(cap, available, i, j);
    } else if j < i {
      DecodeIsIncreasing(cap, available, j, i);
    }
  }

  ghost function Position(s: seq<nat>, x: nat): (i: nat)
    requires x in s
    ensures i < |s| && s[i] == x
  {
    var i :| 0 <= i < |s| && s[i] == x;
    i
  }

  lemma DigitsCompose(cap: nat, m: nat, d: nat, r: nat)
    requires d < m <= cap && r < Total(cap, m - 1)
    ensures Mul(d, Total(cap, m - 1)) + r < Total(cap, m)
    ensures Digit(cap, m, Mul(d, Total(cap, m - 1)) + r) == d
    ensures Rest(cap, m, Mul(d, Total(cap, m - 1)) + r) == r
  {
    var f := Total(cap, m - 1);
    Compose(d, f, r, m);
    assert Total(cap, m) == Mul(m, f);
  }

  // The index of a permutation: the inverse of Decode.
  ghost function Rank(cap: nat, available: seq<nat>, perm: seq<nat>): (index: nat)
    requires |available| <= cap
    ensures index < Total(cap, |available|)
    decreases |available|
  {
    if |perm| == 0 || perm[0] !in available then 0
    else
      var d := Position(available, perm[0]);
      var r := Rank(cap, Without(available, d), perm[1..]);
      DigitsCompose(cap, |available|, d, r);
      Mul(d, Total(cap, |available| - 1)) + r
  }

  lemma PermutationLength(perm: seq<nat>, of: seq<nat>)
    requires IsPermutation(perm, of)
    ensures |perm| == |of|
  {
    assert |multiset(perm)| == |perm| && |multiset(of)| == |of|;
  }

  lemma HeadAvailable(perm: seq<nat>, of: seq<nat>)
    requires IsPermutation(perm, of) && |perm| > 0
    ensures perm[0] in of && IsPermutation(perm[1..], Without(of, Position(of, perm[0])))
  {
    assert perm[0] in multiset(perm);
    var i := Position(of, perm[0]);
    WithoutCounts(of, i);
    assert perm == [perm[0]] + perm[1..];
    assert multiset(perm) == multiset{perm[0]} + multiset(perm[1..]);
    assert multiset(perm[1..]) == multiset(perm) - multiset{perm[0]};
    assert multiset(Without(of, i)) == multiset(of) - multiset{of[i]};
  }

  lemma DecodeHead(cap: nat, available: seq<nat>, index: nat, d: nat, r: nat)
    requires |available| > 0 && index < Total(cap, |available|)
    requires d == Digit(cap, |available|, index) && r == Rest(cap, |available|, index)
    ensures Decode(cap, available, index) == [available[d]] + Decode(cap, Without(available, d), r)
  {
  }

  // An index composed of a digit and the rest selects that element first.
  lemma DecodeComposed(cap: nat, available: seq<nat>, index: nat, d: nat, r: nat)
    requires d < |available| <= cap && r < Total(cap, |available| - 1) && index == Mul(d, Total(cap, |available| - 1)) + r
    ensures index < Total(cap, |available|)
    ensures Decode(cap, available, index) == [available[d]] + Decode(cap, Without(available, d), r)
  {
    DigitsCompose(cap, |available|, d, r);
    DecodeHead(cap, available, index, d, r);
  }

  lemma RankComposed(cap: nat, available: seq<nat>, perm: seq<nat>)
    requires 0 < |available| <= cap && |perm| > 0 && perm[0] in available
    ensures var d := Position(available, perm[0]);
      Rank(cap, available, perm) == Mul(d, Total(cap, |available| - 1)) + Rank(cap, Without(available, d), perm[1..])
  {
  }

  // One more element in front, given that the rest is selected by its rank.
  lemma SelectsWithHead(cap: nat, available: seq<nat>, perm: seq<nat>, index: nat, d: nat, r: nat)
    requires d < |available| <= cap && r < Total(cap, |available| - 1) && index == Mul(d, Total(cap, |available| - 1)) + r
    requires |perm| > 0 && perm[0] == available[d] && Decode(cap, Without(available, d), r) == perm[1..]
    ensures index < Total(cap, |available|) && Decode(cap, available, index) == perm
  {
    DecodeComposed(cap, available, index, d, r);
    assert perm == [perm[0]] + perm[1..];
  }

  /** Up to twelve elements every permutation is selected, by its rank: decoding inverts ranking. */
  lemma {:induction false} DecodeIsSurjective(cap: nat, available: seq<nat>, perm: seq<nat>)
    requires IsPermutation(perm, available) && |available| <= cap
    ensures Decode(cap, available, Rank(cap, available, perm)) == perm
    decreases |available|
  {
    PermutationLength(perm, available);
    if |available| > 0 {
      HeadAvailable(perm, available);
      var d := Position(available, perm[0]);
      var left := Without(available, d);
      DecodeIsSurjective(cap, left, perm[1..]);
      RankComposed(cap, available, perm);
      SelectsWithHead(cap, available, perm, Rank(cap, available, perm), d, Rank(cap, left, perm[1..]));
    }
  }

  /** ... and ranking inverts decoding: the indices below n! and the permutations are in bijection. */
  lemma RankInvertsDecode(cap: nat, available: seq<nat>, index: nat)
    requires Ascending(available) && |available| <= cap && index < Total(cap, |available|)
    ensures IsPermutation(Decode(cap, available, index), available)
    ensures Rank(cap, available, Decode(cap, available, index)) == index
  {
    DecodeIsPermutation(cap, available, index);
    DecodeIsSurjective(cap, available, Decode(cap, available, index));
    DecodeIsInjective(cap, available, Rank(cap, available, Decode(cap, available, index)), index);
  }

  /** Beyond twelve elements only the last twelve move. */
  lemma {:induction false} LargeSizesFixTheFront(cap: nat, available: seq<nat>, index: nat, k: nat)
    requires index < Total(cap, |available|) && k + cap < |available|
    ensures Decode(cap, available, index)[k] == available[k]
    decreases |available|
  {
    DigitInRange(cap, |available|, index);
    if k > 0 {
      LargeSizesFixTheFront(cap, Without(available, 0), Rest(cap, |available|, index), k - 1);
    }
  }
}
