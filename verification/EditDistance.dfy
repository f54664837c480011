/** Edit distance between operation names, and the suggestion for a misspelt one. */
module EditDistance {

  function Min3(a: nat, b: nat, c: nat): nat {
    var ab := if b < a then b else a;
    if c < ab then c else ab
  }

  function Cost(x: char, y: char): nat {
    if x == y then 0 else 1
  }

  function Init(s: string): string
    requires |s| > 0
  {
    s[..|s| - 1]
  }

  function Last(s: string): char
    requires |s| > 0
  {
    s[|s| - 1]
  }

  /** Levenshtein distance: the last characters are deleted, inserted, or kept or replaced. */
  function Distance(a: string, b: string): nat
    decreases |a| + |b|, 1
  {
    if |a| == 0 then |b| else if |b| == 0 then |a| else Least(a, b)
  }

  function Least(a: string, b: string): nat
    requires |a| > 0 && |b| > 0
    decreases |a| + |b|, 0
  {
    Min3(Distance(a, Init(b)) + 1, Distance(Init(a), b) + 1, Distance(Init(a), Init(b)) + Cost(Last(a), Last(b)))
  }

  // The distance is the least of the three ways to end.
  lemma DistanceSteps(a: string, b: string)
    requires |a| > 0 && |b| > 0
    ensures var d := Distance(a, b);
      && d <= Distance(a, Init(b)) + 1 && d <= Distance(Init(a), b) + 1
      && d <= Distance(Init(a), Init(b)) + Cost(Last(a), Last(b))
      && (d == Distance(a, Init(b)) + 1 || d == Distance(Init(a), b) + 1
          || d == Distance(Init(a), Init(b)) + Cost(Last(a), Last(b)))
  {
    assert Distance(a, b) == Least(a, b);
  }

  // --------------------------------------------------------------- the two-row loop

  // The distance between the first i and the first j characters: one cell of the table.
  ghost function Cell(a: string, b: string, i: nat, j: nat): nat
    requires i <= |a| && j <= |b|
    decreases i + j, 1
  {
    if i == 0 then j else if j == 0 then i else InnerCell(a, b, i, j)
  }

  ghost function InnerCell(a: string, b: string, i: nat, j: nat): nat
    requires 0 < i <= |a| && 0 < j <= |b|
    decreases i + j, 0
  {
    Min3(Cell(a, b, i, j - 1) + 1, Cell(a, b, i - 1, j) + 1, Cell(a, b, i - 1, j - 1) + Cost(a[i - 1], b[j - 1]))
  }

  lemma CellSteps(a: string, b: string, i: nat, j: nat)
    requires 0 < i <= |a| && 0 < j <= |b|
    ensures Cell(a, b, i, j)
         == Min3(Cell(a, b, i, j - 1) + 1, Cell(a, b, i - 1, j) + 1, Cell(a, b, i - 1, j - 1) + Cost(a[i - 1], b[j - 1]))
  {
    assert Cell(a, b, i, j) == InnerCell(a, b, i, j);
  }

  lemma {:induction false} CellIsDistance(a: string, b: string, i: nat, j: nat)
    requires i <= |a| && j <= |b|
    ensures Cell(a, b, i, j) == Distance(a[..i], b[..j])
    decreases i + j
  {
    if i > 0 && j > 0 {
      CellIsDistance(a, b, i, j - 1);
      CellIsDistance(a, b, i - 1, j);
      CellIsDistance(a, b, i - 1, j - 1);
      CellSteps(a, b, i, j);
      DistanceSteps(a[..i], b[..j]);
      assert Init(a[..i]) == a[..i - 1] && Init(b[..j]) == b[..j - 1];
    }
  }

  /** Two rows of the distance table suffice. */
  method Compute(a: string, b: string) returns (d: nat)
    ensures d == Distance(a, b)
  {
    if |a| == 0 {
      return |b|;
    }
    if |b| == 0 {
      return |a|;
    }
    var prev := new nat[|b| + 1](j => j);
    var cur := new nat[|b| + 1](_ => 0);
    var i := 1;
    while i <= |a|
      invariant 1 <= i <= |a| + 1 && prev.Length == cur.Length == |b| + 1 && prev != cur
      invariant fresh(prev) && fresh(cur)
      invariant forall j :: 0 <= j <= |b| ==> prev[j] == Cell(a, b, i - 1, j)
    {
      FillRow(a, b, i, prev, cur);
      prev, cur := cur, prev;
      i := i + 1;
    }
    CellIsDistance(a, b, |a|, |b|);
    assert a[..|a|] == a && b[..|b|] == b;
    return prev[|b|];
  }

  // One row from the row above it.
  method FillRow(a: string, b: string, i: nat, prev: array<nat>, cur: array<nat>)
    requires 1 <= i <= |a| && prev.Length == cur.Length == |b| + 1 && prev != cur
    requires forall j :: 0 <= j <= |b| ==> prev[j] == Cell(a, b, i - 1, j)
    modifies cur
    ensures forall j :: 0 <= j <= |b| ==> cur[j] == Cell(a, b, i, j)
  {
    cur[0] := i;
    var j := 1;
    while j <= |b|
      invariant 1 <= j <= |b| + 1
      invariant forall k :: 0 <= k < j ==> cur[k] == Cell(a, b, i, k)
    {
      var cost := 1;
      if a[i - 1] == b[j - 1] {
        cost := 0;
      }
      CellSteps(a, b, i, j);
      cur[j] := Min3(cur[j - 1] + 1, prev[j] + 1, prev[j - 1] + cost);
      j := j + 1;
    }
  }

  // --------------------------------------------------------------- a metric

  lemma {:induction false} DistanceSymmetric(a: string, b: string)
    ensures Distance(a, b) == Distance(b, a)
    decreases |a| + |b|
  {
    if |a| > 0 && |b| > 0 {
      DistanceSymmetric(a, Init(b));
      DistanceSymmetric(Init(a), b);
      DistanceSymmetric(Init(a), Init(b));
      DistanceSteps(a, b);
      DistanceSteps(b, a);
    }
  }

  lemma {:induction false} DistanceZero(a: string, b: string)
    ensures Distance(a, b) == 0 <==> a == b
    decreases |a| + |b|
  {
    if |a| > 0 && |b| > 0 {
      DistanceZero(Init(a), Init(b));
      DistanceSteps(a, b);
      assert a == Init(a) + [Last(a)] && b == Init(b) + [Last(b)];
    }
  }

  lemma {:induction false} DistanceAtMostSum(a: string, b: string)
    ensures Distance(a, b) <= |a| + |b| && |a| - |b| <= Distance(a, b) && |b| - |a| <= Distance(a, b)
    decreases |a| + |b|
  {
    if |a| > 0 && |b| > 0 {
      DistanceAtMostSum(a, Init(b));
      DistanceAtMostSum(Init(a), b);
      DistanceAtMostSum(Init(a), Init(b));
      DistanceSteps(a, b);
    }
  }

  /** The triangle inequality. */
  lemma {:induction false} TriangleInequality(a: string, b: string, c: string)
    ensures Distance(a, c) <= Distance(a, b) + Distance(b, c)
    decreases |a| + |b| + |c|
  {
    DistanceAtMostSum(a, b);
    DistanceAtMostSum(b, c);
    DistanceAtMostSum(a, c);
    if |a| > 0 && |b| > 0 && |c| > 0 {
      DistanceSteps(a, b);
      DistanceSteps(b, c);
      DistanceSteps(a, c);
      TriangleInequality(Init(a), b, c);
      TriangleInequality(a, b, Init(c));
      TriangleInequality(a, Init(b), c);
      TriangleInequality(a, Init(b), Init(c));
      TriangleInequality(Init(a), Init(b), c);
      TriangleInequality(Init(a), Init(b), Init(c));
    }
  }

  // --------------------------------------------------------------- the shortest chain of edits

  ghost predicate Deletes(a: string, b: string, i: nat) {
    i < |a| && b == a[..i] + a[i + 1..]
  }

  ghost predicate Replaces(a: string, b: string, i: nat) {
    i < |a| && |b| == |a| && b == a[i := b[i]]
  }

  // b is a with one character deleted, inserted or replaced.
  ghost predicate OneEdit(a: string, b: string) {
    exists i: nat :: Deletes(a, b, i) || Deletes(b, a, i) || Replaces(a, b, i)
  }

  ghost predicate Chain(p: seq<string>) {
    |p| > 0 && forall i :: 0 <= i < |p| - 1 ==> OneEdit(p[i], p[i + 1])
  }

  lemma {:induction false} CommonSuffix(a: string, b: string, s: string)
    ensures Distance(a + s, b + s) <= Distance(a, b)
    decreases |s|
  {
    if |s| == 0 {
      assert a + s == a && b + s == b;
    } else {
      CommonSuffix(a, b, Init(s));
      assert Init(a + s) == a + Init(s) && Init(b + s) == b + Init(s);
      DistanceSteps(a + s, b + s);
    }
  }

  lemma OneEditIsNear(a: string, b: string)
    requires OneEdit(a, b)
    ensures Distance(a, b) <= 1
  {
    var i: nat :| Deletes(a, b, i) || Deletes(b, a, i) || Replaces(a, b, i);
    if Deletes(a, b, i) {
      DeletionIsNear(a, b, i);
    } else if Deletes(b, a, i) {
      DeletionIsNear(b, a, i);
      DistanceSymmetric(a, b);
    } else {
      ReplacementIsNear(a, b, i);
    }
  }

  lemma ReplacementIsNear(a: string, b: string, i: nat)
    requires Replaces(a, b, i)
    ensures Distance(a, b) <= 1
  {
    var x, y := a[..i + 1], b[..i + 1];
    assert Init(x) == a[..i] && Init(y) == a[..i];
    DistanceZero(a[..i], a[..i]);
    DistanceSteps(x, y);
    CommonSuffix(x, y, a[i + 1..]);
    assert a == x + a[i + 1..] && b == y + a[i + 1..];
  }

  lemma DeletionIsNear(a: string, b: string, i: nat)
    requires Deletes(a, b, i)
    ensures Distance(a, b) <= 1
  {
    var x := a[..i + 1];
    assert Init(x) == a[..i];
    DistanceZero(a[..i], a[..i]);
    if i > 0 {
      DistanceSteps(x, a[..i]);
    }
    CommonSuffix(x, a[..i], a[i + 1..]);
    assert a == x + a[i + 1..];
  }

  /** No chain of edits is shorter than the distance. */
  lemma {:induction false} NoShorterChain(p: seq<string>)
    requires Chain(p)
    ensures Distance(p[0], p[|p| - 1]) <= |p| - 1
    decreases |p|
  {
    if |p| == 1 {
      DistanceZero(p[0], p[0]);
    } else {
      var rest := p[1..];
      assert forall i :: 0 <= i < |rest| - 1 ==> rest[i] == p[i + 1] && OneEdit(p[i + 1], p[i + 1 + 1]);
      NoShorterChain(rest);
      assert OneEdit(p[0], p[0 + 1]);
      OneEditIsNear(p[0], p[1]);
      TriangleInequality(p[0], p[1], p[|p| - 1]);
    }
  }

  lemma ChainSnoc(p: seq<string>, b: string)
    requires Chain(p) && OneEdit(p[|p| - 1], b)
    ensures Chain(p + [b])
  {
    var q := p + [b];
    forall i | 0 <= i < |q| - 1 ensures OneEdit(q[i], q[i + 1]) {
      if i < |p| - 1 {
        assert OneEdit(p[i], p[i + 1]);
      }
    }
  }

  lemma DeletesLast(a: string)
    requires |a| > 0
    ensures OneEdit(a, Init(a)) && OneEdit(Init(a), a)
  {
    assert Deletes(a, Init(a), |a| - 1);
  }

  function Extended(p: seq<string>, c: char): seq<string> {
    seq(|p|, i requires 0 <= i < |p| => p[i] + [c])
  }

  lemma ChainExtended(p: seq<string>, c: char)
    requires Chain(p)
    ensures Chain(Extended(p, c))
  {
    var q := Extended(p, c);
    forall i | 0 <= i < |q| - 1 ensures OneEdit(q[i], q[i + 1]) {
      assert OneEdit(p[i], p[i + 1]);
      EditExtended(p[i], p[i + 1], c);
    }
  }

  lemma EditExtended(a: string, b: string, c: char)
    requires OneEdit(a, b)
    ensures OneEdit(a + [c], b + [c])
  {
    var i: nat :| Deletes(a, b, i) || Deletes(b, a, i) || Replaces(a, b, i);
    if Deletes(a, b, i) {
      DeletesExtended(a, b, i, c);
    } else if Deletes(b, a, i) {
      DeletesExtended(b, a, i, c);
    } else {
      assert Replaces(a + [c], b + [c], i);
    }
  }

  lemma DeletesExtended(a: string, b: string, i: nat, c: char)
    requires Deletes(a, b, i)
    ensures Deletes(a + [c], b + [c], i)
  {
    assert (a + [c])[..i] == a[..i] && (a + [c])[i + 1..] == a[i + 1..] + [c];
  }

  /** Some chain of edits is as long as the distance. */
  lemma {:induction false} ShortestChain(a: string, b: string) returns (p: seq<string>)
    ensures Chain(p) && p[0] == a && p[|p| - 1] == b && |p| - 1 == Distance(a, b)
    decreases |a| + |b|
  {
    if |a| == 0 && |b| == 0 {
      return [a];
    }
    if |a| > 0 && |b| > 0 {
      DistanceSteps(a, b);
    }
    if |b| > 0 && (|a| == 0 || Distance(a, b) == Distance(a, Init(b)) + 1) {
      p := ShortestChain(a, Init(b));
      DeletesLast(b);
      ChainSnoc(p, b);
      p := p + [b];
    } else if |b| == 0 || Distance(a, b) == Distance(Init(a), b) + 1 {
      var q := ShortestChain(Init(a), b);
      DeletesLast(a);
      ChainCons(a, q);
      p := [a] + q;
    } else {
      var q := ShortestChain(Init(a), Init(b));
      p := LastKeptOrReplaced(a, b, q);
    }
  }

  lemma LastKeptOrReplaced(a: string, b: string, q: seq<string>) returns (p: seq<string>)
    requires |a| > 0 && |b| > 0 && Chain(q) && q[0] == Init(a) && q[|q| - 1] == Init(b)
    ensures Chain(p) && p[0] == a && p[|p| - 1] == b && |p| == |q| + Cost(Last(a), Last(b))
  {
    ChainExtended(q, Last(a));
    p := Extended(q, Last(a));
    assert p[0] == a;
    if Last(a) == Last(b) {
      assert p[|p| - 1] == b;
    } else {
      assert Replaces(p[|p| - 1], b, |b| - 1);
      ChainSnoc(p, b);
      p := p + [b];
    }
  }

  lemma ChainCons(a: string, q: seq<string>)
    requires Chain(q) && OneEdit(a, q[0])
    ensures Chain([a] + q)
  {
    var p := [a] + q;
    forall i | 0 <= i < |p| - 1 ensures OneEdit(p[i], p[i + 1]) {
      if i > 0 {
        assert OneEdit(q[i - 1], q[i - 1 + 1]);
      }
    }
  }

  // --------------------------------------------------------------- suggestions

  // Bytes a character takes in UTF-8.
  function Utf8Length(c: char): nat {
    if c as int < 0x80 then 1 else if c as int < 0x800 then 2 else if c as int < 0x1_0000 then 3 else 4
  }

  function ByteLength(s: string): nat {
    if |s| == 0 then 0 else Utf8Length(s[0]) + ByteLength(s[1..])
  }

  function Budget(name: string): nat {
    var b := ByteLength(name) / 3 + 1;
    if b > 4 then 4 else b
  }

  /** One edit for every three bytes begun, from one to at most four. */
  lemma BudgetSteps(name: string, k: nat)
    ensures 1 <= Budget(name) <= 4
    ensures 1 <= k <= 4 ==> (Budget(name) >= k <==> ByteLength(name) >= 3 * (k - 1))
  {
  }

  lemma {:induction false} AsciiLength(name: string)
    requires forall i :: 0 <= i < |name| ==> name[i] as int < 0x80
    ensures ByteLength(name) == |name|
  {
    if |name| > 0 {
      AsciiLength(name[1..]);
    }
  }

  // The first of the names nearest to `name`.
  ghost predicate FirstNearest(name: string, order: seq<string>, i: int) {
    && 0 <= i < |order|
    && (forall k :: 0 <= k < |order| ==> Distance(name, order[i]) <= Distance(name, order[k]))
    && (forall k :: 0 <= k < i ==> Distance(name, order[i]) < Distance(name, order[k]))
  }

  /**
    Suggests the first name of least distance, exactly when that distance is within the
    budget (and the name is not empty, which the caller cannot tell from no suggestion).
   */
  method Nearest(name: string, order: seq<string>) returns (best: string, found: bool)
    ensures found ==> best != "" && exists i :: FirstNearest(name, order, i) && best == order[i] && Distance(name, best) <= Budget(name)
    ensures !found ==> best == "" && forall i :: FirstNearest(name, order, i) ==>
                         Distance(name, order[i]) > Budget(name) || order[i] == ""
  {
    var budget := Budget(name);
    var bestDist := budget + 1;
    best := "";
    ghost var at := -1;
    for k := 0 to |order|
      invariant -1 <= at < k
      invariant at < 0 ==> best == "" && bestDist == budget + 1
      invariant at >= 0 ==> best == order[at] && bestDist == Distance(name, order[at]) && bestDist <= budget
      invariant forall j :: 0 <= j < k ==> bestDist <= Distance(name, order[j])
      invariant at >= 0 ==> forall j :: 0 <= j < at ==> bestDist < Distance(name, order[j])
    {
      var d := Compute(name, order[k]);
      if d < bestDist {
        best, bestDist := order[k], d;
        at := k;
      }
    }
    if at >= 0 {
      assert FirstNearest(name, order, at);
      forall i | FirstNearest(name, order, i) ensures i == at {
        assert Distance(name, order[i]) <= Distance(name, order[at]);
      }
    }
    if best == "" || bestDist > budget {
      return "", false;
    }
    return best, true;
  }
}
