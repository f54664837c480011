/**
  The glob dialect for filesystem paths. A pattern is a sequence of tokens; it matches
  a path when the path splits into one segment per token, each of the token's kind.
  Characters stand for bytes.
 */
module PathMatch {
  import opened Options

  datatype Item = Single(c: char) | Range(lo: char, hi: char)

  // Literal is a character written as it is, Escaped one written after a backslash.
  // Malformed is an unterminated class or a trailing backslash.
  datatype Token =
    | Star
    | DoubleStar
    | AnyOne
    | Class(negate: bool, items: seq<Item>)
    | Literal(c: char)
    | Escaped(c: char)
    | Malformed

  // --------------------------------------------------------------- classes

  predicate ItemHas(item: Item, c: char) {
    match item
    case Single(d) => c == d
    case Range(lo, hi) => lo <= c <= hi
  }

  predicate ItemsHave(items: seq<Item>, c: char) {
    exists i :: 0 <= i < |items| && ItemHas(items[i], c)
  }

  predicate IsRange(pat: string, i: nat) {
    i + 2 < |pat| && pat[i + 1] == '-' && pat[i + 2] != ']'
  }

  // The items from index i up to the closing bracket, and the index after it.
  function Items(pat: string, i: nat, first: bool): Option<(seq<Item>, nat)>
    decreases |pat| - i
  {
    if i >= |pat| then None
    else if pat[i] == ']' && !first then Some(([], i + 1))
    else if pat[i] == '\\' && i + 1 < |pat| then Cons(Single(pat[i + 1]), Items(pat, i + 2, false))
    else if IsRange(pat, i) then Cons(Range(pat[i], pat[i + 2]), Items(pat, i + 3, false))
    else Cons(Single(pat[i]), Items(pat, i + 1, false))
  }

  function Cons(item: Item, rest: Option<(seq<Item>, nat)>): Option<(seq<Item>, nat)> {
    if rest.None? then None else Some(([item] + rest.value.0, rest.value.1))
  }

  predicate Negated(pat: string) {
    |pat| > 1 && (pat[1] == '!' || pat[1] == '^')
  }

  function ClassOf(pat: string): Option<(seq<Item>, nat)> {
    Items(pat, if Negated(pat) then 2 else 1, true)
  }

  lemma {:induction false} ItemsBounds(pat: string, i: nat, first: bool)
    ensures var r := Items(pat, i, first); r.Some? ==> i < r.value.1 <= |pat|
    decreases |pat| - i
  {
    if i < |pat| && !(pat[i] == ']' && !first) {
      if pat[i] == '\\' && i + 1 < |pat| { ItemsBounds(pat, i + 2, false); }
      else if IsRange(pat, i) { ItemsBounds(pat, i + 3, false); }
      else { ItemsBounds(pat, i + 1, false); }
    }
  }

  lemma HaveCons(item: Item, items: seq<Item>, c: char)
    ensures ItemsHave([item] + items, c) <==> ItemHas(item, c) || ItemsHave(items, c)
  {
    var all := [item] + items;
    if ItemHas(item, c) {
      assert ItemHas(all[0], c);
    }
    if ItemsHave(items, c) {
      var i :| 0 <= i < |items| && ItemHas(items[i], c);
      assert ItemHas(all[i + 1], c);
    }
  }

  method MatchClass(pat: string, c: char) returns (consumed: nat, matched: bool)
    requires |pat| > 0
    ensures ClassOf(pat).None? ==> consumed == 0 && !matched
    ensures ClassOf(pat).Some? ==>
              consumed == ClassOf(pat).value.1 && matched == (ItemsHave(ClassOf(pat).value.0, c) != Negated(pat))
  {
    var i, negate := 1, false;
    if i < |pat| && (pat[i] == '!' || pat[i] == '^') {
      negate := true;
      i := i + 1;
    }
    var found, first := false, true;
    ghost var whole := Items(pat, i, true);
    while i < |pat| && (pat[i] != ']' || first)
      invariant whole.None? <==> Items(pat, i, first).None?
      invariant whole.Some? ==> Items(pat, i, first).value.1 == whole.value.1
      invariant whole.Some? ==> (ItemsHave(whole.value.0, c) <==> found || ItemsHave(Items(pat, i, first).value.0, c))
    {
      ghost var rest := Items(pat, i, first);
      first := false;
      if pat[i] == '\\' && i + 1 < |pat| {
        i := i + 1;
        if rest.Some? { HaveCons(Single(pat[i]), Items(pat, i + 1, false).value.0, c); }
        if pat[i] == c {
          found := true;
        }
        i := i + 1;
        continue;
      }
      if i + 2 < |pat| && pat[i + 1] == '-' && pat[i + 2] != ']' {
        if rest.Some? { HaveCons(Range(pat[i], pat[i + 2]), Items(pat, i + 3, false).value.0, c); }
        if pat[i] <= c && c <= pat[i + 2] {
          found := true;
        }
        i := i + 3;
        continue;
      }
      if rest.Some? { HaveCons(Single(pat[i]), Items(pat, i + 1, false).value.0, c); }
      if pat[i] == c {
        found := true;
      }
      i := i + 1;
    }
    if i >= |pat| {
      return 0, false;
    }
    return i + 1, found != negate;
  }

  // --------------------------------------------------------------- tokens

  // The first token and how many characters it takes.
  function FirstToken(pat: string): (r: (Token, nat))
    requires |pat| > 0
    ensures 0 < r.1 <= |pat|
  {
    match pat[0]
    case '*' => if |pat| > 1 && pat[1] == '*' then (DoubleStar, 2) else (Star, 1)
    case '?' => (AnyOne, 1)
    case '[' =>
      ItemsBounds(pat, if Negated(pat) then 2 else 1, true);
      var r := ClassOf(pat);
      if r.None? then (Malformed, |pat|) else (Class(Negated(pat), r.value.0), r.value.1)
    case '\\' => if |pat| < 2 then (Malformed, 1) else (Escaped(pat[1]), 2)
    case c => (Literal(c), 1)
  }

  function Tokens(pat: string): seq<Token> {
    if |pat| == 0 then []
    else
      var (t, n) := FirstToken(pat);
      [t] + Tokens(pat[n..])
  }

  // --------------------------------------------------------------- the split semantics

  function Join(segs: seq<string>): string {
    if |segs| == 0 then "" else segs[0] + Join(segs[1..])
  }

  predicate NoSlash(s: string) {
    forall i :: 0 <= i < |s| ==> s[i] != '/'
  }

  // Tokens that stand for one character.
  predicate Takes(t: Token, c: char) {
    match t
    case AnyOne => c != '/'
    case Class(negate, items) => c != '/' && ItemsHave(items, c) != negate
    case Literal(d) => c == d
    case Escaped(d) => c == d
    case _ => false
  }

  // A separator written after `**` may be absent together with what `**` stands for, and
  // so may the separator of a trailing `/**`.
  predicate SlashAbsent(ts: seq<Token>, segs: seq<string>, i: nat)
    requires i < |ts| == |segs|
  {
    && ts[i] == Literal('/') && segs[i] == ""
    && (|| (i > 0 && ts[i - 1].DoubleStar? && segs[i - 1] == "")
        || (i == |ts| - 2 && ts[i + 1].DoubleStar? && segs[i + 1] == ""))
  }

  predicate SegmentOk(ts: seq<Token>, segs: seq<string>, i: nat)
    requires i < |ts| == |segs|
  {
    match ts[i]
    case Star => NoSlash(segs[i])
    case DoubleStar => true
    case _ => (|segs[i]| == 1 && Takes(ts[i], segs[i][0])) || SlashAbsent(ts, segs, i)
  }

  ghost predicate Splits(ts: seq<Token>, segs: seq<string>) {
    |segs| == |ts| && forall i :: 0 <= i < |ts| ==> SegmentOk(ts, segs, i)
  }

  /** The tokens match the path: it splits into one fitting segment per token. */
  ghost predicate Matches(ts: seq<Token>, s: string) {
    exists segs :: Splits(ts, segs) && Join(segs) == s
  }

  // --------------------------------------------------------------- unfolding one token

  predicate SkipsSlash(ts: seq<Token>, segs: seq<string>)
    requires |ts| == |segs|
  {
    |ts| > 1 && ts[0].DoubleStar? && ts[1] == Literal('/') && segs[0] == "" && segs[1] == ""
  }

  lemma SplitsTail(ts: seq<Token>, segs: seq<string>)
    requires |ts| > 0 && Splits(ts, segs) && !SkipsSlash(ts, segs)
    ensures Splits(ts[1..], segs[1..]) && Join(segs) == segs[0] + Join(segs[1..])
  {
    forall i | 0 <= i < |ts| - 1 ensures SegmentOk(ts[1..], segs[1..], i) {
      assert SegmentOk(ts, segs, i + 1);
    }
  }

  lemma SplitsAfterSkip(ts: seq<Token>, segs: seq<string>)
    requires Splits(ts, segs) && SkipsSlash(ts, segs)
    ensures Splits(ts[2..], segs[2..]) && Join(segs) == Join(segs[2..])
  {
    forall i | 0 <= i < |ts| - 2 ensures SegmentOk(ts[2..], segs[2..], i) {
      assert SegmentOk(ts, segs, i + 2);
    }
    assert segs[1..][1..] == segs[2..];
  }

  lemma SplitsCons(t: Token, seg: string, ts: seq<Token>, segs: seq<string>)
    requires Splits(ts, segs) && SegmentOk([t] + ts, [seg] + segs, 0)
    ensures Splits([t] + ts, [seg] + segs) && Join([seg] + segs) == seg + Join(segs)
  {
    var all, some := [t] + ts, [seg] + segs;
    forall i | 0 <= i < |all| ensures SegmentOk(all, some, i) {
      if i > 0 {
        assert SegmentOk(ts, segs, i - 1);
      }
    }
    assert some[1..] == segs;
  }

  lemma MatchesCons(t: Token, seg: string, ts: seq<Token>, s: string)
    requires Matches(ts, s) && (t.DoubleStar? || (t.Star? && NoSlash(seg)) || (|seg| == 1 && Takes(t, seg[0])))
    ensures Matches([t] + ts, seg + s)
  {
    var segs :| Splits(ts, segs) && Join(segs) == s;
    SplitsCons(t, seg, ts, segs);
  }

  lemma MatchesEmpty(s: string)
    ensures Matches([], s) <==> s == ""
  {
    assert Splits([], []) && Join([]) == "";
  }

  lemma JoinNothing()
    ensures Join(["", ""]) == ""
  {
    var two: seq<string>, one: seq<string> := ["", ""], [""];
    assert one[1..] == [] && two[1..] == one;
    assert Join(one) == one[0] + Join([]) == "";
    assert Join(two) == two[0] + Join(one);
  }

  lemma MatchesOne(t: Token, ts: seq<Token>, s: string)
    requires !t.Star? && !t.DoubleStar?
    ensures Matches([t] + ts, s) <==>
              || (|s| > 0 && Takes(t, s[0]) && Matches(ts, s[1..]))
              || (t == Literal('/') && ts == [DoubleStar] && s == "")
  {
    var all := [t] + ts;
    assert all[1..] == ts;
    if |s| > 0 && Takes(t, s[0]) && Matches(ts, s[1..]) {
      MatchesCons(t, s[..1], ts, s[1..]);
      assert s[..1] + s[1..] == s;
    }
    if t == Literal('/') && ts == [DoubleStar] && s == "" {
      var segs := ["", ""];
      JoinNothing();
      assert Splits(all, segs) && Join(segs) == s;
    }
    if Matches(all, s) {
      var segs :| Splits(all, segs) && Join(segs) == s;
      SplitsTail(all, segs);
      assert SegmentOk(all, segs, 0);
      if |segs[0]| == 1 {
        assert s[1..] == Join(segs[1..]);
      } else {
        assert segs[1..] == [segs[1]] && Join(segs[1..]) == segs[1] + Join(segs[1..][1..]);
      }
    }
  }

  lemma MatchesStar(ts: seq<Token>, s: string)
    ensures Matches([Star] + ts, s) <==> exists k :: 0 <= k <= |s| && NoSlash(s[..k]) && Matches(ts, s[k..])
  {
    var all := [Star] + ts;
    assert all[1..] == ts;
    if exists k :: 0 <= k <= |s| && NoSlash(s[..k]) && Matches(ts, s[k..]) {
      var k :| 0 <= k <= |s| && NoSlash(s[..k]) && Matches(ts, s[k..]);
      MatchesCons(Star, s[..k], ts, s[k..]);
      assert s[..k] + s[k..] == s;
    }
    if Matches(all, s) {
      var segs :| Splits(all, segs) && Join(segs) == s;
      SplitsTail(all, segs);
      assert SegmentOk(all, segs, 0);
      var k := |segs[0]|;
      assert s[..k] == segs[0] && s[k..] == Join(segs[1..]);
    }
  }

  lemma MatchesDoubleStar(ts: seq<Token>, s: string)
    ensures Matches([DoubleStar] + ts, s) <==>
              || (|ts| > 0 && ts[0] == Literal('/') && Matches(ts[1..], s))
              || exists k :: 0 <= k <= |s| && Matches(ts, s[k..])
  {
    if exists k :: 0 <= k <= |s| && Matches(ts, s[k..]) {
      var k :| 0 <= k <= |s| && Matches(ts, s[k..]);
      MatchesCons(DoubleStar, s[..k], ts, s[k..]);
      assert s[..k] + s[k..] == s;
    }
    if |ts| > 0 && ts[0] == Literal('/') && Matches(ts[1..], s) {
      SkippedSlash(ts, s);
    }
    if Matches([DoubleStar] + ts, s) {
      DoubleStarSplit(ts, s);
    }
  }

  lemma DoubleStarSplit(ts: seq<Token>, s: string)
    requires Matches([DoubleStar] + ts, s)
    ensures || (|ts| > 0 && ts[0] == Literal('/') && Matches(ts[1..], s))
            || exists k :: 0 <= k <= |s| && Matches(ts, s[k..])
  {
    var all := [DoubleStar] + ts;
    var segs :| Splits(all, segs) && Join(segs) == s;
    if SkipsSlash(all, segs) {
      SplitsAfterSkip(all, segs);
      assert all[2..] == ts[1..];
    } else {
      SplitsTail(all, segs);
      assert all[1..] == ts;
      var k := |segs[0]|;
      assert s[k..] == Join(segs[1..]);
      assert Matches(ts, s[k..]);
    }
  }

  lemma SkippedSlash(ts: seq<Token>, s: string)
    requires |ts| > 0 && ts[0] == Literal('/') && Matches(ts[1..], s)
    ensures Matches([DoubleStar] + ts, s)
  {
    var segs :| Splits(ts[1..], segs) && Join(segs) == s;
    SkippedSplit(ts[1..], segs);
    assert [DoubleStar] + ts == [DoubleStar, Literal('/')] + ts[1..];
  }

  lemma SkippedSplit(ts: seq<Token>, segs: seq<string>)
    requires Splits(ts, segs)
    ensures Matches([DoubleStar, Literal('/')] + ts, Join(segs))
  {
    var all, some := [DoubleStar, Literal('/')] + ts, ["", ""] + segs;
    forall i | 0 <= i < |all| ensures SegmentOk(all, some, i) {
      if i > 1 {
        assert SegmentOk(ts, segs, i - 2);
      }
    }
    assert some[1..][1..] == segs;
    assert Join(some) == Join(segs);
  }

  // --------------------------------------------------------------- the matcher

  /** The matcher decides the split semantics, for every pattern and every path. */
  method MatchHere(pattern: string, path: string) returns (b: bool)
    ensures b <==> Matches(Tokens(pattern), path)
    decreases |pattern|, 1
  {
    var pat, s := pattern, path;
    while |pat| > 0
      invariant |pat| <= |pattern|
      invariant Matches(Tokens(pat), s) <==> Matches(Tokens(pattern), path)
      decreases |pat|
    {
      ghost var (t, n) := FirstToken(pat);
      ghost var rest := Tokens(pat[n..]);
      assert Tokens(pat) == [t] + rest;
      if pat == "/**" && s == "" {
        TrailingTokens(pat);
        MatchesOne(Literal('/'), [DoubleStar], s);
        assert Tokens(pat) == [Literal('/')] + [DoubleStar];
        return true;
      }
      match pat[0]
      case '*' =>
        if |pat| > 1 && pat[1] == '*' {
          b := MatchDoubleStar(pat[2..], s);
        } else {
          b := MatchStar(pat[1..], s);
        }
        return;
      case '?' =>
        MatchesOne(t, rest, s);
        if |s| == 0 || s[0] == '/' {
          return false;
        }
        pat, s := pat[1..], s[1..];
      case '[' =>
        MatchesOne(t, rest, s);
        if |s| == 0 || s[0] == '/' {
          return false;
        }
        var consumed, ok := MatchClass(pat, s[0]);
        if !ok {
          return false;
        }
        pat, s := pat[consumed..], s[1..];
      case '\\' =>
        MatchesOne(t, rest, s);
        if |pat| < 2 {
          return false;
        }
        if |s| == 0 || s[0] != pat[1] {
          return false;
        }
        pat, s := pat[2..], s[1..];
      case _ =>
        MatchesOne(t, rest, s);
        if rest == [DoubleStar] {
          OnlyDoubleStar(pat[1..]);
        }
        if |s| == 0 || s[0] != pat[0] {
          return false;
        }
        pat, s := pat[1..], s[1..];
    }
    MatchesEmpty(s);
    return |s| == 0;
  }

  lemma TrailingTokens(pat: string)
    requires pat == "/**"
    ensures Tokens(pat) == [Literal('/'), DoubleStar]
  {
    assert pat[1..] == "**" && pat[1..][2..] == "";
    assert Tokens(pat[1..]) == [DoubleStar] + Tokens("");
  }

  lemma OnlyDoubleStar(pat: string)
    requires Tokens(pat) == [DoubleStar]
    ensures pat == "**"
  {
    var (t, n) := FirstToken(pat);
    assert Tokens(pat) == [t] + Tokens(pat[n..]);
    assert |Tokens(pat[n..])| == 0 && t == Tokens(pat)[0] == DoubleStar;
    assert pat[0] == '*' && n == 2 && pat[1] == '*';
    assert |pat[n..]| == 0;
  }

  method MatchStar(rest: string, s: string) returns (b: bool)
    ensures b <==> Matches([Star] + Tokens(rest), s)
    decreases |rest| + 1, 0
  {
    MatchesStar(Tokens(rest), s);
    var i := 0;
    while i <= |s|
      invariant 0 <= i <= |s| + 1
      invariant i <= |s| ==> NoSlash(s[..i])
      invariant forall k :: 0 <= k < i ==> !Matches(Tokens(rest), s[k..])
    {
      var here := MatchHere(rest, s[i..]);
      if here {
        return true;
      }
      if i < |s| && s[i] == '/' {
        assert forall k :: i < k <= |s| ==> s[..k][i] == '/' && !NoSlash(s[..k]);
        return false;
      }
      i := i + 1;
    }
    return false;
  }

  method MatchDoubleStar(rest: string, s: string) returns (b: bool)
    ensures b <==> Matches([DoubleStar] + Tokens(rest), s)
    decreases |rest| + 1, 0
  {
    MatchesDoubleStar(Tokens(rest), s);
    if rest == "" {
      MatchesEmpty(s[|s|..]);
      return true;
    }
    if rest[0] == '/' {
      assert Tokens(rest)[1..] == Tokens(rest[1..]);
      var skipped := MatchHere(rest[1..], s);
      if skipped {
        return true;
      }
    } else {
      assert Tokens(rest)[0] == FirstToken(rest).0;
    }
    for i := 0 to |s| + 1
      invariant forall k :: 0 <= k < i ==> !Matches(Tokens(rest), s[k..])
    {
      var here := MatchHere(rest, s[i..]);
      if here {
        return true;
      }
    }
    return false;
  }

  /** An empty pattern filters nothing. */
  method Match(pattern: string, path: string) returns (b: bool)
    ensures b <==> pattern == "" || Matches(Tokens(pattern), path)
  {
    if pattern == "" {
      return true;
    }
    b := MatchHere(pattern, path);
  }

  // --------------------------------------------------------------- separators are counted

  function Slashes(s: string): nat {
    if |s| == 0 then 0 else (if s[0] == '/' then 1 else 0) + Slashes(s[1..])
  }

  // Separators written in the pattern.
  function WrittenSlashes(ts: seq<Token>): nat {
    if |ts| == 0 then 0
    else (if ts[0] == Literal('/') || ts[0] == Escaped('/') then 1 else 0) + WrittenSlashes(ts[1..])
  }

  lemma {:induction false} SlashesAppend(a: string, b: string)
    ensures Slashes(a + b) == Slashes(a) + Slashes(b)
  {
    if |a| == 0 {
      assert a + b == b;
    } else {
      SlashesAppend(a[1..], b);
      assert (a + b)[1..] == a[1..] + b;
    }
  }

  lemma {:induction false} NoSlashCount(s: string)
    requires NoSlash(s)
    ensures Slashes(s) == 0
  {
    if |s| > 0 {
      NoSlashCount(s[1..]);
    }
  }

  ghost predicate CrossesNothing(ts: seq<Token>) {
    forall i :: 0 <= i < |ts| ==> !ts[i].DoubleStar?
  }

  lemma {:induction false} SplitSlashes(ts: seq<Token>, segs: seq<string>)
    requires Splits(ts, segs) && CrossesNothing(ts)
    ensures Slashes(Join(segs)) == WrittenSlashes(ts)
    decreases |ts|
  {
    if |ts| > 0 {
      SplitsTail(ts, segs);
      SplitSlashes(ts[1..], segs[1..]);
      SlashesAppend(segs[0], Join(segs[1..]));
      assert SegmentOk(ts, segs, 0);
      if ts[0].Star? {
        NoSlashCount(segs[0]);
      } else {
        assert segs[0][1..] == "" && Slashes(segs[0]) == if segs[0][0] == '/' then 1 else 0;
      }
    }
  }

  /** Without a `**` a pattern matches only paths with as many separators as it writes itself. */
  lemma SeparatorsAreWritten(pattern: string, path: string)
    requires CrossesNothing(Tokens(pattern)) && Matches(Tokens(pattern), path)
    ensures Slashes(path) == WrittenSlashes(Tokens(pattern))
  {
    var segs :| Splits(Tokens(pattern), segs) && Join(segs) == path;
    SplitSlashes(Tokens(pattern), segs);
  }

  // --------------------------------------------------------------- a directory and what is below it

  predicate Plain(s: string) {
    forall i :: 0 <= i < |s| ==> s[i] != '*' && s[i] != '?' && s[i] != '[' && s[i] != '\\'
  }

  /** A literal directory with a trailing separator and `**` matches the directory itself and everything below it. */
  lemma {:induction false} DirectoryAndBelow(dir: string, path: string)
    requires Plain(dir)
    ensures Matches(Tokens(dir + "/**"), path) <==> path == dir || dir + "/" <= path
  {
    var pat := dir + "/**";
    if |dir| == 0 {
      assert pat == "/**";
      TrailingTokens(pat);
      assert Tokens(pat) == [Literal('/')] + [DoubleStar];
      MatchesOne(Literal('/'), [DoubleStar], path);
      if |path| > 0 {
        AnythingMatches(path[1..]);
        assert "/" <= path <==> path[0] == '/';
      }
    } else {
      var rest := dir[1..] + "/**";
      assert pat[1..] == rest;
      assert Tokens(pat) == [Literal(dir[0])] + Tokens(rest);
      TwoTokensAtLeast(dir[1..]);
      MatchesOne(Literal(dir[0]), Tokens(rest), path);
      if |path| > 0 {
        DirectoryAndBelow(dir[1..], path[1..]);
        assert dir == [dir[0]] + dir[1..] && path == [path[0]] + path[1..];
        assert dir + "/" <= path <==> dir[0] == path[0] && dir[1..] + "/" <= path[1..];
      }
    }
  }

  lemma AnythingMatches(s: string)
    ensures Matches([DoubleStar], s)
  {
    MatchesDoubleStar([], s);
    MatchesEmpty(s[|s|..]);
    assert [DoubleStar] + [] == [DoubleStar];
  }

  lemma TwoTokensAtLeast(dir: string)
    ensures Tokens(dir + "/**") != [DoubleStar]
  {
    if Tokens(dir + "/**") == [DoubleStar] {
      OnlyDoubleStar(dir + "/**");
    }
  }

  // --------------------------------------------------------------- ** matches more than *

  /** Replacing a `*` token by `**` never loses a match. */
  lemma DoubleStarMatchesMore(ts: seq<Token>, i: nat, s: string)
    requires i < |ts| && ts[i].Star? && Matches(ts, s)
    ensures Matches(ts[i := DoubleStar], s)
  {
    var segs :| Splits(ts, segs) && Join(segs) == s;
    var more := ts[i := DoubleStar];
    forall k | 0 <= k < |more| ensures SegmentOk(more, segs, k) {
      assert SegmentOk(ts, segs, k);
    }
    assert Splits(more, segs);
  }

  // Position k of the pattern starts a token.
  predicate StartsToken(pat: string, k: nat) {
    k == 0 || (0 < |pat| && FirstToken(pat).1 <= k && StartsToken(pat[FirstToken(pat).1..], k - FirstToken(pat).1))
  }

  lemma {:induction false} ItemsLocal(pat: string, other: string, i: nat, first: bool)
    requires Items(pat, i, first).Some?
    requires var n := Items(pat, i, first).value.1; n <= |pat| && n <= |other| && pat[..n] == other[..n]
    ensures Items(other, i, first) == Items(pat, i, first)
    decreases |pat| - i
  {
    var n := Items(pat, i, first).value.1;
    ItemsBounds(pat, i, first);
    ClosingBracket(pat, i, first);
    assert forall k :: 0 <= k < n ==> pat[k] == pat[..n][k] == other[..n][k] == other[k];
    if !(pat[i] == ']' && !first) {
      if pat[i] == '\\' && i + 1 < |pat| {
        ItemsBounds(pat, i + 2, false);
        ItemsLocal(pat, other, i + 2, false);
      } else if IsRange(pat, i) {
        ItemsBounds(pat, i + 3, false);
        ItemsLocal(pat, other, i + 3, false);
      } else {
        ItemsBounds(pat, i + 1, false);
        ItemsLocal(pat, other, i + 1, false);
      }
    }
  }

  lemma {:induction false} ClosingBracket(pat: string, i: nat, first: bool)
    requires Items(pat, i, first).Some?
    ensures var n := Items(pat, i, first).value.1; 0 < n <= |pat| && pat[n - 1] == ']'
    decreases |pat| - i
  {
    if !(pat[i] == ']' && !first) {
      if pat[i] == '\\' && i + 1 < |pat| { ClosingBracket(pat, i + 2, false); }
      else if IsRange(pat, i) { ClosingBracket(pat, i + 3, false); }
      else { ClosingBracket(pat, i + 1, false); }
    }
  }

  lemma FirstTokenLocal(pat: string, other: string, k: nat)
    requires |pat| > 0 && |other| >= k && |pat| >= k && FirstToken(pat).1 <= k && pat[..k] == other[..k]
    requires k < |pat| && k < |other| && pat[k] == other[k]
    ensures FirstToken(other) == FirstToken(pat)
  {
    var n := FirstToken(pat).1;
    assert forall i :: 0 <= i < k ==> pat[i] == pat[..k][i] == other[..k][i] == other[i];
    if pat[0] == '[' && ClassOf(pat).Some? {
      var i := if Negated(pat) then 2 else 1;
      ItemsBounds(pat, i, true);
      assert pat[..n] == other[..n];
      ItemsLocal(pat, other, i, true);
    }
  }

  // The tokens of the pattern before position k.
  function TokensBefore(pat: string, k: nat): seq<Token>
    requires StartsToken(pat, k)
  {
    if k == 0 then []
    else
      var (t, n) := FirstToken(pat);
      [t] + TokensBefore(pat[n..], k - n)
  }

  lemma {:induction false} TokensSplitAt(pat: string, k: nat)
    requires StartsToken(pat, k) && k <= |pat|
    ensures Tokens(pat) == TokensBefore(pat, k) + Tokens(pat[k..])
    decreases |pat|
  {
    if k > 0 {
      var (t, n) := FirstToken(pat);
      TokensSplitAt(pat[n..], k - n);
      assert pat[n..][k - n..] == pat[k..];
    }
  }

  lemma {:induction false} TokensBeforeLocal(pat: string, other: string, k: nat)
    requires StartsToken(pat, k) && k < |pat| && k < |other| && pat[..k] == other[..k] && pat[k] == other[k]
    ensures StartsToken(other, k) && TokensBefore(other, k) == TokensBefore(pat, k)
    decreases |pat|
  {
    if k > 0 {
      var (t, n) := FirstToken(pat);
      FirstTokenLocal(pat, other, k);
      assert pat[n..][..k - n] == pat[..k][n..] && other[n..][..k - n] == other[..k][n..];
      TokensBeforeLocal(pat[n..], other[n..], k - n);
    }
  }

  /** The same on pattern text: doubling a lone `*` never loses a match. */
  lemma WritingDoubleStarMatchesMore(pat: string, k: nat, s: string)
    requires StartsToken(pat, k) && LoneStar(pat, k) && Matches(Tokens(pat), s)
    ensures Matches(Tokens(pat[..k] + ['*'] + pat[k..]), s)
  {
    var more := pat[..k] + ['*'] + pat[k..];
    assert pat[..k] == more[..k] && more[k..] == ['*'] + pat[k..];
    LoneStars(pat[k..]);
    StarAt(pat, more, k, Tokens(pat[k..][1..]), s);
  }

  predicate LoneStar(pat: string, k: nat) {
    k < |pat| && pat[k] == '*' && (k + 1 < |pat| ==> pat[k + 1] != '*')
  }

  lemma StarAt(pat: string, more: string, k: nat, rest: seq<Token>, s: string)
    requires StartsToken(pat, k) && k < |pat| && k < |more| && pat[..k] == more[..k] && pat[k] == more[k]
    requires Tokens(pat[k..]) == [Star] + rest && Tokens(more[k..]) == [DoubleStar] + rest && Matches(Tokens(pat), s)
    ensures Matches(Tokens(more), s)
  {
    TokensBeforeLocal(pat, more, k);
    TokensSplitAt(pat, k);
    TokensSplitAt(more, k);
    StarWithin(TokensBefore(pat, k), rest, s);
  }

  lemma StarWithin(before: seq<Token>, rest: seq<Token>, s: string)
    requires Matches(before + ([Star] + rest), s)
    ensures Matches(before + ([DoubleStar] + rest), s)
  {
    var all := before + ([Star] + rest);
    DoubleStarMatchesMore(all, |before|, s);
    assert all[|before| := DoubleStar] == before + ([DoubleStar] + rest);
  }

  lemma LoneStars(t: string)
    requires LoneStar(t, 0)
    ensures Tokens(t) == [Star] + Tokens(t[1..]) && Tokens(['*'] + t) == [DoubleStar] + Tokens(t[1..])
  {
    assert (['*'] + t)[2..] == t[1..];
  }
}
