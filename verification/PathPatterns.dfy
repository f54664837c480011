/** What each construct of the glob dialect means, for every pattern that follows it. */
module PathPatterns {
  import opened Options
  import opened PathMatch

  /** A pattern without special characters matches itself and nothing else. */
  lemma {:induction false} PlainMatchesItself(text: string, path: string)
    requires Plain(text)
    ensures Matches(Tokens(text), path) <==> path == text
  {
    if |text| == 0 {
      MatchesEmpty(path);
    } else {
      var rest := text[1..];
      assert Tokens(text) == [Literal(text[0])] + Tokens(rest);
      MatchesOne(Literal(text[0]), Tokens(rest), path);
      NoDoubleStar(rest);
      if |path| > 0 {
        PlainMatchesItself(rest, path[1..]);
        assert text == [text[0]] + rest && path == [path[0]] + path[1..];
      }
    }
  }

  lemma NoDoubleStar(text: string)
    requires Plain(text)
    ensures Tokens(text) != [DoubleStar]
  {
    if |text| > 0 {
      assert Tokens(text)[0] == Literal(text[0]);
    }
  }

  lemma OneToken(pat: string, t: Token, n: nat)
    requires |pat| > 0 && FirstToken(pat) == (t, n)
    ensures Tokens(pat) == [t] + Tokens(pat[n..])
  {
  }

  /** `?` stands for one character other than the separator. */
  lemma QuestionMark(rest: string, path: string)
    ensures Matches(Tokens("?" + rest), path) <==> |path| > 0 && path[0] != '/' && Matches(Tokens(rest), path[1..])
  {
    var pat := "?" + rest;
    OneToken(pat, AnyOne, 1);
    assert pat[1..] == rest;
    MatchesOne(AnyOne, Tokens(rest), path);
  }

  /** A backslash takes away the meaning of the character after it. */
  lemma Backslash(c: char, rest: string, path: string)
    ensures Matches(Tokens("\\" + [c] + rest), path) <==> |path| > 0 && path[0] == c && Matches(Tokens(rest), path[1..])
  {
    var pat := "\\" + [c] + rest;
    OneToken(pat, Escaped(c), 2);
    assert pat[2..] == rest;
    MatchesOne(Escaped(c), Tokens(rest), path);
  }

  /** `*` stands for any run of characters without a separator. */
  lemma SingleStar(rest: string, path: string)
    requires |rest| > 0 ==> rest[0] != '*'
    ensures Matches(Tokens("*" + rest), path)
            <==> exists k :: 0 <= k <= |path| && NoSlash(path[..k]) && Matches(Tokens(rest), path[k..])
  {
    var pat := "*" + rest;
    OneToken(pat, Star, 1);
    assert pat[1..] == rest;
    MatchesStar(Tokens(rest), path);
  }

  // --------------------------------------------------------------- bracket classes

  // Characters that mean only themselves inside brackets.
  predicate Ordinary(chars: string) {
    forall i :: 0 <= i < |chars| ==> chars[i] != ']' && chars[i] != '\\' && chars[i] != '-'
  }

  function Singles(chars: string): seq<Item> {
    seq(|chars|, i requires 0 <= i < |chars| => Single(chars[i]))
  }

  lemma SinglesHave(chars: string, c: char)
    ensures ItemsHave(Singles(chars), c) <==> c in chars
  {
    if c in chars {
      var i :| 0 <= i < |chars| && chars[i] == c;
      assert ItemHas(Singles(chars)[i], c);
    }
  }

  lemma {:induction false} ListedItems(pat: string, i: nat, chars: string, rest: string, first: bool)
    requires i <= |pat| && pat[i..] == chars + "]" + rest && Ordinary(chars) && (first ==> |chars| > 0)
    ensures Items(pat, i, first) == Some((Singles(chars), i + |chars| + 1))
    decreases |chars|
  {
    assert pat[i] == pat[i..][0];
    if |chars| > 0 {
      assert pat[i + 1] == pat[i..][1];
      assert pat[i + 1..] == pat[i..][1..] == chars[1..] + "]" + rest;
      ListedItems(pat, i + 1, chars[1..], rest, false);
      assert Singles(chars) == [Single(chars[0])] + Singles(chars[1..]);
    }
  }

  /** `[chars]` stands for one of the characters, but never for a separator. */
  lemma ListedClass(chars: string, rest: string, path: string)
    requires |chars| > 0 && Ordinary(chars) && chars[0] != '!' && chars[0] != '^'
    ensures Matches(Tokens("[" + chars + "]" + rest), path)
            <==> |path| > 0 && path[0] != '/' && path[0] in chars && Matches(Tokens(rest), path[1..])
  {
    var pat := "[" + chars + "]" + rest;
    assert pat[1..] == chars + "]" + rest && pat[1] == chars[0];
    ListedItems(pat, 1, chars, rest, true);
    OneToken(pat, Class(false, Singles(chars)), |chars| + 2);
    assert pat[|chars| + 2..] == rest;
    MatchesOne(Class(false, Singles(chars)), Tokens(rest), path);
    if |path| > 0 {
      SinglesHave(chars, path[0]);
    }
  }

  /** `[!chars]` and `[^chars]` stand for any other character, but never for a separator. */
  lemma NegatedClass(sign: char, chars: string, rest: string, path: string)
    requires |chars| > 0 && Ordinary(chars) && (sign == '!' || sign == '^')
    ensures Matches(Tokens("[" + [sign] + chars + "]" + rest), path)
            <==> |path| > 0 && path[0] != '/' && path[0] !in chars && Matches(Tokens(rest), path[1..])
  {
    var pat := "[" + [sign] + chars + "]" + rest;
    assert pat[2..] == chars + "]" + rest && pat[1] == sign;
    ListedItems(pat, 2, chars, rest, true);
    OneToken(pat, Class(true, Singles(chars)), |chars| + 3);
    assert pat[|chars| + 3..] == rest;
    MatchesOne(Class(true, Singles(chars)), Tokens(rest), path);
    if |path| > 0 {
      SinglesHave(chars, path[0]);
    }
  }

  lemma RangeItems(pat: string, lo: char, hi: char, rest: string)
    requires pat == "[" + [lo, '-', hi] + "]" + rest && lo != '\\' && hi != ']'
    ensures Items(pat, 1, true) == Some(([Range(lo, hi)], 5))
  {
    assert pat[1] == lo && pat[2] == '-' && pat[3] == hi && pat[4] == ']';
    assert IsRange(pat, 1) && Items(pat, 4, false) == Some(([], 5));
    assert [Range(lo, hi)] + [] == [Range(lo, hi)];
  }

  /** `[lo-hi]` stands for one character between the two, both included. */
  lemma RangeClass(lo: char, hi: char, rest: string, path: string)
    requires lo != '\\' && lo != '!' && lo != '^' && hi != ']'
    ensures Matches(Tokens("[" + [lo, '-', hi] + "]" + rest), path)
            <==> |path| > 0 && path[0] != '/' && lo <= path[0] <= hi && Matches(Tokens(rest), path[1..])
  {
    var pat := "[" + [lo, '-', hi] + "]" + rest;
    RangeItems(pat, lo, hi, rest);
    OneToken(pat, Class(false, [Range(lo, hi)]), 5);
    assert pat[5..] == rest;
    MatchesOne(Class(false, [Range(lo, hi)]), Tokens(rest), path);
    if |path| > 0 {
      assert ItemsHave([Range(lo, hi)], path[0]) <==> ItemHas([Range(lo, hi)][0], path[0]);
    }
  }

  /** A class that is never closed, and a trailing backslash, match nothing. */
  lemma MalformedMatchesNothing(pat: string, path: string)
    requires |pat| > 0 && ((pat[0] == '[' && forall i :: 0 < i < |pat| ==> pat[i] != ']') || pat == "\\")
    ensures !Matches(Tokens(pat), path)
  {
    if pat[0] == '[' {
      NeverClosed(pat, if Negated(pat) then 2 else 1, true);
    }
    var n := FirstToken(pat).1;
    OneToken(pat, Malformed, n);
    MatchesOne(Malformed, Tokens(pat[n..]), path);
  }

  lemma {:induction false} NeverClosed(pat: string, i: nat, first: bool)
    requires forall j :: i <= j < |pat| ==> pat[j] != ']'
    ensures Items(pat, i, first).None?
    decreases |pat| - i
  {
    if i < |pat| {
      if pat[i] == '\\' && i + 1 < |pat| { NeverClosed(pat, i + 2, false); }
      else if IsRange(pat, i) { NeverClosed(pat, i + 3, false); }
      else { NeverClosed(pat, i + 1, false); }
    }
  }
}
