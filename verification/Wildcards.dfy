/** CheckWildcards of common/cmdlib.cpp: a backtracking glob matcher, and the patterns it is right about. */
module Wildcards {
  import opened TextTokens
  import opened Wrappers

  /** What precedes the terminating NUL. */
  type CString = s: string | '\0' !in s witness ""

  // ----- What a glob means

  ghost predicate Glob(pattern: CString, text: CString) {
    if pattern == "" then text == ""
    else if pattern[0] == '*' then exists k :: 0 <= k <= |text| && Glob(pattern[1..], text[k..])
    else text != "" && (pattern[0] == '?' || LowerChar(pattern[0]) == LowerChar(text[0])) && Glob(pattern[1..], text[1..])
  }

  // ----- What the matcher does

  /** A question mark at the end of the text sends the text pointer past the NUL. */
  datatype Outcome = Match(matched: bool) | Overread

  /** The character at the start of a C string. */
  function First(s: CString): char {
    if s == "" then '\0' else s[0]
  }

  function SkipTo(stop: char, text: CString): (r: CString)
    ensures |r| <= |text| && (r != "" ==> LowerChar(r[0]) == stop)
  {
    if text == "" || LowerChar(text[0]) == stop then text else SkipTo(stop, text[1..])
  }

  function Check(pattern: CString, text: CString): Outcome
    decreases |pattern| + |text|
  {
    if pattern == "" then Match(text == "")
    else if pattern[0] == '*' then
      var found := SkipTo(LowerChar(First(pattern[1..])), text);
      if found == "" then Check(pattern[1..], "")
      else
        var tried := Check(pattern[1..], found);
        if tried == Match(false) then Check(pattern, found[1..]) else tried
    else if pattern[0] == '?' || LowerChar(pattern[0]) == LowerChar(First(text)) then
      if text == "" then Overread else Check(pattern[1..], text[1..])
    else Match(false)
  }

  method CheckWildcards(pattern: Option<CString>, text: Option<CString>) returns (r: Outcome)
    ensures r == if pattern.None? || text.None? then Match(true) else Check(pattern.value, text.value)
    decreases (if pattern.Some? then |pattern.value| else 0) + if text.Some? then |text.value| else 0
  {
    if pattern.None? || text.None? {
      return Match(true);
    }
    var p, t: CString := pattern.value, text.value;
    while p != ""
      invariant Check(p, t) == Check(pattern.value, text.value)
      invariant |p| + |t| <= |pattern.value| + |text.value|
      decreases |p| + |t|
    {
      if p[0] == '*' {
        ghost var found := SkipTo(LowerChar(First(p[1..])), t);
        var star: CString := p;
        p := p[1..];
        var stop := LowerChar(First(p));
        while t != "" && LowerChar(t[0]) != stop
          invariant SkipTo(stop, t) == found && |star| + |t| <= |pattern.value| + |text.value|
          decreases |t|
        {
          t := t[1..];
        }
        if t != "" && LowerChar(t[0]) == stop {
          var tried := CheckWildcards(Some(p), Some(t));
          if tried != Match(false) {
            return tried;
          }
          t := t[1..];
          p := star;
        }
      } else if p[0] == '?' || LowerChar(p[0]) == LowerChar(First(t)) {
        if t == "" {
          return Overread;
        }
        p, t := p[1..], t[1..];
      } else {
        return Match(false);
      }
    }
    return Match(t == "");
  }

  // ----- The patterns that work

  predicate AllStars(pattern: CString) {
    pattern == "" || (pattern[0] == '*' && AllStars(pattern[1..]))
  }

  /** No question mark, and no two stars in a row except in a run that ends the pattern. */
  predicate Simple(pattern: CString) {
    pattern == "" ||
    (pattern[0] != '?' && (pattern[0] == '*' && First(pattern[1..]) == '*' ==> AllStars(pattern)) && Simple(pattern[1..]))
  }

  lemma {:induction false} StarsMatch(pattern: CString, text: CString)
    requires pattern != "" && AllStars(pattern)
    ensures Glob(pattern, text) && Check(pattern, text) == Match(true)
    decreases |pattern| + |text|
  {
    assert pattern[0] in pattern;
    assert text[|text|..] == "";
    var found := SkipTo(LowerChar(First(pattern[1..])), text);
    if pattern[1..] == "" {
      SkipToEnd(text);
      assert Glob("", text[|text|..]);
    } else {
      StarsMatch(pattern[1..], "");
      StarsMatch(pattern[1..], found);
      assert Glob(pattern[1..], text[|text|..]);
    }
  }

  lemma {:induction false} SkipToEnd(text: CString)
    ensures SkipTo('\0', text) == ""
  {
    if text == "" {
    } else {
      assert text[0] in text;
      SkipToEnd(text[1..]);
    }
  }

  lemma StarStep(pattern: CString, text: CString)
    requires pattern != "" && pattern[0] == '*'
    ensures Glob(pattern, text) <==> Glob(pattern[1..], text) || (text != "" && Glob(pattern, text[1..]))
  {
    if Glob(pattern, text) {
      var k :| 0 <= k <= |text| && Glob(pattern[1..], text[k..]);
      if k == 0 {
        assert text[0..] == text;
      } else {
        assert text[1..][k - 1..] == text[k..];
      }
    }
    if Glob(pattern[1..], text) {
      assert text[0..] == text;
    }
    if text != "" && Glob(pattern, text[1..]) {
      var k :| 0 <= k <= |text[1..]| && Glob(pattern[1..], text[1..][k..]);
      assert text[1..][k..] == text[k + 1..];
    }
  }

  /** A star may as well match everything up to a place where the next literal occurs. */
  lemma {:induction false} StarSkips(pattern: CString, text: CString)
    requires |pattern| > 1 && pattern[0] == '*' && pattern[1] != '*' && pattern[1] != '?'
    ensures var found := SkipTo(LowerChar(pattern[1]), text);
            Glob(pattern, text) <==> found != "" && Glob(pattern, found)
    decreases |text|
  {
    StarStep(pattern, text);
    if text == "" || LowerChar(text[0]) == LowerChar(pattern[1]) {
    } else {
      StarSkips(pattern, text[1..]);
    }
  }

  /** The matcher is right about simple patterns, and stays inside the text. */
  lemma {:induction false} SimpleIsRight(pattern: CString, text: CString)
    requires Simple(pattern)
    ensures Check(pattern, text) == Match(Glob(pattern, text))
    decreases |pattern| + |text|
  {
    if pattern == "" {
    } else if pattern[0] != '*' {
      assert pattern[0] in pattern;
      if text != "" {
        SimpleIsRight(pattern[1..], text[1..]);
      }
    } else if AllStars(pattern) {
      StarsMatch(pattern, text);
    } else {
      NextIsLiteral(pattern);
      var found := SkipTo(LowerChar(pattern[1]), text);
      StarSkips(pattern, text);
      SimpleIsRight(pattern[1..], found);
      if found != "" {
        StarStep(pattern, found);
        SimpleIsRight(pattern, found[1..]);
      }
    }
  }

  lemma NextIsLiteral(pattern: CString)
    requires Simple(pattern) && pattern != "" && pattern[0] == '*' && !AllStars(pattern)
    ensures |pattern| > 1 && pattern[1] != '*' && pattern[1] != '?' && pattern[1] != '\0'
  {
    assert pattern[1] in pattern;
  }

  lemma {:induction false} StarsAreSimple(pattern: CString)
    requires AllStars(pattern)
    ensures Simple(pattern)
  {
    if pattern == "" {
    } else {
      assert pattern[0] in pattern;
      StarsAreSimple(pattern[1..]);
    }
  }

  // ----- Every other pattern goes wrong on some text

  function SkipStars(pattern: CString): CString {
    if pattern != "" && pattern[0] == '*' then SkipStars(pattern[1..]) else pattern
  }

  predicate StarRun(pattern: CString) {
    pattern != "" && pattern[0] == '*' && First(pattern[1..]) == '*' && !AllStars(pattern)
  }

  /** Whether the first thing wrong with a pattern is a question mark, possibly right behind a run of stars. */
  predicate Overreads(pattern: CString)
    requires !Simple(pattern)
  {
    if pattern[0] == '?' then true
    else if StarRun(pattern) then First(SkipStars(pattern)) == '?'
    else Overreads(pattern[1..])
  }

  /** The literals in front of what is wrong. */
  function Literals(pattern: CString): CString
    requires !Simple(pattern)
  {
    if pattern[0] == '?' || StarRun(pattern) then ""
    else if pattern[0] == '*' then Literals(pattern[1..])
    else
      assert pattern[0] in pattern;
      [pattern[0]] + Literals(pattern[1..])
  }

  lemma {:induction false} AtEnd(pattern: CString)
    requires !AllStars(pattern)
    ensures SkipStars(pattern) != ""
    ensures Check(pattern, "") == if First(SkipStars(pattern)) == '?' then Overread else Match(false)
    decreases |pattern|
  {
    assert pattern[0] in pattern;
    if pattern[0] == '*' {
      AtEnd(pattern[1..]);
    }
  }

  lemma StarsAreSimpleUnless(pattern: CString)
    requires !Simple(pattern)
    ensures !AllStars(pattern)
  {
    if AllStars(pattern) {
      StarsAreSimple(pattern);
    }
  }

  lemma {:induction false} LiteralsOverread(pattern: CString)
    requires !Simple(pattern) && Overreads(pattern)
    ensures Check(pattern, Literals(pattern)) == Overread
    decreases |pattern|
  {
    assert pattern[0] in pattern;
    if pattern[0] == '?' {
    } else if StarRun(pattern) {
      AtEnd(pattern);
    } else {
      StarsAreSimpleUnless(pattern);
      LiteralsOverread(pattern[1..]);
    }
  }

  lemma {:induction false} StarRunMisses(pattern: CString, text: CString)
    requires !Simple(pattern) && !Overreads(pattern) && '*' !in text
    ensures Check(pattern, text) == Match(false)
    decreases |pattern| + |text|
  {
    assert pattern[0] in pattern;
    if StarRun(pattern) {
      NoStarToFind(text);
      AtEnd(pattern[1..]);
    } else if pattern[0] == '*' {
      assert pattern[1] in pattern;
      var found := SkipTo(LowerChar(First(pattern[1..])), text);
      SkipToSuffix(LowerChar(First(pattern[1..])), text);
      StarRunMisses(pattern[1..], found);
      if found != "" {
        StarRunMisses(pattern, found[1..]);
      }
    } else if text != "" {
      StarRunMisses(pattern[1..], text[1..]);
    }
  }

  lemma {:induction false} NoStarToFind(text: CString)
    requires '*' !in text
    ensures SkipTo('*', text) == ""
  {
    if text == "" {
    } else {
      assert text[0] in text && LowerChar(text[0]) != '*';
      NoStarToFind(text[1..]);
    }
  }

  lemma {:induction false} SkipToSuffix(stop: char, text: CString)
    requires '*' !in text
    ensures '*' !in SkipTo(stop, text)
  {
    if text == "" || LowerChar(text[0]) == stop {
    } else {
      SkipToSuffix(stop, text[1..]);
    }
  }

  /** A text that the pattern matches, with nothing for its stars. */
  function Filled(pattern: CString): (r: CString)
    ensures '*' !in r
  {
    if pattern == "" then ""
    else if pattern[0] == '*' then Filled(pattern[1..])
    else
      assert pattern[0] in pattern;
      [if pattern[0] == '?' then 'a' else pattern[0]] + Filled(pattern[1..])
  }

  lemma {:induction false} FilledMatches(pattern: CString)
    ensures Glob(pattern, Filled(pattern))
  {
    if pattern == "" {
    } else {
      FilledMatches(pattern[1..]);
      if pattern[0] == '*' {
        assert Filled(pattern)[0..] == Filled(pattern);
      } else {
        assert Filled(pattern)[1..] == Filled(pattern[1..]);
      }
    }
  }

  /** A text on which the matcher reads too far, or misses a match. */
  function Counterexample(pattern: CString): CString
    requires !Simple(pattern)
  {
    if Overreads(pattern) then Literals(pattern) else Filled(pattern)
  }

  lemma OthersAreWrong(pattern: CString)
    requires !Simple(pattern)
    ensures var text := Counterexample(pattern); Check(pattern, text) != Match(Glob(pattern, text))
  {
    if Overreads(pattern) {
      LiteralsOverread(pattern);
    } else {
      FilledMatches(pattern);
      StarRunMisses(pattern, Filled(pattern));
    }
  }

  /** The matcher decides the glob for every text exactly when the pattern is simple. */
  lemma RightIffSimple(pattern: CString)
    ensures (forall text: CString :: Check(pattern, text) == Match(Glob(pattern, text))) <==> Simple(pattern)
  {
    if Simple(pattern) {
      forall text: CString
        ensures Check(pattern, text) == Match(Glob(pattern, text))
      {
        SimpleIsRight(pattern, text);
      }
    } else {
      OthersAreWrong(pattern);
    }
  }
}
