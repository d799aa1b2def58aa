/** The string helpers of common/cmdlib.cpp: splitting at a delimiter and joining, trimming and lower case. */
module TextTokens {
  import opened Wrappers

  // ----- Case and white space

  function LowerChar(c: char): char {
    if 'A' <= c <= 'Z' then c - 'A' + 'a' else c
  }

  /** StdStringToLower */
  function Lower(s: string): (r: string)
    ensures |r| == |s| && forall i :: 0 <= i < |s| ==> r[i] == LowerChar(s[i])
  {
    seq(|s|, i requires 0 <= i < |s| => LowerChar(s[i]))
  }

  lemma LowerTwice(s: string)
    ensures Lower(Lower(s)) == Lower(s)
  {
  }

  predicate IsSpace(c: char) {
    c == ' ' || '\t' <= c <= '\r'
  }

  /** TrimString */
  function Strip(s: string): (r: string)
    ensures |r| <= |s|
  {
    if s == "" then s
    else if IsSpace(s[|s| - 1]) then Strip(s[..|s| - 1])
    else if IsSpace(s[0]) then Strip(s[1..])
    else s
  }

  // ----- Finding

  predicate OccursAt(s: string, d: string, i: nat) {
    i + |d| <= |s| && s[i..i + |d|] == d
  }

  /** std::string::find: the first occurrence at or behind a position. */
  function FindFrom(s: string, d: string, from: nat): (r: Option<nat>)
    requires from <= |s|
    ensures r.Some? ==> from <= r.value && r.value + |d| <= |s|
    decreases |s| - from
  {
    if OccursAt(s, d, from) then Some(from)
    else if from == |s| then None
    else FindFrom(s, d, from + 1)
  }

  lemma {:induction false} FindsFirst(s: string, d: string, from: nat)
    requires from <= |s|
    ensures var r := FindFrom(s, d, from);
            (r.Some? ==> OccursAt(s, d, r.value)) &&
            forall i: nat :: from <= i < (if r.Some? then r.value else |s| + 1) ==> !OccursAt(s, d, i)
    decreases |s| - from
  {
    if OccursAt(s, d, from) || from == |s| {
    } else {
      FindsFirst(s, d, from + 1);
    }
  }

  // ----- TokenizeString and JoinStrings

  /** The pieces of a string from a position on; there is always at least one. */
  function Split(s: string, d: string, from: nat): (r: seq<string>)
    requires d != "" && from <= |s|
    ensures r != []
    decreases |s| - from
  {
    match FindFrom(s, d, from)
    case None => [s[from..]]
    case Some(i) => [s[from..i]] + Split(s, d, i + |d|)
  }

  function Tokenized(s: string, d: string): seq<string>
    requires d != ""
  {
    if s == "" then [] else Split(s, d, 0)
  }

  /** The tokens found, and those still in the string from a position on, are all there are. */
  ghost predicate TokensLeft(s: string, d: string, tokens: seq<string>, from: nat, all: seq<string>)
    requires d != ""
  {
    from <= |s| && all == tokens + Split(s, d, from)
  }

  lemma TokenStep(s: string, d: string, tokens: seq<string>, from: nat, all: seq<string>)
    requires d != "" && TokensLeft(s, d, tokens, from, all)
    ensures match FindFrom(s, d, from)
            case None => all == tokens + [s[from..]]
            case Some(i) => TokensLeft(s, d, tokens + [s[from..i]], i + |d|, all)
  {
    SplitOnce(s, d, from);
    hide FindFrom, Split;
    match FindFrom(s, d, from)
    case None =>
    case Some(i) =>
      Regroup(tokens, s[from..i], Split(s, d, i + |d|));
  }

  lemma SplitOnce(s: string, d: string, from: nat)
    requires d != "" && from <= |s|
    ensures match FindFrom(s, d, from)
            case None => Split(s, d, from) == [s[from..]]
            case Some(i) => Split(s, d, from) == [s[from..i]] + Split(s, d, i + |d|)
  {
    hide FindFrom;
  }

  lemma Regroup(tokens: seq<string>, token: string, others: seq<string>)
    ensures tokens + ([token] + others) == tokens + [token] + others
  {
  }

  /** With an empty delimiter the loop of the source does not end. */
  method TokenizeString(str: string, delim: string) returns (tokens: seq<string>)
    requires delim != ""
    ensures tokens == Tokenized(str, delim)
  {
    tokens := [];
    if str == "" {
      return;
    }
    hide Split;
    var prevDelim := 0;
    ghost var all := Split(str, delim, 0);
    assert [] + all == all;
    while true
      invariant prevDelim <= |str| && TokensLeft(str, delim, tokens, prevDelim, all)
      decreases |str| - prevDelim
    {
      TokenStep(str, delim, tokens, prevDelim, all);
      var delimPos := FindFrom(str, delim, prevDelim);
      if delimPos.None? {
        tokens := tokens + [str[prevDelim..]];
        return;
      }
      tokens := tokens + [str[prevDelim..delimPos.value]];
      prevDelim := delimPos.value + |delim|;
    }
  }

  function Join(pieces: seq<string>, glue: string): string {
    if pieces == [] then ""
    else if |pieces| == 1 then pieces[0]
    else pieces[0] + glue + Join(pieces[1..], glue)
  }

  /** Joining one more piece puts the glue in front of it, unless it is the first. */
  lemma {:induction false} JoinAppend(pieces: seq<string>, last: string, glue: string)
    ensures Join(pieces + [last], glue) == if pieces == [] then last else Join(pieces, glue) + glue + last
    decreases |pieces|
  {
    if pieces == [] {
    } else {
      assert (pieces + [last])[1..] == pieces[1..] + [last];
      JoinAppend(pieces[1..], last, glue);
    }
  }

  // ----- Splitting and joining undo each other

  lemma {:induction false} JoinSplit(s: string, d: string, from: nat)
    requires d != "" && from <= |s|
    ensures Join(Split(s, d, from), d) == s[from..]
    decreases |s| - from
  {
    var r := FindFrom(s, d, from);
    if r.Some? {
      FindsFirst(s, d, from);
      JoinSplit(s, d, r.value + |d|);
      assert s[from..] == s[from..r.value] + d + s[r.value + |d|..];
    }
  }

  /** Every string is its tokens joined. */
  lemma JoinTokenized(s: string, d: string)
    requires d != ""
    ensures Join(Tokenized(s, d), d) == s
  {
    if s != "" {
      JoinSplit(s, d, 0);
    }
  }

  /** A piece that ends where the delimiter behind it starts, and not before. */
  predicate EndsAtDelimiter(piece: string, d: string) {
    FindFrom(piece + d, d, 0) == Some(|piece|)
  }

  /** None in front of the last may be cut early, and the last holds no delimiter. */
  predicate Fits(pieces: seq<string>, d: string)
    requires pieces != []
  {
    if |pieces| == 1 then FindFrom(pieces[0], d, 0).None?
    else EndsAtDelimiter(pieces[0], d) && Fits(pieces[1..], d)
  }

  /** The pieces that come out of a string that was joined from them; a single one must not be empty. */
  predicate Separable(pieces: seq<string>, d: string) {
    pieces != [""] && (pieces != [] ==> Fits(pieces, d))
  }

  lemma {:induction false} SplitShift(a: string, s: string, d: string, from: nat)
    requires d != "" && from <= |s|
    ensures Split(a + s, d, |a| + from) == Split(s, d, from)
    decreases |s| - from
  {
    hide FindFrom;
    FindShift(a, s, d, from);
    var r := FindFrom(s, d, from);
    if r.None? {
      assert (a + s)[|a| + from..] == s[from..];
    } else {
      SliceShift(a, s, from, r.value);
      SplitShift(a, s, d, r.value + |d|);
      assert |a| + (r.value + |d|) == |a| + r.value + |d|;
    }
  }

  lemma SliceShift(a: string, s: string, i: nat, j: nat)
    requires i <= j <= |s|
    ensures (a + s)[|a| + i..|a| + j] == s[i..j]
  {
  }

  lemma {:induction false} FindShift(a: string, s: string, d: string, from: nat)
    requires from <= |s|
    ensures FindFrom(a + s, d, |a| + from) ==
            match FindFrom(s, d, from) case None => None case Some(i) => Some(|a| + i)
    decreases |s| - from
  {
    OccursShift(a, s, d, from);
    if OccursAt(s, d, from) || from == |s| {
    } else {
      FindShift(a, s, d, from + 1);
    }
  }

  lemma OccursShift(a: string, s: string, d: string, i: nat)
    ensures OccursAt(a + s, d, |a| + i) <==> OccursAt(s, d, i)
  {
    if i + |d| <= |s| {
      assert (a + s)[|a| + i..|a| + i + |d|] == s[i..i + |d|];
    }
  }

  /** What follows the first delimiter does not matter for where it is. */
  lemma FirstDelimiter(piece: string, d: string, rest: string)
    requires d != ""
    ensures FindFrom(piece + d + rest, d, 0) == Some(|piece|) <==> EndsAtDelimiter(piece, d)
  {
    var whole, front := piece + d + rest, piece + d;
    FindsFirst(whole, d, 0);
    FindsFirst(front, d, 0);
    forall i: nat | i <= |piece|
      ensures OccursAt(whole, d, i) <==> OccursAt(front, d, i)
    {
      assert whole[i..i + |d|] == front[i..i + |d|];
    }
    assert front[|piece|..|piece| + |d|] == d;
  }

  lemma {:induction false} SplitJoined(pieces: seq<string>, d: string)
    requires d != "" && pieces != []
    ensures Split(Join(pieces, d), d, 0) == pieces <==> Fits(pieces, d)
    decreases |pieces|
  {
    var first := pieces[0];
    if |pieces| == 1 {
      assert first[0..] == first && pieces == [first];
    } else {
      SplitJoined(pieces[1..], d);
      SplitFirst(first, d, Join(pieces[1..], d), pieces[1..]);
      assert pieces == [first] + pieces[1..];
    }
  }

  /** Splitting what starts with a piece and a delimiter. */
  lemma SplitFirst(first: string, d: string, rest: string, others: seq<string>)
    requires d != ""
    ensures Split(first + d + rest, d, 0) == [first] + others <==>
            EndsAtDelimiter(first, d) && Split(rest, d, 0) == others
  {
    var whole := first + d + rest;
    FirstDelimiter(first, d, rest);
    SplitShift(first + d, rest, d, 0);
    assert whole[0..|first|] == first;
    if EndsAtDelimiter(first, d) {
      assert Split(whole, d, 0) == [first] + Split(rest, d, 0);
      assert ([first] + others)[1..] == others && ([first] + Split(rest, d, 0))[1..] == Split(rest, d, 0);
    } else {
      FirstTokenDiffers(whole, first, d, rest);
    }
  }

  lemma FirstTokenDiffers(whole: string, first: string, d: string, rest: string)
    requires d != "" && whole == first + d + rest && FindFrom(whole, d, 0) != Some(|first|)
    ensures Split(whole, d, 0)[0] != first
  {
    assert whole[|first|..|first| + |d|] == d;
    assert OccursAt(whole, d, |first|);
    FindsFirst(whole, d, 0);
  }

  /** Joining and splitting again gives the pieces back exactly when they are separable. */
  lemma TokenizedJoined(pieces: seq<string>, d: string)
    requires d != ""
    ensures Tokenized(Join(pieces, d), d) == pieces <==> Separable(pieces, d)
  {
    if pieces != [] {
      SplitJoined(pieces, d);
      if |pieces| > 1 {
        assert Join(pieces, d) != "";
      }
    }
  }
}
