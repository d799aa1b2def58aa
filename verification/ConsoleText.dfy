/** The quoter and the tokenizer of common/c_dispatch.cpp, which must agree on every string. Strings are
    bytes; a byte above 127 is a negative char where char is signed, hence blank. */
module ConsoleText {
  import opened TextTokens
  import opened Wrappers

  predicate ValidEscape(c: char) {
    c == '"' || c == ';' || c == '\\'
  }

  predicate Blank(c: char) {
    c <= ' ' || c >= 128 as char
  }

  /** A backslash in front of a character that it escapes. */
  predicate EscapeAt(s: string, i: nat) {
    i + 1 < |s| && s[i] == '\\' && ValidEscape(s[i + 1])
  }

  // ----- C_QuoteString, C_EscapeWadList, C_ArgCombine

  function EscapeChar(c: char): string {
    if ValidEscape(c) then ['\\', c] else [c]
  }

  function Escaped(s: string): string {
    if s == "" then "" else EscapeChar(s[0]) + Escaped(s[1..])
  }

  function Quoted(s: string): string {
    "\"" + Escaped(s) + "\""
  }

  function QuotedAll(list: seq<string>): (r: seq<string>)
    ensures |r| == |list|
    ensures forall i :: 0 <= i < |list| ==> r[i] == Quoted(list[i])
  {
    if list == [] then [] else [Quoted(list[0])] + QuotedAll(list[1..])
  }

  lemma {:induction false} EscapedConcat(a: string, b: string)
    ensures Escaped(a + b) == Escaped(a) + Escaped(b)
  {
    if a == "" {
      assert a + b == b;
    } else {
      EscapedConcat(a[1..], b);
      assert (a + b)[1..] == a[1..] + b;
    }
  }

  method QuoteString(argstr: string) returns (quoted: string)
    ensures quoted == Quoted(argstr)
  {
    quoted := "\"";
    for i := 0 to |argstr|
      invariant quoted == "\"" + Escaped(argstr[..i])
    {
      assert argstr[..i + 1] == argstr[..i] + [argstr[i]];
      EscapedConcat(argstr[..i], [argstr[i]]);
      if ValidEscape(argstr[i]) {
        quoted := quoted + ['\\', argstr[i]];
      } else {
        quoted := quoted + [argstr[i]];
      }
    }
    assert argstr[..|argstr|] == argstr;
    quoted := quoted + "\"";
  }

  method EscapeWadList(wadlist: seq<string>) returns (wadstr: string)
    ensures wadstr == Join(QuotedAll(wadlist), " ")
  {
    wadstr := "";
    ghost var all := QuotedAll(wadlist);
    for i := 0 to |wadlist|
      invariant wadstr == Join(all[..i], " ")
    {
      if i != 0 {
        wadstr := wadstr + " ";
      }
      var quoted := QuoteString(wadlist[i]);
      wadstr := wadstr + quoted;
      assert all[..i + 1] == all[..i] + [quoted];
      JoinAppend(all[..i], quoted, " ");
    }
    assert all[..|wadlist|] == all;
  }

  method ArgCombine(argv: seq<string>) returns (combined: string)
    ensures combined == Join(argv, " ")
  {
    combined := "";
    for i := 0 to |argv|
      invariant combined == Join(argv[..i], " ") + if 0 < i < |argv| then " " else ""
    {
      combined := combined + argv[i];
      assert argv[..i + 1] == argv[..i] + [argv[i]];
      JoinAppend(argv[..i], argv[i], " ");
      if i + 1 < |argv| {
        combined := combined + " ";
      }
    }
    assert argv[..|argv|] == argv;
  }

  // ----- ParseString

  /** A token, or none at the end of the text, at a comment and at an unclosed quote; and what is left. */
  datatype Parsed = Parsed(token: Option<string>, rest: string)

  function SkipBlanks(s: string): (r: string)
    ensures |r| <= |s| && (r != "" ==> !Blank(r[0]))
  {
    if s != "" && Blank(s[0]) then SkipBlanks(s[1..]) else s
  }

  predicate Comment(s: string) {
    |s| >= 2 && s[0] == '/' && s[1] == '/'
  }

  function ParseQuoted(s: string, token: string): (r: Parsed)
    ensures |r.rest| <= |s|
    decreases |s|
  {
    if s == "" then Parsed(None, s)
    else if EscapeAt(s, 0) then ParseQuoted(s[2..], token + [s[1]])
    else if s[0] == '"' then Parsed(Some(token), s[1..])
    else ParseQuoted(s[1..], token + [s[0]])
  }

  function ParseWord(s: string, token: string): (r: Parsed)
    ensures r.token.Some? && |r.rest| <= |s|
    ensures s != "" && !Blank(s[0]) && s[0] != '"' ==> |r.rest| < |s|
    decreases |s|
  {
    if s == "" || Blank(s[0]) then Parsed(Some(token), s)
    else if EscapeAt(s, 0) then ParseWord(s[2..], token + [s[1]])
    else if s[0] == '"' then Parsed(Some(token), s)
    else ParseWord(s[1..], token + [s[0]])
  }

  function ParseToken(s: string): (r: Parsed)
    ensures r.token.Some? ==> |r.rest| < |s|
  {
    var d := SkipBlanks(s);
    if d == "" || Comment(d) then Parsed(None, d)
    else if EscapeAt(d, 0) then ParseWord(d[2..], [d[1]])
    else if d[0] == '"' then ParseQuoted(d[1..], "")
    else ParseWord(d, "")
  }

  /** Every token up to the first missing one. */
  function Tokens(s: string): seq<string>
    decreases |s|
  {
    var p := ParseToken(s);
    if p.token.None? then [] else [p.token.value] + Tokens(p.rest)
  }

  /** The closure ParseString returns; it captures the view and consumes it. */
  class Parser {
    var data: string

    constructor (data: string)
      ensures this.data == data
    {
      this.data := data;
    }

    method Next() returns (token: Option<string>)
      modifies this
      ensures Parsed(token, data) == ParseToken(old(data))
    {
      while data != "" && Blank(data[0])
        invariant SkipBlanks(data) == SkipBlanks(old(data))
        decreases |data|
      {
        data := data[1..];
      }
      if data == "" || (|data| >= 2 && data[0] == '/' && data[1] == '/') {
        return None;
      }
      var word := "";
      assert SkipBlanks(old(data)) == data;
      if |data| >= 2 && data[0] == '\\' && ValidEscape(data[1]) {
        word := word + [data[1]];
        assert word == [data[1]];
        data := data[2..];
      } else if data[0] == '"' {
        token := NextQuoted();
        return;
      }
      while data != "" && !Blank(data[0]) && (data[0] != '"' || EscapeAt(data, 0))
        invariant ParseWord(data, word) == ParseToken(old(data))
        decreases |data|
      {
        if |data| >= 2 && data[0] == '\\' && ValidEscape(data[1]) {
          word := word + [data[1]];
          data := data[2..];
        } else {
          word := word + [data[0]];
          data := data[1..];
        }
      }
      return Some(word);
    }

    /** The loop over a quoted token, entered at its opening quote. */
    method NextQuoted() returns (token: Option<string>)
      requires data != "" && data[0] == '"'
      modifies this
      ensures Parsed(token, data) == ParseQuoted(old(data)[1..], "")
    {
      var word := "";
      while true
        invariant data != "" && ParseQuoted(data[1..], word) == ParseQuoted(old(data)[1..], "")
        decreases |data|
      {
        data := data[1..];
        if data == "" {
          return None;
        }
        if |data| >= 2 && data[0] == '\\' && ValidEscape(data[1]) {
          word := word + [data[1]];
          data := data[1..];
        } else if data[0] == '"' {
          data := data[1..];
          return Some(word);
        } else {
          word := word + [data[0]];
        }
      }
    }
  }

  // ----- Quoting and parsing undo each other

  lemma {:induction false} ParseEscaped(s: string, token: string, rest: string)
    ensures ParseQuoted(Escaped(s) + "\"" + rest, token) == Parsed(Some(token + s), rest)
    decreases |s|
  {
    var text := Escaped(s) + "\"" + rest;
    if s == "" {
      assert text[1..] == rest && token + s == token;
    } else {
      var c, more := s[0], Escaped(s[1..]) + "\"" + rest;
      assert text == EscapeChar(c) + more;
      assert text[|EscapeChar(c)|..] == more;
      assert token + [c] + s[1..] == token + s;
      ParseEscaped(s[1..], token + [c], rest);
    }
  }

  /** Parsing a quoted string gives the string back and stops right behind it, whatever follows. */
  lemma ParseQuotedString(s: string, rest: string)
    ensures ParseToken(Quoted(s) + rest) == Parsed(Some(s), rest)
  {
    var text := Quoted(s) + rest;
    assert text[1..] == Escaped(s) + "\"" + rest;
    ParseEscaped(s, "", rest);
    assert "" + s == s;
  }

  lemma SkipOneBlank(s: string)
    ensures ParseToken(" " + s) == ParseToken(s)
  {
    assert (" " + s)[1..] == s;
  }

  /** The words of an escaped list are the list: empty strings, quotes, spaces and backslashes included. */
  lemma {:induction false} TokensOfWadList(list: seq<string>)
    ensures Tokens(Join(QuotedAll(list), " ")) == list
    decreases |list|
  {
    if list == [] {
    } else if |list| == 1 {
      ParseQuotedString(list[0], "");
      assert Quoted(list[0]) + "" == Quoted(list[0]);
    } else {
      var others := Join(QuotedAll(list[1..]), " ");
      assert QuotedAll(list)[1..] == QuotedAll(list[1..]);
      assert Join(QuotedAll(list), " ") == Quoted(list[0]) + (" " + others);
      ParseQuotedString(list[0], " " + others);
      SkipOneBlank(others);
      TokensOfWadList(list[1..]);
    }
  }
}
