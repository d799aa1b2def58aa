/** AddCommandString of common/c_dispatch.cpp: cutting a line into commands. It reads quotes and escapes by
    rules of its own, which are not the tokenizer's. */
module ConsoleSplit {
  import opened ConsoleText

  /** The C string at the start of a buffer. */
  function CString(str: string): (r: string)
    ensures '\0' !in r && r <= str
    ensures '\0' !in str ==> r == str
  {
    if str == "" || str[0] == '\0' then "" else [str[0]] + CString(str[1..])
  }

  predicate CommentAt(s: string, i: nat) {
    i + 1 < |s| && s[i] == '/' && s[i + 1] == '/'
  }

  /** Where the scan of a quoted part stops: behind the closing quote, or at the end of the text. Only a
      backslash right in front of a quote escapes. */
  function QuoteEnd(s: string, i: nat): (r: nat)
    requires i <= |s|
    ensures i <= r <= |s|
    decreases |s| - i
  {
    if i == |s| then i
    else if i + 1 < |s| && s[i] == '\\' && s[i + 1] == '"' then QuoteEnd(s, i + 2)
    else if s[i] == '"' then i + 1
    else QuoteEnd(s, i + 1)
  }

  /** Where a command that starts at i or before ends: at a semicolon, a comment or the end of the text. */
  function CommandEnd(s: string, i: nat): (r: nat)
    requires i <= |s|
    ensures i <= r <= |s| && (r < |s| ==> s[r] == ';' || CommentAt(s, r))
    decreases |s| - i
  {
    if i == |s| || s[i] == ';' || CommentAt(s, i) then i
    else if s[i] == '\\' && i + 1 < |s| then CommandEnd(s, i + 2)
    else if s[i] == '"' then CommandEnd(s, QuoteEnd(s, i + 1))
    else CommandEnd(s, i + 1)
  }

  function TrimLeft(s: string): (r: string)
    ensures |r| <= |s|
    ensures s != "" ==> r != ""
  {
    if |s| > 1 && s[0] == ' ' then TrimLeft(s[1..]) else s
  }

  function TrimRight(s: string): (r: string)
    ensures |r| <= |s|
  {
    if |s| > 1 && s[|s| - 1] == ' ' then TrimRight(s[..|s| - 1]) else s
  }

  /** Spaces around a command go, but a blank command keeps one of them. */
  function Trimmed(s: string): string {
    TrimRight(TrimLeft(s))
  }

  /** The commands of a line, from position i on. */
  function Commands(s: string, i: nat): seq<string>
    requires i <= |s|
    decreases |s| - i
  {
    if i == |s| then [] else
      var end := CommandEnd(s, i);
      [Trimmed(s[i..end])] + if end == |s| || CommentAt(s, end) then [] else Commands(s, end + 1)
  }

  // ----- The scanner

  method SkipQuoted(s: string, open: nat) returns (cp: nat)
    requires open < |s| && s[open] == '"'
    ensures cp == QuoteEnd(s, open + 1) && open < cp <= |s|
  {
    cp := open;
    while true
      invariant open <= cp < |s| && QuoteEnd(s, cp + 1) == QuoteEnd(s, open + 1)
      decreases |s| - cp
    {
      cp := cp + 1;
      if cp == |s| {
        break;
      }
      if s[cp] == '\\' && cp + 1 < |s| && s[cp + 1] == '"' {
        cp := cp + 1;
      } else if s[cp] == '"' {
        cp := cp + 1;
        break;
      }
    }
  }

  method FindCommandEnd(s: string, start: nat) returns (cp: nat)
    requires start <= |s|
    ensures cp == CommandEnd(s, start)
  {
    cp := start;
    while cp < |s| && s[cp] != ';' && !(s[cp] == '/' && cp + 1 < |s| && s[cp + 1] == '/')
      invariant start <= cp <= |s| && CommandEnd(s, cp) == CommandEnd(s, start)
      decreases |s| - cp
    {
      if s[cp] == '\\' && cp + 1 < |s| {
        cp := cp + 2;
      } else if s[cp] == '"' {
        cp := SkipQuoted(s, cp);
      } else {
        cp := cp + 1;
      }
    }
  }

  /** cstart moves towards cend, which is the last character of the command. */
  method SkipSpaces(s: string, start: nat, end: nat) returns (cstart: nat)
    requires start < end <= |s|
    ensures start <= cstart < end && s[cstart..end] == TrimLeft(s[start..end])
  {
    cstart := start;
    while cstart < end - 1 && s[cstart] == ' '
      invariant start <= cstart < end && TrimLeft(s[cstart..end]) == TrimLeft(s[start..end])
    {
      assert s[cstart..end][1..] == s[cstart + 1..end];
      cstart := cstart + 1;
    }
  }

  /** cend moves towards cstart. */
  method DropSpaces(s: string, cstart: nat, end: nat) returns (cend: nat)
    requires cstart < end <= |s|
    ensures cstart <= cend < end && s[cstart..cend + 1] == TrimRight(s[cstart..end])
  {
    cend := end - 1;
    while cend > cstart && s[cend] == ' '
      invariant cstart <= cend < end && TrimRight(s[cstart..cend + 1]) == TrimRight(s[cstart..end])
    {
      var rest := s[cstart..cend + 1];
      assert rest[..|rest| - 1] == s[cstart..cend];
      cend := cend - 1;
    }
  }

  /** The command between start and end without the spaces around it. With nothing in between cend lies in
      front of cstart and both loops are skipped. */
  method TrimSpaces(s: string, start: nat, end: nat) returns (command: string)
    requires start <= end <= |s|
    ensures command == Trimmed(s[start..end])
  {
    if start == end {
      return "";
    }
    var cstart := SkipSpaces(s, start, end);
    var cend := DropSpaces(s, cstart, end);
    command := s[cstart..cend + 1];
  }

  /** The calls made, and the commands still to be found from position i on, are all there are. */
  ghost predicate CallsLeft(s: string, calls: seq<string>, i: nat, all: seq<string>) {
    i <= |s| && all == calls + Commands(s, i)
  }

  lemma CallStep(s: string, calls: seq<string>, i: nat, end: nat, command: string, all: seq<string>)
    requires CallsLeft(s, calls, i, all) && i < |s| && end == CommandEnd(s, i) && command == Trimmed(s[i..end])
    ensures if end == |s| || CommentAt(s, end) then all == calls + [command]
            else CallsLeft(s, calls + [command], end + 1, all)
  {
    hide CommandEnd, Trimmed;
    var others := if end == |s| || CommentAt(s, end) then [] else Commands(s, end + 1);
    assert Commands(s, i) == [command] + others;
    assert calls + ([command] + others) == calls + [command] + others;
  }

  lemma CallsStartAndEnd(s: string, calls: seq<string>, all: seq<string>)
    ensures all == Commands(s, 0) ==> CallsLeft(s, [], 0, all)
    ensures CallsLeft(s, calls, |s|, all) ==> all == calls
  {
    assert [] + all == all && calls + [] == calls;
  }

  /** The commands handed to C_DoCommand, in order. */
  method AddCommandString(str: string) returns (calls: seq<string>)
    ensures calls == Commands(CString(str), 0)
  {
    calls := [];
    if |str| == 0 {
      return;
    }
    hide CommandEnd, Trimmed, Commands, CallsLeft;
    var s, cstart: nat := CString(str), 0;
    ghost var all := Commands(s, 0);
    CallsStartAndEnd(s, calls, all);
    while cstart < |s|
      invariant cstart <= |s| && CallsLeft(s, calls, cstart, all)
      decreases |s| - cstart
    {
      var cp := FindCommandEnd(s, cstart);
      var command := TrimSpaces(s, cstart, cp);
      CallStep(s, calls, cstart, cp, command, all);
      calls := calls + [command];
      if cp == |s| || s[cp] != ';' {
        return;
      }
      cstart := cp + 1;
    }
    CallsStartAndEnd(s, calls, all);
  }
}
