/** Console aliases of common/c_dispatch.cpp: what executing an archived alias line does. */
module ConsoleAlias {
  import opened Wrappers
  import opened ConsoleText
  import opened ConsoleSplit

  // ----- The line that DConsoleAlias::Archive prints

  function AliasLine(name: string, command: string): string {
    "alias " + Quoted(name) + " " + Quoted(command)
  }

  predicate EndsInBackslash(s: string) {
    s != "" && s[|s| - 1] == '\\'
  }

  predicate HasComment(s: string) {
    s != "" && (CommentAt(s, 0) || HasComment(s[1..]))
  }

  function BeforeComment(s: string): string {
    if s == "" || CommentAt(s, 0) then "" else [s[0]] + BeforeComment(s[1..])
  }

  /** The splitter takes the line in one piece: it misses a closing quote behind a backslash, and then sees
      comments in what the tokenizer takes for a quoted command. */
  predicate OnePiece(name: string, command: string) {
    !(EndsInBackslash(name) && HasComment(command))
  }

  // ----- How the splitter sees escaped text

  lemma DropAfter(s: string, i: nat, n: nat, head: string, tail: string)
    requires i <= |s| && s[i..] == head + tail && n == |head|
    ensures i + n <= |s| && s[i + n..] == tail
    ensures forall k :: 0 <= k < n ==> s[i + k] == head[k]
  {
    assert |s[i..]| == |s| - i;
    assert s[i + n..] == s[i..][n..];
    forall k | 0 <= k < n
      ensures s[i + k] == head[k]
    {
      assert s[i..][k] == s[i + k];
    }
  }

  lemma EscapedParts(s: string, i: nat, text: string, rest: string)
    requires i <= |s| && s[i..] == Escaped(text) + ("\"" + rest) && text != ""
    ensures var width := |EscapeChar(text[0])|;
            i + width < |s| && s[i + width..] == Escaped(text[1..]) + ("\"" + rest) &&
            (forall k :: 0 <= k < width ==> s[i + k] == EscapeChar(text[0])[k]) &&
            (s[i + width] == '/' <==> |text| > 1 && text[1] == '/')
  {
    var c, tail := text[0], Escaped(text[1..]) + ("\"" + rest);
    EscapedSplit(text, "\"" + rest);
    FirstEscaped(text, rest);
    NotEmpty(Escaped(text[1..]), "\"", rest);
    hide Escaped, EscapeChar;
    DropAfter(s, i, |EscapeChar(c)|, EscapeChar(c), tail);
    SuffixHead(s, i + |EscapeChar(c)|, tail);
  }

  lemma EscapedSplit(text: string, tail: string)
    requires text != ""
    ensures Escaped(text) + tail == EscapeChar(text[0]) + (Escaped(text[1..]) + tail)
  {
    ConcatRight(EscapeChar(text[0]), Escaped(text[1..]), tail);
  }

  lemma ConcatRight(a: string, b: string, c: string)
    ensures a + b + c == a + (b + c)
  {
  }

  lemma NotEmpty(a: string, b: string, c: string)
    requires b != ""
    ensures a + (b + c) != ""
  {
  }

  lemma SuffixHead(s: string, k: nat, tail: string)
    requires k <= |s| && s[k..] == tail && tail != ""
    ensures k < |s| && s[k] == tail[0]
  {
    assert |s[k..]| == |s| - k;
  }

  lemma ClosingQuote(s: string, i: nat, rest: string)
    requires i <= |s| && s[i..] == Escaped("") + ("\"" + rest)
    ensures i + 1 == |s| - |rest| && s[i] == '"' && QuoteEnd(s, i) == i + 1
  {
    assert s[i..] == "\"" + rest;
    DropAfter(s, i, 1, "\"", rest);
  }

  lemma FirstNotQuote(s: string, i: nat, text: string, rest: string)
    requires i < |s| && s[i..] == Escaped(text) + ("\"" + rest) && text != ""
    ensures s[i] != '"'
  {
    EscapedParts(s, i, text, rest);
    assert s[i + 0] == EscapeChar(text[0])[0];
  }

  lemma PassQuoted(s: string, i: nat, c: char)
    requires i + |EscapeChar(c)| < |s| && (c == '\\' ==> s[i + |EscapeChar(c)|] != '"')
    requires forall k :: 0 <= k < |EscapeChar(c)| ==> s[i + k] == EscapeChar(c)[k]
    ensures QuoteEnd(s, i) == QuoteEnd(s, i + |EscapeChar(c)|)
  {
    assert s[i + 0] == EscapeChar(c)[0];
    if ValidEscape(c) {
      assert s[i + 1] == EscapeChar(c)[1];
      assert c != '"' ==> QuoteEnd(s, i) == QuoteEnd(s, i + 1);
    }
  }

  lemma PassClosing(s: string, i: nat)
    requires i + |EscapeChar('\\')| < |s| && s[i + |EscapeChar('\\')|] == '"'
    requires forall k :: 0 <= k < |EscapeChar('\\')| ==> s[i + k] == EscapeChar('\\')[k]
    ensures QuoteEnd(s, i) == QuoteEnd(s, i + |EscapeChar('\\')| + 1)
  {
    assert s[i + 0] == EscapeChar('\\')[0] && s[i + 1] == EscapeChar('\\')[1];
    assert QuoteEnd(s, i) == QuoteEnd(s, i + 1);
  }

  lemma PassFirst(s: string, i: nat, text: string, rest: string)
    requires i <= |s| && s[i..] == Escaped(text) + ("\"" + rest) && text != "" && text != "\\"
    ensures var width := |EscapeChar(text[0])|;
            i + width <= |s| && s[i + width..] == Escaped(text[1..]) + ("\"" + rest) &&
            QuoteEnd(s, i) == QuoteEnd(s, i + width)
  {
    hide Escaped, EscapeChar, QuoteEnd;
    EscapedParts(s, i, text, rest);
    if |text| > 1 {
      FirstNotQuote(s, i + |EscapeChar(text[0])|, text[1..], rest);
    }
    PassQuoted(s, i, text[0]);
  }

  /** In a quoted part the scan stops at the closing quote, unless the text ends in a backslash. */
  lemma {:induction false} QuoteEndOfEscaped(s: string, i: nat, text: string, rest: string)
    requires i <= |s| && s[i..] == Escaped(text) + ("\"" + rest)
    ensures |rest| < |s|
    ensures QuoteEnd(s, i) == if EndsInBackslash(text) then QuoteEnd(s, |s| - |rest|) else |s| - |rest|
    decreases |text|
  {
    if text == "" {
      ClosingQuote(s, i, rest);
    } else if text == "\\" {
      hide Escaped, EscapeChar, QuoteEnd;
      EscapedParts(s, i, text, rest);
      assert text[1..] == "";
      ClosingQuote(s, i + |EscapeChar(text[0])|, rest);
      PassClosing(s, i);
    } else {
      hide Escaped, EscapeChar, QuoteEnd;
      PassFirst(s, i, text, rest);
      QuoteEndOfEscaped(s, i + |EscapeChar(text[0])|, text[1..], rest);
    }
  }

  lemma PassChar(s: string, i: nat, c: char)
    requires i + |EscapeChar(c)| < |s| && !CommentAt(s, i)
    requires forall k :: 0 <= k < |EscapeChar(c)| ==> s[i + k] == EscapeChar(c)[k]
    ensures CommandEnd(s, i) == CommandEnd(s, i + |EscapeChar(c)|)
  {
    assert s[i + 0] == EscapeChar(c)[0];
  }

  /** Outside quotes an escaped character that starts no comment is passed over. */
  lemma PassEscaped(s: string, i: nat, text: string, rest: string)
    requires i <= |s| && s[i..] == Escaped(text) + ("\"" + rest) && text != "" && !CommentAt(text, 0)
    ensures var width := |EscapeChar(text[0])|;
            i + width <= |s| && s[i + width..] == Escaped(text[1..]) + ("\"" + rest) &&
            CommandEnd(s, i) == CommandEnd(s, i + width) &&
            forall k :: 0 <= k < width ==> s[i + k] == EscapeChar(text[0])[k]
  {
    hide Escaped, EscapeChar, CommandEnd, CommentAt;
    EscapedParts(s, i, text, rest);
    NoCommentThere(s, i, text);
    PassChar(s, i, text[0]);
  }

  lemma NoCommentThere(s: string, i: nat, text: string)
    requires text != "" && !CommentAt(text, 0) && i + |EscapeChar(text[0])| < |s|
    requires forall k :: 0 <= k < |EscapeChar(text[0])| ==> s[i + k] == EscapeChar(text[0])[k]
    requires s[i + |EscapeChar(text[0])|] == '/' <==> |text| > 1 && text[1] == '/'
    ensures !CommentAt(s, i)
  {
    assert s[i + 0] == EscapeChar(text[0])[0];
  }

  /** So is the whole text, when there is no comment in it ... */
  lemma {:induction false} EndWithoutComment(s: string, i: nat, text: string, rest: string)
    requires i <= |s| && s[i..] == Escaped(text) + ("\"" + rest) && !HasComment(text)
    ensures |rest| < |s| && CommandEnd(s, i) == CommandEnd(s, |s| - |rest| - 1)
    decreases |text|
  {
    if text == "" {
      assert |s[i..]| == |s| - i;
    } else {
      PassEscaped(s, i, text, rest);
      hide CommandEnd;
      EndWithoutComment(s, i + |EscapeChar(text[0])|, text[1..], rest);
    }
  }

  lemma CommentStarts(s: string, i: nat, text: string, rest: string)
    requires i <= |s| && s[i..] == Escaped(text) + ("\"" + rest) && CommentAt(text, 0)
    ensures CommentAt(s, i) && CommandEnd(s, i) == i
  {
    EscapedParts(s, i, text, rest);
    hide Escaped;
    assert s[i + 0] == EscapeChar(text[0])[0];
  }

  lemma NoCommentYet(text: string)
    requires HasComment(text) && !CommentAt(text, 0)
    ensures HasComment(text[1..])
    ensures Escaped(BeforeComment(text)) == EscapeChar(text[0]) + Escaped(BeforeComment(text[1..]))
  {
    assert BeforeComment(text)[1..] == BeforeComment(text[1..]);
  }

  /** ... and otherwise the scan stops at the first one. */
  lemma {:induction false} EndAtComment(s: string, i: nat, text: string, rest: string)
    requires i <= |s| && s[i..] == Escaped(text) + ("\"" + rest) && HasComment(text)
    ensures var end := CommandEnd(s, i); CommentAt(s, end) && s[i..end] == Escaped(BeforeComment(text))
    decreases |text|
  {
    if CommentAt(text, 0) {
      CommentStarts(s, i, text, rest);
    } else {
      var width := |EscapeChar(text[0])|;
      NoCommentYet(text);
      hide CommandEnd, Escaped, BeforeComment, EscapeChar, CommentAt, HasComment;
      PassEscaped(s, i, text, rest);
      EndAtComment(s, i + width, text[1..], rest);
      PrependSlice(s, i, width, CommandEnd(s, i), EscapeChar(text[0]), Escaped(BeforeComment(text[1..])));
    }
  }

  lemma FirstEscaped(text: string, rest: string)
    requires text != ""
    ensures var tail := Escaped(text[1..]) + ("\"" + rest); tail[0] == '/' <==> |text| > 1 && text[1] == '/'
  {
  }

  lemma PrependSlice(s: string, i: nat, n: nat, end: nat, head: string, tail: string)
    requires i + n <= end <= |s| && |head| == n && forall k :: 0 <= k < n ==> s[i + k] == head[k]
    requires s[i + n..end] == tail
    ensures s[i..end] == head + tail
  {
    assert s[i..end] == s[i..i + n] + s[i + n..end];
    assert s[i..i + n] == head;
  }

  // ----- The archived line, cut and tokenized

  /** What follows the name in the line. */
  function AfterName(command: string): string {
    " " + Quoted(command)
  }

  lemma LineParts(name: string, command: string)
    ensures var s := AliasLine(name, command); var after := |s| - |AfterName(command)|;
            after >= 8 && s[7..] == Escaped(name) + ("\"" + AfterName(command)) && s[..after] == "alias " + Quoted(name)
    ensures var s := AliasLine(name, command); var after := |s| - |AfterName(command)|;
            s[after + 2..] == Escaped(command) + ("\"" + "") && s[after] == ' ' && s[after + 1] == '"'
  {
    var s := AliasLine(name, command);
    Regroup("alias ", "\"", Escaped(name), "\"", " ", Quoted(command));
    assert "alias " + "\"" == "alias \"";
    AfterNameParts(s, "alias " + Quoted(name), command);
  }

  lemma Regroup(head: string, open: string, text: string, close: string, space: string, tail: string)
    ensures var s := head + (open + text + close) + space + tail;
            s == head + (open + text + close) + (space + tail) && s == (head + open) + (text + (close + (space + tail)))
  {
    assert head + (open + text + close) == head + open + (text + close);
  }

  lemma AfterNameParts(s: string, head: string, command: string)
    requires s == head + AfterName(command)
    ensures s[..|head|] == head
    ensures s[|head| + 2..] == Escaped(command) + ("\"" + "") && s[|head|] == ' ' && s[|head| + 1] == '"'
  {
    var tail := AfterName(command);
    assert tail[2..] == Escaped(command) + ("\"" + "");
    assert s[|head| + 2..] == tail[2..];
  }

  lemma AliasWordEnd(s: string)
    requires |s| > 6 && s[..6] == "alias " && s[6] == '"'
    ensures CommandEnd(s, 0) == CommandEnd(s, QuoteEnd(s, 7))
  {
    assert forall i :: 0 <= i < 6 ==> s[i] == s[..6][i];
    assert CommandEnd(s, 0) == CommandEnd(s, 2);
    assert CommandEnd(s, 2) == CommandEnd(s, 4);
    assert CommandEnd(s, 4) == CommandEnd(s, 6);
  }

  lemma LineStart(name: string, command: string)
    ensures var s := AliasLine(name, command); |s| > 6 && s[..6] == "alias " && s[6] == '"' && s[|s| - 1] == '"'
  {
  }

  /** Without a backslash at its end the name is closed where it should be, and the command is quoted. */
  lemma EndBehindClosedName(s: string, name: string, command: string, after: nat)
    requires 7 < after && after + 2 <= |s| && |AfterName(command)| == |s| - after
    requires s[7..] == Escaped(name) + ("\"" + AfterName(command)) && !EndsInBackslash(name)
    requires s[after + 2..] == Escaped(command) + ("\"" + "") && s[after] == ' ' && s[after + 1] == '"'
    ensures CommandEnd(s, QuoteEnd(s, 7)) == |s|
  {
    QuoteEndOfEscaped(s, 7, name, AfterName(command));
    QuoteEndOfEscaped(s, after + 2, command, "");
    assert CommandEnd(s, after) == CommandEnd(s, after + 1);
  }

  /** With one, the quote of the name swallows the opening quote of the command. */
  lemma EndBehindOpenName(s: string, name: string, command: string, after: nat)
    requires 7 < after && after + 2 <= |s| && |AfterName(command)| == |s| - after
    requires s[7..] == Escaped(name) + ("\"" + AfterName(command)) && EndsInBackslash(name)
    requires s[after + 2..] == Escaped(command) + ("\"" + "") && s[after] == ' ' && s[after + 1] == '"'
    ensures var end := CommandEnd(s, QuoteEnd(s, 7));
            if HasComment(command)
            then CommentAt(s, end) && after + 2 <= end && s[after + 2..end] == Escaped(BeforeComment(command))
            else end == |s|
  {
    hide CommandEnd, QuoteEnd, AfterName, EndsInBackslash, Escaped, HasComment, BeforeComment;
    QuoteEndOfEscaped(s, 7, name, AfterName(command));
    SkipsOpening(s, after);
    if HasComment(command) {
      EndAtComment(s, after + 2, command, "");
    } else {
      EndWithoutComment(s, after + 2, command, "");
      LastOf(s, after + 2, Escaped(command));
      LastQuote(s);
    }
  }

  lemma SkipsOpening(s: string, after: nat)
    requires after + 2 <= |s| && s[after] == ' ' && s[after + 1] == '"'
    ensures QuoteEnd(s, after) == after + 2
  {
    assert QuoteEnd(s, after) == QuoteEnd(s, after + 1);
  }

  lemma LastOf(s: string, i: nat, head: string)
    requires i <= |s| && s[i..] == head + ("\"" + "")
    ensures |s| > 0 && s[|s| - 1] == '"'
  {
    assert |s[i..]| == |s| - i && s[i..][|s[i..]| - 1] == s[|s| - 1];
  }

  /** A quote that ends the text is its last command's end. */
  lemma LastQuote(s: string)
    requires s != "" && s[|s| - 1] == '"'
    ensures CommandEnd(s, |s| - 1) == |s|
  {
    assert QuoteEnd(s, |s|) == |s|;
  }

  /** The scan stops at the end of the line, or else at the first comment in the command. */
  lemma LineEnd(name: string, command: string)
    ensures var s := AliasLine(name, command); var end := CommandEnd(s, 0);
            if OnePiece(name, command) then end == |s|
            else CommentAt(s, end) && s[..end] == "alias " + Quoted(name) + " \"" + Escaped(BeforeComment(command))
  {
    var s := AliasLine(name, command);
    var after := |s| - |AfterName(command)|;
    LineParts(name, command);
    LineStart(name, command);
    AliasWordEnd(s);
    if EndsInBackslash(name) {
      EndBehindOpenName(s, name, command, after);
      if HasComment(command) {
        JoinAt(s, after, CommandEnd(s, 0), "alias " + Quoted(name), Escaped(BeforeComment(command)));
      }
    } else {
      EndBehindClosedName(s, name, command, after);
    }
  }

  lemma JoinAt(s: string, i: nat, j: nat, head: string, tail: string)
    requires i + 2 <= j <= |s| && s[..i] == head && s[i] == ' ' && s[i + 1] == '"' && s[i + 2..j] == tail
    ensures s[..j] == head + " \"" + tail
  {
    assert s[..j] == s[..i] + [s[i], s[i + 1]] + s[i + 2..j];
  }

  lemma TrimStops(s: string)
    requires s != "" && s[|s| - 1] != ' '
    ensures TrimRight(s) == s
  {
  }

  lemma TrimSpace(s: string)
    requires s != ""
    ensures TrimRight(s + " ") == TrimRight(s)
  {
    assert (s + " ")[..|s|] == s;
  }

  lemma EscapedLast(text: string)
    requires text != ""
    ensures var last := text[|text| - 1]; Escaped(text) == Escaped(text[..|text| - 1]) + EscapeChar(last)
  {
    var front, last := text[..|text| - 1], text[|text| - 1];
    assert text == front + [last];
    EscapedConcat(front, [last]);
    assert Escaped([last]) == EscapeChar(last);
  }

  lemma EndsInLast(head: string, c: char)
    ensures var s := head + EscapeChar(c); s != "" && s[|s| - 1] == c
  {
  }

  lemma {:induction false} TrimEscaped(head: string, text: string)
    ensures TrimRight(head + "\"" + Escaped(text)) == head + "\"" + Escaped(Rstrip(text))
    decreases |text|
  {
    if text == "" {
      assert head + "\"" + Escaped(text) == head + "\"";
      TrimStops(head + "\"");
    } else {
      var front, last := text[..|text| - 1], text[|text| - 1];
      EscapedLast(text);
      ConcatRight(head + "\"", Escaped(front), EscapeChar(last));
      EndsInLast(head + "\"" + Escaped(front), last);
      assert EscapeChar(' ') == " ";
      hide Escaped, TrimRight, EscapeChar;
      if last == ' ' {
        TrimSpace(head + "\"" + Escaped(front));
        TrimEscaped(head, front);
      } else {
        TrimStops(head + "\"" + Escaped(text));
      }
    }
  }

  function Rstrip(s: string): string {
    if s != "" && s[|s| - 1] == ' ' then Rstrip(s[..|s| - 1]) else s
  }

  /** What is left of the line when the command in it is cut at a comment. */
  function CutLine(name: string, command: string): string {
    "alias " + Quoted(name) + " " + "\"" + Escaped(Rstrip(BeforeComment(command)))
  }

  lemma CutLineTrimmed(name: string, command: string)
    ensures Trimmed("alias " + Quoted(name) + " \"" + Escaped(BeforeComment(command))) == CutLine(name, command)
  {
    var line := "alias " + Quoted(name) + " \"" + Escaped(BeforeComment(command));
    assert TrimLeft(line) == line;
    TrimEscaped("alias " + Quoted(name) + " ", BeforeComment(command));
    assert "alias " + Quoted(name) + " " + "\"" == "alias " + Quoted(name) + " \"";
  }

  lemma LineHasNoNul(name: string, command: string)
    requires '\0' !in name && '\0' !in command
    ensures CString(AliasLine(name, command)) == AliasLine(name, command)
  {
    NoNul(name);
    NoNul(command);
  }

  /** The commands executed for an archived alias: always one. */
  lemma OneCommand(name: string, command: string)
    requires '\0' !in name && '\0' !in command
    ensures var s := AliasLine(name, command);
            Commands(CString(s), 0) == [if OnePiece(name, command) then s else CutLine(name, command)]
  {
    LineHasNoNul(name, command);
    LineEnd(name, command);
    LineStart(name, command);
    CutLineTrimmed(name, command);
    FirstCommand(AliasLine(name, command));
  }

  lemma FirstCommand(s: string)
    requires s != "" && s[0] != ' ' && s[|s| - 1] != ' '
    requires CommandEnd(s, 0) == |s| || CommentAt(s, CommandEnd(s, 0))
    ensures Commands(s, 0) == [if CommandEnd(s, 0) == |s| then s else Trimmed(s[..CommandEnd(s, 0)])]
  {
    var end := CommandEnd(s, 0);
    assert s[0..end] == s[..end];
    if end == |s| {
      assert s[..end] == s;
      assert Trimmed(s) == s;
    }
  }

  lemma {:induction false} NoNul(s: string)
    requires '\0' !in s
    ensures '\0' !in Escaped(s)
  {
    if s == "" {
    } else {
      NoNul(s[1..]);
    }
  }

  predicate Plain(c: char) {
    !Blank(c) && c != '\\' && c != '"'
  }

  lemma {:induction false} PlainWord(word: string, s: string, token: string)
    requires forall c :: c in word ==> Plain(c)
    ensures ParseWord(word + s, token) == ParseWord(s, token + word)
    decreases |word|
  {
    if word == "" {
      assert word + s == s && token + word == token;
    } else {
      assert word[0] in word && (word + s)[1..] == word[1..] + s;
      assert token + [word[0]] + word[1..] == token + word;
      PlainWord(word[1..], s, token + [word[0]]);
    }
  }

  lemma AliasWord(s: string)
    ensures ParseToken("alias " + s) == Parsed(Some("alias"), " " + s)
  {
    assert "alias " + s == "alias" + (" " + s);
    PlainWord("alias", " " + s, "");
    assert "" + "alias" == "alias";
  }

  lemma {:induction false} UnclosedQuote(text: string, token: string)
    ensures ParseQuoted(Escaped(text), token) == Parsed(None, "")
    decreases |text|
  {
    if text == "" {
    } else {
      var width := |EscapeChar(text[0])|;
      assert Escaped(text)[width..] == Escaped(text[1..]);
      UnclosedQuote(text[1..], token + [text[0]]);
    }
  }

  lemma TokensBehindName(name: string, more: string)
    ensures Tokens("alias " + (Quoted(name) + more)) == ["alias", name] + Tokens(more)
  {
    AliasWord(Quoted(name) + more);
    SkipOneBlank(Quoted(name) + more);
    ParseQuotedString(name, more);
  }

  /** Executing an archived alias line makes one call of C_DoCommand, with the tokens "alias", the name and the
      command; unless the name ends in a backslash and the command holds a comment, when the command is lost. */
  lemma ArchivedLineRuns(name: string, command: string)
    requires '\0' !in name && '\0' !in command
    ensures var calls := Commands(CString(AliasLine(name, command)), 0);
            |calls| == 1 &&
            Tokens(calls[0]) == if OnePiece(name, command) then ["alias", name, command] else ["alias", name]
  {
    OneCommand(name, command);
    if OnePiece(name, command) {
      TokensOfLine(name, command);
    } else {
      TokensOfCutLine(name, command);
    }
  }

  lemma TokensOfLine(name: string, command: string)
    ensures Tokens(AliasLine(name, command)) == ["alias", name, command]
  {
    assert AliasLine(name, command) == "alias " + (Quoted(name) + AfterName(command));
    TokensBehindName(name, AfterName(command));
    SkipOneBlank(Quoted(command));
    ParseQuotedString(command, "");
    assert Quoted(command) + "" == Quoted(command);
    assert Tokens(AfterName(command)) == [command] + Tokens("");
  }

  lemma TokensOfCutLine(name: string, command: string)
    ensures Tokens(CutLine(name, command)) == ["alias", name]
  {
    hide Tokens, Quoted, Escaped, Rstrip, BeforeComment;
    var text := Rstrip(BeforeComment(command));
    FiveParts("alias ", Quoted(name), " ", "\"", Escaped(text));
    TokensBehindName(name, " " + ("\"" + Escaped(text)));
    NoTokenInside(text);
  }

  lemma FiveParts(a: string, b: string, c: string, d: string, e: string)
    ensures a + b + c + d + e == a + (b + (c + (d + e)))
  {
  }

  lemma NoTokenInside(text: string)
    ensures Tokens(" " + ("\"" + Escaped(text))) == []
  {
    SkipOneBlank("\"" + Escaped(text));
    UnclosedQuote(text, "");
    assert ("\"" + Escaped(text))[1..] == Escaped(text);
  }
}
