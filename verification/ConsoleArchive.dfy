/** Archiving the aliases of common/c_dispatch.cpp to a file and executing what was archived. */
module ConsoleArchive {
  import opened TextTokens
  import opened Wrappers
  import opened ConsoleText
  import opened ConsoleSplit
  import opened ConsoleAlias
  import opened ConsoleTable
  import opened ConsoleRun

  // ----- Archiving

  /** The lines of C_ArchiveAliases, for the aliases in the order of the map. */
  function ArchiveLines(table: Table, order: seq<string>): (lines: seq<string>)
    requires forall key :: key in order ==> key in table && table[key].Alias?
    ensures |lines| == |order|
    ensures forall i :: 0 <= i < |order| ==> lines[i] == AliasLine(table[order[i]].name, table[order[i]].command)
  {
    if order == [] then []
    else [AliasLine(table[order[0]].name, table[order[0]].command)] + ArchiveLines(table, order[1..])
  }

  method ArchiveAlias(entry: Entry) returns (line: string)
    requires entry.Alias?
    ensures line == AliasLine(entry.name, entry.command)
  {
    var name := QuoteString(entry.name);
    var command := QuoteString(entry.command);
    line := "alias " + name + " " + command;
  }

  method ArchiveAliases(table: Table, order: seq<string>) returns (lines: seq<string>)
    requires forall key :: key in order ==> key in table && table[key].Alias?
    ensures lines == ArchiveLines(table, order)
  {
    hide AliasLine, ArchiveLines;
    ghost var all := ArchiveLines(table, order);
    lines := [];
    for i := 0 to |order|
      invariant lines == all[..i]
    {
      assert all[..i + 1] == all[..i] + [all[i]];
      var line := ArchiveAlias(table[order[i]]);
      lines := lines + [line];
    }
  }

  // ----- Executing what was archived

  /** What an archived line passes to the alias command. */
  function ArchivedArguments(cvars: Cvars, name: string, command: string): seq<string> {
    if OnePiece(name, command) then ["alias", Expand(cvars, name), Expand(cvars, command)]
    else ["alias", Expand(cvars, name)]
  }

  /** What executing an archived line makes of a table. */
  function AfterLine(cvars: Cvars, table: Table, name: string, command: string): Table {
    AliasTable(table, ArchivedArguments(cvars, name, command))
  }

  /** Executing one archived line calls the alias command once, with the name and the command that C_DoCommand
      makes of what was saved; or with the name alone, when the line is cut in two. */
  lemma ArchivedLineDoes(w: World, room: nat, table: Table, frames: Frames, name: string, command: string)
    requires '\0' !in name && '\0' !in command && IsCommand(table, "alias") && frames.running == {}
    ensures RunText(w, room, table, frames, AliasLine(name, command)) == Done(AfterLine(w.cvars, table, name, command))
  {
    hide Commands, CString, AliasLine, OnePiece, Tokens, AliasTable;
    ArchivedLineRuns(name, command);
    var calls := Commands(CString(AliasLine(name, command)), 0);
    ExpandsArguments(w.cvars, name, command);
    assert calls == [calls[0]];
    RunOne(w, room, table, frames, calls[0], ArchivedArguments(w.cvars, name, command));
  }

  lemma RunOne(w: World, room: nat, table: Table, frames: Frames, cmd: string, argv: seq<string>)
    requires argv == ExpandAll(w.cvars, Tokens(cmd)) && argv != [] && argv[0] == "alias" && IsCommand(table, "alias")
    requires frames.running == {}
    ensures RunCalls(w, room, table, frames, [cmd]) == Done(AliasTable(table, argv))
  {
    assert Lower("alias") == "alias";
    assert Dispatch(w.cvars, w.isAction, cmd) == Run(argv);
    hide Tokens, Dispatch, AliasTable;
    assert RunCall(w, room, table, frames, cmd) == Done(AliasTable(table, argv));
  }

  lemma ExpandsArguments(cvars: Cvars, name: string, command: string)
    ensures ExpandAll(cvars, ["alias", name, command]) == ["alias", Expand(cvars, name), Expand(cvars, command)]
    ensures ExpandAll(cvars, ["alias", name]) == ["alias", Expand(cvars, name)]
  {
    assert Expand(cvars, "alias") == "alias";
    hide Expand;
    assert [command][1..] == [] && [name][1..] == [];
    assert ExpandAll(cvars, [command]) == [Expand(cvars, command)];
    assert [name, command][1..] == [command];
    assert ExpandAll(cvars, [name, command]) == [Expand(cvars, name)] + ExpandAll(cvars, [command]);
    assert ExpandAll(cvars, [name]) == [Expand(cvars, name)];
    assert ["alias", name, command][1..] == [name, command];
    assert ["alias", name][1..] == [name];
  }

  function EntryOf(table: Table, key: string): Option<Entry> {
    if key in table then Some(table[key]) else None
  }

  /** The name a saved alias is defined under. */
  function Target(cvars: Cvars, name: string): string {
    Lower(Expand(cvars, name))
  }

  /** What a saved alias defines there; a line that is cut in two removes what was there. */
  function Defines(cvars: Cvars, name: string, command: string): Option<Entry> {
    if OnePiece(name, command) then Some(Alias(Target(cvars, name), Expand(cvars, command))) else None
  }

  lemma LineAt(cvars: Cvars, table: Table, name: string, command: string, key: string)
    requires '\0' !in name && '\0' !in command && IsCommand(table, "alias")
    ensures EntryOf(AfterLine(cvars, table, name, command), key) ==
            if key == Target(cvars, name) && !IsCommand(table, key) then Defines(cvars, name, command)
            else EntryOf(table, key)
  {
    hide OnePiece, Lower, Expand;
    var value := Expand(cvars, command);
    assert ["alias", Expand(cvars, name), value][2..] == [value];
    JoinOne(value);
  }

  lemma JoinOne(s: string)
    ensures Join([s], " ") == s
  {
  }

  /** Where no alias has that name, one archived line restores its alias exactly when it is not cut in two and
      the variables change neither the name, up to case, nor the command. */
  lemma ArchivedLineRestores(w: World, room: nat, table: Table, frames: Frames, name: string, command: string)
    requires '\0' !in name && '\0' !in command && IsCommand(table, "alias") && name !in table && frames.running == {}
    ensures RunText(w, room, table, frames, AliasLine(name, command)) == Done(table[name := Alias(name, command)]) <==>
            OnePiece(name, command) && Target(w.cvars, name) == name && Expand(w.cvars, command) == command
  {
    ArchivedLineDoes(w, room, table, frames, name, command);
    hide RunText, AfterLine, AliasLine, OnePiece, Target, Expand, Lower;
    var after := AfterLine(w.cvars, table, name, command);
    LineAt(w.cvars, table, name, command, name);
    if Target(w.cvars, name) == name && Defines(w.cvars, name, command) == Some(Alias(name, command)) {
      forall key
        ensures EntryOf(after, key) == EntryOf(table[name := Alias(name, command)], key)
      {
        LineAt(w.cvars, table, name, command, key);
      }
      SameTable(after, table[name := Alias(name, command)]);
    } else {
      assert EntryOf(table[name := Alias(name, command)], name) == Some(Alias(name, command));
    }
  }

  lemma SameTable(a: Table, b: Table)
    requires forall key :: EntryOf(a, key) == EntryOf(b, key)
    ensures a == b
  {
    forall key
      ensures key in a <==> key in b
      ensures key in a ==> a[key] == b[key]
    {
      assert EntryOf(a, key) == EntryOf(b, key);
    }
  }

  /** A variable that came to exist after the alias was defined: its value is what comes back. */
  lemma LaterVariable(w: World, room: nat, table: Table, value: string)
    requires IsCommand(table, "alias") && "x" !in table && w.cvars("later") == Some(value) && value != "$later"
    ensures RunText(w, room, table, IDLE, AliasLine("x", "$later")) != Done(table["x" := Alias("x", "$later")])
  {
    assert "$later"[1..] == "later";
    ArchivedLineRestores(w, room, table, IDLE, "x", "$later");
  }

  // ----- Executing a file of them

  /** The aliases of a table, each once. */
  ghost predicate ListsAliases(table: Table, order: seq<string>) {
    (forall i, j :: 0 <= i < j < |order| ==> order[i] != order[j]) &&
    forall key :: key in order <==> key in table && table[key].Alias?
  }

  /** The saved aliases hold C strings, under their own names. */
  ghost predicate Saved(table: Table, order: seq<string>) {
    forall key :: key in order ==>
      key in table && table[key].Alias? && table[key].name == key && '\0' !in key && '\0' !in table[key].command
  }

  /** The last of the aliases that is defined under this name. */
  function LastWriter(cvars: Cvars, order: seq<string>, key: string): (r: Option<string>)
    ensures r.Some? ==> r.value in order && Target(cvars, r.value) == key
    ensures r.None? ==> forall k :: k in order ==> Target(cvars, k) != key
  {
    if order == [] then None
    else
      var later := LastWriter(cvars, order[1..], key);
      assert order == [order[0]] + order[1..];
      if later.Some? then later else if Target(cvars, order[0]) == key then Some(order[0]) else None
  }

  /** What executing the archived lines makes of a table. */
  ghost function AfterLines(cvars: Cvars, saved: Table, order: seq<string>, table: Table): Table
    requires Saved(saved, order)
    decreases |order|
  {
    if order == [] then table
    else
      assert order[0] in order && forall k :: k in order[1..] ==> k in order;
      AfterLines(cvars, saved, order[1..], AfterLine(cvars, table, order[0], saved[order[0]].command))
  }

  lemma SavedParts(saved: Table, order: seq<string>)
    requires Saved(saved, order) && order != []
    ensures Saved(saved, order[1..]) && order[0] in saved && saved[order[0]].Alias? && saved[order[0]].name == order[0]
    ensures '\0' !in order[0] && '\0' !in saved[order[0]].command
    ensures forall key :: key in order ==> key in saved && saved[key].Alias?
    ensures forall key :: key in order[1..] ==> key in saved && saved[key].Alias?
  {
    assert order[0] in order && forall k :: k in order[1..] ==> k in order;
  }

  lemma {:induction false} ArchivedLinesDo(w: World, room: nat, saved: Table, order: seq<string>, table: Table,
                                           frames: Frames)
    requires Saved(saved, order) && IsCommand(table, "alias") && frames.running == {}
    ensures RunLines(w, room, table, frames, ArchiveLines(saved, order)) == Done(AfterLines(w.cvars, saved, order, table))
    decreases |order|
  {
    if order == [] {
    } else {
      var first := order[0];
      SavedParts(saved, order);
      hide Saved, RunText, AliasLine, AfterLine;
      ArchivedLineDoes(w, room, table, frames, first, saved[first].command);
      CommandsStay(w.cvars, table, first, saved[first].command, "alias");
      ArchivedLinesDo(w, room, saved, order[1..], AfterLine(w.cvars, table, first, saved[first].command), frames);
    }
  }

  lemma {:induction false} AfterLinesAt(cvars: Cvars, saved: Table, order: seq<string>, before: Table, key: string)
    requires Saved(saved, order) && IsCommand(before, "alias")
    ensures EntryOf(AfterLines(cvars, saved, order, before), key) ==
            var writer := LastWriter(cvars, order, key);
            if writer.None? || IsCommand(before, key) then EntryOf(before, key)
            else Defines(cvars, writer.value, saved[writer.value].command)
    decreases |order|
  {
    if order == [] {
    } else {
      hide AfterLine, OnePiece, Lower, Target, Defines;
      var first := order[0];
      assert first in order && forall k :: k in order[1..] ==> k in order;
      var next := AfterLine(cvars, before, first, saved[first].command);
      LineAt(cvars, before, first, saved[first].command, key);
      CommandsStay(cvars, before, first, saved[first].command, "alias");
      CommandsStay(cvars, before, first, saved[first].command, key);
      AfterLinesAt(cvars, saved, order[1..], next, key);
    }
  }

  lemma CommandsStay(cvars: Cvars, table: Table, name: string, command: string, key: string)
    requires '\0' !in name && '\0' !in command && IsCommand(table, "alias")
    ensures IsCommand(AfterLine(cvars, table, name, command), key) == IsCommand(table, key)
  {
    hide AfterLine, OnePiece, Target;
    LineAt(cvars, table, name, command, key);
    var after := AfterLine(cvars, table, name, command);
    assert IsCommand(after, key) <==> EntryOf(after, key) == Some(Command);
  }

  /** What a console has under a name after the archived lines: what the last of the aliases defined under it
      defines; commands stay. */
  lemma LinesAt(w: World, room: nat, saved: Table, order: seq<string>, before: Table, frames: Frames, key: string)
    requires Saved(saved, order) && IsCommand(before, "alias") && frames.running == {}
    ensures var r := RunLines(w, room, before, frames, ArchiveLines(saved, order));
            r.Done? && EntryOf(r.table, key) ==
            var writer := LastWriter(w.cvars, order, key);
            if writer.None? || IsCommand(before, key) then EntryOf(before, key)
            else Defines(w.cvars, writer.value, saved[writer.value].command)
  {
    ArchivedLinesDo(w, room, saved, order, before, frames);
    AfterLinesAt(w.cvars, saved, order, before, key);
  }

  ghost function BuiltIn(table: Table): Table {
    map key | key in table && table[key].Command? :: table[key]
  }

  /** Executing the line of one saved alias defines another, or itself, as it was. */
  predicate GivesBack(cvars: Cvars, table: Table, k: string, key: string) {
    k in table && table[k].Alias? && key in table && table[key].Alias? &&
    Target(cvars, k) == key && OnePiece(k, table[k].command) && Expand(cvars, table[k].command) == table[key].command
  }

  ghost predicate GivenBack(cvars: Cvars, table: Table, order: seq<string>, key: string) {
    exists k :: k in order && GivesBack(cvars, table, k, key)
  }

  /** Every saved alias is given back by the line of some saved alias. */
  ghost predicate AllGivenBack(cvars: Cvars, table: Table, order: seq<string>) {
    forall key :: key in order ==> GivenBack(cvars, table, order, key)
  }

  // Aliases that are all given back must be defined under as many names as there are: each under one of its own.

  ghost function Targets(cvars: Cvars, names: set<string>): set<string> {
    set k | k in names :: Target(cvars, k)
  }

  lemma {:induction false} TargetsNoMore(cvars: Cvars, names: set<string>)
    ensures |Targets(cvars, names)| <= |names|
    decreases |names|
  {
    hide Target;
    if names == {} {
    } else {
      var k :| k in names;
      TargetsNoMore(cvars, names - {k});
      assert Targets(cvars, names) == Targets(cvars, names - {k}) + {Target(cvars, k)};
    }
  }

  lemma SubsetNoSmaller(a: set<string>, b: set<string>)
    requires a <= b && |b| <= |a|
    ensures a == b
  {
    assert b == a + (b - a);
    assert |b| == |a| + |b - a|;
  }

  lemma TwoShareOne(cvars: Cvars, names: set<string>, k: string, l: string)
    requires k in names && l in names && k != l && Target(cvars, k) == Target(cvars, l)
    ensures |Targets(cvars, names)| < |names|
  {
    hide Target;
    TargetsNoMore(cvars, names - {k});
    assert l in names - {k};
    assert Targets(cvars, names) == Targets(cvars, names - {k});
    assert |names - {k}| == |names| - 1;
  }

  lemma TargetsPermuted(cvars: Cvars, names: set<string>)
    requires names <= Targets(cvars, names)
    ensures names == Targets(cvars, names)
    ensures forall k, l :: k in names && l in names && Target(cvars, k) == Target(cvars, l) ==> k == l
  {
    hide Target;
    TargetsNoMore(cvars, names);
    SubsetNoSmaller(names, Targets(cvars, names));
    forall k, l | k in names && l in names && Target(cvars, k) == Target(cvars, l)
      ensures k == l
    {
      if k != l {
        TwoShareOne(cvars, names, k, l);
      }
    }
  }

  ghost function NamesOf(order: seq<string>): (r: set<string>)
    ensures forall k :: k in r <==> k in order
  {
    set k | k in order
  }

  lemma GivenBackPermutes(cvars: Cvars, table: Table, order: seq<string>)
    requires AllGivenBack(cvars, table, order)
    ensures forall k :: k in order ==> Target(cvars, k) in order
    ensures forall k, l :: k in order && l in order && Target(cvars, k) == Target(cvars, l) ==> k == l
  {
    hide OnePiece, Expand, Target;
    var names := NamesOf(order);
    forall key | key in names
      ensures key in Targets(cvars, names)
    {
      assert GivenBack(cvars, table, order, key);
      var k :| k in order && GivesBack(cvars, table, k, key);
      assert k in names;
    }
    hide AllGivenBack, GivenBack;
    TargetsPermuted(cvars, names);
    forall k | k in order
      ensures Target(cvars, k) in order
    {
      assert k in names && Target(cvars, k) in Targets(cvars, names);
    }
  }

  /** Then the last line that writes a name is the one that gives it back. */
  lemma WriterGivesBack(cvars: Cvars, table: Table, order: seq<string>, key: string)
    requires AllGivenBack(cvars, table, order)
    ensures var writer := LastWriter(cvars, order, key);
            if key in order then writer.Some? && GivesBack(cvars, table, writer.value, key) else writer.None?
  {
    hide OnePiece, Expand, Target;
    GivenBackPermutes(cvars, table, order);
    if key in order {
      assert GivenBack(cvars, table, order, key);
      var k :| k in order && GivesBack(cvars, table, k, key);
    }
  }

  /** When all are given back, so is each. */
  lemma RestoredAt(cvars: Cvars, table: Table, order: seq<string>, key: string)
    requires ValidTable(table) && ListsAliases(table, order) && Saved(table, order) && IsCommand(table, "alias")
    requires AllGivenBack(cvars, table, order)
    ensures EntryOf(AfterLines(cvars, table, order, BuiltIn(table)), key) == EntryOf(table, key)
  {
    hide AfterLines, OnePiece, Expand, Lower, Target, ArchiveLines, AllGivenBack;
    AfterLinesAt(cvars, table, order, BuiltIn(table), key);
    WriterGivesBack(cvars, table, order, key);
  }

  lemma GivenBackAt(cvars: Cvars, table: Table, order: seq<string>, key: string)
    requires ValidTable(table) && ListsAliases(table, order) && Saved(table, order) && IsCommand(table, "alias")
    requires key in order
    requires EntryOf(AfterLines(cvars, table, order, BuiltIn(table)), key) == EntryOf(table, key)
    ensures GivenBack(cvars, table, order, key)
  {
    hide AfterLines, OnePiece, Expand, Lower, Target;
    AfterLinesAt(cvars, table, order, BuiltIn(table), key);
    var writer := LastWriter(cvars, order, key);
    assert writer.Some?;
    assert GivesBack(cvars, table, writer.value, key);
  }

  lemma AllOrNot(cvars: Cvars, table: Table, order: seq<string>)
    requires ValidTable(table) && ListsAliases(table, order) && Saved(table, order) && IsCommand(table, "alias")
    ensures AfterLines(cvars, table, order, BuiltIn(table)) == table <==> AllGivenBack(cvars, table, order)
  {
    hide AfterLines, OnePiece, Expand, Lower, Target, GivesBack, GivenBack;
    var after := AfterLines(cvars, table, order, BuiltIn(table));
    if AllGivenBack(cvars, table, order) {
      forall key
        ensures EntryOf(after, key) == EntryOf(table, key)
      {
        RestoredAt(cvars, table, order, key);
      }
      SameTable(after, table);
    }
    if after == table {
      forall key | key in order
        ensures GivenBack(cvars, table, order, key)
      {
        GivenBackAt(cvars, table, order, key);
      }
    }
  }

  /** Archiving the aliases of a table and executing the lines in a console that has only the built-in commands
      gives the table again exactly when every alias is given back by one of the lines: its own, unless variables
      change names. `LinesAt` says what comes back otherwise. */
  lemma ArchiveThenExec(w: World, room: nat, table: Table, order: seq<string>, frames: Frames)
    requires ValidTable(table) && ListsAliases(table, order) && Saved(table, order) && IsCommand(table, "alias")
    requires frames.running == {}
    ensures RunLines(w, room, BuiltIn(table), frames, ArchiveLines(table, order)) == Done(table) <==>
            AllGivenBack(w.cvars, table, order)
  {
    ArchivedLinesDo(w, room, table, order, BuiltIn(table), frames);
    AllOrNot(w.cvars, table, order);
  }

  /** A saved alias whose own line restores it. */
  predicate Survives(cvars: Cvars, entry: Entry) {
    entry.Command? || (OnePiece(entry.name, entry.command) && Expand(cvars, entry.command) == entry.command)
  }

  /** Where variables change no name, that is so exactly when every alias survives on its own. */
  lemma ArchiveThenExecByName(w: World, room: nat, table: Table, order: seq<string>, frames: Frames)
    requires ValidTable(table) && ListsAliases(table, order) && Saved(table, order) && IsCommand(table, "alias")
    requires frames.running == {} && forall key :: key in order ==> Target(w.cvars, key) == key
    ensures RunLines(w, room, BuiltIn(table), frames, ArchiveLines(table, order)) == Done(table) <==>
            forall key :: key in table ==> Survives(w.cvars, table[key])
  {
    hide RunLines, OnePiece, Expand, Lower, Target;
    ArchiveThenExec(w, room, table, order, frames);
    if AllGivenBack(w.cvars, table, order) {
      forall key | key in table
        ensures Survives(w.cvars, table[key])
      {
        if key in order {
          assert GivenBack(w.cvars, table, order, key);
          var k :| k in order && GivesBack(w.cvars, table, k, key);
          assert k == key;
        }
      }
    }
    if forall key :: key in table ==> Survives(w.cvars, table[key]) {
      forall key | key in order
        ensures GivenBack(w.cvars, table, order, key)
      {
        assert GivesBack(w.cvars, table, key, key);
      }
    }
  }

  // ----- The file in between

  /** The length of the first line. */
  function LineLength(text: string): (n: nat)
    ensures n <= |text| && '\n' !in text[..n] && (n < |text| ==> text[n] == '\n')
  {
    if text == "" || text[0] == '\n' then 0
    else
      var n := 1 + LineLength(text[1..]);
      assert text[..n] == [text[0]] + text[1..][..n - 1];
      n
  }

  /** The lines exec acts on: stripped, and not empty. */
  function ReadLines(text: string): seq<string>
    decreases |text|
  {
    if text == "" then [] else
      var n := LineLength(text);
      var line := Strip(text[..n]);
      (if line == "" then [] else [line]) + if n < |text| then ReadLines(text[n + 1..]) else []
  }

  /** Each archived line ends in a newline. */
  function FileText(lines: seq<string>): string {
    if lines == [] then "" else lines[0] + "\n" + FileText(lines[1..])
  }

  lemma {:induction false} LineLengthIs(line: string, rest: string)
    requires '\n' !in line
    ensures LineLength(line + "\n" + rest) == |line|
    decreases |line|
  {
    var text := line + "\n" + rest;
    if line == "" {
    } else {
      assert line[0] in line;
      assert text[1..] == line[1..] + "\n" + rest;
      LineLengthIs(line[1..], rest);
    }
  }

  predicate PlainLine(line: string) {
    '\n' !in line && line != "" && !IsSpace(line[0]) && !IsSpace(line[|line| - 1])
  }

  lemma ReadOneLine(line: string, rest: string)
    requires PlainLine(line)
    ensures ReadLines(line + "\n" + rest) == [line] + ReadLines(rest)
  {
    var text := line + "\n" + rest;
    LineLengthIs(line, rest);
    assert text[..|line|] == line && text[|line| + 1..] == rest;
    assert Strip(line) == line;
  }

  /** A file of lines that hold no newline, and neither start nor end in white space, is read line by line. */
  lemma {:induction false} ReadWritten(lines: seq<string>)
    requires forall i :: 0 <= i < |lines| ==> PlainLine(lines[i])
    ensures ReadLines(FileText(lines)) == lines
    decreases |lines|
  {
    hide PlainLine;
    if lines == [] {
    } else {
      ReadOneLine(lines[0], FileText(lines[1..]));
      ReadWritten(lines[1..]);
      assert lines == [lines[0]] + lines[1..];
    }
  }

  lemma {:induction false} EscapedKeeps(s: string, c: char)
    requires !ValidEscape(c)
    ensures c in Escaped(s) <==> c in s
  {
    if s == "" {
    } else {
      EscapedKeeps(s[1..], c);
      assert s == [s[0]] + s[1..];
    }
  }

  lemma AliasLineShape(name: string, command: string)
    ensures PlainLine(AliasLine(name, command)) <==> '\n' !in name && '\n' !in command
    ensures '\n' in AliasLine(name, command) <==> '\n' in name || '\n' in command
  {
    EscapedKeeps(name, '\n');
    EscapedKeeps(command, '\n');
  }

  lemma {:induction false} StripKeepsOut(s: string, c: char)
    requires c !in s
    ensures c !in Strip(s)
    decreases |s|
  {
    if s == "" {
    } else if IsSpace(s[|s| - 1]) {
      StripKeepsOut(s[..|s| - 1], c);
    } else if IsSpace(s[0]) {
      StripKeepsOut(s[1..], c);
    }
  }

  /** No line that is read holds a newline. */
  lemma {:induction false} LinesHoldNone(text: string)
    ensures forall line :: line in ReadLines(text) ==> '\n' !in line
    decreases |text|
  {
    if text == "" {
    } else {
      var n := LineLength(text);
      StripKeepsOut(text[..n], '\n');
      if n < |text| {
        LinesHoldNone(text[n + 1..]);
      }
    }
  }

  /** The names and commands of the listed aliases hold no newline. */
  ghost predicate NewlineFree(table: Table, order: seq<string>)
    requires forall key :: key in order ==> key in table && table[key].Alias?
  {
    forall i :: 0 <= i < |order| ==> '\n' !in table[order[i]].name && '\n' !in table[order[i]].command
  }

  /** exec reads the archived aliases as the lines that were printed exactly when none of them holds a newline. */
  lemma ArchiveFile(table: Table, order: seq<string>)
    requires forall key :: key in order ==> key in table && table[key].Alias?
    ensures ReadLines(FileText(ArchiveLines(table, order))) == ArchiveLines(table, order) <==> NewlineFree(table, order)
  {
    hide AliasLine, PlainLine;
    var lines := ArchiveLines(table, order);
    forall i | 0 <= i < |lines|
      ensures PlainLine(lines[i]) <==> '\n' !in table[order[i]].name && '\n' !in table[order[i]].command
      ensures '\n' in lines[i] <==> '\n' in table[order[i]].name || '\n' in table[order[i]].command
    {
      AliasLineShape(table[order[i]].name, table[order[i]].command);
    }
    if NewlineFree(table, order) {
      ReadWritten(lines);
    } else {
      var i :| 0 <= i < |order| && '\n' in lines[i];
      NewlineIsLost(lines, i);
    }
  }

  lemma NewlineIsLost(lines: seq<string>, i: nat)
    requires i < |lines| && '\n' in lines[i]
    ensures ReadLines(FileText(lines)) != lines
  {
    hide ReadLines, FileText;
    LinesHoldNone(FileText(lines));
    assert lines[i] in lines;
  }

  lemma ExecIs(w: World, room: nat, table: Table, frames: Frames, name: string, path: string, lines: seq<string>)
    requires path !in frames.files && |frames.files| < MAX_EXEC_DEPTH && room > 0
    requires w.find(name) == Some(path) && w.read(path) == Some(lines)
    ensures RunExec(w, room, table, frames, name) ==
            RunLines(w, room - 1, table, frames.(files := frames.files + [path]), lines)
  {
    hide RunLines;
  }

  /** From archiving the aliases to executing the file, for a console that is not executing it already. */
  lemma ExecArchive(w: World, room: nat, table: Table, order: seq<string>, frames: Frames, name: string, path: string)
    requires ValidTable(table) && ListsAliases(table, order) && Saved(table, order) && IsCommand(table, "alias")
    requires frames.running == {} && path !in frames.files && |frames.files| < MAX_EXEC_DEPTH && room > 0
    requires w.find(name) == Some(path) && w.read(path) == Some(ReadLines(FileText(ArchiveLines(table, order))))
    requires NewlineFree(table, order)
    ensures RunExec(w, room, BuiltIn(table), frames, name) == Done(table) <==> AllGivenBack(w.cvars, table, order)
  {
    ArchiveFile(table, order);
    hide ListsAliases, ValidTable, Saved, NewlineFree, BuiltIn, RunLines, RunExec, AllGivenBack;
    ExecFrom(w, room, table, order, frames, name, path, ArchiveLines(table, order));
  }

  lemma ExecFrom(w: World, room: nat, table: Table, order: seq<string>, frames: Frames, name: string, path: string,
                 lines: seq<string>)
    requires ValidTable(table) && ListsAliases(table, order) && Saved(table, order) && IsCommand(table, "alias")
    requires frames.running == {} && path !in frames.files && |frames.files| < MAX_EXEC_DEPTH && room > 0
    requires w.find(name) == Some(path) && w.read(path) == Some(lines) && lines == ArchiveLines(table, order)
    ensures RunExec(w, room, BuiltIn(table), frames, name) == Done(table) <==> AllGivenBack(w.cvars, table, order)
  {
    hide ListsAliases, ValidTable, Saved, BuiltIn, RunLines, RunExec, AllGivenBack;
    ExecIs(w, room, BuiltIn(table), frames, name, path, lines);
    ArchiveThenExec(w, room - 1, table, order, frames.(files := frames.files + [path]));
  }
}
