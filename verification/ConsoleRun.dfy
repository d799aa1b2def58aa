/** Executing console text in common/c_dispatch.cpp: AddCommandString runs the commands of a line, an alias runs
    its own text with the arguments behind it, and exec runs the lines of a file. An alias that is running is
    locked, and a file that is being executed, or the 33rd, is ignored. */
module ConsoleRun {
  import opened TextTokens
  import opened Wrappers
  import opened ConsoleText
  import opened ConsoleSplit
  import opened ConsoleTable

  const MAX_EXEC_DEPTH: nat := 32

  /** What execution depends on: `find` gives the path of a configuration file, and `read` its lines, trimmed and
      without the empty ones. */
  datatype World = World(cvars: Cvars, isAction: string -> bool, find: string -> Option<string>,
                         read: string -> Option<seq<string>>)

  /** The aliases whose state_lock is set, and exec_stack. */
  datatype Frames = Frames(running: set<string>, files: seq<string>)

  const IDLE: Frames := Frames({}, [])

  /** How execution ends. `Stopped`: an empty first token, which makes the source throw, or an alias that deletes
      itself or one that runs it, whose text is then read after it is freed. `TooDeep`: more calls inside one
      another than there is room for. */
  datatype Result = Done(table: Table) | Stopped | TooDeep(table: Table)

  /** The text an alias runs: its command, and the arguments it was given. */
  function WithArguments(command: string, args: seq<string>): string
    decreases |args|
  {
    if args == [] then command else WithArguments(command, args[..|args| - 1]) + " " + args[|args| - 1]
  }

  // AddCommandString, C_DoCommand, the aliases and exec, with room for so many of them inside one another.

  function RunText(w: World, room: nat, table: Table, frames: Frames, text: string): Result
    decreases room, 4, 0
  {
    RunCalls(w, room, table, frames, Commands(CString(text), 0))
  }

  function RunCalls(w: World, room: nat, table: Table, frames: Frames, cmds: seq<string>): Result
    decreases room, 3, |cmds|
  {
    if cmds == [] then Done(table)
    else
      match RunCall(w, room, table, frames, cmds[0])
      case Done(t) => RunCalls(w, room, t, frames, cmds[1..])
      case other => other
  }

  function RunCall(w: World, room: nat, table: Table, frames: Frames, cmd: string): Result
    decreases room, 2, 0
  {
    match Dispatch(w.cvars, w.isAction, cmd)
    case OutOfRange => Stopped
    case Run(argv) => RunArgv(w, room, table, frames, argv)
    case _ => Done(table)
  }

  function RunArgv(w: World, room: nat, table: Table, frames: Frames, argv: seq<string>): Result
    requires argv != []
    decreases room, 1, 0
  {
    var key := Lower(argv[0]);
    if key !in table then Done(table)
    else
      match table[key]
      case Alias(_, command) => RunAlias(w, room, table, frames, key, WithArguments(command, argv[1..]))
      case Command =>
        if key == "alias" then Redefine(table, frames, argv)
        else if key == "exec" && |argv| > 1 then RunExec(w, room, table, frames, argv[1])
        else Done(table)
  }

  /** The alias command; deleting an alias that is running is beyond what the language defines. */
  function Redefine(table: Table, frames: Frames, argv: seq<string>): Result
    requires argv != []
  {
    if |argv| > 1 && Lower(argv[1]) in frames.running then Stopped else Done(AliasTable(table, argv))
  }

  /** DConsoleAlias::Run */
  function RunAlias(w: World, room: nat, table: Table, frames: Frames, key: string, text: string): Result
    decreases room, 0, 0
  {
    if key in frames.running then Done(table)
    else if room == 0 then TooDeep(table)
    else RunText(w, room - 1, table, frames.(running := frames.running + {key}), text)
  }

  /** The exec command. */
  function RunExec(w: World, room: nat, table: Table, frames: Frames, name: string): Result
    decreases room, 0, 0
  {
    match w.find(name)
    case None => Done(table)
    case Some(path) =>
      if path in frames.files || |frames.files| >= MAX_EXEC_DEPTH then Done(table)
      else
        match w.read(path)
        case None => Done(table)
        case Some(lines) =>
          if room == 0 then TooDeep(table)
          else RunLines(w, room - 1, table, frames.(files := frames.files + [path]), lines)
  }

  function RunLines(w: World, room: nat, table: Table, frames: Frames, lines: seq<string>): Result
    decreases room, 5, |lines|
  {
    if lines == [] then Done(table)
    else
      match RunText(w, room, table, frames, lines[0])
      case Done(t) => RunLines(w, room, t, frames, lines[1..])
      case other => other
  }

  // ----- What every execution keeps

  /** What is running is in the table, and no file is executed inside itself. */
  ghost predicate Framed(table: Table, frames: Frames) {
    (forall key :: key in frames.running ==> key in table && table[key].Alias?) && |frames.files| <= MAX_EXEC_DEPTH
  }

  function Aliases(table: Table): set<string> {
    set key | key in table && table[key].Alias?
  }

  /** How many calls inside one another an execution is. */
  function Depth(frames: Frames): nat {
    |frames.running| + |frames.files|
  }

  /** What an execution that ends, or has gone deep, has kept: the table is valid, the commands are what they
      were, what runs is still there, and the depth reached is below the number of aliases there are then and the
      number of files that exec allows. */
  ghost predicate Keeps(table: Table, frames: Frames, room: nat, r: Result) {
    match r
    case Done(t) => ValidTable(t) && SameCommands(table, t) && Framed(t, frames)
    case Stopped => true
    case TooDeep(t) =>
      ValidTable(t) && SameCommands(table, t) && Depth(frames) + room < |Aliases(t)| + MAX_EXEC_DEPTH
  }

  lemma KeepsThen(table: Table, t: Table, frames: Frames, room: nat, r: Result)
    requires Keeps(table, frames, room, Done(t)) && Keeps(t, frames, room, r)
    ensures Keeps(table, frames, room, r)
  {
  }

  lemma RunningFit(table: Table, frames: Frames)
    requires Framed(table, frames)
    ensures frames.running <= Aliases(table) && |frames.running| <= |Aliases(table)|
  {
    SubsetNoLarger(frames.running, Aliases(table));
  }

  lemma SubsetNoLarger(a: set<string>, b: set<string>)
    requires a <= b
    ensures |a| <= |b|
  {
    assert b == a + (b - a);
  }

  lemma RedefineKeeps(table: Table, frames: Frames, room: nat, argv: seq<string>)
    requires ValidTable(table) && Framed(table, frames) && argv != []
    ensures Keeps(table, frames, room, Redefine(table, frames, argv))
  {
    hide Lower;
    AliasTableKeeps(table, argv);
  }

  lemma {:induction false} TextKeeps(w: World, room: nat, table: Table, frames: Frames, text: string)
    requires ValidTable(table) && Framed(table, frames)
    ensures Keeps(table, frames, room, RunText(w, room, table, frames, text))
    decreases room, 4, 0
  {
    hide Commands, CString, Keeps, ValidTable, Framed;
    CallsKeep(w, room, table, frames, Commands(CString(text), 0));
  }

  lemma {:induction false} CallsKeep(w: World, room: nat, table: Table, frames: Frames, cmds: seq<string>)
    requires ValidTable(table) && Framed(table, frames)
    ensures Keeps(table, frames, room, RunCalls(w, room, table, frames, cmds))
    decreases room, 3, |cmds|
  {
    if cmds == [] {
    } else {
      hide RunCall, SameCommands, ValidTable, Framed;
      var first := RunCall(w, room, table, frames, cmds[0]);
      CallKeeps(w, room, table, frames, cmds[0]);
      if first.Done? {
        CallsKeep(w, room, first.table, frames, cmds[1..]);
        KeepsThen(table, first.table, frames, room, RunCalls(w, room, first.table, frames, cmds[1..]));
      }
    }
  }

  lemma {:induction false} CallKeeps(w: World, room: nat, table: Table, frames: Frames, cmd: string)
    requires ValidTable(table) && Framed(table, frames)
    ensures Keeps(table, frames, room, RunCall(w, room, table, frames, cmd))
    decreases room, 2, 0
  {
    var outcome := Dispatch(w.cvars, w.isAction, cmd);
    hide Dispatch, RunArgv;
    if outcome.Run? {
      ArgvKeeps(w, room, table, frames, outcome.argv);
    }
  }

  lemma {:induction false} ArgvKeeps(w: World, room: nat, table: Table, frames: Frames, argv: seq<string>)
    requires ValidTable(table) && Framed(table, frames) && argv != []
    ensures Keeps(table, frames, room, RunArgv(w, room, table, frames, argv))
    decreases room, 1, 0
  {
    hide Lower, RunAlias, RunExec, Redefine, WithArguments;
    var key := Lower(argv[0]);
    if key in table {
      match table[key]
      case Alias(_, command) =>
        AliasKeeps(w, room, table, frames, key, WithArguments(command, argv[1..]));
      case Command =>
        RedefineKeeps(table, frames, room, argv);
        if |argv| > 1 {
          ExecKeeps(w, room, table, frames, argv[1]);
        }
    }
  }

  /** One more alias that runs was not among those that did. */
  lemma OneMoreRuns(table: Table, frames: Frames, key: string)
    requires Framed(table, frames) && key in table && table[key].Alias? && key !in frames.running
    ensures var more := frames.(running := frames.running + {key});
            Framed(table, more) && Depth(more) == Depth(frames) + 1 <= |Aliases(table)| + MAX_EXEC_DEPTH
  {
    var more := frames.(running := frames.running + {key});
    assert |frames.running + {key}| == |frames.running| + 1;
    RunningFit(table, more);
  }

  lemma FewerFrames(table: Table, frames: Frames, more: Frames, room: nat, r: Result)
    requires room > 0 && Keeps(table, more, room - 1, r) && Depth(more) == Depth(frames) + 1
    requires frames.running <= more.running && |frames.files| <= |more.files|
    ensures Keeps(table, frames, room, r)
  {
  }

  lemma {:induction false} AliasKeeps(w: World, room: nat, table: Table, frames: Frames, key: string, text: string)
    requires ValidTable(table) && Framed(table, frames) && key in table && table[key].Alias?
    ensures Keeps(table, frames, room, RunAlias(w, room, table, frames, key, text))
    decreases room, 0, 0
  {
    if key !in frames.running {
      OneMoreRuns(table, frames, key);
      if room > 0 {
        var more := frames.(running := frames.running + {key});
        hide Keeps, Framed, ValidTable, RunText;
        TextKeeps(w, room - 1, table, more, text);
        FewerFrames(table, frames, more, room, RunText(w, room - 1, table, more, text));
      }
    }
  }

  lemma {:induction false} ExecKeeps(w: World, room: nat, table: Table, frames: Frames, name: string)
    requires ValidTable(table) && Framed(table, frames)
    ensures Keeps(table, frames, room, RunExec(w, room, table, frames, name))
    decreases room, 0, 0
  {
    RunningFit(table, frames);
    match w.find(name)
    case None =>
    case Some(path) =>
      if path !in frames.files && |frames.files| < MAX_EXEC_DEPTH && w.read(path).Some? && room > 0 {
        var more := frames.(files := frames.files + [path]);
        hide ValidTable, RunLines;
        assert Framed(table, more);
        LinesKeep(w, room - 1, table, more, w.read(path).value);
        FewerFrames(table, frames, more, room, RunLines(w, room - 1, table, more, w.read(path).value));
      }
  }

  /** Whatever a file does, with aliases that define and run aliases and execute files inside one another: no
      command becomes an alias or goes, every alias is filed under its own lower-case name, and the calls inside
      one another stay fewer than the aliases there are and the 32 files that exec allows. */
  lemma {:induction false} LinesKeep(w: World, room: nat, table: Table, frames: Frames, lines: seq<string>)
    requires ValidTable(table) && Framed(table, frames)
    ensures Keeps(table, frames, room, RunLines(w, room, table, frames, lines))
    decreases room, 5, |lines|
  {
    if lines == [] {
    } else {
      hide RunText, SameCommands, ValidTable, Framed;
      var first := RunText(w, room, table, frames, lines[0]);
      TextKeeps(w, room, table, frames, lines[0]);
      if first.Done? {
        LinesKeep(w, room, first.table, frames, lines[1..]);
        KeepsThen(table, first.table, frames, room, RunLines(w, room, first.table, frames, lines[1..]));
      }
    }
  }

  /** So execution ends, or has by then defined more aliases than any bound one may set. */
  lemma EndsUnlessAliasesGrow(w: World, table: Table, lines: seq<string>, bound: nat)
    requires ValidTable(table)
    ensures var r := RunLines(w, bound + MAX_EXEC_DEPTH, table, IDLE, lines);
            r.Done? || r.Stopped? || |Aliases(r.table)| > bound
  {
    LinesKeep(w, bound + MAX_EXEC_DEPTH, table, IDLE, lines);
  }

  // ----- More room makes no difference

  /** Unless there was too little of it. */
  predicate Agrees(r: Result, roomier: Result) {
    r.TooDeep? || roomier == r
  }

  lemma {:induction false} RoomierText(w: World, room: nat, table: Table, frames: Frames, text: string)
    ensures Agrees(RunText(w, room, table, frames, text), RunText(w, room + 1, table, frames, text))
    decreases room, 4, 0
  {
    hide Commands, CString;
    RoomierCalls(w, room, table, frames, Commands(CString(text), 0));
  }

  lemma {:induction false} RoomierCalls(w: World, room: nat, table: Table, frames: Frames, cmds: seq<string>)
    ensures Agrees(RunCalls(w, room, table, frames, cmds), RunCalls(w, room + 1, table, frames, cmds))
    decreases room, 3, |cmds|
  {
    if cmds == [] {
    } else {
      hide RunCall;
      var first := RunCall(w, room, table, frames, cmds[0]);
      RoomierCall(w, room, table, frames, cmds[0]);
      if first.Done? {
        RoomierCalls(w, room, first.table, frames, cmds[1..]);
      }
    }
  }

  lemma {:induction false} RoomierCall(w: World, room: nat, table: Table, frames: Frames, cmd: string)
    ensures Agrees(RunCall(w, room, table, frames, cmd), RunCall(w, room + 1, table, frames, cmd))
    decreases room, 2, 0
  {
    var outcome := Dispatch(w.cvars, w.isAction, cmd);
    hide Dispatch, RunArgv;
    if outcome.Run? {
      RoomierArgv(w, room, table, frames, outcome.argv);
    }
  }

  lemma {:induction false} RoomierArgv(w: World, room: nat, table: Table, frames: Frames, argv: seq<string>)
    requires argv != []
    ensures Agrees(RunArgv(w, room, table, frames, argv), RunArgv(w, room + 1, table, frames, argv))
    decreases room, 1, 0
  {
    hide Lower, RunAlias, RunExec, Redefine, WithArguments;
    var key := Lower(argv[0]);
    if key in table {
      match table[key]
      case Alias(_, command) =>
        RoomierAlias(w, room, table, frames, key, WithArguments(command, argv[1..]));
      case Command =>
        if |argv| > 1 {
          RoomierExec(w, room, table, frames, argv[1]);
        }
    }
  }

  lemma {:induction false} RoomierAlias(w: World, room: nat, table: Table, frames: Frames, key: string, text: string)
    ensures Agrees(RunAlias(w, room, table, frames, key, text), RunAlias(w, room + 1, table, frames, key, text))
    decreases room, 0, 0
  {
    if room > 0 {
      hide RunText;
      RoomierText(w, room - 1, table, frames.(running := frames.running + {key}), text);
    }
  }

  lemma {:induction false} RoomierExec(w: World, room: nat, table: Table, frames: Frames, name: string)
    ensures Agrees(RunExec(w, room, table, frames, name), RunExec(w, room + 1, table, frames, name))
    decreases room, 0, 0
  {
    if room > 0 && w.find(name).Some? && w.read(w.find(name).value).Some? {
      hide RunLines;
      RoomierLines(w, room - 1, table, frames.(files := frames.files + [w.find(name).value]),
                   w.read(w.find(name).value).value);
    }
  }

  lemma {:induction false} RoomierLines(w: World, room: nat, table: Table, frames: Frames, lines: seq<string>)
    ensures Agrees(RunLines(w, room, table, frames, lines), RunLines(w, room + 1, table, frames, lines))
    decreases room, 5, |lines|
  {
    if lines == [] {
    } else {
      hide RunText;
      var first := RunText(w, room, table, frames, lines[0]);
      RoomierText(w, room, table, frames, lines[0]);
      if first.Done? {
        RoomierLines(w, room, first.table, frames, lines[1..]);
      }
    }
  }

  /** An execution that is not too deep for one room is the same in every larger one. */
  lemma {:induction false} RoomMakesNoDifference(w: World, room: nat, more: nat, table: Table, frames: Frames,
                                                 lines: seq<string>)
    ensures Agrees(RunLines(w, room, table, frames, lines), RunLines(w, room + more, table, frames, lines))
    decreases more
  {
    if more == 0 {
    } else {
      hide RunLines;
      RoomMakesNoDifference(w, room, more - 1, table, frames, lines);
      RoomierLines(w, room + (more - 1), table, frames, lines);
    }
  }

  // ----- The console

  /** Whether an execution ran to its end. */
  datatype Ending = Ended | Halted | OutOfRoom

  class Console {
    const world: World
    var commands: Table
    /** The aliases whose state_lock is set. */
    var running: set<string>
    var exec_stack: seq<string>

    constructor (world: World, commands: Table)
      ensures this.world == world && this.commands == commands && running == {} && exec_stack == []
    {
      this.world, this.commands, running, exec_stack := world, commands, {}, [];
    }

    ghost function Now(): Frames
      reads this
    {
      Frames(running, exec_stack)
    }

    /** What executing something must achieve: the ending and the table of its result; what was running is what
        is running again. */
    twostate predicate Does(ending: Ending, r: Result)
      reads this
    {
      match r
      case Done(t) => ending == Ended && commands == t && Now() == old(Now())
      case Stopped => ending == Halted
      case TooDeep(t) => ending == OutOfRoom && commands == t
    }

    method AliasCommand(argv: seq<string>)
      requires argv != []
      modifies this`commands
      ensures commands == AliasTable(old(commands), argv)
    {
      if |argv| == 1 {
        return;
      }
      var key := Lower(argv[1]);
      if key in commands {
        if commands[key].Command? {
          return;
        }
        commands := commands - {key};
      } else if |argv| == 2 {
        assert commands - {key} == commands;
        return;
      }
      if |argv| > 2 {
        var param := ArgCombine(argv[2..]);
        assert (commands - {key})[key := Alias(key, param)] == commands[key := Alias(key, param)];
        commands := commands[key := Alias(key, param)];
      }
    }

    /** AddCommandString */
    method AddText(room: nat, text: string) returns (ending: Ending)
      modifies this
      ensures Does(ending, RunText(world, room, old(commands), old(Now()), text))
      decreases room, 4, 0
    {
      hide Commands, CString;
      var calls := AddCommandString(text);
      ending := DoCalls(room, calls);
    }

    method DoCalls(room: nat, calls: seq<string>) returns (ending: Ending)
      modifies this
      ensures Does(ending, RunCalls(world, room, old(commands), old(Now()), calls))
      decreases room, 3, |calls|
    {
      hide RunCall;
      var i := 0;
      while i < |calls|
        invariant 0 <= i <= |calls| && Now() == old(Now())
        invariant RunCalls(world, room, commands, Now(), calls[i..]) ==
                  RunCalls(world, room, old(commands), old(Now()), calls)
      {
        assert calls[i..][1..] == calls[i + 1..];
        ending := Call(room, calls[i]);
        if ending != Ended {
          return;
        }
        i := i + 1;
      }
      return Ended;
    }

    /** C_DoCommand */
    method Call(room: nat, cmd: string) returns (ending: Ending)
      modifies this
      ensures Does(ending, RunCall(world, room, old(commands), old(Now()), cmd))
      decreases room, 2, 0
    {
      var outcome := DoCommand(world.cvars, world.isAction, cmd);
      hide Dispatch, RunArgv;
      match outcome
      case OutOfRange => return Halted;
      case Run(argv) => ending := Invoke(room, argv);
      case _ => return Ended;
    }

    /** The call of Run on what the table has under the first argument. */
    method Invoke(room: nat, argv: seq<string>) returns (ending: Ending)
      requires argv != []
      modifies this
      ensures Does(ending, RunArgv(world, room, old(commands), old(Now()), argv))
      decreases room, 1, 0
    {
      hide Lower, RunAlias, RunExec, WithArguments, AliasTable;
      var key := Lower(argv[0]);
      if key !in commands {
        return Ended;
      }
      match commands[key]
      case Alias(_, command) =>
        var text := AppendArguments(command, argv[1..]);
        ending := RunLocked(room, key, text);
      case Command =>
        if key == "alias" {
          if |argv| > 1 && Lower(argv[1]) in running {
            return Halted;
          }
          AliasCommand(argv);
          return Ended;
        } else if key == "exec" && |argv| > 1 {
          ending := Exec(room, argv[1]);
        } else {
          return Ended;
        }
    }

    method AppendArguments(command: string, args: seq<string>) returns (m_CommandParam: string)
      ensures m_CommandParam == WithArguments(command, args)
    {
      m_CommandParam := command;
      for i := 0 to |args|
        invariant m_CommandParam == WithArguments(command, args[..i])
      {
        assert args[..i + 1][..i] == args[..i];
        m_CommandParam := m_CommandParam + " " + args[i];
      }
      assert args[..|args|] == args;
    }

    /** DConsoleAlias::Run */
    method RunLocked(room: nat, key: string, text: string) returns (ending: Ending)
      modifies this
      ensures Does(ending, RunAlias(world, room, old(commands), old(Now()), key, text))
      decreases room, 0, 0
    {
      hide RunText;
      if key in running {
        return Ended;
      }
      if room == 0 {
        return OutOfRoom;
      }
      running := running + {key};
      ending := AddText(room - 1, text);
      if ending == Ended {
        assert running - {key} == old(running);
        running := running - {key};
      }
    }

    /** The exec command, for files without conditional tags. */
    method Exec(room: nat, name: string) returns (ending: Ending)
      modifies this
      ensures Does(ending, RunExec(world, room, old(commands), old(Now()), name))
      decreases room, 0, 0
    {
      hide RunLines;
      var found := world.find(name);
      if found.None? || found.value in exec_stack || |exec_stack| >= MAX_EXEC_DEPTH {
        return Ended;
      }
      var lines := world.read(found.value);
      if lines.None? {
        return Ended;
      }
      if room == 0 {
        return OutOfRoom;
      }
      exec_stack := exec_stack + [found.value];
      ending := ExecLines(room - 1, lines.value);
      if ending == Ended {
        assert exec_stack[..|exec_stack| - 1] == old(exec_stack);
        exec_stack := exec_stack[..|exec_stack| - 1];
      }
    }

    method ExecLines(room: nat, lines: seq<string>) returns (ending: Ending)
      modifies this
      ensures Does(ending, RunLines(world, room, old(commands), old(Now()), lines))
      decreases room, 5, |lines|
    {
      hide RunText;
      var i := 0;
      while i < |lines|
        invariant 0 <= i <= |lines| && Now() == old(Now())
        invariant RunLines(world, room, commands, Now(), lines[i..]) ==
                  RunLines(world, room, old(commands), old(Now()), lines)
      {
        assert lines[i..][1..] == lines[i + 1..];
        ending := AddText(room, lines[i]);
        if ending != Ended {
          return;
        }
        i := i + 1;
      }
      return Ended;
    }
  }
}
