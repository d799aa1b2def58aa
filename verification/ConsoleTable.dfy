/** The command table of common/c_dispatch.cpp: what a command string comes to, and the alias command. Console
    variables are a parameter, and so are the names of player actions. */
module ConsoleTable {
  import opened TextTokens
  import opened Wrappers
  import opened ConsoleText
  import opened ConsoleSplit
  import opened ConsoleAlias

  type Cvars = string -> Option<string>

  /** The value of the variable, for a token that names one behind a dollar sign. */
  function Expand(cvars: Cvars, token: string): string {
    if token == "" || token[0] != '$' then token
    else
      match cvars(token[1..])
      case None => token
      case Some(value) => value
  }

  function ExpandAll(cvars: Cvars, tokens: seq<string>): (r: seq<string>)
    ensures |r| == |tokens|
  {
    if tokens == [] then [] else [Expand(cvars, tokens[0])] + ExpandAll(cvars, tokens[1..])
  }

  // ----- C_DoCommand up to the call

  /** What a command string comes to. An empty first token makes the source index an empty string. */
  datatype Outcome = Nothing | OutOfRange | PlayerAction | Run(argv: seq<string>)

  function Dispatch(cvars: Cvars, isAction: string -> bool, cmd: string): (o: Outcome)
    ensures o.Run? ==> o.argv != []
  {
    var argv := ExpandAll(cvars, Tokens(cmd));
    if argv == [] then Nothing
    else if argv[0] == "" then OutOfRange
    else if (argv[0][0] == '+' || argv[0][0] == '-') && isAction(argv[0][1..]) then PlayerAction
    else Run(argv)
  }

  /** The arguments collected, and those still in the text, are all there are. */
  ghost predicate ArgumentsLeft(cvars: Cvars, args: seq<string>, data: string, all: seq<string>) {
    all == args + ExpandAll(cvars, Tokens(data))
  }

  lemma ArgumentStep(cvars: Cvars, args: seq<string>, data: string, token: Option<string>, rest: string, all: seq<string>)
    requires ArgumentsLeft(cvars, args, data, all) && Parsed(token, rest) == ParseToken(data)
    ensures if token.None? then all == args else ArgumentsLeft(cvars, args + [Expand(cvars, token.value)], rest, all)
  {
    hide ParseToken, Expand;
    if token.Some? {
      var first := [Expand(cvars, token.value)];
      assert ([token.value] + Tokens(rest))[1..] == Tokens(rest);
      assert args + (first + ExpandAll(cvars, Tokens(rest))) == args + first + ExpandAll(cvars, Tokens(rest));
    }
  }

  /** ParseString (cmd, true), called until it gives no token. */
  method CollectArguments(cvars: Cvars, cmd: string) returns (args: seq<string>)
    ensures args == ExpandAll(cvars, Tokens(cmd))
  {
    hide ParseToken, Expand;
    var parser := new Parser(cmd);
    args := [];
    ghost var all := ExpandAll(cvars, Tokens(cmd));
    while true
      invariant ArgumentsLeft(cvars, args, parser.data, all)
      decreases |parser.data|
    {
      ghost var data := parser.data;
      var token := parser.Next();
      ArgumentStep(cvars, args, data, token, parser.data, all);
      if token.None? {
        break;
      }
      args := args + [Expand(cvars, token.value)];
    }
  }

  method DoCommand(cvars: Cvars, isAction: string -> bool, cmd: string) returns (outcome: Outcome)
    ensures outcome == Dispatch(cvars, isAction, cmd)
  {
    var parser := new Parser(cmd);
    var first := parser.Next();
    if first.None? {
      return Nothing;
    }
    var token := Expand(cvars, first.value);
    if token == "" {
      return OutOfRange;
    }
    if (token[0] == '+' || token[0] == '-') && isAction(token[1..]) {
      return PlayerAction;
    }
    var argv := CollectArguments(cvars, cmd);
    return Run(argv);
  }

  // ----- The table

  datatype Entry = Command | Alias(name: string, command: string)

  type Table = map<string, Entry>

  /** The alias command: remove, replace or define; a command cannot become an alias. */
  function AliasTable(table: Table, argv: seq<string>): Table
    requires argv != []
  {
    if |argv| == 1 then table
    else
      var key := Lower(argv[1]);
      if key in table && table[key].Command? then table
      else if |argv| == 2 then table - {key}
      else table[key := Alias(key, Join(argv[2..], " "))]
  }

  predicate IsCommand(table: Table, name: string) {
    name in table && table[name].Command?
  }

  /** Aliases are kept under their own lower-case names, which DConsoleAlias gives them. */
  ghost predicate ValidTable(table: Table) {
    forall key :: key in table && table[key].Alias? ==> table[key].name == key && Lower(key) == key
  }

  /** The alias command keeps the table valid, leaves every command alone and touches at most one name. */
  lemma AliasTableKeeps(table: Table, argv: seq<string>)
    requires ValidTable(table) && argv != []
    ensures var after := AliasTable(table, argv);
            ValidTable(after) && SameCommands(table, after) &&
            forall key :: |argv| > 1 && key != Lower(argv[1]) ==>
              (key in after <==> key in table) && (key in table ==> after[key] == table[key])
  {
    if |argv| > 1 {
      LowerTwice(argv[1]);
    }
  }

  ghost predicate SameCommands(table: Table, after: Table) {
    forall key :: IsCommand(after, key) <==> IsCommand(table, key)
  }
}
