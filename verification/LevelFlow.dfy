/** The flow of a match in common/g_levelstate.cpp: warmup, rounds and the end of the game, and what clients are
    told of it. Variables, players and the clock are an environment that each operation is given. */
module LevelFlow {
  import opened Wrappers

  const TICRATE: int := 35

  datatype Phase =
    | Unknown | Warmup | WarmupCountdown | WarmupForcedCountdown
    | PreroundCountdown | Ingame | EndroundCountdown | EndgameCountdown

  datatype WinType = WinUnknown | WinNobody | WinEverybody | WinDraw | WinPlayer | WinTeam

  datatype WinInfo = WinInfo(kind: WinType, id: int)

  const NO_WINNER: WinInfo := WinInfo(WinUnknown, 0)

  /** The fields of LevelState, which are also what a client is sent. */
  datatype Level = Level(phase: Phase, countdownDone: int, ingameStart: int, round: int, win: WinInfo)

  datatype GameType = Deathmatch | TeamDeathmatch | OtherType

  datatype Env = Env(
    time: int, serverBuild: bool, resetPending: bool, inLevel: bool, serverside: bool, paused: bool, lobby: bool,
    players: nat, ready: nat, active: nat, teamCounts: seq<nat>,
    gameType: GameType, coop: bool, teamGame: bool, rounds: bool, roundsShouldEnd: bool, sides: bool, teamsInPlay: real,
    lives: bool, warmup: bool, autostart: real, countdown: real, preroundTime: real, preroundReset: bool,
    postroundTime: real)

  /** A variable as an integer: the nearest one, halves away from zero. */
  function AsInt(x: real): int {
    if x >= 0.0 then (x + 0.5).Floor else -(0.5 - x).Floor
  }

  function Tics(seconds: real): int {
    AsInt(seconds) * TICRATE
  }

  /** Asking for a deferred reset does so on a server; a client build ignores it. */
  function Deferred(env: Env): bool {
    env.resetPending || env.serverBuild
  }

  predicate InWarmup(phase: Phase) {
    phase == Warmup || phase == WarmupCountdown || phase == WarmupForcedCountdown
  }

  predicate Ending(phase: Phase) {
    phase == EndroundCountdown || phase == EndgameCountdown
  }

  // ----- The operations on values

  /** setState */
  function Enter(l: Level, env: Env, resetPending: bool, phase: Phase): Level {
    Level(phase,
          if phase == WarmupCountdown || phase == WarmupForcedCountdown then env.time + Tics(env.countdown)
          else if phase == PreroundCountdown then Tics(env.preroundTime)
          else if Ending(phase) then env.time + Tics(env.postroundTime)
          else 0,
          if phase == Ingame then (if resetPending then 1 else env.time + 1) else l.ingameStart,
          if InWarmup(phase) then 0 else l.round,
          if Ending(phase) then l.win else NO_WINNER)
  }

  /** The new fields, the snapshot handed to the callback if there was one, and whether the level is left. */
  datatype Outcome = Outcome(level: Level, sent: Option<Level>, exits: bool) | Fatal

  function Stay(l: Level): Outcome {
    Outcome(l, None, false)
  }

  function Go(l: Level, env: Env, resetPending: bool, phase: Phase): Outcome {
    var l' := Enter(l, env, resetPending, phase);
    Outcome(l', Some(l'), false)
  }

  function StartOfRound(env: Env): Phase {
    if env.rounds && env.preroundTime > 0.0 && (env.gameType == Deathmatch || env.gameType == TeamDeathmatch)
    then PreroundCountdown else Ingame
  }

  predicate ResetsToWarmup(env: Env) {
    env.lobby || (env.lives && env.players == 0) || (env.lives && !env.coop) || env.warmup
  }

  /** reset: the countdown is cleared after the callback has been called. */
  function ResetStep(l: Level, env: Env): Outcome {
    var sent := if ResetsToWarmup(env) then Enter(l, env, env.resetPending, Warmup)
                else Enter(l.(round := 1), env, env.resetPending, StartOfRound(env));
    Outcome(sent.(countdownDone := 0), Some(sent), false)
  }

  /** The number of ready players it takes, as the source computes it: its rounding branch is overwritten. */
  function Needed(env: Env): int {
    -(-(env.players as real * env.autostart)).Floor
  }

  function ReadyToggleStep(l: Level, env: Env): Outcome {
    if !env.warmup || env.lobby || !(l.phase == Warmup || l.phase == WarmupCountdown) || env.ready == 0 || env.players == 0
    then Stay(l)
    else if 0 <= Needed(env) <= env.ready then
      if l.phase == Warmup then Go(l, env, env.resetPending, WarmupCountdown) else Stay(l)
    else if l.phase == WarmupCountdown then Go(l, env, env.resetPending, Warmup)
    else Stay(l)
  }

  function EndRoundStep(l: Level, env: Env): Outcome {
    Go(l, env, env.resetPending,
       if env.rounds then (if env.roundsShouldEnd then EndgameCountdown else EndroundCountdown)
       else if env.coop then Warmup
       else EndgameCountdown)
  }

  function TeamsWithPlayers(counts: seq<nat>): nat {
    if counts == [] then 0 else (if counts[0] > 0 then 1 else 0) + TeamsWithPlayers(counts[1..])
  }

  /** Whether a warmup that the game type asked for has enough players. */
  predicate EnoughPlayers(env: Env) {
    if env.coop && env.active >= 1 then true
    else if env.gameType == Deathmatch && env.active >= 2 then true
    else env.teamGame && TeamsWithPlayers(env.teamCounts) >= 2
  }

  function WarmupTic(l: Level, env: Env): Outcome {
    if env.lobby then Stay(l)
    else if !env.warmup && EnoughPlayers(env) then Go(l, env, env.resetPending, WarmupForcedCountdown)
    else if env.autostart == 0.0 then Go(l, env, env.resetPending, WarmupCountdown)
    else Stay(l)
  }

  function TicStep(l: Level, env: Env): Outcome {
    if !env.inLevel || !env.serverside || env.paused then Stay(l)
    else if l.phase != Warmup && env.players == 0 && (env.warmup || env.lives) then Go(l, env, env.resetPending, Warmup)
    else
      match l.phase
      case Unknown => Fatal
      case PreroundCountdown =>
        if env.time >= l.countdownDone
        then Go(l, env, if env.preroundReset then Deferred(env) else env.resetPending, Ingame)
        else Stay(l)
      case Ingame => Stay(l)
      case EndroundCountdown =>
        if env.time >= l.countdownDone then Go(l.(round := l.round + 1), env, Deferred(env), StartOfRound(env)) else Stay(l)
      case EndgameCountdown => Outcome(l, None, env.time >= l.countdownDone)
      case Warmup => WarmupTic(l, env)
      case _ =>
        if env.time >= l.countdownDone then Go(l.(round := l.round + 1), env, Deferred(env), StartOfRound(env)) else Stay(l)
  }

  datatype Op = Reset | Restart | ForceStart | ReadyToggle | EndRound | EndGame | Tic | SetWinner(win: WinInfo)

  function Step(l: Level, env: Env, op: Op): Outcome {
    match op
    case Reset => ResetStep(l, env)
    case Restart => Go(l, env, env.resetPending, WarmupForcedCountdown)
    case ForceStart => if l.phase != Warmup then Stay(l) else Go(l, env, env.resetPending, WarmupForcedCountdown)
    case ReadyToggle => ReadyToggleStep(l, env)
    case EndRound => EndRoundStep(l, env)
    case EndGame => if l.phase != EndgameCountdown then Go(l, env, env.resetPending, EndgameCountdown) else Stay(l)
    case Tic => TicStep(l, env)
    case SetWinner(win) => Stay(l.(win := win))
  }

  // ----- The object

  class LevelState {
    var m_state: Phase
    var m_countdownDoneTime: int
    var m_ingameStartTime: int
    var m_roundNumber: int
    var m_lastWininfo: WinInfo
    /** What m_setStateCB has been called with, and how often G_ExitLevel has been called. */
    var sent: seq<Level>
    var exits: nat

    function View(): Level
      reads this
    {
      Level(m_state, m_countdownDoneTime, m_ingameStartTime, m_roundNumber, m_lastWininfo)
    }

    twostate predicate Does(outcome: Outcome)
      reads this
    {
      outcome.Outcome? && View() == outcome.level &&
      sent == (old(sent) + if outcome.sent.Some? then [outcome.sent.value] else []) &&
      exits == old(exits) + if outcome.exits then 1 else 0
    }

    constructor ()
      ensures View() == Level(Unknown, 0, 0, 0, NO_WINNER) && sent == [] && exits == 0
    {
      m_state, m_countdownDoneTime, m_ingameStartTime, m_roundNumber := Unknown, 0, 0, 0;
      m_lastWininfo, sent, exits := NO_WINNER, [], 0;
    }

    method Unserialize(serialized: Level)
      modifies this
      ensures View() == serialized && sent == old(sent) && exits == old(exits)
    {
      m_state := serialized.phase;
      m_countdownDoneTime := serialized.countdownDone;
      m_ingameStartTime := serialized.ingameStart;
      m_roundNumber := serialized.round;
      m_lastWininfo := serialized.win;
    }

    method SetState(env: Env, resetPending: bool, newState: Phase)
      modifies this
      ensures Does(Go(old(View()), env, resetPending, newState))
    {
      m_state := newState;
      if m_state == WarmupCountdown || m_state == WarmupForcedCountdown {
        m_countdownDoneTime := env.time + AsInt(env.countdown) * TICRATE;
      } else if m_state == PreroundCountdown {
        m_countdownDoneTime := AsInt(env.preroundTime) * TICRATE;
      } else if m_state == EndroundCountdown || m_state == EndgameCountdown {
        m_countdownDoneTime := env.time + AsInt(env.postroundTime) * TICRATE;
      } else {
        m_countdownDoneTime := 0;
      }
      if m_state == Ingame {
        m_ingameStartTime := if resetPending then 1 else env.time + 1;
      }
      if m_state == Warmup || m_state == WarmupCountdown || m_state == WarmupForcedCountdown {
        m_roundNumber := 0;
      }
      if m_state != EndroundCountdown && m_state != EndgameCountdown {
        m_lastWininfo := NO_WINNER;
      }
      sent := sent + [View()];
    }

    method SetWinner(win: WinInfo)
      modifies this
      ensures Does(Stay(old(View()).(win := win)))
    {
      m_lastWininfo := win;
    }

    method Reset(env: Env)
      modifies this
      ensures Does(Step(old(View()), env, Op.Reset))
    {
      if env.lobby {
        SetState(env, env.resetPending, Warmup);
      } else if env.lives && env.players == 0 {
        SetState(env, env.resetPending, Warmup);
      } else if env.lives && !env.coop {
        SetState(env, env.resetPending, Warmup);
      } else if env.warmup {
        SetState(env, env.resetPending, Warmup);
      } else {
        m_roundNumber := 1;
        SetState(env, env.resetPending, StartOfRound(env));
      }
      m_countdownDoneTime := 0;
    }

    method Restart(env: Env)
      modifies this
      ensures Does(Step(old(View()), env, Op.Restart))
    {
      SetState(env, env.resetPending, WarmupForcedCountdown);
    }

    method ForceStart(env: Env)
      modifies this
      ensures Does(Step(old(View()), env, Op.ForceStart))
    {
      if m_state != Warmup {
        return;
      }
      SetState(env, env.resetPending, WarmupForcedCountdown);
    }

    method ReadyToggle(env: Env)
      modifies this
      ensures Does(Step(old(View()), env, Op.ReadyToggle))
    {
      if !env.warmup || env.lobby {
        return;
      }
      if !(m_state == Warmup || m_state == WarmupCountdown) {
        return;
      }
      if env.ready == 0 || env.players == 0 {
        return;
      }
      var needed := Needed(env);
      if 0 <= needed <= env.ready {
        if m_state == Warmup {
          SetState(env, env.resetPending, WarmupCountdown);
        }
      } else if m_state == WarmupCountdown {
        SetState(env, env.resetPending, Warmup);
      }
    }

    method EndRound(env: Env)
      modifies this
      ensures Does(Step(old(View()), env, Op.EndRound))
    {
      if env.rounds {
        if env.roundsShouldEnd {
          SetState(env, env.resetPending, EndgameCountdown);
        } else {
          SetState(env, env.resetPending, EndroundCountdown);
        }
      } else if env.coop {
        SetState(env, env.resetPending, Warmup);
      } else {
        SetState(env, env.resetPending, EndgameCountdown);
      }
    }

    method EndGame(env: Env)
      modifies this
      ensures Does(Step(old(View()), env, Op.EndGame))
    {
      if m_state != EndgameCountdown {
        SetState(env, env.resetPending, EndgameCountdown);
      }
    }

    method NextRound(env: Env)
      modifies this
      ensures Does(Go(old(View()).(round := old(m_roundNumber) + 1), env, Deferred(env), StartOfRound(env)))
    {
      m_roundNumber := m_roundNumber + 1;
      SetState(env, Deferred(env), StartOfRound(env));
    }

    method TicWarmup(env: Env)
      modifies this
      ensures Does(WarmupTic(old(View()), env))
    {
      if env.lobby {
        return;
      }
      if !env.warmup {
        var enough := CheckPlayers(env);
        if enough {
          SetState(env, env.resetPending, WarmupForcedCountdown);
          return;
        }
      }
      if env.autostart == 0.0 {
        SetState(env, env.resetPending, WarmupCountdown);
      }
    }

    /** A tic in an unknown state is a fatal error in the source. */
    method Tic(env: Env) returns (fatal: bool)
      modifies this
      ensures fatal == Step(old(View()), env, Op.Tic).Fatal?
      ensures !fatal ==> Does(Step(old(View()), env, Op.Tic))
    {
      hide Enter, StartOfRound, WarmupTic, Deferred;
      fatal := false;
      if !env.inLevel || !env.serverside || env.paused {
        return;
      }
      if m_state != Warmup && env.players == 0 {
        if env.warmup || env.lives {
          SetState(env, env.resetPending, Warmup);
          return;
        }
      }
      match m_state
      case Unknown => fatal := true;
      case PreroundCountdown =>
        if env.time >= m_countdownDoneTime {
          SetState(env, if env.preroundReset then Deferred(env) else env.resetPending, Ingame);
        }
      case Ingame =>
      case EndroundCountdown =>
        if env.time >= m_countdownDoneTime {
          NextRound(env);
        }
      case EndgameCountdown =>
        if env.time >= m_countdownDoneTime {
          exits := exits + 1;
        }
      case Warmup => TicWarmup(env);
      case _ =>
        if env.time >= m_countdownDoneTime {
          NextRound(env);
        }
    }
  }

  /** The count of teams that have a player, and the other ways to have enough of them. */
  method CheckPlayers(env: Env) returns (enough: bool)
    ensures enough == EnoughPlayers(env)
  {
    if env.coop && env.active >= 1 {
      return true;
    } else if env.gameType == Deathmatch && env.active >= 2 {
      return true;
    } else if env.teamGame {
      var ready: nat, i := 0, 0;
      while i < |env.teamCounts|
        invariant 0 <= i <= |env.teamCounts|
        invariant ready + TeamsWithPlayers(env.teamCounts[i..]) == TeamsWithPlayers(env.teamCounts)
      {
        assert env.teamCounts[i..][1..] == env.teamCounts[i + 1..];
        if env.teamCounts[i] > 0 {
          ready := ready + 1;
        }
        i := i + 1;
      }
      return ready >= 2;
    }
    return false;
  }

  // ----- Round numbers

  /** Warmup counts no rounds; what happens in a round happens in a numbered one. */
  predicate RoundsRight(l: Level) {
    match l.phase
    case EndgameCountdown => l.round >= 0
    case PreroundCountdown => l.round >= 1
    case Ingame => l.round >= 1
    case EndroundCountdown => l.round >= 1
    case _ => l.round == 0
  }

  /** The one call that breaks this: ending a round that is not the last one, before any has started. */
  predicate EndsNoRound(l: Level, env: Env, op: Op) {
    op.EndRound? && env.rounds && !env.roundsShouldEnd && l.round == 0
  }

  lemma StepKeepsRounds(l: Level, env: Env, op: Op)
    requires RoundsRight(l)
    ensures var o := Step(l, env, op); o.Outcome? ==> (RoundsRight(o.level) <==> !EndsNoRound(l, env, op))
  {
    var o := Step(l, env, op);
    if op.Tic? && o.Outcome? {
      assert StartOfRound(env) == PreroundCountdown || StartOfRound(env) == Ingame;
    }
  }

  /** Ending the game from warmup and then the round gives an end-of-round state of round 0. */
  lemma EndRoundAfterEarlyEnd(l: Level, env: Env)
    requires RoundsRight(l) && InWarmup(l.phase) && env.rounds && !env.roundsShouldEnd
    ensures var ended := Step(l, env, EndGame).level;
            RoundsRight(ended) && Ending(ended.phase) &&
            var again := Step(ended, env, EndRound).level; again.phase == EndroundCountdown && again.round == 0
  {
  }

  // ----- Countdowns

  predicate Counting(phase: Phase) {
    phase == WarmupCountdown || phase == WarmupForcedCountdown || phase == EndroundCountdown
  }

  /** The seconds a countdown is set to. */
  function Seconds(env: Env, phase: Phase): real {
    if phase == EndroundCountdown then env.postroundTime else env.countdown
  }

  /** A countdown that an operation starts lasts its tics from then on: a later tic ends it exactly when they
      have passed, and it ends with the next round. */
  lemma CountdownLasts(l: Level, env: Env, op: Op, later: Env)
    requires var o := Step(l, env, op); o.Outcome? && o.sent.Some? && Counting(o.level.phase) && Ticking(o.level, later)
    ensures var l' := Step(l, env, op).level; var next := Step(l', later, Tic).level;
            if later.time >= env.time + Tics(Seconds(env, l'.phase))
            then next.phase == StartOfRound(later) && next.round == l'.round + 1 else next == l'
  {
    hide Step;
    Started(l, env, op);
    EndsOnTime(Step(l, env, op).level, later);
  }

  lemma Started(l: Level, env: Env, op: Op)
    requires var o := Step(l, env, op); o.Outcome? && o.sent.Some? && Counting(o.level.phase)
    ensures var l' := Step(l, env, op).level; l'.countdownDone == env.time + Tics(Seconds(env, l'.phase))
  {
  }

  lemma EndsOnTime(l: Level, later: Env)
    requires Counting(l.phase) && Ticking(l, later)
    ensures var next := Step(l, later, Tic).level;
            if later.time >= l.countdownDone then next.phase == StartOfRound(later) && next.round == l.round + 1
            else next == l
  {
    assert StartOfRound(later) == PreroundCountdown || StartOfRound(later) == Ingame;
  }

  /** So does the one at the end of the game, and then the level is left. */
  lemma EndgameLasts(l: Level, env: Env, op: Op, later: Env)
    requires var o := Step(l, env, op);
             o.Outcome? && o.sent.Some? && o.level.phase == EndgameCountdown && Ticking(o.level, later)
    ensures var l' := Step(l, env, op).level; var next := Step(l', later, Tic);
            next.level == l' && (next.exits <==> later.time >= env.time + Tics(env.postroundTime))
  {
  }

  /** Readying up decides as the share of ready players says: with at least one of them ready, the countdown runs
      exactly when they are no fewer than that share of the players. */
  lemma ReadyDecides(l: Level, env: Env)
    requires env.warmup && !env.lobby && (l.phase == Warmup || l.phase == WarmupCountdown)
    requires env.ready > 0 && env.players > 0 && env.autostart >= 0.0
    ensures Step(l, env, ReadyToggle).level.phase ==
            if env.ready as real >= env.players as real * env.autostart then WarmupCountdown else Warmup
  {
    var share := env.players as real * env.autostart;
    assert share >= 0.0;
    CeilingAtMost(share, env.ready);
  }

  lemma CeilingAtMost(x: real, n: nat)
    requires x >= 0.0
    ensures 0 <= -(-x).Floor && (-(-x).Floor <= n <==> x <= n as real)
  {
  }

  // ----- Whole runs

  /** The environment and the operation of each step. */
  type Script = seq<(Env, Op)>

  /** A fatal error ends a run. */
  function After(l: Level, script: Script): Level
    decreases |script|
  {
    if script == [] then l
    else
      match Step(l, script[0].0, script[0].1)
      case Fatal => l
      case Outcome(l', _, _) => After(l', script[1..])
  }

  predicate RoundsEndProperly(l: Level, script: Script)
    decreases |script|
  {
    script == [] ||
    (!EndsNoRound(l, script[0].0, script[0].1) &&
     match Step(l, script[0].0, script[0].1)
     case Fatal => true
     case Outcome(l', _, _) => RoundsEndProperly(l', script[1..]))
  }

  lemma {:induction false} RunKeepsRounds(l: Level, script: Script)
    requires RoundsRight(l) && RoundsEndProperly(l, script)
    ensures RoundsRight(After(l, script))
    decreases |script|
  {
    if script == [] {
    } else {
      StepKeepsRounds(l, script[0].0, script[0].1);
      var o := Step(l, script[0].0, script[0].1);
      if o.Outcome? {
        RunKeepsRounds(o.level, script[1..]);
      }
    }
  }

  // ----- What the number counts

  predicate Ticking(l: Level, env: Env) {
    env.inLevel && env.serverside && !env.paused && !(l.phase != Warmup && env.players == 0 && (env.warmup || env.lives))
  }

  /** An end-round countdown runs out. */
  predicate RoundExpires(l: Level, env: Env, op: Op) {
    op.Tic? && Ticking(l, env) && l.phase == EndroundCountdown && env.time >= l.countdownDone
  }

  /** A warmup countdown runs out, or a level without warmup is reset. */
  predicate MatchStarts(l: Level, env: Env, op: Op) {
    (op.Reset? && !ResetsToWarmup(env)) ||
    (op.Tic? && Ticking(l, env) && (l.phase == WarmupCountdown || l.phase == WarmupForcedCountdown) &&
     env.time >= l.countdownDone)
  }

  /** The end-round countdowns that have run out since a match last started. */
  function Expired(l: Level, script: Script, n: nat): nat
    decreases |script|
  {
    if script == [] then n
    else
      var (env, op) := script[0];
      var n' := if MatchStarts(l, env, op) then 0 else if RoundExpires(l, env, op) then n + 1 else n;
      match Step(l, env, op)
      case Fatal => n
      case Outcome(l', _, _) => Expired(l', script[1..], n')
  }

  /** In every run the round number, unless it is zero, is one more than the rounds that have been played out. */
  lemma {:induction false} NumberCountsExpired(l: Level, script: Script, n: nat)
    requires RoundsRight(l) && RoundsEndProperly(l, script) && (l.round != 0 ==> l.round == 1 + n)
    ensures var r := After(l, script).round; r != 0 ==> r == 1 + Expired(l, script, n)
    decreases |script|
  {
    if script == [] {
    } else {
      var (env, op) := script[0];
      var o := Step(l, env, op);
      if o.Outcome? {
        StepKeepsRounds(l, env, op);
        StepCounts(l, env, op, n);
        NumberCountsExpired(o.level, script[1..],
                            if MatchStarts(l, env, op) then 0 else if RoundExpires(l, env, op) then n + 1 else n);
      }
    }
  }

  lemma StepCounts(l: Level, env: Env, op: Op, n: nat)
    requires RoundsRight(l) && (l.round != 0 ==> l.round == 1 + n) && Step(l, env, op).Outcome?
    ensures var n' := if MatchStarts(l, env, op) then 0 else if RoundExpires(l, env, op) then n + 1 else n;
            var r := Step(l, env, op).level.round; r != 0 ==> r == 1 + n'
  {
  }

  // ----- Sides

  /** getDefendingTeam; no team when the game has no sides. */
  function DefendingTeam(l: Level, env: Env): Option<int> {
    if !env.sides then None
    else Some((if l.round - 1 > 0 then l.round - 1 else 0) % Teams(env))
  }

  /** The number of teams, kept between two and three. */
  function Teams(env: Env): (n: int)
    ensures 2 <= n <= 3
  {
    var n := AsInt(env.teamsInPlay);
    if n < 2 then 2 else if n > 3 then 3 else n
  }

  /** The team that defends so many rounds later. */
  function DefenderAfter(l: Level, env: Env, rounds: nat): Option<int> {
    DefendingTeam(l.(round := l.round + rounds), env)
  }

  /** In any Teams(env) rounds in a row every team defends exactly once. */
  lemma EachTeamDefendsOnce(l: Level, env: Env, team: int)
    requires env.sides && l.round >= 1 && 0 <= team < Teams(env)
    ensures exists j: nat :: j < Teams(env) && DefenderAfter(l, env, j) == Some(team)
    ensures forall i: nat, j: nat :: i < j < Teams(env) ==> DefenderAfter(l, env, i) != DefenderAfter(l, env, j)
  {
    var n := Teams(env);
    var first := l.round - 1;
    var j := (team - first) % n;
    SumMod(first, team, n);
    assert DefenderAfter(l, env, j) == Some(team);
    forall i: nat, j: nat | i < j < n
      ensures DefenderAfter(l, env, i) != DefenderAfter(l, env, j)
    {
      ModDistinct(first + i, j - i, n);
    }
  }

  /** No match starts on the way. */
  predicate NoMatchStarts(l: Level, script: Script)
    decreases |script|
  {
    script == [] ||
    (!MatchStarts(l, script[0].0, script[0].1) &&
     match Step(l, script[0].0, script[0].1)
     case Fatal => true
     case Outcome(l', _, _) => NoMatchStarts(l', script[1..]))
  }

  lemma {:induction false} ExpiredFrom(l: Level, script: Script, n: nat)
    requires NoMatchStarts(l, script)
    ensures Expired(l, script, n) == n + Expired(l, script, 0)
    decreases |script|
  {
    if script == [] {
    } else {
      var (env, op) := script[0];
      var o := Step(l, env, op);
      if o.Outcome? {
        ExpiredFrom(o.level, script[1..], if RoundExpires(l, env, op) then n + 1 else n);
        ExpiredFrom(o.level, script[1..], if RoundExpires(l, env, op) then 1 else 0);
      }
    }
  }

  /** In every run in which no new match starts, the team on defense is the one that is due after the rounds that
      have been played out since, whatever else has happened. */
  lemma DefenderAfterRun(l: Level, script: Script, env: Env)
    requires RoundsRight(l) && l.round >= 1 && RoundsEndProperly(l, script) && NoMatchStarts(l, script)
    requires After(l, script).round != 0
    ensures After(l, script).round == l.round + Expired(l, script, 0)
    ensures DefendingTeam(After(l, script), env) == DefenderAfter(l, env, Expired(l, script, 0))
  {
    NumberCountsExpired(l, script, l.round - 1);
    ExpiredFrom(l, script, l.round - 1);
  }

  /** Runs from one state, of which the i-th reaches the i-th round after it: parts of one long run, for example. */
  ghost predicate RoundsInARow(l: Level, scripts: seq<Script>) {
    forall i :: 0 <= i < |scripts| ==>
      RoundsEndProperly(l, scripts[i]) && NoMatchStarts(l, scripts[i]) &&
      After(l, scripts[i]).round != 0 && Expired(l, scripts[i], 0) == i
  }

  /** In any Teams(env) rounds in a row of any run, every team defends exactly once. */
  lemma EachTeamDefendsOnceInARun(l: Level, scripts: seq<Script>, env: Env, team: int)
    requires RoundsRight(l) && l.round >= 1 && RoundsInARow(l, scripts)
    requires env.sides && |scripts| == Teams(env) && 0 <= team < Teams(env)
    ensures exists i: nat :: i < |scripts| && DefendingTeam(After(l, scripts[i]), env) == Some(team)
    ensures forall i: nat, j: nat :: i < j < |scripts| ==>
              DefendingTeam(After(l, scripts[i]), env) != DefendingTeam(After(l, scripts[j]), env)
  {
    EachTeamDefendsOnce(l, env, team);
    forall i: nat | i < |scripts|
      ensures DefendingTeam(After(l, scripts[i]), env) == DefenderAfter(l, env, i)
    {
      DefenderAfterRun(l, scripts[i], env);
    }
    var i: nat :| i < Teams(env) && DefenderAfter(l, env, i) == Some(team);
    assert DefendingTeam(After(l, scripts[i]), env) == Some(team);
  }

  lemma SumMod(a: nat, b: nat, n: int)
    requires 2 <= n <= 3 && b < n
    ensures (a + (b - a) % n) % n == b
  {
  }

  lemma ModDistinct(a: nat, d: nat, n: int)
    requires 2 <= n <= 3 && 0 < d < n
    ensures a % n != (a + d) % n
  {
  }

  // ----- What clients know

  /** A client that unserializes every snapshot. */
  function Heard(client: Level, o: Outcome): Level {
    if o.Outcome? && o.sent.Some? then o.sent.value else client
  }

  /** A client is right about everything but the countdown, which a reset may have cleared behind its back, and
      the winner, which is sent with the next change of state. */
  predicate InSync(server: Level, client: Level) {
    client.phase == server.phase && client.round == server.round && client.ingameStart == server.ingameStart &&
    (client.countdownDone == server.countdownDone || (server.phase == PreroundCountdown && server.countdownDone == 0))
  }

  lemma StepKeepsSync(server: Level, client: Level, env: Env, op: Op)
    requires InSync(server, client) && Step(server, env, op).Outcome?
    ensures var o := Step(server, env, op); InSync(o.level, Heard(client, o))
    ensures var o := Step(server, env, op); o.sent.Some? ==> Heard(client, o).win == o.level.win
  {
  }

  /** After a reset the countdown agrees exactly when it did not enter a pre-round that lasts. */
  lemma ResetCountdown(server: Level, client: Level, env: Env)
    ensures var o := Step(server, env, Reset);
            Heard(client, o).countdownDone == o.level.countdownDone <==>
            !(o.level.phase == PreroundCountdown && Tics(env.preroundTime) != 0)
  {
  }

  function HeardAll(server: Level, client: Level, script: Script): Level
    decreases |script|
  {
    if script == [] then client
    else
      var o := Step(server, script[0].0, script[0].1);
      if o.Fatal? then client else HeardAll(o.level, Heard(client, o), script[1..])
  }

  /** So it is in every run. */
  lemma {:induction false} RunKeepsSync(server: Level, client: Level, script: Script)
    requires InSync(server, client)
    ensures InSync(After(server, script), HeardAll(server, client, script))
    decreases |script|
  {
    if script == [] {
    } else {
      var o := Step(server, script[0].0, script[0].1);
      if o.Outcome? {
        StepKeepsSync(server, client, script[0].0, script[0].1);
        RunKeepsSync(o.level, Heard(client, o), script[1..]);
      }
    }
  }

  /** The cleared countdown also makes the server skip the pre-round it has just announced: its next tic starts
      the round, while the client still counts down. */
  lemma ResetSkipsPreround(server: Level, env: Env, later: Env)
    requires Step(server, env, Reset).level.phase == PreroundCountdown
    requires Ticking(Step(server, env, Reset).level, later) && later.time >= 0
    ensures Step(Step(server, env, Reset).level, later, Tic).level.phase == Ingame
    ensures Step(server, env, Reset).sent.value.countdownDone == Tics(env.preroundTime)
  {
  }

  /** Entered by a tic instead, the pre-round ends exactly when its time is up. */
  lemma TicKeepsPreround(l: Level, env: Env, later: Env)
    requires l.phase != PreroundCountdown && Step(l, env, Tic).Outcome? && Step(l, env, Tic).level.phase == PreroundCountdown
    requires Ticking(Step(l, env, Tic).level, later)
    ensures Step(Step(l, env, Tic).level, later, Tic).level.phase == Ingame <==> later.time >= Tics(env.preroundTime)
  {
  }
}
