/** The referee's session: the game record together with the interaction
    awaiting adjudication, and the commands the referee can issue. While an
    interaction is pending, the adjudication overlay covers the whole side
    panel, so starting or skipping a turn and editing a stat are not possible
    until it is settled. The conflict dialog offers only the three conflict
    verdicts, so an opportunity verdict can be given only to an opportunity. */
module Referee {
  import opened Wrappers
  import opened Types
  import opened Scheduler
  import opened Setup
  import opened Collision
  import opened Adjudication

  /** Where the session stands: free to start a turn, or waiting for the
      referee to settle a conflict or an opportunity. */
  datatype Phase = Idle | AwaitingPvp | AwaitingOpportunity

  function PhaseOf(s: Session): Phase {
    match s.pending
    case None => Idle
    case Some(ix) => if ix.Pvp? then AwaitingPvp else AwaitingOpportunity
  }

  /** A well-formed session: a well-formed game record, and a pending
      interaction (if any) that belongs to the sect whose turn it is, never
      pits a sect against itself, and targets a slot no further than the goal. */
  predicate SessionWf(cfg: Config, s: Session) {
    && Wf(cfg, s.game)
    && (s.pending.Some? ==>
          var ix := s.pending.value;
          && ix.mover == ActiveSect(s.game)
          && ix.pendingProgress <= Goal
          && (ix.Pvp? ==> ix.mover != ix.occupant))
  }

  /** What the referee can do: advance with a typed movement (absent when
      non-numeric), skip the turn, settle a conflict, settle an opportunity,
      or overwrite one stat of one sect. */
  datatype Command =
    | StartTurn(input: Option<int>)
    | SkipTurnCmd
    | ResolveConflict(pv: PvpVerdict)
    | Adjudicate(v: Verdict)
    | EditStatCmd(id: SectId, k: StatKind, value: int)

  /** A command that may carry a sect past the goal: a conflict verdict whose
      retreat distance is negative. */
  predicate MayPassGoal(cmd: Command) {
    cmd.ResolveConflict? && IntOrZero(cmd.pv.distance) < 0
  }

  /** One referee command, with `roll` standing for the weather draw it may
      need. */
  function Step(cfg: Config, s: Session, cmd: Command, roll: nat): (r: Session)
    requires ValidConfig(cfg) && SessionWf(cfg, s)
    ensures SessionWf(cfg, r)
    ensures r.game.day == s.game.day || r.game.day == s.game.day + 1
    ensures s.game.globalLog <= r.game.globalLog
    ensures |r.game.globalLog| <= |s.game.globalLog| + 1
    ensures r.game.sects.Keys == s.game.sects.Keys
    ensures WithinGoal(s.game) && !MayPassGoal(cmd) ==> WithinGoal(r.game)
    ensures s.pending.Some? && !cmd.ResolveConflict? && !cmd.Adjudicate? ==> r == s
    ensures PhaseOf(s) == AwaitingPvp && !cmd.ResolveConflict? ==> r == s
  {
    match cmd
    case StartTurn(input) =>
      if s.pending.Some? then s
      else
        (match TurnStart(cfg, s.game, input, roll)
         case Bypassed(next) => Session(next, None)
         case Encounter(ix) => Session(s.game, Some(ix)))
    case SkipTurnCmd =>
      if s.pending.Some? then s
      else Session(SkipTurn(cfg, s.game, Manual, roll), None)
    case ResolveConflict(pv) => ResolvePvP(cfg, s, pv)
    case Adjudicate(v) =>
      if PhaseOf(s) == AwaitingPvp then s
      else ConfirmManualEvent(cfg, s, v, roll)
    case EditStatCmd(id, k, value) =>
      if s.pending.Some? then s
      else Session(EditStat(cfg, s.game, id, k, value), None)
  }

  /** The phase machine: a turn start leaves the session idle (a bypassed
      turn) or waiting; a conflict verdict leads to the opportunity at the
      contested slot and is the only way out of a pending conflict; an
      opportunity verdict settles a pending opportunity; a verdict with
      nothing to settle, and a stat edit, change no phase. */
  lemma PhaseTransitions(cfg: Config, s: Session, cmd: Command, roll: nat)
    requires ValidConfig(cfg) && SessionWf(cfg, s)
    ensures var p, p2 := PhaseOf(s), PhaseOf(Step(cfg, s, cmd, roll));
      && (cmd.StartTurn? && p == Idle ==>
            (p2 == Idle <==> s.game.sects[ActiveSect(s.game)].skipNextTurn))
      && (cmd.SkipTurnCmd? && p == Idle ==> p2 == Idle)
      && ((cmd.StartTurn? || cmd.SkipTurnCmd?) && p != Idle ==> p2 == p)
      && (cmd.ResolveConflict? ==> (p == AwaitingPvp ==> p2 == AwaitingOpportunity) && (p != AwaitingPvp ==> p2 == p))
      && (cmd.Adjudicate? ==> (p == AwaitingPvp ==> p2 == p) && (p != AwaitingPvp ==> p2 == Idle))
      && (p == AwaitingPvp && p2 != AwaitingPvp ==> cmd.ResolveConflict?)
      && (cmd.EditStatCmd? ==> p2 == p)
  {
  }

  /** A conflict at a fresh turn happens exactly when another sect stands on
      the target slot strictly between the start and the goal. */
  lemma StartTurnConflict(cfg: Config, s: Session, input: Option<int>, roll: nat)
    requires ValidConfig(cfg) && SessionWf(cfg, s)
    requires s.pending.None? && !s.game.sects[ActiveSect(s.game)].skipNextTurn
    ensures var r := Step(cfg, s, StartTurn(input), roll);
      var mover := ActiveSect(s.game);
      var target := ProposedTarget(s.game.sects[mover].progress, input);
      && r.game == s.game
      && PhaseOf(r) != Idle
      && (PhaseOf(r) == AwaitingPvp <==>
            exists j :: 0 <= j < |cfg.sectOrder| && Occupies(s.game, cfg.sectOrder[j], mover, target))
      && (PhaseOf(r) == AwaitingPvp ==>
            FindOccupant(cfg, s.game, mover, target) == Some(r.pending.value.occupant))
  {
  }

  /** When the occupant wins a battle against the mover, the mover's retreat
      is not what the turn leaves behind: the opportunity verdict that follows
      places the mover at the contested slot plus the verdict's movement. */
  lemma MoverRetreatOverwritten(cfg: Config, s: Session, pv: PvpVerdict, v: Verdict, roll1: nat, roll2: nat)
    requires ValidConfig(cfg) && SessionWf(cfg, s)
    requires s.pending.Some? && s.pending.value.Pvp?
    requires pv.winner == s.pending.value.occupant && pv.outcome == Battle
    ensures var ix := s.pending.value;
      var r1 := Step(cfg, s, ResolveConflict(pv), roll1);
      var r2 := Step(cfg, r1, Adjudicate(v), roll2);
      && r1.game.sects[ix.mover].progress == Retreat(s.game.sects[ix.mover].progress, IntOrZero(pv.distance))
      && r2.game.sects[ix.mover].progress == ClampToBoard(ix.pendingProgress + IntOrZero(v.move))
  {
    var ix := s.pending.value;
    assert Loser(ix, pv.winner) == ix.mover;
    var r1 := Step(cfg, s, ResolveConflict(pv), roll1);
    assert r1.pending == Some(OpportunityAt(cfg, s.game, ix.mover, ix.pendingProgress));
  }

  /** A quiet turn: with no debuff and nobody on the target slot, advancing
      and then settling the opportunity moves the mover from the proposed
      target by the verdict's movement, logs exactly one entry, and passes
      the turn on (unless the verdict grants another action). */
  lemma QuietTurn(cfg: Config, s: Session, input: Option<int>, v: Verdict, roll1: nat, roll2: nat)
    requires ValidConfig(cfg) && SessionWf(cfg, s)
    requires s.pending.None? && !s.game.sects[ActiveSect(s.game)].skipNextTurn
    requires FindOccupant(cfg, s.game, ActiveSect(s.game),
                          ProposedTarget(s.game.sects[ActiveSect(s.game)].progress, input)).None?
    ensures var mover := ActiveSect(s.game);
      var target := ProposedTarget(s.game.sects[mover].progress, input);
      var r1 := Step(cfg, s, StartTurn(input), roll1);
      var r2 := Step(cfg, r1, Adjudicate(v), roll2);
      && PhaseOf(r1) == AwaitingOpportunity
      && PhaseOf(r2) == Idle
      && r2.game.sects[mover].progress == ClampToBoard(target + IntOrZero(v.move))
      && r2.game.sects[mover].lastMoveDesc == MoveDesc(IntOrZero(v.move))
      && |r2.game.globalLog| == |s.game.globalLog| + 1
      && (!v.actionAgain ==> Stepped(s.game, r2.game))
  {
    var mover := ActiveSect(s.game);
    var target := ProposedTarget(s.game.sects[mover].progress, input);
    TurnStartConflictIffOccupied(cfg, s.game, input, roll1);
    var r1 := Step(cfg, s, StartTurn(input), roll1);
    assert r1.game == s.game;
    assert r1.pending.value.pendingProgress == target;
  }

  // ---------------------------------------------------------------------
  // The turn start as written

  /** The turn-start command as the file defines it (see
      `Collision.TurnStartAsWritten`): with nothing pending it always opens
      an interaction and leaves the game record as it is. */
  function StartTurnAsWritten(cfg: Config, s: Session, input: Option<int>): (r: Session)
    requires ValidConfig(cfg) && SessionWf(cfg, s)
    ensures SessionWf(cfg, r)
    ensures s.pending.Some? ==> r == s
    ensures s.pending.None? ==> r.game == s.game && PhaseOf(r) != Idle
  {
    if s.pending.Some? then s
    else Session(s.game, Some(TurnStartAsWritten(cfg, s.game, input)))
  }

  /** The discrepancy for a debuffed sect. The intended turn start skips the
      turn, clears the flag and logs one entry. As written, the sect moves
      instead: an interaction opens, nothing is logged and the flag stays
      set until an opportunity verdict overwrites it with the verdict's own
      stay-put choice. */
  lemma DebuffIgnoredAsWritten(cfg: Config, s: Session, input: Option<int>, v: Verdict, roll1: nat, roll2: nat)
    requires ValidConfig(cfg) && SessionWf(cfg, s)
    requires s.pending.None? && s.game.sects[ActiveSect(s.game)].skipNextTurn
    ensures var mover := ActiveSect(s.game);
      var intended := Step(cfg, s, StartTurn(input), roll1);
      var written := StartTurnAsWritten(cfg, s, input);
      && PhaseOf(intended) == Idle
      && !intended.game.sects[mover].skipNextTurn
      && |intended.game.globalLog| == |s.game.globalLog| + 1
      && PhaseOf(written) != Idle
      && written.game.sects[mover].skipNextTurn
      && written.game.globalLog == s.game.globalLog
      && (PhaseOf(written) == AwaitingOpportunity ==>
            Step(cfg, written, Adjudicate(v), roll2).game.sects[mover].skipNextTurn == v.skipNextTurn)
  {
    var mover := ActiveSect(s.game);
    var written := StartTurnAsWritten(cfg, s, input);
    assert written.pending.value.mover == mover;
  }

  // ---------------------------------------------------------------------
  // Runs of commands

  /** The session after a sequence of commands, each with its own roll. */
  function Run(cfg: Config, s: Session, cmds: seq<(Command, nat)>): (r: Session)
    requires ValidConfig(cfg) && SessionWf(cfg, s)
    ensures SessionWf(cfg, r)
    decreases |cmds|
  {
    if |cmds| == 0 then s
    else Run(cfg, Step(cfg, s, cmds[0].0, cmds[0].1), cmds[1..])
  }

  /** Over any run the log only grows at the end, by at most one entry per
      command, the day never goes back nor skips ahead of the commands, and
      (without a negative retreat) every sect stays on the board. */
  lemma {:induction false} RunInvariants(cfg: Config, s: Session, cmds: seq<(Command, nat)>)
    requires ValidConfig(cfg) && SessionWf(cfg, s)
    ensures var r := Run(cfg, s, cmds);
      && s.game.globalLog <= r.game.globalLog
      && |r.game.globalLog| <= |s.game.globalLog| + |cmds|
      && s.game.day <= r.game.day <= s.game.day + |cmds|
      && (WithinGoal(s.game) && (forall i :: 0 <= i < |cmds| ==> !MayPassGoal(cmds[i].0)) ==> WithinGoal(r.game))
    decreases |cmds|
  {
    if |cmds| > 0 {
      var s1 := Step(cfg, s, cmds[0].0, cmds[0].1);
      RunInvariants(cfg, s1, cmds[1..]);
      assert forall i :: 0 <= i < |cmds| - 1 ==> cmds[1..][i] == cmds[i + 1];
    }
  }

  /** A game opened and played for any number of commands stays well formed
      and keeps its opening entry at the head of the log. */
  lemma GameFromStart(cfg: Config, roll: nat, cmds: seq<(Command, nat)>)
    requires ValidConfig(cfg)
    ensures var r := Run(cfg, InitialSession(cfg, roll), cmds);
      && SessionWf(cfg, r)
      && |r.game.globalLog| >= 1
      && r.game.globalLog[0] == LogEntry(1, OpeningLog, SystemLog)
      && r.game.day >= 1
  {
    RunInvariants(cfg, InitialSession(cfg, roll), cmds);
  }
}
