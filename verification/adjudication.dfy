/** The adjudication applier: committing a conflict verdict (`resolvePvP`),
    committing an opportunity verdict (`confirmManualEvent`, which ends the
    turn through `commitTurn`), and the direct stat edit. */
module Adjudication {
  import opened Wrappers
  import opened Types
  import opened Text
  import opened Board
  import opened Narrative
  import opened Scheduler
  import opened Collision

  // ---------------------------------------------------------------------
  // Movement descriptions

  const ArrivedDesc: string := "抵达"

  /** `lastMoveDesc` after a verdict: `+N里`, `-N里`, or 抵达 for no movement. */
  function MoveDesc(delta: int): (d: string)
    ensures |d| > 0
    ensures delta == 0 <==> d == ArrivedDesc
    ensures delta > 0 ==> d[0] == '+'
    ensures delta < 0 ==> d[0] == '-'
  {
    if delta != 0 then
      var d := (if delta > 0 then "+" else "") + IntToString(delta) + "里";
      assert d[|d| - 1] != ArrivedDesc[|ArrivedDesc| - 1];
      d
    else ArrivedDesc
  }

  /** The shape of a movement description: 抵达, or a signed numeral and 里. */
  predicate IsMoveDesc(d: string) {
    || d == ArrivedDesc
    || (&& |d| >= 3
        && d[|d| - 1] == '里'
        && (d[0] == '+' || d[0] == '-')
        && AllDigits(d[1..|d| - 1]))
  }

  /** Reads a movement description back as a signed displacement. */
  function ParseMoveDesc(d: string): int
    requires IsMoveDesc(d)
  {
    if d == ArrivedDesc then 0
    else if d[0] == '+' then ParseDigits(d[1..|d| - 1])
    else 0 - ParseDigits(d[1..|d| - 1])
  }

  /** The numeral between a one-character sign and the closing 里. */
  lemma SignedDescParts(sign: string, n: nat)
    requires |sign| == 1
    ensures var d := sign + NatToString(n) + "里";
      && |d| >= 3
      && d[0] == sign[0]
      && d[|d| - 1] == '里'
      && d[1..|d| - 1] == NatToString(n)
  {
  }

  /** A signed description reads back as its signed numeral. */
  lemma SignedDescRoundTrip(sign: string, n: nat)
    requires sign == "+" || sign == "-"
    ensures IsMoveDesc(sign + NatToString(n) + "里")
    ensures ParseMoveDesc(sign + NatToString(n) + "里") == if sign == "+" then n else 0 - n
  {
    var d := sign + NatToString(n) + "里";
    SignedDescParts(sign, n);
    assert d != ArrivedDesc by {
      assert d[0] != ArrivedDesc[0];
    }
    ParseNatToString(n);
  }

  /** A non-zero displacement is written as its sign and its magnitude. */
  lemma MoveDescShape(delta: int)
    ensures delta > 0 ==> MoveDesc(delta) == "+" + NatToString(delta) + "里"
    ensures delta < 0 ==> MoveDesc(delta) == "-" + NatToString(0 - delta) + "里"
  {
    if delta < 0 {
      assert IntToString(delta) == "-" + NatToString(0 - delta);
      assert ("" + IntToString(delta)) + "里" == "-" + NatToString(0 - delta) + "里";
    } else if delta > 0 {
      assert IntToString(delta) == NatToString(delta);
    }
  }

  lemma MoveDescRoundTripPositive(delta: int)
    requires delta > 0
    ensures IsMoveDesc(MoveDesc(delta)) && ParseMoveDesc(MoveDesc(delta)) == delta
  {
    var e := "+" + NatToString(delta) + "里";
    MoveDescShape(delta);
    assert MoveDesc(delta) == e;
    SignedDescRoundTrip("+", delta);
  }

  lemma MoveDescRoundTripNegative(delta: int)
    requires delta < 0
    ensures IsMoveDesc(MoveDesc(delta)) && ParseMoveDesc(MoveDesc(delta)) == delta
  {
    var n: nat := 0 - delta;
    var e := "-" + NatToString(n) + "里";
    MoveDescShape(delta);
    assert MoveDesc(delta) == e;
    SignedDescRoundTrip("-", n);
    assert ParseMoveDesc(e) == 0 - n;
  }

  /** The description records the displacement exactly. */
  lemma MoveDescRoundTrip(delta: int)
    ensures IsMoveDesc(MoveDesc(delta))
    ensures ParseMoveDesc(MoveDesc(delta)) == delta
  {
    if delta > 0 {
      MoveDescRoundTripPositive(delta);
    } else if delta < 0 {
      MoveDescRoundTripNegative(delta);
    }
  }

  /** Distinct displacements leave distinct descriptions. */
  lemma MoveDescInjective(a: int, b: int)
    requires MoveDesc(a) == MoveDesc(b)
    ensures a == b
  {
    MoveDescRoundTrip(a);
    MoveDescRoundTrip(b);
  }

  /** `lastMoveDesc` of a sect beaten back by `distance`. */
  function RetreatDesc(distance: int): string {
    "退" + IntToString(distance) + "里"
  }

  // ---------------------------------------------------------------------
  // Conflict verdicts

  datatype PvpOutcome = Battle | Negotiate | Coop

  /** The referee's conflict verdict: the winner, the kind of outcome, the
      retreat distance as typed (absent when non-numeric) and the log text
      (empty for the default). */
  datatype PvpVerdict = PvpVerdict(winner: SectId, outcome: PvpOutcome, distance: Option<int>, logText: string)

  /** The participant that is not `winner`: the occupant when the mover wins,
      the mover otherwise. */
  function Loser(ix: Interaction, winner: SectId): SectId
    requires ix.Pvp?
  {
    if winner == ix.mover then ix.occupant else ix.mover
  }

  lemma LoserIsOtherParticipant(ix: Interaction, winner: SectId)
    requires ix.Pvp? && ix.mover != ix.occupant
    requires winner == ix.mover || winner == ix.occupant
    ensures Loser(ix, winner) == ix.mover || Loser(ix, winner) == ix.occupant
    ensures Loser(ix, winner) != winner
  {
  }

  /** A retreat never goes behind the start. It has no upper clamp: a
      negative distance moves the loser forward. */
  function Retreat(progress: int, distance: int): (p: int)
    ensures p >= 0
    ensures p == 0 || p == progress - distance
    ensures p >= progress - distance
    ensures 0 <= distance && 0 <= progress ==> p <= progress
  {
    Max(0, progress - distance)
  }

  /** The conflict log line, always led by the mover's 【name】. */
  function PvpLogText(cfg: Config, ix: Interaction, v: PvpVerdict): (text: string)
    requires ix.Pvp?
    ensures Tag(cfg.sectName(ix.mover)) <= text
    ensures v.logText != "" ==> text == WithTag(cfg.sectName(ix.mover), v.logText)
  {
    var distance := IntOrZero(v.distance);
    var msg :=
      if v.logText != "" then v.logText
      else if v.outcome == Coop then "在" + ix.locationName + "联手。"
      else Tag(cfg.sectName(v.winner)) + "胜，" + Tag(cfg.sectName(Loser(ix, v.winner)))
             + "退" + IntToString(distance) + "里。";
    WithTag(cfg.sectName(ix.mover), msg)
  }

  /** The loser's record after a non-cooperative outcome. */
  function Beaten(s: SectState, distance: int): (s2: SectState)
    ensures s2.progress == Retreat(s.progress, distance)
    ensures s2.lastMoveDesc == RetreatDesc(distance)
    ensures s2.(progress := s.progress, lastMoveDesc := s.lastMoveDesc) == s
  {
    s.(progress := Retreat(s.progress, distance), lastMoveDesc := RetreatDesc(distance))
  }

  /** `resolvePvP`. Without a pending conflict nothing happens. Otherwise the
      loser of a battle or negotiation retreats and one conflict entry is
      logged (a cooperation changes nothing), and in every case the turn does
      not end: the mover now faces the opportunity at the contested target. */
  function ResolvePvP(cfg: Config, s: Session, v: PvpVerdict): (r: Session)
    requires ValidConfig(cfg) && Wf(cfg, s.game)
    ensures !(s.pending.Some? && s.pending.value.Pvp?) ==> r == s
    ensures s.pending.Some? && s.pending.value.Pvp? ==>
      var ix := s.pending.value;
      var g, g2 := s.game, r.game;
      var loser := Loser(ix, v.winner);
      var distance := IntOrZero(v.distance);
      && r.pending == Some(OpportunityAt(cfg, g, ix.mover, ix.pendingProgress))
      && g2.day == g.day && g2.weather == g.weather && g2.activeSectIndex == g.activeSectIndex
      && g2.isDayComplete == g.isDayComplete && g2.turnQueue == g.turnQueue
      && g2.sects.Keys == g.sects.Keys
      && (forall id :: id in g.sects && id != loser ==> g2.sects[id] == g.sects[id])
      && (v.outcome == Coop ==> g2 == g)
      && (v.outcome != Coop ==>
            && g2.sects[loser] == Beaten(g.sects[loser], distance)
            && g2.globalLog == g.globalLog + [LogEntry(g.day, PvpLogText(cfg, ix, v), ConflictLog)])
    ensures Wf(cfg, r.game)
    ensures WithinGoal(s.game) && IntOrZero(v.distance) >= 0 ==> WithinGoal(r.game)
  {
    if s.pending.None? || !s.pending.value.Pvp? then s
    else
      var ix := s.pending.value;
      var g := s.game;
      var followUp := OpportunityAt(cfg, g, ix.mover, ix.pendingProgress);
      if v.outcome == Coop then
        Session(g, Some(followUp))
      else
        var loser := Loser(ix, v.winner);
        var entry := LogEntry(g.day, PvpLogText(cfg, ix, v), ConflictLog);
        AppendKeepsChronological(g.globalLog, g.day, entry, g.day);
        var g2 := g.(sects := g.sects[loser := Beaten(g.sects[loser], IntOrZero(v.distance))],
                     globalLog := g.globalLog + [entry]);
        Session(g2, Some(followUp))
  }

  /** As written, a negative retreat distance carries the loser past the
      goal: from 118, a distance of -5 ends at 123. */
  lemma NegativeRetreatPassesGoal()
    ensures Retreat(118, -5) == 123 > Goal
  {
  }

  // ---------------------------------------------------------------------
  // Opportunity verdicts

  /** The referee's opportunity verdict: movement as typed (absent when
      non-numeric), the four stat deltas, the stay-put and act-again flags,
      and the log text (empty for the default). */
  datatype Verdict = Verdict(move: Option<int>, stats: Stats, skipNextTurn: bool, actionAgain: bool, logText: string)

  /** The turn's log line, always led by the mover's 【name】. */
  function ConfirmLogText(cfg: Config, ix: Interaction, v: Verdict): (text: string)
    ensures Tag(cfg.sectName(ix.mover)) <= text
    ensures v.logText != "" ==> text == WithTag(cfg.sectName(ix.mover), v.logText)
  {
    var msg := if v.logText != "" then v.logText else "【奇遇】" + ix.locationName + "：命运流转。";
    WithTag(cfg.sectName(ix.mover), msg)
  }

  /** The mover's record after a verdict: progress settles at the pending
      target plus the movement, clamped to the board; the location is read
      there and added to the visited list when it changes; stats move by their
      deltas without clamping; the stay-put flag is the verdict's; one history
      entry is added. */
  function ApplyVerdict(cfg: Config, s: SectState, ix: Interaction, v: Verdict): (s2: SectState)
    requires |cfg.locations| > 0
    ensures s2.id == s.id
    ensures 0 <= s2.progress <= Goal
    ensures s2.progress == ClampToBoard(ix.pendingProgress + IntOrZero(v.move))
    ensures s2.currentLocationName == LocationAt(cfg, s2.progress).name
    ensures s.visitedLocations <= s2.visitedLocations
    ensures |s2.visitedLocations| == |s.visitedLocations| + 1 <==> s2.currentLocationName != s.currentLocationName
    ensures |s2.visitedLocations| == |s.visitedLocations| + 1 ==> s2.visitedLocations[|s.visitedLocations|] == s2.currentLocationName
    ensures |s2.visitedLocations| <= |s.visitedLocations| + 1
    ensures forall k :: s2.stats.Get(k) == s.stats.Get(k) + v.stats.Get(k)
    ensures s2.skipNextTurn == v.skipNextTurn
    ensures s2.lastMoveDesc == MoveDesc(IntOrZero(v.move))
    ensures s2.history == s.history + [ConfirmLogText(cfg, ix, v)]
  {
    var delta := IntOrZero(v.move);
    var finalProgress := ClampToBoard(ix.pendingProgress + delta);
    var finalLoc := LocationAt(cfg, finalProgress);
    var visited := if finalLoc.name != s.currentLocationName then s.visitedLocations + [finalLoc.name]
                   else s.visitedLocations;
    s.(progress := finalProgress,
       currentLocationName := finalLoc.name,
       lastMoveDesc := MoveDesc(delta),
       skipNextTurn := v.skipNextTurn,
       visitedLocations := visited,
       stats := s.stats.Plus(v.stats),
       history := s.history + [ConfirmLogText(cfg, ix, v)])
  }

  /** `confirmManualEvent` followed by the `commitTurn` it schedules. Without
      a pending interaction nothing happens. Otherwise the mover's record
      takes the verdict, the same text goes to its history and to the global
      log (dated with the day the turn was played), no other sect changes,
      the interaction is cleared and the turn ends (or repeats). */
  function ConfirmManualEvent(cfg: Config, s: Session, v: Verdict, roll: nat): (r: Session)
    requires ValidConfig(cfg) && Wf(cfg, s.game)
    ensures s.pending.None? ==> r == s
    ensures s.pending.Some? ==>
      var ix := s.pending.value;
      var g, g2 := s.game, r.game;
      var text := ConfirmLogText(cfg, ix, v);
      && r.pending.None?
      && g2.sects.Keys == g.sects.Keys
      && g2.sects[ix.mover] == ApplyVerdict(cfg, g.sects[ix.mover], ix, v)
      && (forall id :: id in g.sects && id != ix.mover ==> g2.sects[id] == g.sects[id])
      && g2.sects[ix.mover].history == g.sects[ix.mover].history + [text]
      && g2.globalLog == g.globalLog + [LogEntry(g.day, text, MoveLog)]
      && g2.turnQueue == g.turnQueue
      && (v.actionAgain ==>
            g2.day == g.day && g2.weather == g.weather && g2.activeSectIndex == g.activeSectIndex)
      && (!v.actionAgain ==> Stepped(g, g2))
      && (!v.actionAgain && g.activeSectIndex + 1 >= |g.turnQueue| ==> g2.weather == PickWeather(cfg, roll))
      && (g2.weather != g.weather ==> g2.day == g.day + 1 && g2.activeSectIndex == 0)
    ensures Wf(cfg, r.game)
    ensures WithinGoal(s.game) ==> WithinGoal(r.game)
  {
    if s.pending.None? then s
    else
      var ix := s.pending.value;
      var g := s.game;
      var text := ConfirmLogText(cfg, ix, v);
      var updated := g.(sects := g.sects[ix.mover := ApplyVerdict(cfg, g.sects[ix.mover], ix, v)]);
      assert Wf(cfg, updated);
      Session(CommitTurn(cfg, updated, text, v.actionAgain, roll), None)
  }

  // ---------------------------------------------------------------------
  // Direct stat edit

  /** `handleStatEdit`: stat `k` of sect `id` becomes `value`; nothing else changes. */
  function EditStat(cfg: Config, g: GameState, id: SectId, k: StatKind, value: int): (g2: GameState)
    requires AllPresent(g.sects)
    ensures g2.sects.Keys == g.sects.Keys
    ensures g2.sects[id].stats.Get(k) == value
    ensures forall j :: j != k ==> g2.sects[id].stats.Get(j) == g.sects[id].stats.Get(j)
    ensures g2.sects[id].(stats := g.sects[id].stats) == g.sects[id]
    ensures forall other :: other in g.sects && other != id ==> g2.sects[other] == g.sects[other]
    ensures g2.(sects := g.sects) == g
    ensures Wf(cfg, g) ==> Wf(cfg, g2)
    ensures WithinGoal(g) ==> WithinGoal(g2)
  {
    var s := g.sects[id];
    g.(sects := g.sects[id := s.(stats := s.stats.With(k, value))])
  }
}
