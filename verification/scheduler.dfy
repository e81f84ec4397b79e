/** The turn scheduler: the cursor into the turn queue, the day counter and
    the day's weather, and the two ways a turn ends (a committed adjudication
    and a skip). */
module Scheduler {
  import opened Types
  import opened Text

  /** `WEATHERS[Math.floor(Math.random() * WEATHERS.length)]`, with the random
      draw passed in as `roll`. */
  function PickWeather(cfg: Config, roll: nat): (w: string)
    requires |cfg.weathers| > 0
    ensures w in cfg.weathers
  {
    cfg.weathers[roll % |cfg.weathers|]
  }

  /** `g2` is one scheduler step after `g`: the next sect in the queue on the
      same day, or, past the end of the queue, the first sect of the next day. */
  predicate Stepped(g: GameState, g2: GameState) {
    if g.activeSectIndex + 1 < |g.turnQueue| then
      && g2.activeSectIndex == g.activeSectIndex + 1
      && g2.day == g.day
      && g2.weather == g.weather
      && !g2.isDayComplete
    else
      && g2.activeSectIndex == 0
      && g2.day == g.day + 1
      && g2.isDayComplete
  }

  /** The cursor, day and weather update shared by `commitTurn` and both
      skips. With `again` the same sect acts once more. */
  function Advance(cfg: Config, g: GameState, again: bool, roll: nat): (g2: GameState)
    requires |cfg.weathers| > 0
    ensures g2.turnQueue == g.turnQueue && g2.sects == g.sects && g2.globalLog == g.globalLog
    ensures again ==>
      && g2.day == g.day && g2.weather == g.weather
      && g2.activeSectIndex == g.activeSectIndex && !g2.isDayComplete
    ensures !again ==> Stepped(g, g2)
    ensures !again && g.activeSectIndex + 1 >= |g.turnQueue| ==> g2.weather == PickWeather(cfg, roll)
    ensures g2.weather != g.weather ==> g2.day == g.day + 1 && g2.weather == PickWeather(cfg, roll)
    ensures g.weather in cfg.weathers ==> g2.weather in cfg.weathers
    ensures 0 <= g.activeSectIndex < |g.turnQueue| ==> 0 <= g2.activeSectIndex < |g2.turnQueue|
  {
    if again then
      g.(isDayComplete := false)
    else if g.activeSectIndex + 1 >= |g.turnQueue| then
      g.(activeSectIndex := 0, day := g.day + 1, weather := PickWeather(cfg, roll), isDayComplete := true)
    else
      g.(activeSectIndex := g.activeSectIndex + 1, isDayComplete := false)
  }

  /** Appending an entry dated today keeps the log chronological, also once
      the day moves on. */
  lemma AppendKeepsChronological(log: seq<LogEntry>, day: int, e: LogEntry, day2: int)
    requires LogChronological(log, day)
    requires e.day == day <= day2
    ensures LogChronological(log + [e], day2)
  {
    var log2 := log + [e];
    forall i, j | 0 <= i < j < |log2|
      ensures log2[i].day <= log2[j].day
    {
      if j < |log| {
        assert log2[i] == log[i] && log2[j] == log[j];
      } else {
        assert log2[i] == log[i];
      }
    }
  }

  /** `commitTurn`: log the turn's text, dated with the day the turn was
      played, then advance (or not, with `again`). */
  function CommitTurn(cfg: Config, g: GameState, logContent: string, again: bool, roll: nat): (g2: GameState)
    requires |cfg.weathers| > 0
    ensures g2.globalLog == g.globalLog + [LogEntry(g.day, logContent, MoveLog)]
    ensures g2.sects == g.sects && g2.turnQueue == g.turnQueue
    ensures again ==> g2.day == g.day && g2.weather == g.weather && g2.activeSectIndex == g.activeSectIndex
    ensures !again ==> Stepped(g, g2)
    ensures !again && g.activeSectIndex + 1 >= |g.turnQueue| ==> g2.weather == PickWeather(cfg, roll)
    ensures g2.weather != g.weather ==> g2.day == g.day + 1 && g2.activeSectIndex == 0
    ensures Wf(cfg, g) ==> Wf(cfg, g2)
  {
    var g1 := Advance(cfg, g, again, roll);
    var g2 := g1.(globalLog := g.globalLog + [LogEntry(g.day, logContent, MoveLog)]);
    assert Wf(cfg, g) ==> Wf(cfg, g2) by {
      if Wf(cfg, g) {
        AppendKeepsChronological(g.globalLog, g.day, LogEntry(g.day, logContent, MoveLog), g2.day);
      }
    }
    g2
  }

  /** Why a turn is skipped: the sect's stay-put debuff, or the manual skip. */
  datatype SkipReason = Debuff | Manual

  function SkipMessage(cfg: Config, id: SectId, reason: SkipReason): (msg: string)
    ensures Tag(cfg.sectName(id)) <= msg
  {
    match reason
    case Debuff => Tag(cfg.sectName(id)) + "结束滞留状态，整顿完毕。"
    case Manual => Tag(cfg.sectName(id)) + "跳过本回合（状态已重置）。"
  }

  /** A skipped turn: the active sect's debuff is cleared, one entry is
      logged, and the turn passes on. Nothing else about any sect changes.
      Both callers, the debuff check and `handleSkipTurn`, sit in the nested
      `handleTurnStart` that the file never calls; this is the intended flow. */
  function SkipTurn(cfg: Config, g: GameState, reason: SkipReason, roll: nat): (g2: GameState)
    requires ValidConfig(cfg) && Wf(cfg, g)
    ensures Stepped(g, g2)
    ensures g.activeSectIndex + 1 >= |g.turnQueue| ==> g2.weather == PickWeather(cfg, roll)
    ensures g2.weather != g.weather ==> g2.activeSectIndex == 0 && g2.weather == PickWeather(cfg, roll)
    ensures g2.turnQueue == g.turnQueue
    ensures var a := ActiveSect(g);
      && g2.sects.Keys == g.sects.Keys
      && !g2.sects[a].skipNextTurn
      && g2.sects[a] == g.sects[a].(skipNextTurn := false)
      && (forall id :: id in g.sects && id != a ==> g2.sects[id] == g.sects[id])
      && g2.globalLog == g.globalLog + [LogEntry(g.day, SkipMessage(cfg, a, reason), MoveLog)]
    ensures Wf(cfg, g2)
    ensures WithinGoal(g) ==> WithinGoal(g2)
  {
    var a := ActiveSect(g);
    var entry := LogEntry(g.day, SkipMessage(cfg, a, reason), MoveLog);
    var g1 := Advance(cfg, g, false, roll);
    var g2 := g1.(sects := g.sects[a := g.sects[a].(skipNextTurn := false)],
                  globalLog := g.globalLog + [entry]);
    AppendKeepsChronological(g.globalLog, g.day, entry, g2.day);
    g2
  }

  // ---------------------------------------------------------------------
  // A full round of the queue

  /** Commits turns without `again`, one per roll, each with log text `text`. */
  function CommitMany(cfg: Config, g: GameState, text: string, rolls: seq<nat>): GameState
    requires |cfg.weathers| > 0
    decreases |rolls|
  {
    if |rolls| == 0 then g
    else CommitTurn(cfg, CommitMany(cfg, g, text, rolls[..|rolls| - 1]), text, false, rolls[|rolls| - 1])
  }

  /** Short of the end of the queue, turns move the cursor along the same day. */
  lemma {:induction false} CommitManyWithinDay(cfg: Config, g: GameState, text: string, rolls: seq<nat>)
    requires |cfg.weathers| > 0
    requires 0 <= g.activeSectIndex
    requires g.activeSectIndex + |rolls| < |g.turnQueue|
    ensures var g2 := CommitMany(cfg, g, text, rolls);
      && g2.activeSectIndex == g.activeSectIndex + |rolls|
      && g2.day == g.day && g2.weather == g.weather
      && g2.turnQueue == g.turnQueue && g2.sects == g.sects
      && |g2.globalLog| == |g.globalLog| + |rolls|
    decreases |rolls|
  {
    if |rolls| > 0 {
      CommitManyWithinDay(cfg, g, text, rolls[..|rolls| - 1]);
    }
  }

  /** One commit per queue slot, starting from the first slot, brings the
      cursor back to the first slot exactly one day later, with the weather
      re-rolled once (by the last commit) and one log entry per turn. */
  lemma CommitFullRound(cfg: Config, g: GameState, text: string, rolls: seq<nat>)
    requires |cfg.weathers| > 0
    requires g.activeSectIndex == 0
    requires |rolls| == |g.turnQueue| > 0
    ensures var g2 := CommitMany(cfg, g, text, rolls);
      && g2.activeSectIndex == 0
      && g2.day == g.day + 1
      && g2.weather == PickWeather(cfg, rolls[|rolls| - 1])
      && g2.sects == g.sects
      && |g2.globalLog| == |g.globalLog| + |rolls|
  {
    var init := rolls[..|rolls| - 1];
    CommitManyWithinDay(cfg, g, text, init);
  }
}
