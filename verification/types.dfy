/** The data model of the turn and encounter engine: sect identities, the
    per-sect record, the global game record, the log, the rulebook event
    shapes, the pending interaction and the static configuration. */
module Types {
  import opened Wrappers

  /** GOAL_PROGRESS, the distance to the goal; the collision guard writes the
      same value as the literal 120. */
  const Goal: int := 120

  /** How many nested occupant lookups a move may chain through. */
  const MaxChainDepth: nat := 5

  /** The seven sects (天河剑宗, 悲歌书院, 往生门, 伏龙山庄, 难陀山, 雪衣楼, 大日琉璃宫). */
  datatype SectId = Tianhe | Beige | Wangsheng | Fulong | Nantuo | Xueyi | Dari

  const AllSects: set<SectId> := {Tianhe, Beige, Wangsheng, Fulong, Nantuo, Xueyi, Dari}

  /** The enumeration is closed: exactly seven distinct identities. */
  lemma SectIdHasSevenMembers()
    ensures forall id: SectId :: id in AllSects
    ensures |AllSects| == 7
  {
    forall id: SectId
      ensures id in AllSects
    {
      match id
      case Tianhe =>
      case Beige =>
      case Wangsheng =>
      case Fulong =>
      case Nantuo =>
      case Xueyi =>
      case Dari =>
    }
  }

  // ---------------------------------------------------------------------
  // Rulebook events

  datatype StatKind = Martial | Strategy | Wealth | Prestige

  /** The stat an option is checked against; `NoCheck` is the source's 'none'. */
  datatype CheckStat = CheckOn(kind: StatKind) | NoCheck

  /** The optional stat changes of an event outcome. */
  datatype StatDeltas = StatDeltas(
    martial: Option<int>, strategy: Option<int>, wealth: Option<int>, prestige: Option<int>)

  /** One outcome branch of an option. Every field is optional; `move` is a
      signed displacement relative to the current position. */
  datatype EventResult = EventResult(
    desc: Option<string>,
    stats: Option<StatDeltas>,
    move: Option<int>,
    item: Option<string>,
    stopTurn: Option<bool>)

  datatype EventOption = EventOption(
    optionLabel: string,
    reqText: string,
    checkStat: CheckStat,
    checkVal: int,
    success: EventResult,
    fail: EventResult)

  /** A fixed rulebook event. The fields `optionA` and `optionB` encode the
      `[EventOption, EventOption]` tuple: an event offers exactly two options. */
  datatype GameEvent = GameEvent(title: string, narrative: string, optionA: EventOption, optionB: EventOption)

  datatype LocationData = LocationData(id: int, name: string, desc: string, event: Option<GameEvent>)

  // ---------------------------------------------------------------------
  // Sect and game records

  datatype Stats = Stats(martial: int, strategy: int, wealth: int, prestige: int)
  {
    function Get(k: StatKind): int {
      match k
      case Martial => martial
      case Strategy => strategy
      case Wealth => wealth
      case Prestige => prestige
    }

    /** The record with stat `k` replaced by `v`. */
    function With(k: StatKind, v: int): (s: Stats)
      ensures s.Get(k) == v
      ensures forall j :: j != k ==> s.Get(j) == Get(j)
    {
      match k
      case Martial => this.(martial := v)
      case Strategy => this.(strategy := v)
      case Wealth => this.(wealth := v)
      case Prestige => this.(prestige := v)
    }

    /** Stat-wise sum, with no clamping: stats are unbounded and may go negative. */
    function Plus(d: Stats): (s: Stats)
      ensures forall k :: s.Get(k) == Get(k) + d.Get(k)
    {
      Stats(martial + d.martial, strategy + d.strategy, wealth + d.wealth, prestige + d.prestige)
    }
  }

  datatype SectState = SectState(
    id: SectId,
    progress: int,
    currentLocationName: string,
    stats: Stats,
    history: seq<string>,
    visitedLocations: seq<string>,
    lastMoveDesc: string,
    skipNextTurn: bool)

  datatype LogKind = MoveLog | ConflictLog | EventLog | SystemLog

  datatype LogEntry = LogEntry(day: int, content: string, kind: LogKind)

  datatype GameState = GameState(
    day: int,
    weather: string,
    activeSectIndex: int,
    turnQueue: seq<SectId>,
    isDayComplete: bool,
    sects: map<SectId, SectState>,
    globalLog: seq<LogEntry>)

  /** The pending encounter. Only a conflict names an occupant. */
  datatype Interaction =
    | Pvp(mover: SectId, occupant: SectId, locationName: string, description: string, pendingProgress: int)
    | Opportunity(mover: SectId, locationName: string, description: string, pendingProgress: int,
                  eventData: Option<GameEvent>)

  /** The game record together with the interaction awaiting adjudication. */
  datatype Session = Session(game: GameState, pending: Option<Interaction>)

  // ---------------------------------------------------------------------
  // Static configuration (the location table, weather pool, sect order and
  // sect display names)

  datatype Config = Config(
    locations: seq<LocationData>,
    weathers: seq<string>,
    sectOrder: seq<SectId>,
    sectName: SectId -> string)

  /** A queue holding each of the seven sects exactly once. */
  predicate IsSectOrder(q: seq<SectId>) {
    && |q| == 7
    && (forall id: SectId :: id in q)
    && (forall i, j :: 0 <= i < j < |q| ==> q[i] != q[j])
  }

  predicate ValidConfig(cfg: Config) {
    && |cfg.locations| > 0
    && |cfg.weathers| > 0
    && IsSectOrder(cfg.sectOrder)
  }

  // ---------------------------------------------------------------------
  // Invariants of the game record

  /** Every sect has an entry, filed under its own id. */
  predicate AllPresent(sects: map<SectId, SectState>) {
    forall id: SectId :: id in sects && sects[id].id == id
  }

  /** The log is ordered by day and no entry is dated after the current day. */
  predicate LogChronological(log: seq<LogEntry>, day: int) {
    && (forall i, j :: 0 <= i < j < |log| ==> log[i].day <= log[j].day)
    && (forall i :: 0 <= i < |log| ==> log[i].day <= day)
  }

  /** The invariant every engine step keeps. */
  predicate Wf(cfg: Config, g: GameState) {
    && 0 <= g.activeSectIndex < |g.turnQueue|
    && g.day >= 1
    && g.weather in cfg.weathers
    && AllPresent(g.sects)
    && (forall id: SectId :: g.sects[id].progress >= 0)
    && LogChronological(g.globalLog, g.day)
  }

  /** Every sect is within the board, `0 <= progress <= Goal`. */
  predicate WithinGoal(g: GameState)
    requires AllPresent(g.sects)
  {
    forall id: SectId :: 0 <= g.sects[id].progress <= Goal
  }

  /** The sect whose turn it is. */
  function ActiveSect(g: GameState): SectId
    requires 0 <= g.activeSectIndex < |g.turnQueue|
  {
    g.turnQueue[g.activeSectIndex]
  }

  /** `parseInt(text) || 0`: an absent (non-numeric) reading counts as zero. */
  function IntOrZero(parsed: Option<int>): int {
    parsed.GetOr(0)
  }

  function Min(a: int, b: int): int { if a <= b then a else b }
  function Max(a: int, b: int): int { if a >= b then a else b }

  /** `Math.max(0, Math.min(Goal, p))`. */
  function ClampToBoard(p: int): (c: int)
    ensures 0 <= c <= Goal
    ensures 0 <= p <= Goal ==> c == p
    ensures p < 0 ==> c == 0
    ensures p > Goal ==> c == Goal
  {
    Max(0, Min(Goal, p))
  }
}
