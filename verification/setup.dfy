/** Game initialisation: every sect at the start, day 1, first in queue. */
module Setup {
  import opened Wrappers
  import opened Types
  import opened Board
  import opened Scheduler

  const OpeningLog: string := "七曜同宫，逆鳞现世。七大门派整装待发。"
  const ReadyDesc: string := "蓄势待发"

  const StartingStats: Stats := Stats(20, 20, 20, 0)

  function FreshSect(id: SectId, startName: string): SectState {
    SectState(id, 0, startName, StartingStats, [], [startName], ReadyDesc, false)
  }

  /** One fresh record per sect, filed under its id. */
  function FreshSects(order: seq<SectId>, startName: string): (m: map<SectId, SectState>)
    requires forall id: SectId :: id in order
    ensures forall id: SectId :: id in m && m[id] == FreshSect(id, startName)
    ensures m.Keys == AllSects
  {
    SectIdHasSevenMembers();
    map id | id in order :: FreshSect(id, startName)
  }

  /** `initializeGame`, with the weather draw passed in as `roll`. */
  function InitialState(cfg: Config, roll: nat): (g: GameState)
    requires ValidConfig(cfg)
    ensures Wf(cfg, g) && WithinGoal(g)
    ensures g.day == 1 && g.activeSectIndex == 0 && !g.isDayComplete
    ensures g.turnQueue == cfg.sectOrder
    ensures g.weather in cfg.weathers
    ensures g.sects.Keys == AllSects
    ensures forall id: SectId ::
      var s := g.sects[id];
      && s.progress == 0
      && s.stats == Stats(20, 20, 20, 0)
      && s.currentLocationName == cfg.locations[0].name
      && s.visitedLocations == [cfg.locations[0].name]
      && s.history == []
      && !s.skipNextTurn
      && s.lastMoveDesc == "蓄势待发"
    ensures g.globalLog == [LogEntry(1, OpeningLog, SystemLog)]
  {
    var sects := FreshSects(cfg.sectOrder, LocationAt(cfg, 0).name);
    GameState(1, PickWeather(cfg, roll), 0, cfg.sectOrder, false, sects, [LogEntry(1, OpeningLog, SystemLog)])
  }

  /** The session right after initialisation: no interaction is pending. */
  function InitialSession(cfg: Config, roll: nat): (s: Session)
    requires ValidConfig(cfg)
    ensures s.pending.None?
    ensures Wf(cfg, s.game) && WithinGoal(s.game)
  {
    Session(InitialState(cfg, roll), None)
  }
}
