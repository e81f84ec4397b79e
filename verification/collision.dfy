/** Turn start and collision detection: the proposed move, the occupant
    search, and the interaction the move produces. */
module Collision {
  import opened Wrappers
  import opened Types
  import opened Search
  import opened Board
  import opened Narrative
  import opened Scheduler

  /** `other` blocks `mover` at `target`: a different sect in the same
      integer bucket, strictly between the start and the goal. */
  predicate Occupies(g: GameState, other: SectId, mover: SectId, target: int)
    requires AllPresent(g.sects)
  {
    && other != mover
    && g.sects[other].progress == target
    && 0 < target < Goal
  }

  /** The occupant search, scanning sects in key order (the sect order the
      record was built in) and reporting the first match. */
  function FindOccupant(cfg: Config, g: GameState, mover: SectId, target: int): (r: Option<SectId>)
    requires AllPresent(g.sects)
    ensures r.None? <==> forall j :: 0 <= j < |cfg.sectOrder| ==> !Occupies(g, cfg.sectOrder[j], mover, target)
    ensures r.Some? ==>
      && r.value in cfg.sectOrder
      && Occupies(g, r.value, mover, target)
      && exists k :: 0 <= k < |cfg.sectOrder| && cfg.sectOrder[k] == r.value
           && forall j :: 0 <= j < k ==> !Occupies(g, cfg.sectOrder[j], mover, target)
  {
    var p := (id: SectId) => Occupies(g, id, mover, target);
    var r := FindFirst(cfg.sectOrder, p);
    if r.Some? then
      var k :| IsFirstMatch(cfg.sectOrder, p, k) && cfg.sectOrder[k] == r.value;
      r
    else
      r
  }

  /** The start and the goal are shared ground: a move there never collides. */
  lemma NoCollisionAtEnds(cfg: Config, g: GameState, mover: SectId, target: int)
    requires AllPresent(g.sects)
    requires target <= 0 || target >= Goal
    ensures FindOccupant(cfg, g, mover, target).None?
  {
  }

  /** The opportunity interaction for `mover` at `target`, from the rulebook
      lookup at the location of `target`. */
  function OpportunityAt(cfg: Config, g: GameState, mover: SectId, target: int): (ix: Interaction)
    requires ValidConfig(cfg) && AllPresent(g.sects)
    ensures ix.Opportunity? && ix.mover == mover && ix.pendingProgress == target
    ensures ix.locationName == LocationAt(cfg, target).name
    ensures var payload := OpportunityEvent(cfg, g.sects[mover], LocationAt(cfg, target), g.weather);
      ix.description == payload.description && ix.eventData == payload.eventData
  {
    var loc := LocationAt(cfg, target);
    var payload := OpportunityEvent(cfg, g.sects[mover], loc, g.weather);
    Opportunity(mover, loc.name, payload.description, target, payload.eventData)
  }

  /** `resolveCollisions`: a conflict with the first occupant while the chain
      depth allows it, an opportunity at the target otherwise. Either way the
      interaction carries the mover and the target as its pending progress. */
  function ResolveCollisions(cfg: Config, g: GameState, mover: SectId, target: int, depth: nat): (ix: Interaction)
    requires ValidConfig(cfg) && AllPresent(g.sects)
    ensures ix.mover == mover && ix.pendingProgress == target
    ensures ix.Pvp? <==>
      depth < MaxChainDepth && exists j :: 0 <= j < |cfg.sectOrder| && Occupies(g, cfg.sectOrder[j], mover, target)
    ensures ix.Pvp? ==>
      && FindOccupant(cfg, g, mover, target) == Some(ix.occupant)
      && Occupies(g, ix.occupant, mover, target)
      && ix.locationName == LocationAt(cfg, target).name
      && ix.description == ConflictNarrative(cfg, mover, ix.occupant, ix.locationName, g.weather)
    ensures ix.Opportunity? ==> ix == OpportunityAt(cfg, g, mover, target)
    ensures (target <= 0 || target >= Goal) ==> ix.Opportunity?
  {
    var occupant := FindOccupant(cfg, g, mover, target);
    if occupant.Some? && depth < MaxChainDepth then
      var locationName := LocationAt(cfg, target).name;
      Pvp(mover, occupant.value, locationName,
          ConflictNarrative(cfg, mover, occupant.value, locationName, g.weather), target)
    else
      OpportunityAt(cfg, g, mover, target)
  }

  /** What pressing "advance" does: either the turn is bypassed, or an
      interaction awaits adjudication (the game record is then unchanged). */
  datatype TurnStep = Bypassed(next: GameState) | Encounter(interaction: Interaction)

  /** The proposed target: `min(Goal, progress + input)`, with a non-numeric
      input read as 0. It is not floored at 0. */
  function ProposedTarget(progress: int, input: Option<int>): (t: int)
    ensures t <= Goal
    ensures t <= progress + IntOrZero(input)
    ensures t == Goal || t == progress + IntOrZero(input)
  {
    Min(Goal, progress + IntOrZero(input))
  }

  /** `handleTurnStart` as its nested definition lays it out, the evidently
      intended flow: a debuffed sect's turn is skipped outright, and any other
      sect proposes its move and meets whatever is there. */
  function TurnStart(cfg: Config, g: GameState, input: Option<int>, roll: nat): (step: TurnStep)
    requires ValidConfig(cfg) && Wf(cfg, g)
    ensures step.Bypassed? <==> g.sects[ActiveSect(g)].skipNextTurn
    ensures step.Bypassed? ==> step.next == SkipTurn(cfg, g, Debuff, roll)
    ensures step.Encounter? ==>
      step.interaction == ResolveCollisions(cfg, g, ActiveSect(g),
                                            ProposedTarget(g.sects[ActiveSect(g)].progress, input), 0)
  {
    var active := ActiveSect(g);
    var state := g.sects[active];
    if state.skipNextTurn then
      Bypassed(SkipTurn(cfg, g, Debuff, roll))
    else
      Encounter(ResolveCollisions(cfg, g, active, ProposedTarget(state.progress, input), 0))
  }

  /** `handleTurnStart` as the file defines it. The outer function only
      declares the nested one that holds the debuff check and never calls
      it, so every sect, debuffed or not, proposes its move and meets whatever
      is at the target. */
  function TurnStartAsWritten(cfg: Config, g: GameState, input: Option<int>): (ix: Interaction)
    requires ValidConfig(cfg) && Wf(cfg, g)
    ensures ix.mover == ActiveSect(g)
    ensures ix.pendingProgress == ProposedTarget(g.sects[ActiveSect(g)].progress, input)
    ensures ix.Pvp? <==> FindOccupant(cfg, g, ActiveSect(g), ix.pendingProgress).Some?
    ensures ix.Pvp? ==> FindOccupant(cfg, g, ActiveSect(g), ix.pendingProgress) == Some(ix.occupant)
  {
    var active := ActiveSect(g);
    ResolveCollisions(cfg, g, active, ProposedTarget(g.sects[active].progress, input), 0)
  }

  /** The intended turn start agrees with the one as written exactly when the
      active sect is not debuffed. */
  lemma TurnStartAsWrittenAgrees(cfg: Config, g: GameState, input: Option<int>, roll: nat)
    requires ValidConfig(cfg) && Wf(cfg, g)
    ensures TurnStart(cfg, g, input, roll) == Encounter(TurnStartAsWritten(cfg, g, input))
            <==> !g.sects[ActiveSect(g)].skipNextTurn
  {
  }

  /** A fresh move (depth 0) meets the first occupant in sect order whenever
      there is one. */
  lemma TurnStartConflictIffOccupied(cfg: Config, g: GameState, input: Option<int>, roll: nat)
    requires ValidConfig(cfg) && Wf(cfg, g)
    requires !g.sects[ActiveSect(g)].skipNextTurn
    ensures var step := TurnStart(cfg, g, input, roll);
      var target := ProposedTarget(g.sects[ActiveSect(g)].progress, input);
      && step.Encounter?
      && step.interaction.mover == ActiveSect(g)
      && step.interaction.pendingProgress == target
      && (step.interaction.Pvp? <==> FindOccupant(cfg, g, ActiveSect(g), target).Some?)
      && (step.interaction.Pvp? ==> FindOccupant(cfg, g, ActiveSect(g), target) == Some(step.interaction.occupant))
  {
  }
}
