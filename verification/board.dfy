/** The location index: progress to location descriptor. */
module Board {
  import opened Types

  /** `FIXED_LOCATIONS[min(Goal, max(0, floor p))] || FIXED_LOCATIONS[0]`.
      Progress is integral in this model, so the floor is the identity. The
      lookup is total: a slot past the end of the table falls back to entry 0. */
  function LocationAt(cfg: Config, p: int): (loc: LocationData)
    requires |cfg.locations| > 0
    ensures loc in cfg.locations
    ensures ClampToBoard(p) < |cfg.locations| ==> loc == cfg.locations[ClampToBoard(p)]
    ensures ClampToBoard(p) >= |cfg.locations| ==> loc == cfg.locations[0]
  {
    var bucket := ClampToBoard(p);
    if bucket < |cfg.locations| then cfg.locations[bucket] else cfg.locations[0]
  }

  /** With a table covering every bucket, each on-board progress value reads
      its own entry: the index has no gaps. */
  lemma LocationAtFullTable(cfg: Config, p: int)
    requires |cfg.locations| > Goal
    requires 0 <= p <= Goal
    ensures LocationAt(cfg, p) == cfg.locations[p]
  {
  }

  /** Off-board progress reads the nearest end of the board. */
  lemma LocationAtOffBoard(cfg: Config, p: int)
    requires |cfg.locations| > 0
    ensures p <= 0 ==> LocationAt(cfg, p) == cfg.locations[0]
    ensures p >= Goal ==> LocationAt(cfg, p) == LocationAt(cfg, Goal)
  {
  }

  /** Clamping first does not change the answer. */
  lemma LocationAtClamped(cfg: Config, p: int)
    requires |cfg.locations| > 0
    ensures LocationAt(cfg, ClampToBoard(p)) == LocationAt(cfg, p)
  {
  }
}
