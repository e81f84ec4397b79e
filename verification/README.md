# 七曜逆鳞 turn and encounter engine, in Dafny

This project models the rules engine of a referee-driven board game for seven
sects racing along a 120-里 road. The engine's state is one game record: the
day, the weather, a turn queue with a cursor, one record per sect, and a
global log. On top of it sits at most one pending interaction, a conflict or
an opportunity, that waits for the referee's verdict.

The modules follow the engine's structure:

- `Types` holds the data model: sects, sect records, log entries, rulebook events, the pending interaction and the static configuration. It also states the invariants `Wf` and `WithinGoal`.
- `Board` maps progress to a location (`getLocationData`).
- `Scheduler` holds the turn cursor, the day and weather advance, `commitTurn`, and the two skip paths.
- `Setup` builds the opening state (`initializeGame`).
- `Narrative` is the local content provider: template substitution, the conflict narrative, and the rulebook lookup behind an opportunity.
- `Collision` covers the proposed move, the occupant search and `resolveCollisions`.
- `Adjudication` applies verdicts: `resolvePvP`, `confirmManualEvent` followed by `commitTurn`, and the stat edit.
- `Referee` is the session: one step per referee command, the phase machine, and properties of whole runs.
- `Text`, `Search` and `Wrappers` are small helpers: numerals, the `【name】` tag, replace-all, first-match search and `Option`.

Randomness, the weather draw, is a `roll: nat` parameter; the weather is
`weathers[roll % |weathers|]`. The location table, weather pool, sect order
and sect display names are a `Config` parameter, because the constants file
is not part of this model. Numeric form fields appear as `Option<int>`: the
result of reading the text, with `None` for a non-numeric field. `IntOrZero`
then models `parseInt(x) || 0`. Progress is an `int`. Every progress value
comes from such a reading or an integer clamp, so `Math.floor` is the
identity here.

Points where the model records the engine's behaviour as it is, including its quirks:

- `handleTurnStart` is defined twice in `App.tsx`, one inside the other. The outer definition (lines 194-307) is the one the advance button calls (line 724). Its body reads the active sect (195-197), declares a nested `handleTurnStart` (199-300) that nothing calls, and then proposes the move and resolves collisions (302-306). The debuff check (206-249) and `handleSkipTurn` (252-293) sit inside that uncalled nested function, so in the file as written a debuffed sect moves like any other. Its flag is only shown as the 停 badge (line 624) until an opportunity verdict overwrites it (line 412). There is also no control that issues a manual skip. `Collision.TurnStartAsWritten` and `Referee.StartTurnAsWritten` model that behaviour, and `Referee.DebuffIgnoredAsWritten` exhibits the difference. `Collision.TurnStart`, `Scheduler.SkipTurn` and the `SkipTurnCmd` command of `Referee.Step` model the evidently intended flow: the debuff skip and the manual skip. The rest of the model uses that flow (see "## Findings").
- `confirmManualEvent` does not check which kind of interaction is pending, and `Adjudication.ConfirmManualEvent` models it that way. It is reachable only from the opportunity dialog (`App.tsx:685`), though. The conflict dialog (`App.tsx:642-651`) offers only the three conflict verdicts, so `Referee.Step` ignores an opportunity verdict while a conflict is pending.
- A cooperative conflict outcome builds its log line but never records it. The record is left unchanged.
- A retreat is clamped below at 0 but not above. A negative retreat distance, accepted by the form, moves the loser forward, possibly past 120.
- The fallback opportunity text carries the location's name, and every committed turn is logged with kind `move`.
- A rulebook event's two options are the fields `optionA` and `optionB` of `GameEvent`. They encode the `[EventOption, EventOption]` tuple of `types.ts:51`.
- While an interaction is pending, the full-screen adjudication overlay covers the side panel. `Referee.Step` therefore ignores turn starts, skips and stat edits until the verdict is in.

## Model

| member | source | states |
|---|---|---|
| Types.SectIdHasSevenMembers | types.ts:2-10 | There are exactly seven sect identities and every identity is among them. |
| Types.ClampToBoard | App.tsx:389-390 | The settled progress lies in 0..120: on-board values are kept, values below 0 become 0, values above 120 become 120. |
| Types.Stats.With | App.tsx:137 | Replacing one stat sets it to the given value and leaves the other three unchanged. |
| Types.Stats.Plus | App.tsx:414-419 | Each stat moves by its own delta, with no clamping. |
| Board.LocationAt | App.tsx:112 | The location read for a progress value is the table entry at the clamped slot, or entry 0 when the table is shorter; it is always a table entry. |
| Board.LocationAtFullTable | App.tsx:112 | With a table covering slots 0..120, every on-board progress value reads its own entry. |
| Board.LocationAtOffBoard | App.tsx:112 | Progress at or below 0 reads the start entry; progress at or beyond 120 reads the same entry as 120. |
| Board.LocationAtClamped | App.tsx:112 | Clamping progress before the lookup does not change the location read. |
| Scheduler.PickWeather | App.tsx:111 | The day's weather is always drawn from the weather pool. |
| Scheduler.Advance | App.tsx:430-442 | Acting again keeps the cursor, day and weather. Otherwise the cursor moves to the next sect on the same day, or wraps to the first sect of the next day with freshly drawn weather. Only a wrap changes the weather. |
| Scheduler.AppendKeepsChronological | App.tsx:444-446 | Appending an entry dated with the current day keeps the log ordered by day, also after the day moves on. |
| Scheduler.CommitTurn | App.tsx:430-449 | Exactly one `move` entry is appended, dated with the day the turn was played. Sect records are untouched. The cursor either stays (act again) or steps, and a wrap to the next day takes the drawn weather. The invariant `Wf` is kept. |
| Scheduler.SkipMessage | App.tsx:236-242 | A skip's log line starts with the sect's 【name】 tag. |
| Scheduler.SkipTurn | App.tsx:206-247 | A debuffed turn start or a manual skip steps the cursor and clears only the active sect's stay-put flag, taking the drawn weather on a wrap. No other field of any sect changes. It appends one dated entry and keeps both invariants. |
| Scheduler.CommitManyWithinDay | App.tsx:436-439 | Short of the end of the queue, k commits move the cursor k places on the same day and weather, adding k log entries. |
| Scheduler.CommitFullRound | App.tsx:436-439 | One commit per queue slot from slot 0 returns the cursor to slot 0 exactly one day later. The weather is the one drawn by the last commit, and there is one log entry per turn. |
| Setup.FreshSects | App.tsx:116-123 | Every sect gets a record under its own id, at progress 0 on the start location with stats 20/20/20/0. |
| Setup.InitialState | App.tsx:114-129 | Day 1, cursor 0, queue in sect order, weather from the pool, every sect fresh, and the log holding the single opening entry. Both invariants hold. |
| Setup.InitialSession | App.tsx:114-131 | The opening session has no pending interaction and satisfies both invariants. |
| Text.NatToString | App.tsx:315 | Numerals in generated text are non-empty digit strings without leading zeros. |
| Text.ParseNatToString | App.tsx:411 | Reading back a printed natural number gives the number. |
| Text.IntToStringRoundTrip | App.tsx:326 | A printed integer, such as the retreat distance, reads back as itself. |
| Text.IntToStringInjective | App.tsx:326 | Distinct retreat distances print differently. |
| Text.WithTag | App.tsx:394-396 | A log line always starts with the sect's 【name】 tag. An untagged line gets the tag prefixed; an already tagged line is kept unchanged. |
| Text.WithTagIdempotent | App.tsx:316 | Tagging a line twice is the same as tagging it once. |
| Text.ReplaceAllAbsent | services/geminiService.ts:10-14 | Replacing a pattern that does not occur leaves the text unchanged. |
| Text.ReplaceAllJoin | services/geminiService.ts:10-14 | Replacing every occurrence of a head-unique pattern in pieces joined by it gives the pieces joined by the replacement. |
| Narrative.FormatNarrativeFixedText | services/geminiService.ts:9-15 | A template without placeholders comes back unchanged. |
| Narrative.FormatNarrativeFillsSlots | services/geminiService.ts:9-15 | All three placeholders are filled in order. The template's pieces around `{Sect}` are joined by the sect name; that text's pieces around `{Location}` are joined by the location name; that text's pieces around `{Weather}` are joined by the weather, which gives the result. |
| Narrative.ConflictNarrativeMentions | services/geminiService.ts:42-52 | The conflict narrative mentions the location, both sect names and the weather. |
| Narrative.FindLocationById | services/geminiService.ts:63 | The lookup finds nothing exactly when no entry has the id, and otherwise the first entry with it. |
| Narrative.OpportunityEvent | services/geminiService.ts:55-82 | When the first entry with the location's id has an event, the payload carries it with its title and the `title\|\|\|narrative\|\|\|请选择行动。` text. Otherwise it is the 荒野赶路 fallback for the location and weather. |
| Narrative.OpportunityEventDependsOnIdOnly | services/geminiService.ts:55-82 | The lookup ignores the sect, and which event is found depends only on the location's id. |
| Collision.FindOccupant | App.tsx:161-165 | An occupant is found exactly when some other sect stands on the target slot strictly between 0 and 120. The first such sect in sect order is reported. |
| Collision.NoCollisionAtEnds | App.tsx:164 | A move to the start or to the goal never collides. |
| Collision.OpportunityAt | App.tsx:179-190 | The opportunity carries the mover, the target as its pending progress, the target's location name and the rulebook payload. |
| Collision.ResolveCollisions | App.tsx:160-191 | The result is a conflict if and only if the chain depth is below 5 and some other sect occupies the target, and the conflict is then with the first occupant in sect order; otherwise it is the opportunity at the target. The mover and the target are carried either way. |
| Collision.ProposedTarget | App.tsx:303-304 | The proposed target is at most 120 and equals the progress plus the typed movement (non-numeric counts as 0) unless capped. |
| Collision.TurnStart | App.tsx:199-249 | A turn is bypassed if and only if the active sect is debuffed, in which case it is the debuff skip. Otherwise the move meets whatever is at the proposed target. |
| Collision.TurnStartAsWritten | App.tsx:194-307 | As written, every turn start opens an interaction for the active sect at the proposed target, debuffed or not. It is a conflict exactly when an occupant stands there, and then with the first occupant in sect order. |
| Collision.TurnStartAsWrittenAgrees | App.tsx:194-307 | The intended turn start and the one as written agree exactly when the active sect is not debuffed. |
| Collision.TurnStartConflictIffOccupied | App.tsx:302-306 | A fresh turn ends in a conflict exactly when an occupant stands on the proposed target, and the mover fights the first occupant in sect order. |
| Adjudication.MoveDesc | App.tsx:411 | The movement note is 抵达 exactly when there is no movement; it starts with + for a forward move and - for a backward one. |
| Adjudication.MoveDescRoundTrip | App.tsx:411 | The movement note reads back as the exact signed displacement. |
| Adjudication.MoveDescInjective | App.tsx:411 | Different displacements leave different notes. |
| Adjudication.LoserIsOtherParticipant | App.tsx:312 | In a conflict between two different sects, the loser is the participant that did not win. |
| Adjudication.Retreat | App.tsx:323 | A retreat never goes below 0, lands at progress minus distance unless floored, and for a non-negative distance never moves forward. |
| Adjudication.PvpLogText | App.tsx:314-316 | The conflict log line starts with the mover's tag; a typed line is kept, tagged. |
| Adjudication.Beaten | App.tsx:323-326 | The loser's progress becomes the retreat and the note becomes 退N里; nothing else in its record changes. |
| Adjudication.ResolvePvP | App.tsx:309-353 | With no pending conflict nothing happens. Otherwise only the loser changes (battle or negotiation), with one `conflict` entry logged; a cooperation changes nothing. The opportunity at the contested slot then becomes pending. `Wf` is always kept, and `WithinGoal` is kept when the distance is not negative. |
| Adjudication.NegativeRetreatPassesGoal | App.tsx:323 | A loser at 118 told to retreat -5 ends at 123, past the goal. |
| Adjudication.ConfirmLogText | App.tsx:393-396 | The turn's log line starts with the mover's tag; a typed line is kept, tagged. |
| Adjudication.ApplyVerdict | App.tsx:388-418 | Progress settles at the clamped pending target plus movement, and the location is read there. The visited list grows by that location exactly when it changes. Stats add their deltas, the stay-put flag is set from the verdict, and one history line is added. |
| Adjudication.ConfirmManualEvent | App.tsx:384-428 | With nothing pending nothing happens. Otherwise only the mover's record changes. The same line goes to its history and to the log, dated with the turn's day. The interaction clears, and the turn steps unless the verdict grants another action; a wrap takes the drawn weather. |
| Adjudication.EditStat | App.tsx:137 | The chosen stat of the chosen sect takes the value; every other stat, field and sect is unchanged. |
| Referee.Step | App.tsx:199-449 | Each command keeps the session invariants. The day never goes back and rises by at most one. The log only grows at its end, by at most one entry. Turn controls and stat edits are inert while an interaction is pending, and only a conflict verdict acts on a pending conflict. |
| Referee.PhaseTransitions | App.tsx:642-685 | From idle, a turn start waits for a verdict unless the sect is debuffed. A conflict verdict leads to the opportunity at the contested slot and is the only way out of a pending conflict. An opportunity verdict returns a pending opportunity to idle. Nothing else changes the phase. |
| Referee.StartTurnConflict | App.tsx:302-306 | A fresh turn leaves the record untouched, waits for a verdict, and waits on a conflict exactly when another sect occupies the target, against the first occupant in sect order. |
| Referee.MoverRetreatOverwritten | App.tsx:389-409 | When the occupant beats the mover, the mover's retreat is recorded, but the following opportunity verdict places the mover at the contested slot plus its movement. |
| Referee.StartTurnAsWritten | App.tsx:194-307 | As written, a turn start with nothing pending always opens an interaction and leaves the game record untouched. With something pending it does nothing. |
| Referee.DebuffIgnoredAsWritten | App.tsx:199-249 | For a debuffed sect, the intended turn start stays idle, clears the flag and logs one entry. As written, an interaction opens, nothing is logged, and the flag stays set until an opportunity verdict replaces it with the verdict's own choice. |
| Referee.QuietTurn | App.tsx:384-428 | With no debuff and no occupant, a turn start then an opportunity verdict settles the mover at the clamped target plus movement, with one log entry, and passes the turn on. |
| Referee.Run | App.tsx:199-449 | Any sequence of commands keeps the session invariants. |
| Referee.RunInvariants | App.tsx:430-449 | Over any run the log only grows at its end, by at most one entry per command. The day rises by at most one per command. Without negative retreats every sect stays within 0..120. |
| Referee.GameFromStart | App.tsx:114-129 | A game opened and then played for any number of commands stays well formed and keeps the opening entry at the head of its log. |

## Findings

| source | as written | input that shows it | evidently intended | confidence | as-written member | corrected member |
|---|---|---|---|---|---|---|
| App.tsx:199-293 | The debuff check and `handleSkipTurn` sit inside a nested `handleTurnStart` that the outer one (194-307) declares but never calls. A debuffed sect moves normally and its flag stays set. No manual skip can be issued. | Nothing pending, the active sect has `skipNextTurn = true`, and the referee advances with 5 | The debuffed turn is skipped: the flag is cleared, 【name】结束滞留状态，整顿完毕。 is logged and the cursor steps, with no interaction | not executed; follows from the brace structure of lines 194-307 | Referee.DebuffIgnoredAsWritten | Collision.TurnStart |

## Left out

- The React interface: rendering, the map and path geometry, images, save and load, and file upload. The `loading` flag and the asynchronous awaits are also left out, since every provider call here is local and immediate.
- Randomness: the weather draw is a `roll` parameter, and the narrative chosen by `generateTurnEvent` is not modelled because the engine never calls it.
- `localizeText`, `formatStatChanges` and `loadEventResultToForm`, and the form pre-fills (`setInteractionValue`, `setManualLogText` with the event title, reset stats and flags). A verdict is whatever the referee finally submits, so these only pre-fill its fields.
- The text-to-number reading done by `parseInt`. A form field enters the model as its reading, `Option<int>`.
- `isDayComplete` is set exactly as the engine sets it, but nothing in the engine reads it.
- The customisation fields of the game record (map background, path, sect images).
- `constants.ts` is not part of this model: the location table, weathers, sect order and sect names come in as `Config`.
- Adjudication.ResolvePvP: the on-board bound `WithinGoal` is promised only for a non-negative retreat distance, because the engine does not clamp a negative retreat from above (`Adjudication.NegativeRetreatPassesGoal`).
- Referee.RunInvariants: the on-board bound is promised only for runs without a negative retreat distance, for the same reason.
- Referee.Step: a stat edit can target any sect, while the side panel only offers the active sect's stats.
- Text.ReplaceAllJoin: JavaScript's `replace` expands `$&`, `$$`, `` $` `` and `$'` in the replacement string, while `ReplaceAll` inserts it literally. So the lemma matches the engine only for replacements without `$`.
- Narrative.FormatNarrativeFillsSlots: holds for the engine only when the sect name, location name and weather contain no `$`, for the same reason.
- Numbers are unbounded integers. In the engine they are JavaScript doubles, exact only up to 2^53 and printed in exponent form from 1e21. Progress, stats, distances and the numerals of `Text.NatToString` and `Text.IntToString` do not model that range limit.
