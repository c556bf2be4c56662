# Minigame arena core, modelled in Dafny

This project models the core of a Bukkit minigame framework. An **arena** holds:
- a roster of joined players;
- the subset of those players still competing;
- a gate that decides whether new players may join;
- an ordered list of timed **game states** (phases: lobby, play, results, and so on).

Each phase has a duration budget and the flags `started`, `ended`, `frozen` and `skipped`. It also has three hooks that a concrete phase supplies: start, per-tick update and end. A scheduler calls `update` once a tick. Each player also has a sidebar **scoreboard** of up to 15 rows. A Kotlin rewrite of the phase class has its own end predicate, and that is modelled as well.

The project has six files:

- `game_state.dfy` (module `States`): the Java `GameState`.
  - Its behaviour is first given on values, as step functions over a `Phase` record: `StartStep`, `EndStep`, `RestartStep`, `RemainingStep`, `AbleToEndStep` and `UpdateStep`. `Run` chains updates.
  - The class `GameState` has the Java fields. Every lifecycle method is proved to leave exactly the state its step function gives. `skip` gives the state `SkipStep` gives, and each setter changes only its own field. A ghost `trace` records the hooks run.
  - Time is an integer count of nanoseconds, which is the resolution of `java.time.Duration`. Each clock-reading operation receives the reading as `now`.
- `templates.dfy` (module `Templates`): the join and leave texts.
  - Java's `String.replace` replaces every occurrence of its target, scanning left to right.
  - Integers are rendered as decimal text, with a parse-back round trip.
  - `Fill` substitutes `{player}`, `{cur}` and `{max}` in that order.
- `game_arena.dfy` (module `Arenas`): the Java `GameArena`.
  - On values, it has the join, leave and demote operations over a `Roster`, together with the ordered effects they have on players.
  - The class `GameArena` has the roster, gate, phase list and current phase as fields. A ghost `log` records the effects: messages, board creation, teleport, and the join and arena hooks.
- `game_scoreboard.dfy` (module `Scoreboards`): the Java `GameScoreboard`.
  - The rows are the team prefixes, by position.
  - A team is identified by the index of the chat colour that names it. The board keeps the set of names already registered, because Bukkit's `registerNewTeam` throws on a repeated name. That exception ends the update, and the model returns it as a `Fault`.
  - Successful registrations go into a ghost log, recorded by row index and score.
  - The line source is a parameter.
- `game_state_kt.dfy` (module `KotlinStates`): the Kotlin `GameState` and its `isAbleToEnd`, as a pure function. Reading the unset `lateinit` start time is modelled as a distinct result, `Uninitialized`.
- `wrappers.dfy` (module `Wrappers`): `Option`.

Some behaviours of the code are easy to misread, and the model keeps them as written:
- **Join guard.** One might expect a closed arena to refuse every joiner. The guard at `GameArena.java:89` refuses only while the arena is below capacity. So in a two-seat arena a third player is admitted (`Arenas.TwoSeatArena`).
- **Repeated `start`.** One might expect `start` to ignore a repeat call. Java `start` has no guard: each call records a new start time, registers the listener again and runs the start hook again.
- **Five-second phase.** One might expect a five-second phase ticked once a second to end on its fifth tick. The first tick starts the phase, and the phase ends on the tick five seconds after the start, which is the sixth (`States.FiveSecondPhase`).
- **Frozen and skipped.** With both set, `update` calls `end`, which does nothing. No per-tick hook runs either, and the update returns at once.

## Model

| member | source | states |
|---|---|---|
| States.Remaining | src/main/java/cc/lynzie/minigame/arena/state/GameState.java:150-161 | the remaining budget is zero exactly when the elapsed time has reached the duration; after the start it never exceeds the duration; before expiry, remaining plus elapsed is the duration |
| States.RemainingParts | src/main/java/cc/lynzie/minigame/arena/state/GameState.java:168-171 | the minutes part and the seconds part both lie in 0..59 |
| States.PartsReassemble | src/main/java/cc/lynzie/minigame/arena/state/GameState.java:168-171 | whole hours, the minutes part and the seconds part add up to the span's whole seconds |
| States.PartsUnderAnHour | src/main/java/cc/lynzie/minigame/arena/state/GameState.java:168-171 | below one hour (the default budget), minutes × 60 + seconds is the whole remaining time in seconds |
| States.RemainingFullAtStart | src/main/java/cc/lynzie/minigame/arena/state/GameState.java:145-162 | a phase without a start time takes `now` as its start and reports its full budget; so does a phase queried at the instant it started |
| States.UpdateDecides | src/main/java/cc/lynzie/minigame/arena/state/GameState.java:73-97 | one `update` (`UpdateStep`, through `StartStep`, `AbleToEndStep`, `RemainingStep` and `EndStep`): starts an unstarted phase; when it has ended, expired or been skipped, ends it, unless frozen, in which case nothing changes and no hook runs; otherwise runs exactly the per-tick hook; started-implies-start-time is kept |
| States.UpdateEndsIffExpired | src/main/java/cc/lynzie/minigame/arena/state/GameState.java:73-97 | for a running, unfrozen, unskipped phase, `update` ends it (running the end hook) exactly when start + duration ≤ now, and otherwise runs the per-tick hook |
| States.SkipSurvivesRestart | src/main/java/cc/lynzie/minigame/arena/state/GameState.java:67-71 | `restart` clears `ended` and records a new start but keeps `skipped`, so the next unfrozen update ends the phase again at once |
| States.RunConcat | src/main/java/cc/lynzie/minigame/arena/state/GameState.java:73-91 | `Run`, which applies `UpdateStep` once per tick: running two sequences of ticks one after the other equals running their concatenation, state and hooks alike |
| States.RunKeepsLatches | src/main/java/cc/lynzie/minigame/arena/state/GameState.java:73-91 | no number of updates clears `started`, `ended` or `skipped`, or changes `frozen` or the budget |
| States.FrozenDueRunIsInert | src/main/java/cc/lynzie/minigame/arena/state/GameState.java:51-91 | a frozen running phase that is due to end stays exactly as it is through any run of updates and runs no hook |
| States.UnexpiredRunOnlyTicks | src/main/java/cc/lynzie/minigame/arena/state/GameState.java:73-91 | a running, unfrozen, unskipped phase whose budget outlasts every reading runs only the per-tick hook, once per update |
| States.FiveSecondPhase | src/main/java/cc/lynzie/minigame/arena/state/GameState.java:73-97 | a five-second phase ticked every second is started by the first tick, ticks five times without ending, and ends on the tick five seconds after its start |
| States.GameState.constructor | src/main/java/cc/lynzie/minigame/arena/state/GameState.java:20-25 | a new phase has the given budget and name, no start time, and all flags false |
| States.GameState.WithDuration | src/main/java/cc/lynzie/minigame/arena/state/GameState.java:16-18 | the two-argument form names the phase "Event" |
| States.GameState.Default | src/main/java/cc/lynzie/minigame/arena/state/GameState.java:12-14 | the one-argument form gives a one-hour budget and the name "Event" |
| States.GameState.Start | src/main/java/cc/lynzie/minigame/arena/state/GameState.java:37-49 | sets `started`, records `now` as the start time, registers the listener and runs the start hook, with no guard against a repeat call; other fields are unchanged; equals `StartStep` |
| States.GameState.End | src/main/java/cc/lynzie/minigame/arena/state/GameState.java:51-65 | frozen: nothing changes and no hook runs; otherwise sets `ended`, unregisters the listener and runs the end hook; equals `EndStep` |
| States.GameState.Restart | src/main/java/cc/lynzie/minigame/arena/state/GameState.java:67-71 | clears `ended` and starts again, whether frozen or not, keeping `skipped`; equals `RestartStep` |
| States.GameState.GetRemaining | src/main/java/cc/lynzie/minigame/arena/state/GameState.java:145-162 | sets a missing start time to `now`, then returns the clamped remaining budget; equals `RemainingStep` |
| States.GameState.GetRemainingTime | src/main/java/cc/lynzie/minigame/arena/state/GameState.java:164-171 | returns the minutes part and the seconds part of the remaining time, each in 0..59, with the same lazy start |
| States.GameState.IsAbleToEnd | src/main/java/cc/lynzie/minigame/arena/state/GameState.java:93-97 | true when ended, without touching the start time; otherwise it is whether the remaining time is zero; equals `AbleToEndStep` |
| States.GameState.Update | src/main/java/cc/lynzie/minigame/arena/state/GameState.java:73-91 | leaves exactly the state and appends exactly the hooks of `UpdateStep` on the old state |
| States.GameState.Skip | src/main/java/cc/lynzie/minigame/arena/state/GameState.java:173-175 | sets `skipped` and changes nothing else |
| States.GameState.SetFrozen | src/main/java/cc/lynzie/minigame/arena/state/GameState.java:121-123 | sets `frozen` and changes nothing else |
| States.GameState.SetStateDuration | src/main/java/cc/lynzie/minigame/arena/state/GameState.java:117-119 | sets the budget and changes nothing else |
| States.GameState.SetFriendlyName | src/main/java/cc/lynzie/minigame/arena/state/GameState.java:141-143 | sets the name and changes nothing else |
| Templates.ReplaceSkipsPlainPrefix | src/main/java/cc/lynzie/minigame/arena/GameArena.java:102-104 | `Replace` models `String.replace`; it copies a prefix that lacks the target's first character unchanged |
| Templates.ReplaceAtFront | src/main/java/cc/lynzie/minigame/arena/GameArena.java:102-104 | a target at the front is replaced, and the scan resumes after it |
| Templates.ReplaceAbsent | src/main/java/cc/lynzie/minigame/arena/GameArena.java:102-104 | a text that does not contain the target is returned unchanged |
| Templates.ReplaceSkipsOtherPlaceholder | src/main/java/cc/lynzie/minigame/arena/GameArena.java:102-104 | a different placeholder in front is copied unchanged |
| Templates.ReplacePlain | src/main/java/cc/lynzie/minigame/arena/GameArena.java:102-104 | a text without braces is left alone by every placeholder substitution |
| Templates.NameStage | src/main/java/cc/lynzie/minigame/arena/GameArena.java:102 | the `{player}` pass puts the name in its place and leaves `{cur}` and `{max}` standing |
| Templates.CountStage | src/main/java/cc/lynzie/minigame/arena/GameArena.java:103 | the `{cur}` pass puts the count in its place and leaves `{max}` standing |
| Templates.CapacityStage | src/main/java/cc/lynzie/minigame/arena/GameArena.java:104 | the `{max}` pass puts the capacity in its place |
| Templates.FillTemplate | src/main/java/cc/lynzie/minigame/arena/GameArena.java:102-104 | `Fill`, the three chained passes: for a template `{player}a{cur}b{max}c` whose pieces and name have no braces, the text is name, a, count, b, capacity, c |
| Templates.FillPlainTemplate | src/main/java/cc/lynzie/minigame/arena/GameArena.java:102-104 | a template without braces is sent as it is |
| Templates.NameIsSubstitutedToo | src/main/java/cc/lynzie/minigame/arena/GameArena.java:102-104 | a player named `{cur}` is announced as the count, because the later passes also scan the substituted name |
| Templates.NatToString | src/main/java/cc/lynzie/minigame/arena/GameArena.java:103 | `"" + n` of a count is non-empty decimal digits |
| Templates.IntToString | src/main/java/cc/lynzie/minigame/arena/GameArena.java:104 | `"" + maxPlayers` contains no brace, and starts with a minus sign exactly when the number is negative |
| Templates.NatToStringRoundTrip | src/main/java/cc/lynzie/minigame/arena/GameArena.java:103 | the decimal text of a count reads back as that count |
| Arenas.IndexOf | src/main/java/cc/lynzie/minigame/arena/GameArena.java:115-116 | `indexOf`, as `List.remove` uses it: the first position of the player, or -1 exactly when the player is absent |
| Arenas.RemoveFirst | src/main/java/cc/lynzie/minigame/arena/GameArena.java:115-116 | `List.remove(Object)` drops the first occurrence of the player and keeps the rest in order, shortening the list by one; without one, the list is unchanged |
| Arenas.Broadcast | src/main/java/cc/lynzie/minigame/arena/GameArena.java:159-163 | one message per roster entry, with the same text, in roster order |
| Arenas.JoinRefusesExactly | src/main/java/cc/lynzie/minigame/arena/GameArena.java:89-94 | `addPlayer`, modelled by `Join`, refuses (only the notice to the joiner; nothing else changes) exactly when the gate is closed and the roster is below capacity |
| Arenas.JoinAdmits | src/main/java/cc/lynzie/minigame/arena/GameArena.java:96-111 | an admitted player is appended to both lists; every roster member, the newcomer included, hears the join text with the new count; the teleport follows the broadcast; the gate opens exactly while below capacity |
| Arenas.LeaveRemovesFirst | src/main/java/cc/lynzie/minigame/arena/GameArena.java:114-121 | `removePlayer`, modelled by `Leave`, drops the first occurrence from both lists, keeping the rest in order; it leaves the gate alone and broadcasts the leave text, with the new size, to those who remain |
| Arenas.OperationsKeepActiveWithinPlayers | src/main/java/cc/lynzie/minigame/arena/GameArena.java:86-125 | `Join`, `JoinIntended`, `Leave` and `RemoveActive` (demote) keep every competing player on the roster, repeats counted; demote leaves the roster and the gate alone |
| Arenas.JoinRosterAgrees | src/main/java/cc/lynzie/minigame/arena/GameArena.java:86-111 | the roster after a join does not depend on the join template |
| Arenas.FullArenaAdmitsAll | src/main/java/cc/lynzie/minigame/arena/GameArena.java:89 | as written, an arena at or over capacity admits every joiner in turn, so the roster grows past capacity and the gate stays closed |
| Arenas.IntendedJoinsRespectCapacity | src/main/java/cc/lynzie/minigame/arena/GameArena.java:87-94 | with the inferred guard (refuse when closed or full), an arena within capacity stays within it whoever joins |
| Arenas.GuardsDisagreeOnlyWhenFull | src/main/java/cc/lynzie/minigame/arena/GameArena.java:87-89 | every refusal of the written guard is a refusal of the intended one; they differ exactly when the arena is full |
| Arenas.GameArena.constructor | src/main/java/cc/lynzie/minigame/arena/GameArena.java:46-55 | a new arena has an empty roster, an open gate, no phases and no current phase |
| Arenas.GameArena.SendMessage | src/main/java/cc/lynzie/minigame/arena/GameArena.java:159-163 | the loop delivers the text to every roster member in order: the log grows by `Broadcast` |
| Arenas.GameArena.AddPlayer | src/main/java/cc/lynzie/minigame/arena/GameArena.java:86-112 | the new roster and the effects logged are exactly those of `Join` on the old roster |
| Arenas.GameArena.RemovePlayer | src/main/java/cc/lynzie/minigame/arena/GameArena.java:114-121 | the new roster and the effects logged are exactly those of `Leave` |
| Arenas.GameArena.RemoveActivePlayer | src/main/java/cc/lynzie/minigame/arena/GameArena.java:123-125 | only the competing list loses one occurrence |
| Arenas.GameArena.AddGameState | src/main/java/cc/lynzie/minigame/arena/GameArena.java:132-137 | appends the phase; the first phase added becomes current, and a later one leaves the current phase alone |
| Arenas.GameArena.GetNextState | src/main/java/cc/lynzie/minigame/arena/GameArena.java:145-153 | null exactly when every phase has ended; otherwise the first phase that has not ended |
| Arenas.GameArena.SetCurrentGameState | src/main/java/cc/lynzie/minigame/arena/GameArena.java:195-197 | sets the current phase |
| Arenas.GameArena.SetAllowNewPlayers | src/main/java/cc/lynzie/minigame/arena/GameArena.java:235-237 | sets the gate |
| Arenas.TwoSeatArena | src/main/java/cc/lynzie/minigame/arena/GameArena.java:89-111 | capacity two: A and B are admitted and the gate closes after B, yet C is admitted too (sizes 1, 2, 3; gates open, closed, closed) |
| Arenas.ClosedLobbyRefuses | src/main/java/cc/lynzie/minigame/arena/GameArena.java:89-94 | a lobby closed below capacity refuses the next joiner, who alone gets the notice |
| Arenas.NextPendingAfterFirstEnds | src/main/java/cc/lynzie/minigame/arena/GameArena.java:145-153 | after the first of three phases is skipped and ended, the next pending phase is the second, while the current phase is still the first |
| Scoreboards.Overwrite | src/main/java/cc/lynzie/minigame/player/GameScoreboard.java:52-54 | the board keeps its length; row i shows line i while one exists, and later rows keep their text |
| Scoreboards.StuckAllocations | src/main/java/cc/lynzie/minigame/player/GameScoreboard.java:36-48 | the written loop plans 15 teams, all with the same index and score |
| Scoreboards.CountingAllocations | src/main/java/cc/lynzie/minigame/player/GameScoreboard.java:36-48 | the kept-team loop plans indices counting up and scores counting down |
| Scoreboards.CountingScoresFromEmpty | src/main/java/cc/lynzie/minigame/player/GameScoreboard.java:37-38 | from an empty board, row i gets score 15 − i, always in 1..15 |
| Scoreboards.RegisterAllShape | src/main/java/cc/lynzie/minigame/player/GameScoreboard.java:36-48 | `RegisterAll` registers planned teams in order: the teams added are a prefix of the plan; it stops short exactly when it throws, at a name already on the board; the names on the board grow by those added |
| Scoreboards.StuckRegistersOnceThenFails | src/main/java/cc/lynzie/minigame/player/GameScoreboard.java:36-48 | as written, the loop registers at most one team and then always throws, at the latest on its second pass |
| Scoreboards.RegisterFresh | src/main/java/cc/lynzie/minigame/player/GameScoreboard.java:36-48 | teams with distinct names not yet on the board are all registered, without an exception |
| Scoreboards.CountingRegistersAll | src/main/java/cc/lynzie/minigame/player/GameScoreboard.java:36-48 | with the rows kept, a board whose next 15 colour names are free gets all 15 teams |
| Scoreboards.GameScoreboard.constructor | src/main/java/cc/lynzie/minigame/player/GameScoreboard.java:24-28 | a new board has no rows; the Bukkit scoreboard holds the given team names |
| Scoreboards.GameScoreboard.AllocateRows | src/main/java/cc/lynzie/minigame/player/GameScoreboard.java:35-49 | the written loop, whose index is always the unchanged row count: it adds no row, and its registrations and exception are those of `RegisterAll` on `StuckAllocations` |
| Scoreboards.GameScoreboard.AllocateRowsIntended | src/main/java/cc/lynzie/minigame/player/GameScoreboard.java:36-48 | with each team kept: one blank row per team registered, and registrations and exception as `RegisterAll` on `CountingAllocations` |
| Scoreboards.GameScoreboard.WriteLines | src/main/java/cc/lynzie/minigame/player/GameScoreboard.java:52-54 | writes rows positionally (`Overwrite`); fails with an index error exactly when there are more lines than rows, after writing the rows that exist |
| Scoreboards.GameScoreboard.Update | src/main/java/cc/lynzie/minigame/player/GameScoreboard.java:30-55 | sets the title; on an empty board runs the written allocation, and an exception there ends the update with the rows unchanged; otherwise writes the lines positionally, failing exactly when there are more lines than rows |
| Scoreboards.GameScoreboard.UpdateIntended | src/main/java/cc/lynzie/minigame/player/GameScoreboard.java:30-55 | the same, with kept rows: an empty board first gets one blank row per registered team, and then the lines are written |
| Scoreboards.FirstUpdates | src/main/java/cc/lynzie/minigame/player/GameScoreboard.java:35-54 | as written, a new board over an empty scoreboard throws on the duplicate team name in its first update and again in its second, whatever the lines, and shows no row |
| Scoreboards.FirstUpdateIntended | src/main/java/cc/lynzie/minigame/player/GameScoreboard.java:35-54 | as intended, the first update registers 15 teams, shows up to 15 lines, blank-pads the rest and fails only beyond 15 lines |
| KotlinStates.IsAbleToEnd | src/main/kotlin/cc/lynzie/gamemanager/state/GameState.kt:24-36 | frozen gives false; otherwise it throws exactly when the start time is unset, and else it is true exactly when elapsed ≤ duration |
| KotlinStates.IsAbleToEndAsDocumented | src/main/kotlin/cc/lynzie/gamemanager/state/GameState.kt:18-23 | the doc comment: frozen gives false; otherwise true exactly when elapsed ≥ duration |
| KotlinStates.FrozenArmUnreachable | src/main/kotlin/cc/lynzie/gamemanager/state/GameState.kt:25-31 | the `frozen` arm of the `when` never decides the result |
| KotlinStates.AsWrittenInvertsDocumented | src/main/kotlin/cc/lynzie/gamemanager/state/GameState.kt:27-34 | the written predicate is the documented one negated, except at the exact deadline, where both are true |
| KotlinStates.AsWrittenCounterexample | src/main/kotlin/cc/lynzie/gamemanager/state/GameState.kt:27-34 | a five-second phase six seconds in: written false, documented true; at its start: written true, documented false |
| KotlinStates.Monotonicity | src/main/kotlin/cc/lynzie/gamemanager/state/GameState.kt:18-36 | once true, the documented predicate stays true as time goes on; once false, the written one stays false |
| KotlinStates.AssignmentsKeepInitialFields | src/main/kotlin/cc/lynzie/gamemanager/state/GameState.kt:8-16 | assigning `frozen` (the only public setter) changes nothing else; the last assignment wins |
| KotlinStates.ReachableNeverEnds | src/main/kotlin/cc/lynzie/gamemanager/state/GameState.kt:8-36 | in every reachable state `started` and `ended` are false, and the predicate answers false (frozen) or throws (not frozen), never true |

## Left out

- Arena configuration (`initArena`): reading the YAML arena config, map and world lookup, parsing the spawn coordinates as floating point, and scheduling the state manager on a timer. The constructor takes the name, capacities and templates as parameters.
- The state manager (`performUpdate`), the scoreboard manager, the scoreboard line source, `GamePlayer` and `GameManager` are not part of this model. Their calls on a join appear as effects in the arena's log.
- The listener registration with Bukkit is a boolean `listening`. Exceptions from hooks are caught and printed, so hooks are trace events that never change a flag.
- The refusal notice's colour and the text-component styling are not modelled. `sendMessage(Component)` delivers to the same players as `sendMessage(String)`; only the string form is modelled.
- Player identity: `GamePlayer` objects are compared by reference in Java. The model compares `Player` values, which carry an identifier.
- The getters (`isStarted`, `getMaxPlayers`, `getPlayers`, `getArena`, `getConfig` and the rest) are reads of the fields. Null templates and null players are not modelled.
- States.GameState.Update: Java reads the clock once in `start` and again in `getRemaining`; the model uses one reading `now` for the whole call.
- States.GameState.SetStateDuration, States.GameState.constructor, States.GameState.WithDuration and KotlinStates.KtGameState: the budget is a natural number, so the negative `Duration` that both sources accept is not modelled.
- Scoreboards.GameScoreboard.Update: only the duplicate-name exception of `registerNewTeam` and the index error of the write loop are modelled. Other Bukkit failures are not, such as an illegal team name.
- Scoreboards.GameScoreboard.AllocateRows: a team name is the colour index it comes from (`ChatColor.values()[index]`, and every index reached is below the 22 colours). The empty team display names and the team entries are not modelled; a registration is its index and score.
- The Java `String.replace` model covers literal targets only, which are the three placeholders.

## Findings

| source | as written | input that shows it | evidently intended | confidence | as-written member | corrected member |
|---|---|---|---|---|---|---|
| src/main/java/cc/lynzie/minigame/arena/GameArena.java:89 | refuses only when the gate is closed and the roster is below capacity | capacity 2, players A, B, C join in turn: C is admitted and the roster reaches 3 | refuse when the gate is closed or the roster is full. This is inferred: line 111 sets the gate to "below capacity", and the guard reads as a slip for `!(allowNewPlayers && players.size() < maxPlayers)` | not executed | Arenas.FullArenaAdmitsAll | Arenas.IntendedJoinsRespectCapacity |
| src/main/java/cc/lynzie/minigame/player/GameScoreboard.java:37 | the row index is the size of `scoreboardTeams`, which the loop never adds to | any update of a new board over an empty scoreboard: the first pass registers the team named after colour 0, the second registers that name again and `registerNewTeam` throws; no row is ever created, so every later update throws the same way | add each registered team to `scoreboardTeams`, giving 15 rows | not executed | Scoreboards.FirstUpdates | Scoreboards.FirstUpdateIntended |
| src/main/kotlin/cc/lynzie/gamemanager/state/GameState.kt:28 | `remaining = elapsed − duration`, true when that is zero or negative | duration 5 s, started at 0, read at 6 s: answers false | true once the elapsed time meets or exceeds the duration, as the doc comment says | not executed | KotlinStates.AsWrittenCounterexample | KotlinStates.IsAbleToEndAsDocumented |

The arena and scoreboard classes keep the code's behaviour. Each corrected definition stands beside the as-written one, and the intended property is proved about the corrected definition:
- `JoinIntended` and `Joins` with `intended` set;
- `AllocateRowsIntended`, `UpdateIntended` and `FirstUpdateIntended`;
- `IsAbleToEndAsDocumented`, with `Monotonicity`.
