# Five-a-side team generation, modelled in Dafny

The application is a small club manager for five-a-side football. Its heart is
the team generator in `equipos.py`. The generator turns ten enrolled players,
some of them tied together as duos or trios (their `bloque` tag), into two
teams of five balanced by rating. It then offers a few options that differ in
who plays with whom. The pipeline has four steps:

1. **Blocks.** `construir_bloques` groups tagged players into blocks and sorts
   the blocks: bigger first, then stronger first (`Blocks.BuildBlocks`).
2. **Greedy assignment.** `evaluar_asignacion` walks the blocks in a given
   order. Each block goes whole to one team, under a capacity of five, and the
   weaker team is favoured (`Assignment.Assign`, specified by
   `Assignment.Greedy`).
3. **Best-of-many search.** `generar_mejor` keeps the best of many shuffles and
   stops at a gap of 20 or less (`Search.BestOf`).
4. **Distinct options.** `generar_opciones_unicas` collects options whose two
   team sets were never seen before. It first uses seeded searches, then falls
   back on small swaps between the teams (`Options.GenerateOptions`,
   `Search.SmallSwap`).

The smaller helpers of `equipos.py` are modelled in `EquiposHelpers`:

- the `HHMM` hour formatter;
- the duo/trio validation;
- the jersey rules;
- the manual swap and the 5-and-5 confirmation check.

Four other files are modelled as well:

- `partidos.py` (`Partidos`): time encoding, labels, match colours and the
  ten-player quota;
- `jugador_panel.py` (`JugadorPanel`): the enrollment table as a class with
  `Confirm`/`Cancel`, the list of matches open for sign-up, and the
  win/draw/loss tally loop;
- `historial.py` (`Historial`): the display classifiers of the history page;
- `auth.py` (`Auth`): flag parsing and role normalisation.

Randomness is an explicit input:

- the block orders each seeded search tries;
- a stream of `Draw(pick1, pick2, penalty)` values, one per swap attempt.
  `random.choice(team)` becomes `team[pick % |team|]`, and `random.randint`
  becomes a `penalty` constrained to its range.

Database tables are sequences in memory. Ratings are integers.

Support modules:

- `Wrappers`: `Option`;
- `Text`: Python's `strip`, `lower`, `str(int)`, `int(str)`, `zfill` and
  `{:02d}`;
- `Sorting`: a stable sort by a two-level key, proved sorted and a permutation;
- `Lineup`: the ten-slot encoding and its signature.

Observations the proofs make explicit:

- **Hours below 100 differ between the two formatters.** `formatear_hora`
  reads such a value as an hour (`19` → `"19:00"`). `time_label` reads it as
  minutes (`19` → `"00:19"`) (`Partidos.LabelDiffersBelowOneHundred`).
- **Midnight.** A start time of 00:15 is stored as `15` and shown by
  `formatear_hora` as `"15:00"` (`EquiposHelpers.FormatHourAtMidnight`).
- **One-sided jersey swap.** When only team 1 has a jersey, the swap gives
  team 2 the same jersey and leaves team 1 as it was, so both teams wear it
  (`EquiposHelpers.SwapJerseysOneSided`).
- **The small swap ignores blocks.** A fabricated option may separate a duo
  or a trio. The model states only that it keeps the names
  (`Search.SwapKeepsNames`).
- **`verify_user` checks no password.** The comparison is a commented-out
  TODO at auth.py:25-27, so `Auth.VerifyUser` takes no password.

## Model

| member | source | states |
|---|---|---|
| Blocks.BuildBlocks | equipos.py:192-204 | the blocks' players are a permutation of the input; every block is non-empty with one grouping key, a single player when untagged; a tag lives in at most one block; blocks are ordered by non-increasing size, then non-increasing rating sum |
| Blocks.GroupPlayers | equipos.py:193-200 | the grouping loop puts each tagged player in the one group of its tag and each untagged player among the singles, losing and inventing nobody |
| Blocks.AddPlayer | equipos.py:196-200 | one loop step keeps the grouping invariant and adds exactly the new player |
| Blocks.SameTagSameBlock | equipos.py:192-201 | two players with the same non-empty tag are in the same block |
| Blocks.SortedBlocks | equipos.py:203 | sorting keeps the players, the block shapes and the tag counts, and orders the blocks by (-size, -rating sum) |
| Blocks.GroupKey | equipos.py:196-200 | a missing or empty tag means no group; any other tag is its own key |
| Sorting.SortPermutes | equipos.py:203 | the stable sort returns a permutation of its input |
| Sorting.SortSorts | equipos.py:203 | the stable sort returns a sequence ordered by its key |
| Assignment.Assign | equipos.py:308-320 | the loop computes the greedy assignment; `s1`/`s2` are the rating sums of `e1`/`e2`; team 1 has at most five players; `e1 + e2` is a permutation of the visited blocks' players |
| Assignment.GreedyWholeBlocks | equipos.py:312-319 | each visited block lands whole in exactly one team: team 1 is the concatenation of the blocks sent to it, team 2 that of the others |
| Assignment.GreedyKeepsPlayers | equipos.py:312-319 | every player of the visited blocks ends up in exactly one team |
| Assignment.GreedyTeam1Capacity | equipos.py:316 | team 1 never exceeds five players |
| Assignment.GreedySums | equipos.py:310-319 | `s1`/`s2` equal the rating sums of the teams |
| Assignment.GreedySingletons | equipos.py:312-319 | ten single-player blocks end as five and five |
| Lineup.Names10 | equipos.py:322-327 | always ten slots: the first five names of each team in order, then empty slots |
| Lineup.SetKey | equipos.py:329-332 | the signature holds exactly the non-empty names of each side |
| Lineup.SetKeyIgnoresOrder | equipos.py:329-332 | line-ups with the same non-empty names per side, in any order, have the same signature |
| Lineup.SetKeyOfNames10 | equipos.py:322-332 | the signature of `lista_nombres_10(e1, e2)` is the names among the first five players of each team |
| Search.BestOf | equipos.py:334-349 | no orders gives no result; otherwise the result is the line-up and gap of one tried order; every earlier order had a larger gap and a gap above 20; when the result's gap is above 20, no order has a smaller one; the result is that of `Search.BestFrom` from the first order |
| Search.Consider | equipos.py:340-348 | one iteration takes the order's line-up and gap exactly when they beat the best so far, and keeps the best-so-far invariant |
| Search.BestFrom | equipos.py:340-349 | the loop of `generar_mejor` as a function: it ends with a line-up whenever it had one or still has an order to try |
| Search.BestIsBestFrom | equipos.py:334-349 | any result meeting `BestOf`'s characterisation is the result of the loop run from the first order, so that characterisation pins the result down |
| Search.BestFromBeforeAt | equipos.py:340-348 | while every order so far is worse than the chosen one and above 20, the loop goes on and takes the chosen order when it reaches it |
| Search.BestFromAfterAt | equipos.py:343-349 | once the chosen order is taken, the loop stops at once when its gap is at most 20, and otherwise no later order replaces it |
| Search.SmallSwap | equipos.py:351-365 | no candidate exactly when a side has no names; a ten-slot line-up gives a ten-slot candidate |
| Search.SwapExchanges | equipos.py:357-365 | the drawn name of side 2 takes the first slot of the drawn name of side 1 and vice versa; every other name keeps its place among its side's names; empty slots come last |
| Search.SwapKeepsNames | equipos.py:353-365 | the swap keeps the multiset of non-empty names |
| Options.GenerateOptions | equipos.py:367-422 | the options, scores and chained draws used are exactly those of the three phases run as functions (`Options.Generate`); at most `n` options, as many scores as options; the result is empty exactly when `n <= 0` or no probe yields an order, and otherwise it falls short of `n` only when every chained-swap draw was used; no option repeats a team set, on either side, of an earlier one; each option has ten slots of roster names and a non-negative score; each option is either a search result with its gap, or a rearrangement of an earlier option scored 10 to 35 above it |
| Options.SearchPhase | equipos.py:378-387 | the options, scores, seen team sets and probes run are exactly those of `Options.SearchFrom` from an empty pool: so it runs probes until it holds `n` options or has run them all, and it collects at least one option exactly when `n >= 1` and some probe yields an order; each option is a search result with its gap whose team sets are fresh |
| Options.Derive | equipos.py:393-404 | a fresh swap of an earlier option, scored that option's score plus a penalty from 10 to 35, keeps the options' invariant |
| Options.TrySwap | equipos.py:393-403 | one swap attempt appends the candidate and its score exactly when the small swap yields a line-up whose two team sets are both unseen, and otherwise changes nothing (the pool after it is `Options.SwapStep`'s); the options' invariant holds after it and earlier options and scores are untouched |
| Options.FabricatePhase | equipos.py:390-404 | the options, scores, seen team sets and attempts made are exactly those of `Options.FabricateFrom`: attempt `k` swaps option `(k - 1) % len` with the `k`-th draw; it does nothing when phase 1 found nothing, and otherwise attempts until it holds `n` options or has made fifty attempts; it keeps the options' invariant and leaves earlier options and scores unchanged |
| Options.ChainPhase | equipos.py:407-420 | the options, scores, seen team sets and draws used are exactly those of `Options.ChainFrom`: rounds on the last option while options are missing and draws remain; it does nothing when there is no earlier option, and otherwise falls short of `n` only when every draw was used; it keeps the options' invariant and the earlier options |
| Options.ChainRoundOf | equipos.py:408-418 | one round of phase 3 ends exactly as `Options.ChainRound`: up to three swaps of the last option, stopping at the first whose team sets are new; the options' invariant holds after it |
| Options.SearchStops | equipos.py:378-387 | phase 1 never passes `n` options and never drops one, and it stops before the last probe only on reaching `n` |
| Options.SearchFindsIff | equipos.py:378-387 | with nothing seen yet, phase 1 collects nothing exactly when `n <= 0` or no remaining probe tries an order: the first line-up found is always new |
| Options.SearchKeeps | equipos.py:378-387 | phase 1 never drops an option |
| Options.FabricateStops | equipos.py:390-404 | phase 2 never passes `n` options; without an earlier option it makes no attempt, and otherwise it stops before fifty attempts only on reaching `n` |
| Options.RoundAddsOne | equipos.py:408-418 | a round of phase 3 adds at most one option |
| Options.ChainStops | equipos.py:407-420 | phase 3 never passes `n` options; without an earlier option it uses no draw, and otherwise it stops before the last draw only on reaching `n` |
| Options.Accept | equipos.py:382-388 | accepting a fresh line-up keeps every option distinct and every seen set recorded |
| Options.SwapFromRoster | equipos.py:351-365 | a swap of a roster line-up names only roster players |
| Options.LineupFromRoster | equipos.py:322-327 | a search result names only roster players |
| Options.SwapStallsOnOversizedBlock | equipos.py:351-356 | a lone block of more than five players fills team 2 only, so no draw of the small swap ever yields a candidate |
| EquiposHelpers.FormatHour | equipos.py:38-58 | the result is always `HH:MM` with a colon in the middle |
| EquiposHelpers.HourText | equipos.py:54-56 | out-of-range fields give `"19:00"`; the result has five characters |
| EquiposHelpers.FormatHourFields | equipos.py:38-58 | the string computation equals the arithmetic reading: up to two digits are the hour; otherwise the last four digits of `abs(x)` are HHMM, and a negative number of two digits, or three with the hundreds in their negative sign, is handled as Python does |
| EquiposHelpers.FormatHourOfStoredTime | equipos.py:38-58 | a stored `100*h + m` with 1 ≤ h ≤ 23 shows as the zero-padded `hh:mm` |
| EquiposHelpers.FormatHourAtMidnight | equipos.py:47-50 | 15 shows as `"15:00"`, 0 as `"00:00"`, 59 falls back to `"19:00"` |
| EquiposHelpers.CheckCompanions | equipos.py:231-241 | bad sizes exactly when a duo is not 0 or 2 or a trio not 0 or 3; accepted exactly when sizes are fine and no name appears twice; otherwise the names reported are exactly the repeated ones |
| EquiposHelpers.AcceptedCompanions | equipos.py:233-241 | acceptance means valid sizes and pairwise distinct names, hence at most ten names |
| EquiposHelpers.TeamJerseyUniform | equipos.py:145-151 | the team's jersey is `c` exactly when some row has a non-empty jersey and all non-empty jerseys equal `c` |
| EquiposHelpers.SwapJerseys | equipos.py:177-187 | equal or both missing: team 1 ends up light and team 2 dark; otherwise team 1 ends up wearing team 2's jersey when that is a known jersey and keeps its own when not, and team 2 likewise with team 1's, so two different known jerseys trade places |
| EquiposHelpers.SwapJerseysExchanges | equipos.py:177-187 | with two different valid jerseys the swap exchanges them, and swapping twice restores them |
| EquiposHelpers.SwapJerseysOutcome | equipos.py:177-187 | when both teams have a known jersey, or both have none, they end up in different jerseys |
| EquiposHelpers.SwapJerseysOneSided | equipos.py:177-187 | light and missing ends with both teams light |
| EquiposHelpers.DefaultJerseys | equipos.py:736-739 | a team without a jersey gets light (team 1) or dark (team 2); afterwards both teams have one |
| EquiposHelpers.ManualSwap | equipos.py:717-722 | with both players chosen, the first slots of the two names are exchanged and nothing else changes; otherwise the line-up is unchanged; names are never lost |
| EquiposHelpers.ManualSwapBack | equipos.py:717-722 | on a line-up without repeated names, swapping the same two players back restores it |
| EquiposHelpers.CanConfirmFull | equipos.py:733 | confirmation is allowed exactly when all ten slots hold a name |
| Partidos.TimeToInt | partidos.py:23-25 | a valid time encodes as `HHMM`, with the hour in the hundreds and the minutes below |
| Partidos.TimeFromInt | partidos.py:27-36 | always a valid time: `x // 100` hours and `x % 100` minutes when those are an hour and a minute, 19:00 when `x` is missing or out of range |
| Partidos.TimeRoundTrip | partidos.py:23-36 | decoding the encoding of a valid time gives it back |
| Partidos.TimeFromIntEncodes | partidos.py:27-36 | decoding then encoding gives `x` back exactly when `x // 100` is an hour and `x % 100` a minute |
| Partidos.TimeLabel | partidos.py:38-44 | missing gives "Sin hora"; a stored `x` gives `x // 100` and `x % 100`, each zero-padded to two places, around a colon |
| Partidos.TimeLabelOfTime | partidos.py:38-44 | the label of a stored valid time is its zero-padded `hh:mm` |
| Partidos.TimeLabelReadsBack | partidos.py:38-44 | for every stored `x`, the label's hour field reads back as `x // 100` and its two-digit minute field as `x % 100` |
| Partidos.LabelAgreesWithFormatHour | partidos.py:38-44 | for a time from 01:00 on, `time_label` and `formatear_hora` agree |
| Partidos.LabelDiffersBelowOneHundred | partidos.py:38-44 | 19 is `"00:19"` for `time_label` but `"19:00"` for `formatear_hora` |
| Partidos.ColorFor | partidos.py:47-59 | the colour is `COLORES[pid mod 8]`, a member of the palette |
| Partidos.ColorCycle | partidos.py:58-59 | colours repeat every eight ids and any eight consecutive ids get eight different colours |
| Partidos.RemainingQuota | partidos.py:158-160 | the room left is never negative and is zero exactly when the match is full |
| Partidos.TrimSelection | partidos.py:194-196 | the selection is cut to a prefix of at most the room left, untouched when it fits |
| Partidos.QuotaRespected | partidos.py:158-196 | adding the trimmed selection never takes a match past ten players |
| JugadorPanel.EnrollmentTable.Exists | jugador_panel.py:99-108 | true exactly when some row belongs to the pair |
| JugadorPanel.EnrollmentTable.Confirm | jugador_panel.py:110-120 | refuses, table unchanged, when the pair is enrolled; otherwise appends exactly one confirmed light-jersey row; the message matches the outcome |
| JugadorPanel.EnrollmentTable.Cancel | jugador_panel.py:122-130 | refuses, table unchanged, when the pair is absent; otherwise the table loses the pair's rows; the message matches the outcome |
| JugadorPanel.WithoutSpec | jugador_panel.py:127-128 | the delete removes every row of the pair and keeps every other row as many times as before |
| JugadorPanel.WithoutAbsent | jugador_panel.py:122-130 | deleting an absent pair changes nothing |
| JugadorPanel.CancelUndoesConfirm | jugador_panel.py:110-130 | cancelling right after a confirmation restores the table |
| JugadorPanel.Filter | jugador_panel.py:137-152 | the `WHERE` clause keeps exactly the matching rows, each as often as it occurs |
| JugadorPanel.UpcomingSpec | jugador_panel.py:132-152 | the list is ordered by (date, id) and holds the open matches from today on when there is one, otherwise every match from today on, each as often as in the table |
| JugadorPanel.Tally | jugador_panel.py:167-190 | played is the number of rows, and wins, draws and losses are the counts of each outcome, never more than played together |
| JugadorPanel.TallySplits | jugador_panel.py:172-190 | wins, draws and losses partition the rows with a result and a team 1 or 2 |
| Historial.JerseyEmoji | historial.py:99-105 | missing or empty: shirt; a "clara" prefix after strip/lower: white circle; otherwise an "osc" prefix: black square; otherwise shirt |
| Historial.JerseyEmojiOfStored | historial.py:99-105 | the stored jerseys "clara" and "oscura" show as circle and square |
| Historial.JerseyEmojiNormalized | historial.py:102 | spacing and capitals of the stored jersey do not change its emoji |
| Historial.TeamLabel | historial.py:107-108 | "Equipo 1" exactly for 1, "Equipo 2" for every other number |
| Historial.WinnerText | historial.py:110-117 | "—" exactly for missing; the three known outcomes get their texts; any other number prints as its `str()`, which reads back as itself |
| Historial.WinnerTextInjective | historial.py:110-117 | different winner values never share a text |
| Historial.OfficialText | historial.py:119-120 | "Oficial" exactly for a truthy flag, "Amistoso" otherwise |
| Historial.OfficialColor | historial.py:122-123 | blue exactly for a truthy flag, grey otherwise |
| Historial.BadgeAgrees | historial.py:119-123 | text and colour of the badge always agree |
| Auth.ToBoolNumber | auth.py:2-6 | a numeric flag is true exactly when it is 1 |
| Auth.ToBoolNormalized | auth.py:5-6 | spacing and capitals of a textual flag do not change its truth |
| Auth.SessionOf | auth.py:30-38 | id and username copied; admin exactly when the flag is true or the normalised role is "admin"; `is_admin` is 1 exactly when `rol` is "admin", and is otherwise 0 with role "jugador" |
| Auth.FindUser | auth.py:11-16 | the first row with that user name, or none when there is none |
| Auth.VerifyUser | auth.py:8-38 | nothing exactly when no row has that name; otherwise the normalised session of a row with that name |
| Auth.SessionStable | auth.py:30-38 | a session stored back as a row normalises to itself |
| Auth.RoleKept | auth.py:30-31 | without a flag, a role the schema admits is kept as it is |
| Text.NormalizeIdempotent | auth.py:5 | `strip().lower()` applied twice is applied once |
| Text.ParseIntToString | equipos.py:46-53 | `int(str(i)) == i` |
| Text.Pad2ReadsBack | partidos.py:38-44 | `f"{x:02d}"` is at least two characters and `int()` reads it back as `x` |

## Left out

- The Streamlit interface, session state and routing are left out. So are all SQL access and the schema code. Tables are sequences in memory, and queries are functions over them.
- Python's `random` module is left out. Shuffles, choices and `randint` values are parameters of the model.
- Assignment.ValidOrder: an order is any sequence of block indices, not necessarily a permutation as `random.shuffle` produces. Every proved property holds for this larger set of orders.
- Options.GenerateOptions: the docstring promises exactly `n_opciones` options (equipos.py:369). The source keeps phase 3 running until it has them whenever phase 1 found at least one option, so it returns fewer only when phase 1 found nothing (`n_opciones <= 0` or no search produced an order). The model can also return fewer when its finite stream of chained-swap draws runs out; that shortfall is the model's, not the source's (see the next line).
- Options.ChainPhase: phase 3 at equipos.py:407-420 has no bound, and it loops forever when no swap of the last option yields fresh team sets. The model consumes a finite stream of draws and stops when it runs out. `Options.SwapStallsOnOversizedBlock` shows such a stall. The interface only generates teams for exactly ten players in duos, trios and singles, so both teams always have names there.
- Search.SmallSwap: `_pequeno_swap` copies the two teams and swaps cells in place. The model is a function on sequences, so there is no aliasing to model.
- Floating point is left out. Ratings are integers (the schema stores `elo_actual INTEGER`), and `s1`/`s2` start at `0.0` but only ever add integers. `best_diff = float("inf")` becomes the `NotFound` result.
- The win rate at jugador_panel.py:192 is a float ratio and is not modelled.
- JugadorPanel.Upcoming: dates are `YYYYMMDD` integers, which order as the ISO text the query compares. `_today_str` becomes the `today` parameter.
- JugadorPanel.Tally: each row carries the `equipo` the per-match query finds. The query itself is not modelled.
- Text.Lower: case folding covers ASCII and Latin-1 capitals. `str.lower()` on other scripts is not modelled.
- Historial.WinnerText: `ganador` is modelled as an integer column. Non-numeric text, which `int()` would reject before `str(g)` is returned, is not modelled.
- Auth.VerifyUser: when several rows share a user name, `LIMIT 1` without `ORDER BY` may return any of them. The model takes the first.
- Writing jerseys back (`asignar_camiseta_equipo`, `limpiar_camiseta_equipo`) and saving line-ups (`guardar_opcion`) are table updates. They are modelled as the `Assignment` each rule decides, not as writes.
