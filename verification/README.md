# Debate scheduler — a Dafny model

`debate_scheduler.py` builds a debate tournament schedule for two categories, S1 and S2. It runs in three stages:

1. **Pairing.** For each category, `build_pairings` greedily picks matches between teams of different schools until every team has `games_per_team` games. Each pick is the candidate of least cost. The cost is the tuple `(c1, c2, c3, c4)` computed by `pair_cost`:
   - c1: the load of the two teams;
   - c2: how often their school pair has already met;
   - c3: whether the two teams have already met;
   - c4: a random tie-break.
2. **Packing.** `schedule_sessions` packs both categories' matches into sessions of at most `rooms` matches. Within a session no team appears twice, and the S1 rooms come first. The capacity plan comes from `min_sessions_needed` and `capacities_with_free_spread_at_end`, which pushes the idle rooms towards the last sessions. Matches that do not fit the plan go into drain sessions.
3. **Checking.** `verify` re-checks the finished schedule.

The model has one Dafny module per stage, plus two supporting modules:

| File | Module | What it holds |
|---|---|---|
| `common.dfy` | `Common` | Teams, matches, room assignments, counting functions and their lemmas |
| `pairing.dfy` | `Pairing` | `all_allowed_pairs`, `sp_key`, `pair_cost`, `build_pairings` |
| `capacity.dfy` | `Capacity` | `min_sessions_needed`, `capacities_with_free_spread_at_end` |
| `packing.dfy` | `Packing` | `schedule_sessions`, including `pop_match`, `place_from_level`, the fill loop and the drain loop |
| `verification.dfy` | `Verification` | `verify` as a boolean check |
| `pipeline.dfy` | `Pipeline` | The flow of `main` without its prompts, the end-to-end acceptance lemmas and the counterexample of the finding below |

Code that updates variables step by step is modelled as methods with loops, proved against specification functions and predicates. This covers the candidate scans, the cost minimum, the capacity loop over an array, the fill and drain loops, and the checker loops. Python's exceptions become error values of a `Result` datatype, or a `false` verdict for `verify`. The two random sources become parameters:
- `random.random`'s tie-break is a function `tie(round, position)`;
- `random.shuffle` is any function that returns a permutation.

Where the source's own descriptions and its code disagree, the model follows the code:
- `capacities_with_free_spread_at_end` can put an idle room in the first session. It wraps round one idle room per session, starting from the end, so 9 matches in 4 rooms over 3 sessions give capacities `[3, 3, 3]`. See `Capacity.NineMatchesInFourRooms`.
- A single match still gets two sessions, because the session count is at least 2. The second session stays empty. See `Capacity.OneMatchTwoSessions`.

## Model

| member | source | states |
|---|---|---|
| Pairing.AllAllowedPairs | debate_scheduler.py:70-76 | Returns exactly `AllowedPairs`: the `combinations` pairs of teams from different schools, row by row, in the source's order. |
| Pairing.AllowedRow | debate_scheduler.py:73-75 | The pairs `(teams[i], teams[j])` with `j > i` and different schools, in order of `j`. |
| Pairing.RowsSound | debate_scheduler.py:73-75 | Every pair in the first `i` rows is `(teams[i'], teams[k])` with `i' < i`, `i' < k`, and the two schools differ. |
| Pairing.RowsComplete | debate_scheduler.py:73-75 | Every such pair of teams from different schools is in the first `i` rows. |
| Pairing.AllowedPairsExactly | debate_scheduler.py:70-76 | A match is in `all_allowed_pairs` if and only if it is `(teams[i], teams[j])` with `i < j` and two different schools. |
| Pairing.AllowedPairsSound | debate_scheduler.py:70-76 | Every allowed pair joins two listed teams of different schools, and is never a team against itself. |
| Pairing.StrLessTrichotomy | debate_scheduler.py:110 | Python's string `<` is trichotomous and asymmetric: two different strings are ordered one way or the other, never both, and no string is below itself. |
| Common.Max | debate_scheduler.py:114 | Python's `max` of two numbers: at least both, and equal to one of them. |
| Pairing.SpKey | debate_scheduler.py:108-110 | The key is the two schools in ascending string order: one of the two orders, and the first school is never after the second. |
| Pairing.SpKeySymmetric | debate_scheduler.py:108-110 | `sp_key` gives the same key for `(a, b)` and `(b, a)`. |
| Pairing.PairCost | debate_scheduler.py:112-118 | c1 is the larger of the two teams' degrees. c2 is the count of their school pair, whichever team is named first. c3 is 1 exactly when `b` is in `used_vs[a]`, else 0. c4 is the tie value given. |
| Pairing.TracksStep | debate_scheduler.py:138-142 | Recording a match keeps `degree`, `used_vs` and `school_pair_count` equal to the counts over the matches chosen so far. |
| Pairing.CostAgrees | debate_scheduler.py:112-118 | While the tables track the history, `pair_cost`'s `(c1, c2, c3)` is the load, school-pair count and repeat flag of that history. |
| Pairing.FreshCandidates | debate_scheduler.py:121-127 | The candidates are the pairs, in their order, whose two teams both still need games and have not met yet (`FreshFilter`). So a pair is a candidate exactly when it satisfies those conditions. |
| Pairing.OpenCandidates | debate_scheduler.py:129-133 | The relaxed candidates are the pairs, in their order, whose two teams both still need games (`OpenFilter`). So a pair is a candidate exactly when it satisfies those conditions. |
| Pairing.CheapestCandidate | debate_scheduler.py:137 | `min(..., key=pair_cost)`: no candidate costs strictly less than the chosen one, and every earlier candidate costs strictly more (first minimum wins). |
| Pairing.CheapestByHistory | debate_scheduler.py:112-137 | While the tables track the history, the candidate `pair_cost` ranks first is minimal in `(c1, c2, c3)` counted from the history. |
| Pairing.ChoosePair | debate_scheduler.py:120-137 | `None` exactly when no pair is open. Otherwise the choice is an open pair. It is a repeat only when every open pair is one. It is minimal in `(c1, c2, c3)` among that round's candidates. |
| Pairing.SumDegreesIsTwiceMatches | debate_scheduler.py:139-140 | Over distinct team names, the degrees sum to twice the number of matches. |
| Pairing.CappedDegreesAreExact | debate_scheduler.py:144-147 | Degrees capped at `g` sum to at most `n*g`. If the sum equals `n*g`, every team has exactly `g` games. |
| Pairing.BuildPairings | debate_scheduler.py:78-149 | Each configuration error occurs under its own condition: fewer than 2 teams, `g < 1`, odd slots, no inter-school pair. A configuration error occurs only under one of these conditions. On success every team plays exactly `g` matches, all between different schools, drawn from `all_allowed_pairs`, `n*g/2` in total. With distinct names the final degree check never fails. On success the result is a greedy run: each match is open, a repeat only when every open pair is a repeat, and first in `(c1, c2, c3)` among its round's candidates, judged against the matches before it. `Stuck` means some greedy run shorter than `n*g/2` has no open allowed pair left. |
| Pairing.PickMatches | debate_scheduler.py:103-142 | The main loop either picks `n*g/2` matches or stops early, `stuck`, when no allowed pair is open. The picks come from the allowed pairs and form a greedy run. The degree table equals each team's match count, never above `g`. |
| Pairing.FirstMismatch | debate_scheduler.py:144-147 | The sanity loop finds nothing exactly when every listed team's degree is `g`. Otherwise it gives the first team whose degree is not `g`. |
| Capacity.MinSessionsNeeded | debate_scheduler.py:155-157 | At least `g` sessions, enough rooms for all matches, and no more sessions than those two bounds need. |
| Capacity.SessionCountBounds | debate_scheduler.py:168-173 | The session count is at least `max(2, min_sessions)`, and its capacity holds every match. |
| Capacity.CapacityPlanShape | debate_scheduler.py:159-187 | The capacity plan has `S >= 2` entries, each between 0 and `rooms`, non-increasing and within one of each other. They sum to the number of matches, and the first entry is positive whenever there is a match. |
| Capacity.Capacities | debate_scheduler.py:159-187 | `capacities_with_free_spread_at_end` returns the closed-form plan `CapacityPlan`. |
| Capacity.SpreadFreeAtEnd | debate_scheduler.py:175-187 | The backwards, wrapping decrement loop over the array leaves the balanced spread of the matches. |
| Capacity.SixMatchesInFourRooms | debate_scheduler.py:168-187 | Six matches in four rooms give capacities `[3, 3]`. |
| Capacity.NineMatchesInFourRooms | debate_scheduler.py:168-187 | Nine matches in four rooms over three sessions give `[3, 3, 3]`, one idle room in each session. |
| Capacity.OneMatchTwoSessions | debate_scheduler.py:168-187 | One match gives `[1, 0]`: two sessions, the second one free. |
| Packing.TeamsOf | debate_scheduler.py:207 | A team is in `teams_by_level` of a category exactly when it is a side of one of that category's pairings. |
| Packing.Estimate | debate_scheduler.py:207-209 | The estimate is at least `g` sessions, and its rooms hold every match the team counts imply. |
| Packing.FirstPlaceable | debate_scheduler.py:215-216 | The index of the first match whose two teams are both unused, earlier matches all being blocked. `None` exactly when no match is placeable. |
| Packing.RemoveAt | debate_scheduler.py:217 | `list.pop(i)`: one entry shorter, the same entries before `i`, the later ones shifted down by one, and the same multiset less `s[i]`. |
| Packing.PopMatch | debate_scheduler.py:214-219 | Returns the match at `FirstPlaceable`, and the list becomes `RemoveAt` of that index. `None`, with the list unchanged, exactly when no match is placeable. |
| Packing.PopFromLevel | debate_scheduler.py:214-219 | `pop_match` on `remaining[level]`. The match is that list's first placeable one, the list loses exactly that entry, and the other list is unchanged. `None`, with both lists unchanged, exactly when that list has no placeable match. |
| Packing.ChooseLevel | debate_scheduler.py:251-267 | With mixing, S1 when it is below target and has matches left, else S2 under the same condition. Failing both, or without mixing, the category with more matches left, S1 on a tie, and never an empty category. `None` exactly when both lists are empty. |
| Packing.PlaceFromLevel | debate_scheduler.py:236-247 | Succeeds exactly when `level`'s list has a placeable match. Then (`PlacedFrom`) that list's first placeable match leaves the list and is appended to `level`'s half, labelled `level`. Its teams become used, and the other half and list are unchanged. On failure nothing changes. No team appears twice. |
| Packing.AddToHalf | debate_scheduler.py:241-246 | The placed match is appended to its category's half and its teams are marked used. |
| Packing.FillStep | debate_scheduler.py:251-274 | One pass of the fill loop. It places from the level `ChooseLevel` names when that level has a placeable match, and otherwise from the other level. It stops, changing nothing, exactly when neither level has a placeable match. |
| Packing.FillHalves | debate_scheduler.py:249-274 | The loop repeats `FillStep`. The result has at most `cap` matches, no team twice, and every match accounted for in the session or in the rest. A session that is not full has no placeable match left. |
| Packing.FillSession | debate_scheduler.py:225-277 | The session: S1 rooms then S2, no team twice, within `cap`, and maximal. It is never empty while matches remain and `cap > 0`. |
| Packing.DrainRound | debate_scheduler.py:280-310 | One drain round: as many sessions as a fresh plan with minimum 1, each within its capacity and maximal for it. Every match is accounted for, and at least one is placed. |
| Packing.DrainSessions | debate_scheduler.py:283-310 | One session per capacity, each within it and within the rooms, of the session shape. `Maximal`: a session short of its capacity shares a team with every match placed after it in the round and with every match left over. Every match is accounted for, and at least one is placed. |
| Packing.PlannedSessions | debate_scheduler.py:221-278 | Exactly one session per planned capacity, each within it and within the rooms, of the session shape, and `Maximal` for the plan. Every match of each category is either in these sessions or left over. |
| Packing.MaximalAppend | debate_scheduler.py:250-298 | Sessions drawn from what earlier maximal sessions left, and maximal themselves, keep the whole sequence maximal. |
| Packing.AllPlacedThenEmpty | debate_scheduler.py:222-287 | When the sessions hold `total` matches in all, every session that starts after `total` matches are placed is empty. |
| Packing.Drain | debate_scheduler.py:281-310 | The drain ends with nothing left. The planned sessions' facts still hold. The planned sessions come first, unchanged. The capacities are the plan followed by one `CapacityPlan(rooms, left, 1)` per round, where each round's `left` is `total` less the matches held by the sessions before that round, and falls from round to round. Every session is within and maximal for its capacity. |
| Packing.NoDrainIffPlanHoldsAll | debate_scheduler.py:276-281 | With the drain's capacities and counts, there is no drain round exactly when the planned sessions already hold every match. |
| Packing.ScheduleSessions | debate_scheduler.py:189-312 | Every session has at most `rooms` matches, no team twice and S1 rooms first. Each category's matches in the schedule are a permutation of its pairings. There are at least as many sessions as the plan has, and each planned session is within its capacity. `allCaps` is the plan followed by one `CapacityPlan(rooms, left, 1)` per drain round, where `left` is the number of matches the sessions before that round did not place, and falls from round to round. Every session is within its capacity, and one short of it shares a team with every later match. Sessions after every match is placed are empty. |
| Verification.KnownMembers | debate_scheduler.py:350-352 | The entries the checker looks at are exactly those of a known category. |
| Verification.CheckEntry | debate_scheduler.py:350-360 | Accepts an entry exactly when it is skipped (unknown category), or when both teams are of the category, from different schools and not yet used in the session. The counter is updated accordingly. |
| Verification.CheckSession | debate_scheduler.py:347-360 | Accepts a session exactly when it is within the room count, every entry passes, and no known team appears twice. |
| Verification.CheckCounts | debate_scheduler.py:362-364 | Accepts exactly when every listed team's counter entry is `g`. |
| Verification.CheckSchedule | debate_scheduler.py:346-364 | Accepts exactly when every session passes and every listed team has `g` games under the chosen counter key. |
| Verification.Verify | debate_scheduler.py:339-365 | `verify` as written: true exactly when every session passes and every listed team name has `g` games over all categories. |
| Verification.VerifyByCategory | debate_scheduler.py:339-365 | The same checks with games counted per category and team. |
| Pipeline.PackedSessionsAccepted | debate_scheduler.py:380-399 | Every session of a packed schedule of two valid pairings passes `verify`'s session checks. |
| Pipeline.ScheduleAccepted | debate_scheduler.py:371-399 | `verify` as written accepts the packed schedule of two valid pairings when no team name is in both categories. |
| Pipeline.ScheduleAcceptedByCategory | debate_scheduler.py:371-399 | Counted per category, `verify` accepts the packed schedule of any two valid pairings. |
| Pipeline.SharedNameCount | debate_scheduler.py:360 | In the example, `verify` as written counts four games for `"X #1"`. |
| Pipeline.SharedNameRejected | debate_scheduler.py:339-365 | `verify` as written rejects the valid example schedule. |
| Pipeline.SharedNameAcceptedByCategory | debate_scheduler.py:339-365 | Counted per category, the example schedule is accepted. |
| Pipeline.RunScheduler | debate_scheduler.py:371-399 | `main`'s flow: a pairing failure names its category, and fewer than 2 S1 teams fails in S1. Otherwise the schedule fits the rooms and passes the per-category check. |

## Left out

- `ask_int`, `ask_yesno`, `input_schools`, `pretty_print`, `export_csv`, the CSV prompt of `main` and `app.py`: interactive input and output. Rosters and school tables are parameters.
- `random.seed(42)`, `random.random` and `random.shuffle` are not modelled as a generator. The tie-break `c4` is a parameter function `tie(round, position)`. A shuffle is any permutation, given as an input list or a parameter function.
- Floating point: `pair_cost`'s float tuple is integers. `c1`, `c2` and `c3` are whole numbers, and `c4` only breaks ties. `math.ceil(x / rooms)` is exact integer ceiling division. Float rounding for very large counts is not modelled.
- `schedule_sessions` takes a dictionary of categories. The model takes exactly the two lists S1 and S2. So the `KeyError` the source raises when one of them is missing is not modelled. Neither is a third category key: its list is never popped, so the source's drain loop at line 281 would append empty sessions forever.
- Exception messages are not modelled. `build_pairings`'s errors are `Result` values carrying the kind of error. `verify`'s assertion failures are a `false` result.
- `Verification.Verify`: the `KeyError` raised when a listed team has no school in its category's table is excluded by the precondition `TablesCover`.
- `Pairing.BuildPairings`: the `RuntimeError` (stuck) path is stated only as "some greedy run stopped early with no open pair". There is no characterisation of which rosters get stuck.
- `Pairing.ChoosePair`: minimality is stated for `(c1, c2, c3)` only. The random `c4` decides among equal prefixes, and `CheapestCandidate` states the full tuple order.
- `Packing.ScheduleSessions`: no claim that each session meets its per-category target; the balance is a heuristic. The order in which levels are tried is stated one pass at a time by `Packing.FillStep` against `Packing.ChooseLevel`. The contracts of the whole-session and whole-schedule members do not repeat it.
- `Packing.PopMatch`: `list.pop` on the shared `remaining` lists becomes new sequence values. Those lists are private copies, so no aliasing is lost.
- `total_remaining` is not a separate counter. It is `|rest1| + |rest2|`, which the source keeps equal to it.
- `Pipeline.RunScheduler`: uses the per-category check, as the finding below explains. `Verification.Verify` models the check as written.

## Findings

| source | as written | input that shows it | evidently intended | confidence | as-written member | corrected member |
|---|---|---|---|---|---|---|
| debate_scheduler.py:346-364 | `per_team` counts games per team name over all categories. Names are `"<school> #k"` (lines 57-60), so the same school in S1 and S2 gives one name two categories' games. | One room, `g = 2`. S1 and S2 each have teams `"X #1"` (school X) and `"Y #1"` (school Y), paired twice. The schedule is four one-room sessions. `"X #1"` is counted 4 times, not 2, so `verify` rejects a valid schedule. | Count games per category and team. | high; not executed | Pipeline.SharedNameRejected | Verification.VerifyByCategory |
