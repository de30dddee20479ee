# Basketball rotation generator — Dafny model

This project models the scheduling core of the 3K Pigs basketball rotation generator
(`rotation_generator.py`). Given the number of players who turned up, the generator
splits a 40-minute game into equal slots. It chooses which five players are on court in
each slot, so that playing time is shared as evenly as the greedy rule allows. The
reports then derive further views from that schedule:

- the detailed slot list, with quarter, start and end time and bench;
- the 1/0 occupancy cells of the CSV export;
- the stint count of the Markdown summary;
- the minutes/seconds fields of the time format.

The model is split into five modules:

- `Game` (`game.dfy`) holds the game constants: 40 minutes, 4 quarters of 10 minutes,
  5 players on court and a minimum stint of 2.5 minutes. It also holds the slot-count
  range 4..16, the error raised for fewer than five players, and the `Result`/`Option`
  wrappers.
- `Tally` (`tally.dfy`) holds the two per-player counters of the selection loop: slots
  played and rest streak. It has the one-slot update (`Advance`) and counting helpers.
- `Ranking` (`ranking.dfy`) holds the sort key (slots played ascending, rest streak
  descending, roster index ascending) and a functional insertion sort that plays the part
  of Python's `sorted`. It also holds the lineup (the first five of the ranking) and the
  ranking and balance facts about it.
- `Scheduler` (`scheduler.dfy`) holds the slot-count search and the selection loop of
  `calculate_rotation_schedule`. Both are methods over local arrays, proved against the
  specification functions `SimPlayed`/`BestSlots` and `TallyAfter`/`ScheduleOf`.
- `Reports` (`reports.dfy`) holds the quarter, bench, detailed schedule, CSV occupancy
  row, stint counter and time split.

Players are the roster positions `0..n-1`. The source names them `"Player i+1"`, so
`players.index(p)` is just the position.

The slot count is not simply 40 / 2.5 = 16 (line 57). The code tries every count from 4
to 16 (line 64) and keeps the first one whose simulated playing-time variance is strictly
smallest (line 86). `FivePlayersKeepFourSlots` shows that with five players every count
has variance 0, so the code keeps 4 slots.

`PlayingTimeBalanced` proves that every two players stay within one slot of each other,
after every slot and for every roster size.

## Model

| member | source | states |
|---|---|---|
| `Game.MaxSlotsFromMinStint` | rotation_generator.py:57 | The largest slot count, 16, is `int(40 / 2.5)`. |
| `Game.NoEarlyBreak` | rotation_generator.py:64-67 | For every count the search tries (4..16), the slot length 40/count is at least the 2.5-minute minimum stint, so the `break` never fires. |
| `Tally.Bump` | rotation_generator.py:77-78 | The count of each player on court goes up by one and the others stay (as in `test_played[p] += 1` and line 114). The result keeps one count per player. `AdvanceAt` and `SumBump` state the per-player and total effect. |
| `Tally.Advance` | rotation_generator.py:112-118 | The one-slot update of both counters. The result again holds one slots-played count and one rest streak per player. |
| `Tally.AdvanceAt` | rotation_generator.py:112-118 | After one slot, a player on court has slots played + 1 and rest streak 0. A benched player has the same slots played and rest streak + 1. |
| `Tally.SumBump` | rotation_generator.py:112-114 | Raising the counts of the players on court raises the total by the number of roster positions the court covers. |
| `Tally.InCountOfDistinct` | rotation_generator.py:110 | A lineup of distinct roster players covers exactly as many roster positions as it has members. |
| `Ranking.KeyLess` | rotation_generator.py:106 | The sort key `(played, -rested, index)` as a strict order: a player ranked before another is a different player who has played no more slots. |
| `Ranking.Insert` | rotation_generator.py:103-107 | Inserting a roster position into a ranked list gives a list one longer, still of roster positions. |
| `Ranking.Ranked` | rotation_generator.py:103-107 | Ranking the first k positions gives k roster positions. |
| `Ranking.InsertMembers` | rotation_generator.py:103-107 | Insertion adds exactly the inserted player and keeps the others. |
| `Ranking.InsertKeepsOrder` | rotation_generator.py:103-107 | Inserting into a list sorted by the key `(played, -rested, index)` keeps it sorted. |
| `Ranking.RankedOrders` | rotation_generator.py:103-107 | The ranking of positions 0..k-1 is sorted by the key and holds exactly those positions, so it is a permutation of them. |
| `Ranking.Lineup` | rotation_generator.py:110 | The lineup is five roster positions. |
| `Ranking.LineupRanks` | rotation_generator.py:103-110 | The lineup holds five distinct players, in key order. Every player on court has a smaller key than every player on the bench. |
| `Ranking.FiveMakeFullLineup` | rotation_generator.py:103-110 | With exactly five players, every player is in the lineup. |
| `Ranking.LineupKeepsBalance` | rotation_generator.py:103-118 | If every two slot counts differ by at most one before a slot, they still do after it. |
| `Scheduler.TallyAfter` | rotation_generator.py:98-120 | The counters after k slots hold one played count and one rest streak per player. |
| `Scheduler.ScheduleOf` | rotation_generator.py:98-120 | The schedule after k slots: slot j is the lineup ranked from the counters after the j slots before it. It has exactly k slots. |
| `Scheduler.ScheduleWellFormed` | rotation_generator.py:102-120 | Every slot of the schedule holds exactly five distinct roster players. |
| `Scheduler.SlotFollowsRanking` | rotation_generator.py:103-110 | In slot j, every player on court has a smaller key than every benched player under the counters of the slots before. |
| `Scheduler.CountersMatchSchedule` | rotation_generator.py:98-120 | After k slots, a player's slots played is the number of slots they were on court. Their rest streak is the number of trailing slots they sat out. |
| `Scheduler.SeatsFilled` | rotation_generator.py:98-120 | After k slots the slots-played counts add up to 5·k. |
| `Scheduler.PlayingTimeBalanced` | rotation_generator.py:103-118 | After every slot, no two players' slots-played counts differ by more than one. |
| `Scheduler.FivePlayersAlwaysOnCourt` | rotation_generator.py:102-120 | With five players, every slot holds the whole roster and everyone has played every slot. |
| `Scheduler.UpdateCounters` | rotation_generator.py:112-118 | The in-place counter update leaves the arrays equal to the one-slot update of their old contents. |
| `Scheduler.Rotate` | rotation_generator.py:98-120 | The selection loop returns exactly the specified schedule of `numSlots` lineups. |
| `Scheduler.SimPlayed` | rotation_generator.py:69-79 | The search's simulation keeps one slot count per player. |
| `Scheduler.SimKeyIsPlayedThenIndex` | rotation_generator.py:75 | The main ranking with all rest streaks at zero orders by `(played, index)`, which is the search simulation's key. |
| `Scheduler.SimBalanced` | rotation_generator.py:73-78 | In the search simulation too, no two slot counts differ by more than one. |
| `Scheduler.SimSeatsFilled` | rotation_generator.py:73-78 | The simulation's counts add up to 5 per simulated slot. |
| `Scheduler.SimFiveAllPlay` | rotation_generator.py:73-78 | With five players, the simulation gives every player every slot. |
| `Scheduler.SeatLineup` | rotation_generator.py:77-78 | The in-place update raises the count of exactly the players on court, by one each. |
| `Scheduler.Simulate` | rotation_generator.py:69-79 | The simulation loop returns exactly the specified counts. |
| `Scheduler.KeepFirstMinimum` | rotation_generator.py:61-88 | The search state (`best_slots`, `best_variance`) after trying a prefix of the candidates, replacing the best only on a strictly smaller variance (lines 86-88). The best variance is `inf` (None) exactly when nothing was tried; otherwise the kept position is one of those tried. |
| `Scheduler.BestSlots` | rotation_generator.py:86-91 | The slot count the search keeps, with `best_slots = 4` as the start (line 61). It lies in 4..16. |
| `Scheduler.FirstMinimumKept` | rotation_generator.py:61-88 | The kept candidate has the smallest variance of those tried. Every earlier candidate's variance is strictly larger, so ties keep the first. |
| `Scheduler.BestSlotsIsFirstMinimum` | rotation_generator.py:61-91 | The chosen slot count lies in 4..16. Its variance is at most that of every count in 4..16 and strictly below that of every smaller count. |
| `Scheduler.Variance` | rotation_generator.py:81-84 | The population variance of the minutes `played[p] * 40/slots`, in exact arithmetic. It is never negative. |
| `Scheduler.VarianceOfEqualCounts` | rotation_generator.py:81-84 | When all players play the same number of slots, the variance is zero. |
| `Scheduler.FiveEvenAtEveryCount` | rotation_generator.py:69-84 | With five players, the search's variance is zero for every slot count. |
| `Scheduler.FivePlayersKeepFourSlots` | rotation_generator.py:61-91 | With five players the search keeps 4 slots. |
| `Scheduler.SearchSlots` | rotation_generator.py:61-91 | The search loop returns the specified slot count: in 4..16, a variance minimum, the first one. |
| `Scheduler.RotationFor` | rotation_generator.py:91-122 | The returned triple (schedule, minutes per player, slot length). The schedule has 4..16 slots, the slots add up to 40 minutes, and the per-player share times n is the 200 player-minutes. |
| `Scheduler.RotationParts` | rotation_generator.py:91-122 | The result holds the specified schedule for the chosen count (of length the count, in 4..16), the slot length 40/count and the share 200/n. |
| `Scheduler.RotationCoversGame` | rotation_generator.py:91-122 | The result has 4..16 well-formed slots whose lengths add up to 40 minutes, and a per-player share that adds up to the 200 player-minutes. |
| `Scheduler.CalculateRotationSchedule` | rotation_generator.py:27-122 | Fewer than five players is rejected with the not-enough-players error; otherwise the result is the specified rotation. |
| `Reports.QuarterOf` | rotation_generator.py:141 | `int(start_time // QUARTER_DURATION) + 1` as floor(start/10)+1: the quarter q is the one whose 10-minute window [10(q−1), 10q) holds the start time. |
| `Reports.SlotQuarter` | rotation_generator.py:139-141 | Slot idx of `slots` equal slots that fill the 40 minutes starts in quarter floor(4·idx/slots)+1, which lies in 1..4. |
| `Reports.QuarterNonDecreasing` | rotation_generator.py:141 | A later slot is never in an earlier quarter. |
| `Reports.Bench` | rotation_generator.py:150 | The `on_bench` list of roster players not on court, in roster order. It has at most n members, all roster positions. |
| `Reports.BenchIsComplement` | rotation_generator.py:150 | The bench holds exactly the roster players not on court, in roster order, one for each roster position the court leaves uncovered. |
| `Reports.BenchOfLineup` | rotation_generator.py:150 | Next to a lineup of five, the bench holds n−5 players. |
| `Reports.EntryAt` | rotation_generator.py:138-151 | The row of slot idx: its slot number is idx+1, its players are the slot's lineup and its duration is the slot length. |
| `Reports.Detailed` | rotation_generator.py:138-151 | One row per slot, in slot order: as many rows as slots. |
| `Reports.DetailedSchedule` | rotation_generator.py:125-153 | Fewer than five players propagates the error; otherwise the result is the specified detailed list of the rotation. |
| `Reports.ListSlots` | rotation_generator.py:137-151 | The loop produces one row per slot, in order, each built from its slot index, lineup and slot length. |
| `Reports.DetailedTimes` | rotation_generator.py:138-149 | Rows are numbered 1, 2, … and each lasts one slot. They lie end to end, starting at minute 0 and ending at slots × slot length. |
| `Reports.DetailedQuarters` | rotation_generator.py:139-141 | With equal slots that fill the 40 minutes, row idx is in quarter floor(4·idx/slots)+1, in 1..4, and quarters never go back. |
| `Reports.DetailedBench` | rotation_generator.py:150 | For well-formed slots, each row benches exactly the n−5 roster players not on court. |
| `Reports.DetailedCoversGame` | rotation_generator.py:137-151 | A detailed list of 4..16 well-formed equal slots covers minute 0 to minute 40 without gaps, and its quarters and benches are as above. |
| `Reports.DetailedForCoversGame` | rotation_generator.py:125-153 | The rotation's own detailed list has 4..16 rows, covers minute 0 to 40, and has the stated quarters and benches of n−5. |
| `Reports.Occupancy` | rotation_generator.py:201-203 | One cell per roster player, 1 if the player is on court and 0 otherwise. |
| `Reports.OccupancyCountsCourt` | rotation_generator.py:201-203 | The occupancy cells add up to the number of roster players on court. |
| `Reports.OccupancyHasFiveOnes` | rotation_generator.py:201-203 | Every occupancy row of the rotation has exactly five 1s, and all other cells are 0. |
| `Reports.Entered` | rotation_generator.py:285-288 | The stints credited to a player in slot j. Anything credited means the player is in slot j and was not on court in the slot before. |
| `Reports.StintsOf` | rotation_generator.py:283-289 | A player's stint count over a schedule. A player credited with any stint was on court in some slot. |
| `Reports.CreditEntries` | rotation_generator.py:285-288 | One entry of the stint counter credits each listed player who was not on court in the slot before, once per listing. |
| `Reports.CountStints` | rotation_generator.py:282-289 | The counter returns, for each player, the number of entries onto court from the bench. |
| `Reports.PlayingMeansAStint` | rotation_generator.py:282-289 | A player who plays at all has at least one stint. |
| `Reports.StintsAtMostSlots` | rotation_generator.py:282-289 | With no player listed twice in a slot, nobody has more stints than slots played. |
| `Reports.Truncate` | rotation_generator.py:158 | `int()` truncates toward zero: the result is the floor for non-negative inputs and the ceiling for negative ones. |
| `Reports.SplitSeconds` | rotation_generator.py:159-160 | `total_seconds // 60` and `total_seconds % 60`: seconds in 0..59 that add back up to the total with the minutes. |
| `Reports.FormatTime` | rotation_generator.py:156-161 | The minutes and seconds fields of `format_time`. Seconds are in 0..59, and for a non-negative time the fields give the time truncated to the whole second. |
| `Reports.SplitSecondsRoundTrip` | rotation_generator.py:159-160 | The split has seconds in 0..59 and mins·60+secs equal to the total. It is the only such pair. |
| `Reports.FormatTimeOfWholeSeconds` | rotation_generator.py:156-161 | A time that is a whole number of seconds is shown as minutes and seconds that add back up to it, with seconds below 60. |

## Left out

- Floating point. Slot lengths, start and end times, `minutes_per_player` and the search
  variance are exact rationals (`real`), not IEEE doubles. If two variances are equal in
  exact arithmetic but round differently as floats, the search could keep a different
  count from the one modelled here.
- Code that never has an effect is not modelled as code: the unused `ratio` (line 53),
  the `test_schedule` list that is built but never read (lines 70 and 79), and the
  `break` at lines 66-67. For the break, `NoEarlyBreak` shows it can never fire.
- `Ranking.Ranked` models `sorted(...)` as an insertion sort. The sort key includes the
  roster index, so keys are distinct and every correct sort gives the same order.
- The error message text of the `ValueError` is not modelled. The error is the value
  `NotEnoughPlayers(5)`.
- CSV export: only the per-player occupancy cells are modelled, as the numbers 1 and 0
  rather than the strings `"1"` and `"0"`. The header lines, the `.1f` formatting, the
  comma join and the file write are not modelled.
- Markdown export: only the stint counter is modelled. The per-player minute sums
  (line 286) are float arithmetic and are left out, as are the title, summary, table
  text and emoji cells, and the file write.
- `Reports.FormatTime`: the `:02d` zero padding and the `MM:SS` string are not
  modelled. The model returns the two integer fields.
- `main`, argument parsing, the warning above 20 players, printing and `sys.exit`
  (lines 309-375) are command-line plumbing and are not modelled.
