# schedule_surgery roster rules in Dafny

`schedule_surgery` builds a monthly duty roster for a surgical department's
trainee physicians. `construct_and_optimize` states the roster as a CP-SAT
model over boolean variables `work[w][d][p]`: worker `w` works post `p` on
day `d`. There are eleven posts:
- five day posts, KRG 1 to KRG 5;
- three night posts, KRG N - B, KRG N - MOP and KRG N - ABD;
- three unconnected posts, ABDOMEN, ABD prip. and TRAVMA.

Before the model is built, the function checks its inputs and stops on some failures:
- it resolves the preschedule;
- it checks that the unconnected posts can be staffed every day;
- it compares the posts' quota totals with the calendar;
- it brackets the month's nights;
- it checks the Krožeči and OMEJENO workers.

After solving, it fills a table with one row per day.

The model treats the solver as a black box. The solver's search is replaced by its specification:
- `Constraints.Valid` holds of an assignment exactly when every hard constraint block of `construct_and_optimize` holds for it;
- `Objective.ObjectiveAsWritten` is the cost the code minimises, as a function of the assignment. `Objective.Objective` is the corrected cost, which also counts the unconnected preference term (see "## Findings");
- `Checker.CheckRoster` is a looping checker proved equal to `Valid`.

Some lemmas about a valid roster restate single rules as facts about one worker or one day: the NO list (`NoListRespected`), the night bounds (`NightShiftsBounded`) and the fixed totals (`FixedTotals`). Others are derived from the rules by counting:
- every slot has exactly one holder, or none when it is closed;
- a preschedule entry's worker holds the slot and nobody else does;
- the rest rules and the availability rules hold post by post;
- the weekend rules hold.

The early checks run in two versions. `Prepare.PrepareAsWritten` runs the checks as the code writes them. `Prepare.Prepare` runs them with the corrected availability test. `Prepare.PrepareAsWrittenStricter` shows that the corrected run accepts every input the code accepts, with the same plan. For several checks the model proves necessity, meaning that an input admitting a valid roster passes the check:
- the corrected availability check (`Prepare.AvailabilityNecessary`); the check as written can stop such an input (see "## Findings");
- the quota warnings, provided the preschedule closes no ABDOMEN, ABD prip. or TRAVMA slot (`Totals.QuotaWarningsNecessary`);
- the night warnings, provided the preschedule closes no night slot and every night post is in one of the worker's lists (`Totals.NightWarningsNecessary`).

A closed slot lowers a post's total below the day count, so the warnings can fire without those provisos. The Krožeči check is not shown to be necessary (see "## Left out").

The model covers these supporting files:
- the workplace catalogue (`workplaces.py`);
- the derived worker attributes (`worker.py`);
- the cell decoders (`parsing.py`).

Files:
- `wrappers.dfy`: `Option` and `Result`.
- `workplaces.dfy`: the post catalogue, its ranges, `get_ndx` and the named indices.
- `workers.dfy`: the `Worker` record. It also holds `_resolve_workplaces`, both as a function and as an in-place method on a `WorkplaceDict` class, and the status tables.
- `parsing.py` counterparts in `parsing.dfy`:
  - `transform_nan`, `to_int_or_nan` and `parse_reduce_shifts`;
  - `parse_workplaces` and `parse_work_dates`, as looping methods.
- `roster.dfy`:
  - days, preschedule entries and the configuration;
  - the assignment's shape;
  - counting;
  - `weekend_pairs`.
- `constraints.dfy`: each hard constraint block as a predicate, and what a valid roster guarantees.
- `workload.dfy`: the weighted workload and `max`/`min` over a list.
- `objective.dfy`: every cost term and the weighted objective.
- `prepare.dfy`: the checks that run before the model is built, in program order, with their error results, both as the code writes them and corrected. It also holds the night bracket loop as a method.
- `totals.dfy`: double counting over the assignment. It proves that the quota warnings and the night warnings cannot fire for an input that admits a valid roster, when the preschedule closes none of the slots involved.
- `checker.dfy`:
  - looping checkers proved equal to the predicates;
  - the `penalty_consecutive_nights` loop;
  - the `total_workloads` loop.
- `schedule_table.dfy`: the `schedule_array` fill as a method over an array of rows.

## Model

| member | source | states |
|---|---|---|
| Workplaces.CatalogueShape | schedule_surgery/workplaces.py:5-22 | ALL_WORKPLACES is the 8 standard names followed by the 3 unconnected ones, 11 in all, and no name occurs twice |
| Workplaces.NightNames | schedule_surgery/workplaces.py:24-27 | NIGHT_WORKPLACES has three names, and a post's name is among them exactly when its index lies in the night range 5..7 |
| Workplaces.RangesPartition | schedule_surgery/workplaces.py:26-29 | the day, night and unconnected ranges are disjoint and cover 0..10; the connected range is day plus night |
| Workplaces.IndexOf | schedule_surgery/workplaces.py:31-32 | `list.index`: the first position holding the value, or none exactly when the value is absent (the ValueError) |
| Workplaces.GetNdx | schedule_surgery/workplaces.py:31-32 | `get_ndx` returns an index whose name is the argument; it fails exactly for a name outside ALL_WORKPLACES |
| Workplaces.IndexOfFirst | schedule_surgery/workplaces.py:31-32 | a value at position i with no earlier occurrence is found at i |
| Workplaces.GetNdxInverse | schedule_surgery/workplaces.py:31-32 | because the names are distinct, `get_ndx` inverts indexing for every post |
| Workplaces.NamedIndices | schedule_surgery/workplaces.py:34-40 | the named constants are 0, 1, 2 (day range) and 5, 6, 7 (night range); ABDOMEN, ABD prip. and TRAVMA are 8, 9, 10 |
| Workers.ResolveWorkplaces | schedule_surgery/worker.py:53-63 | YES and MAYBE unchanged; the old NO list is a prefix of the new one; ABDOMEN, ABD prip. and TRAVMA are in the new NO list exactly when they were before or their quota is 0; only unconnected posts are added |
| Workers.ZeroQuotaPosts | schedule_surgery/worker.py:57-62 | the appended indices are unconnected posts, each present exactly when its quota is 0 |
| Workers.ResolveCount | schedule_surgery/worker.py:57-62 | NO grows by one entry for each zero quota |
| Workers.ResolveUnfold | schedule_surgery/worker.py:57-62 | resolving keeps YES and MAYBE and appends to NO exactly the zero-quota unconnected posts, in the order ABDOMEN, ABD prip., TRAVMA |
| Workers.WorkplaceDict.constructor | schedule_surgery/worker.py:44 | the dictionary holds the lists it was given |
| Workers.WorkplaceDict.Resolve | schedule_surgery/worker.py:53-63 | appending to NO in place leaves the dictionary equal to `ResolveWorkplaces` of its old value |
| Workers.WorksNightShifts | schedule_surgery/worker.py:65-71 | `works_night_shifts`: some YES or MAYBE index is a night post |
| Workers.AnyNightPost | schedule_surgery/worker.py:70-71 | `any(...)` holds exactly when some entry of the list lies in 5..7 |
| Workers.WorksNightShiftsMeaning | schedule_surgery/worker.py:65-71 | `works_night_shifts` holds exactly when some index of YES or MAYBE is a night post |
| Workers.MinNightShifts | schedule_surgery/worker.py:73-88 | `min_night_shifts`: the table value of the status, or none where the lookup raises KeyError |
| Workers.YearOfSpecialization | schedule_surgery/worker.py:90-107 | `year_of_specialization`: the table value of the status, or none where the lookup raises KeyError |
| Workers.StatusLookupsAgree | schedule_surgery/worker.py:73-107 | both status tables fail (KeyError) exactly for a status outside the eight known strings |
| Workers.YearStatusNames | schedule_surgery/worker.py:79-84 | the status strings of years 1..6 are "k. leto specializacije" |
| Workers.StatusTables | schedule_surgery/worker.py:73-107 | years lie in 1..6 and minima in 0..5; "Manj kot 6 mesecev..." and "Specialist" give year 6 and minimum 0; year 1 gives 0 |
| Workers.MinNightsByYear | schedule_surgery/worker.py:78-102 | for 2 <= k <= 6 the k-th year status has minimum 7 - k and year k |
| Parsing.TransformNan | schedule_surgery/parsing.py:275-283 | a NaN cell becomes the replacement; any other cell is returned unchanged |
| Parsing.TransformNanIdempotent | schedule_surgery/parsing.py:275-283 | applying `transform_nan` twice equals applying it once |
| Parsing.Truncate | schedule_surgery/parsing.py:293 | `int()` of a float truncates toward zero: the result lies within one of x, on the side of zero |
| Parsing.TruncateIntegral | schedule_surgery/parsing.py:293 | an integral value is kept |
| Parsing.ToIntOrNan | schedule_surgery/parsing.py:286-293 | NaN stays missing; a number is truncated; a text cell is an error |
| Parsing.ParseReduceShifts | schedule_surgery/parsing.py:267-272 | a missing value gives 0, a number gives its truncation; a missing column or a text cell is an error |
| Parsing.ChoiceAt | schedule_surgery/parsing.py:216-221 | the cell of the i-th standard workplace, with NaN read as "NO"; anything other than YES, MAYBE, NO is the dictionary's KeyError, reported as `UnknownChoice` of that cell |
| Parsing.Split | schedule_surgery/parsing.py:210-222 | `wp_dict`: each index in the YES, MAYBE or NO list its choice names, in index order |
| Parsing.SplitStep | schedule_surgery/parsing.py:216-222 | one more standard workplace appends its index to exactly the list its choice names |
| Parsing.SplitMembers | schedule_surgery/parsing.py:216-222 | an index is in YES, MAYBE or NO exactly when its cell chose that list, and every listed index is a position of the row |
| Parsing.SplitShape | schedule_surgery/parsing.py:216-222 | the three lists are ascending and together hold one entry per cell |
| Parsing.ParseWorkplaces | schedule_surgery/parsing.py:196-222 | succeeds exactly when all 8 cells decode, failing at the first bad cell otherwise; each index 0..7 lands in the list its cell names, lists ascending, 8 entries in all |
| Parsing.Lower | schedule_surgery/parsing.py:249 | lower-casing maps every character and keeps the length |
| Parsing.LowerIdempotent | schedule_surgery/parsing.py:249 | lower-casing twice equals once |
| Parsing.EntryMeaning | schedule_surgery/parsing.py:251-262 | the availability pair of each of the six accepted lower-cased texts; any other text is the "Unrecognized" error |
| Parsing.DecodeEntry | schedule_surgery/parsing.py:246-262 | one cell: NaN read as "Mi je vseeno", lower-cased, then its meaning; a non-text cell is an error |
| Parsing.DecodeEntryProperties | schedule_surgery/parsing.py:244-262 | decoded pairs lie in {-1,0,1}; NaN decodes to (0,0); a number is an error; matching is case-insensitive |
| Parsing.DecodeYes | schedule_surgery/parsing.py:251-252 | "Da (želim delati)" decodes to (1,1) |
| Parsing.DecodeLeave | schedule_surgery/parsing.py:253-254 | "LD (letni dopust)" decodes to (-1,-1) |
| Parsing.DecodeOnDuty | schedule_surgery/parsing.py:253-254 | "Dežurstvo, matični dan" decodes to (-1,-1) |
| Parsing.DecodeDontCare | schedule_surgery/parsing.py:255-256 | "Mi je vseeno" decodes to (0,0) |
| Parsing.DecodeDayOnly | schedule_surgery/parsing.py:257-258 | "Samo podnevi (do 24.00)" decodes to (0,-1) |
| Parsing.DecodeNightOnly | schedule_surgery/parsing.py:259-260 | "Samo ponoči (po 19.00)" decodes to (-1,0) |
| Parsing.LowerNightOnly | schedule_surgery/parsing.py:249 | lower-casing "Samo ponoči (po 19.00)" touches only its first letter |
| Parsing.MeaningNightOnly | schedule_surgery/parsing.py:259-260 | the lower-cased night-only text means (-1,0) |
| Parsing.FirstAvailabilityColumn | schedule_surgery/parsing.py:240 | the first column starting with "Razpolo"; none exactly when no column does (StopIteration) |
| Parsing.LastAvailabilityColumn | schedule_surgery/parsing.py:241 | the last column starting with "Razpolo"; none exactly when no column does (the empty `max`) |
| Parsing.Slice | schedule_surgery/parsing.py:244 | Python slicing: the sub-sequence when in bounds, never longer than hi - lo |
| Parsing.ParseWorkDates | schedule_surgery/parsing.py:226-265 | no "Razpolo" column is an error; otherwise the result has one decoded pair per entry from the first to the last such column, in order, or the first entry's decoding error |
| Parsing.DecodeEach | schedule_surgery/parsing.py:243-265 | the decoding loop succeeds exactly when every cell decodes, gives the decoded values in order, and otherwise reports the first failing cell's error |
| Parsing.WorkDatesInRange | schedule_surgery/parsing.py:243-265 | every component of a decoded list is -1, 0 or 1 |
| Roster.WeekendPairs | schedule_surgery/optimize.py:51 | exactly the pairs (d, d+1) of two weekend days, in increasing order |
| Roster.PairsFrom | schedule_surgery/optimize.py:51 | the weekend pairs starting at or after day i, in order |
| Roster.CountZero | schedule_surgery/optimize.py:313-322 | a sum of flags is 0 exactly when every flag is false |
| Roster.PostClasses | schedule_surgery/workplaces.py:26-29 | a day's posts are its day, night and unconnected posts, the three ranges splitting the eleven |
| Roster.ClassCounts | schedule_surgery/workplaces.py:26-29 | a worked post is counted in its own class and among all posts |
| Roster.TotalNightPostsAtLeast | schedule_surgery/optimize.py:373-376 | the month's nights are at least any one day's |
| Roster.Occupants | schedule_surgery/optimize.py:153 | the workers' flags for one slot, the terms of its `sum` |
| Roster.PostDays | schedule_surgery/optimize.py:181 | one worker's flags for one post over the month |
| Roster.PostWorkdays | schedule_surgery/optimize.py:182 | one worker's flags for one post on workdays only |
| Constraints.Blocked | schedule_surgery/optimize.py:76-80 | the preschedule gives slot (d, p) to a name that is not one of the workers, which closes the slot |
| Constraints.SlotTotal | schedule_surgery/optimize.py:141-151 | `total`: 0 for a closed slot and for ABD prip. on a non-workday, else 1 |
| Constraints.SlotCovered | schedule_surgery/optimize.py:153 | the number of holders of a slot is its total |
| Constraints.PlacedHonoured | schedule_surgery/optimize.py:70-80 | a line naming a worker puts that worker on the slot; a line naming an outsider keeps everybody off it |
| Constraints.Eligible | schedule_surgery/optimize.py:157-162 | no post of the NO list is worked |
| Constraints.NoNightThenDay | schedule_surgery/optimize.py:186-190 | nights on day d plus day posts on day d+1 are at most one |
| Constraints.NoDayAndNight | schedule_surgery/optimize.py:192-198 | on a workday, day posts plus night posts are at most one; other days are not restricted |
| Constraints.UnconnectedAlone | schedule_surgery/optimize.py:203-214 | a day with an unconnected post has exactly one post |
| Constraints.NoThreeInRow | schedule_surgery/optimize.py:216-228 | of three consecutive days at most two are worked |
| Constraints.WithinAvailability | schedule_surgery/optimize.py:305-328 | day posts at most one if the day half is +1 or 0, else none; the same for nights; unconnected posts at most one only if both halves are |
| Constraints.Weekend24 | schedule_surgery/optimize.py:235-270 | the 24-hour MOP combination of a night worker on a weekend or holiday, with the free days before and after |
| Constraints.DayRules | schedule_surgery/optimize.py:155-328 | every per-day rule of one worker on one day |
| Constraints.WeekendLimit | schedule_surgery/optimize.py:272-300 | a night worker has at most one 24-hour MOP post; any other worker works at most one weekend pair |
| Constraints.QuotasMet | schedule_surgery/optimize.py:180-183 | the ABDOMEN, workday ABD prip. and TRAVMA counts equal the worker's quotas |
| Constraints.DayShiftCap | schedule_surgery/optimize.py:332-335 | a given day-shift cap bounds the month's day posts |
| Constraints.NightCountBounds | schedule_surgery/optimize.py:364-376 | a night worker's nights lie in min..max(min, 5 - reduce), with the dead branch of 372-373 kept |
| Constraints.KrozeciCount | schedule_surgery/optimize.py:381-392 | a Krožeči worker (master-sheet specialty) works exactly `krozeci_scheduled` posts; this is a hard constraint |
| Constraints.OmejenoCounts | schedule_surgery/optimize.py:396-405 | an OMEJENO worker works exactly the given day and night totals |
| Constraints.WorkloadInDomain | schedule_surgery/optimize.py:604-605 | a non-Krožeči worker's workload lies in the domain 0..`max_possible_work` of its variable |
| Constraints.MonthRules | schedule_surgery/optimize.py:180-405 | every per-month rule of one worker |
| Constraints.WorkerRules | schedule_surgery/optimize.py:155-405 | every rule about one worker |
| Constraints.Valid | schedule_surgery/optimize.py:139-405 | every hard constraint block: slot totals, the preschedule and every worker's rules |
| Constraints.MaxNightShifts | schedule_surgery/optimize.py:348 | `max(min_shifts, 5 - reduce_shifts)` is at least both and equal to one of them, so the branch at 372-373 cannot be taken |
| Constraints.ClassEmpty | schedule_surgery/optimize.py:313-322 | a class of posts counted zero holds no worked post |
| Constraints.ClassAtMostOne | schedule_surgery/optimize.py:313-322 | a class counted at most one holds no second worked post |
| Constraints.SlotHolders | schedule_surgery/optimize.py:141-153 | in a valid roster a slot whose total is 0 has no holder and a slot whose total is 1 has exactly one |
| Constraints.PrescheduleKept | schedule_surgery/optimize.py:70-74 | a preschedule line naming a known worker: that worker holds the slot and nobody else does |
| Constraints.NoListRespected | schedule_surgery/optimize.py:157-162 | no worker holds a post in their NO list |
| Constraints.NightThenNoDay | schedule_surgery/optimize.py:186-190 | a night post on day d excludes every day post on day d+1 |
| Constraints.WorkdayDayOrNight | schedule_surgery/optimize.py:192-198 | on a workday a day post excludes every night post |
| Constraints.UnconnectedExclusive | schedule_surgery/optimize.py:203-214 | holding an unconnected post excludes every other post that day |
| Constraints.NoThreeConsecutiveDays | schedule_surgery/optimize.py:216-228 | nobody works on three consecutive days |
| Constraints.AvailabilityRespected | schedule_surgery/optimize.py:305-328 | a day post needs day availability in {0,1}, a night post night availability, an unconnected post both; at most one day post and one night post per day |
| Constraints.WeekendMop24 | schedule_surgery/optimize.py:235-270 | for a night worker on a weekend or holiday: the MOP day post goes with exactly one of the B or ABD nights, and the MOP night post with exactly one of the B or ABD days; without them at most one of each pair; a 24-hour MOP day is free before and after |
| Constraints.MopDayFlags | schedule_surgery/optimize.py:243-249 | per day, whether it is a weekend or holiday on which the worker holds the MOP day post |
| Constraints.MopNightFlags | schedule_surgery/optimize.py:253-259 | per day, whether it is a weekend or holiday on which the worker holds the MOP night post |
| Constraints.OneMop24 | schedule_surgery/optimize.py:272-273 | a night worker takes at most one weekend MOP post in the month |
| Constraints.OneWeekendPair | schedule_surgery/optimize.py:274-300 | a worker without nights works day posts on both days of at most one weekend pair |
| Constraints.PairFlags | schedule_surgery/optimize.py:277-297 | per weekend pair, whether the worker holds day posts on both of its days |
| Constraints.NightShiftsBounded | schedule_surgery/optimize.py:364-376 | a night worker's month has between `min_night_shifts` and `max(min, 5 - reduce)` nights |
| Constraints.FixedTotals | schedule_surgery/optimize.py:180-405 | a valid roster meets the ABDOMEN, workday ABD prip. and TRAVMA quotas exactly (180-183); a day-shift cap, when given, bounds the month's day posts (332-335); a Krožeči worker works exactly `krozeci_scheduled` posts (381-392); an OMEJENO worker works exactly the given day and night totals (396-405) |
| Workload.Lookup | schedule_surgery/optimize.py:599-601 | the value stored under a key, or none exactly when no entry has that key (KeyError) |
| Workload.LookupFinds | schedule_surgery/optimize.py:599-601 | with distinct keys, looking up an entry's key gives its value |
| Workload.PostWeight | schedule_surgery/optimize.py:602 | `wp_weight`: the night weight for a night post, else the workday or weekend weight by the day |
| Workload.DayLoad | schedule_surgery/optimize.py:605 | one day's weighted sum over the first n connected posts |
| Workload.Workload | schedule_surgery/optimize.py:605 | the month's weighted sum `total` |
| Workload.DayLoadDecomposes | schedule_surgery/optimize.py:602-605 | one day's load is the night weight times its nights plus the workday or weekend weight times its day posts; unconnected posts weigh nothing |
| Workload.WorkloadDecomposes | schedule_surgery/optimize.py:598-605 | the month's workload is night weight x nights + workday weight x workday day posts + weekend weight x weekend day posts |
| Workload.MaxOf | schedule_surgery/optimize.py:611 | an upper bound attained by some entry |
| Workload.MinOf | schedule_surgery/optimize.py:612 | a lower bound attained by some entry |
| Workload.SpreadProperties | schedule_surgery/optimize.py:609-616 | max - min is never negative, and zero exactly when all entries are equal |
| Workload.Values | schedule_surgery/optimize.py:589 | the values of the weight table, in order |
| Workload.MaxPossibleWork | schedule_surgery/optimize.py:589 | `max_possible_work`: days times the largest weight |
| Objective.PrefDay | schedule_surgery/optimize.py:422-434 | `penalty_preferential_assignment_day`: day posts on days whose day half is +1 plus night posts on days whose night half is +1 |
| Objective.PrefDayOfWorkerBounds | schedule_surgery/optimize.py:422-434 | one worker's preferred-day count lies in 0..days x 11, and is 0 when they never marked +1 |
| Objective.PrefDayBounds | schedule_surgery/optimize.py:422-434 | `penalty_preferential_assignment_day` lies within its variable's domain, and is 0 when nobody marked +1 |
| Objective.PrefDayDays | schedule_surgery/optimize.py:422-434 | one worker's preferred-post count, day by day |
| Objective.PrefDayWorkers | schedule_surgery/optimize.py:422-434 | per worker, their preferred-post count over the month |
| Objective.PrefUnconnectedAsWritten | schedule_surgery/optimize.py:436-439 | `penalty_preferential_assignment_day_unconnected` as written, with the list-versus-tuple test |
| Objective.PrefUnconnected | schedule_surgery/optimize.py:436-439 | the same term as intended: unconnected posts held on (+1,+1) days |
| Objective.PrefUnconnectedOfWorkerBounds | schedule_surgery/optimize.py:436-439 | the intended unconnected preference count of one worker lies in 0..days, and is 0 without a (+1,+1) day |
| Objective.PrefUnconnectedBounds | schedule_surgery/optimize.py:436-439 | in a valid roster the intended term lies in 0..workers x days, its variable's domain |
| Objective.PrefUnconnectedDaysAsWritten | schedule_surgery/optimize.py:438 | one worker's daily unconnected count with the list-versus-tuple test as written |
| Objective.PrefUnconnectedWorkersAsWritten | schedule_surgery/optimize.py:438 | per worker, the as-written unconnected count over the month |
| Objective.PrefUnconnectedDays | schedule_surgery/optimize.py:436-439 | one worker's daily count of unconnected posts held on a (+1,+1) day |
| Objective.PrefUnconnectedWorkers | schedule_surgery/optimize.py:436-439 | per worker, the intended unconnected count over the month |
| Objective.UnconnectedAsWrittenIsZero | schedule_surgery/optimize.py:438 | as written the term is always 0, since a list never equals a tuple |
| Objective.UnconnectedCounterexample | schedule_surgery/optimize.py:438 | a (+1,+1) worker on TRAVMA counts 0 as written and 1 as intended |
| Objective.PrefWorkplace | schedule_surgery/optimize.py:441-447 | `penalty_preferential_workplace`: MAYBE posts held minus YES posts held |
| Objective.PrefWorkplaceOfBounds | schedule_surgery/optimize.py:445-446 | one day's MAYBE-minus-YES count lies in -|YES|..|MAYBE|, with the signs when only one list is hit |
| Objective.PrefWorkplaceBounds | schedule_surgery/optimize.py:443-447 | `penalty_preferential_workplace` lies within its variable's domain |
| Objective.PrefWorkplaceDays | schedule_surgery/optimize.py:445-446 | one worker's MAYBE-minus-YES count, day by day |
| Objective.PrefWorkplaceWorkers | schedule_surgery/optimize.py:443-447 | per worker, their MAYBE-minus-YES count over the month |
| Objective.PrefWorkplaceMonthBounds | schedule_surgery/optimize.py:443-447 | with at most eleven listed posts, one worker's month lies in -(days x 11)..days x 11 |
| Objective.Hits | schedule_surgery/optimize.py:445-446 | the flags of the listed posts on one day |
| Objective.SeniorWeight | schedule_surgery/optimize.py:497-499 | `2 ** (7 - (max_year - year))` |
| Objective.SeniorWeightRange | schedule_surgery/optimize.py:497-499 | `2 ** (7 - (max_year - year))` lies in 4..128, is 128 for the most senior year and doubles with each year |
| Objective.Years | schedule_surgery/optimize.py:487 | each worker's year of specialisation, all in 1..6 |
| Objective.MaxYear | schedule_surgery/optimize.py:487 | a year in 1..6 no worker exceeds |
| Objective.PairTerms | schedule_surgery/optimize.py:489-501 | per worker, the seniority weight when they hold TRAVMA on both days of the pair, else 0 |
| Objective.PairBonuses | schedule_surgery/optimize.py:489-501 | per weekend pair, the sum of its worker terms |
| Objective.PairBonusBounds | schedule_surgery/optimize.py:489-501 | one pair's bonus lies in 0..128 x workers, and is 0 exactly when nobody holds both TRAVMA days |
| Objective.BonusesBounds | schedule_surgery/optimize.py:476-508 | the summed pair bonuses lie in 0..workers x 128 x pairs, and are 0 exactly when no worker holds TRAVMA on both days of any pair |
| Objective.SeniorBonus | schedule_surgery/optimize.py:476-508 | `bonus_weekend_travmaprip_senior`: over the weekend pairs, the seniority weights of the workers holding TRAVMA on both days |
| Objective.SeniorBonusBounds | schedule_surgery/optimize.py:476-480 | `bonus_weekend_travmaprip_senior` lies within its declared domain 0..pairs x workers x 128 |
| Objective.SeniorBonusZero | schedule_surgery/optimize.py:476-508 | the senior bonus is 0 exactly when no worker holds TRAVMA on both days of any weekend pair |
| Objective.PairHolders | schedule_surgery/optimize.py:492-495 | who holds TRAVMA on both days of a pair |
| Objective.PairCounts | schedule_surgery/optimize.py:503-505 | per pair, how many workers hold both days |
| Objective.TravmaPairCountBounded | schedule_surgery/optimize.py:503-505 | in a valid roster the unweighted bonus is at most the number of weekend pairs |
| Objective.PairCountsBounded | schedule_surgery/optimize.py:503-505 | with at most one TRAVMA holder a day, the pair counts sum to at most the number of pairs |
| Objective.NightRuns | schedule_surgery/optimize.py:521-541 | one flag per pair of consecutive days, set when both have a night post |
| Objective.NightRunWorkers | schedule_surgery/optimize.py:521-541 | per worker, their consecutive-night count |
| Objective.NightRunsBounds | schedule_surgery/optimize.py:519-542 | the consecutive-night counts sum to 0..workers x days, and to 0 exactly when nobody has nights on two days in a row |
| Objective.ConsecutiveNights | schedule_surgery/optimize.py:519-542 | `sum(penalty_consecutive_nights)` |
| Objective.ConsecutiveNightsMeaning | schedule_surgery/optimize.py:519-542 | the consecutive-nights sum lies in 0..workers x days, and is 0 exactly when nobody works nights on consecutive days |
| Objective.ConnectedYes | schedule_surgery/optimize.py:549-555 | YES without the unconnected posts |
| Objective.PostCounts | schedule_surgery/optimize.py:560-563 | per listed post, its count over the month, within 0..days |
| Objective.PostCountsSpread | schedule_surgery/optimize.py:560-578 | the range of a worker's post counts lies in 0..days, and is 0 exactly when all the listed posts are held equally often |
| Objective.DistributionOf | schedule_surgery/optimize.py:547-578 | one worker's range term: 0 with at most one connected YES post, else max minus min of their counts there |
| Objective.DistributionOfMeaning | schedule_surgery/optimize.py:547-578 | a worker's range lies in 0..days, and is 0 exactly when they have at most one connected YES post or equal counts at all of them |
| Objective.DistributionWorkers | schedule_surgery/optimize.py:547-578 | per worker, the range term |
| Objective.WorkplaceDistribution | schedule_surgery/optimize.py:544-578 | `sum(penalty_workplace_distribution)` |
| Objective.WorkplaceDistributionBounds | schedule_surgery/optimize.py:544-578 | the term lies in 0..workers x days, and is 0 exactly when every worker's range is 0 |
| Objective.LoadWorkers | schedule_surgery/optimize.py:592-596 | exactly the workers who are not Krožeči in either specialty, in order |
| Objective.Loads | schedule_surgery/optimize.py:590-607 | `total_workloads`: the workload of each non-Krožeči worker, in order |
| Objective.FitsLoadsReady | schedule_surgery/optimize.py:590-607 | a well-formed roster has every weight lookup `total_workloads` needs |
| Objective.LoadInDomain | schedule_surgery/optimize.py:604 | in a valid roster each workload lies in 0..`max_possible_work` |
| Objective.WorkloadBalance | schedule_surgery/optimize.py:609-616 | `max_workload - min_workload` over the non-Krožeči workloads |
| Objective.WorkloadBalanceBounds | schedule_surgery/optimize.py:609-612 | max - min of the workloads is never negative and, when some workload exists, within `max_possible_work` |
| Objective.WorkloadBalanceZero | schedule_surgery/optimize.py:609-616 | the balance term is 0 exactly when all non-Krožeči workers carry equal workloads |
| Objective.WeightedSum | schedule_surgery/optimize.py:614-622 | each term at its configured weight, the weekend bonus subtracted |
| Objective.ObjectiveAsWritten | schedule_surgery/optimize.py:614-622 | the cost the code minimises, with the unconnected preference as written |
| Objective.Objective | schedule_surgery/optimize.py:614-622 | the corrected cost, with the unconnected preference as intended |
| Objective.WeightedSumWithoutUnconnected | schedule_surgery/optimize.py:619 | dropping the unconnected preference term lowers the sum by its weighted value |
| Objective.WeightedSumLowerBound | schedule_surgery/optimize.py:614-622 | with non-negative weights and non-negative terms, only the workplace term and the bonus can pull the cost down |
| Objective.ObjectiveAsWrittenDropsUnconnected | schedule_surgery/optimize.py:619 | the cost as written is the intended cost minus the weighted unconnected term |
| Objective.ObjectiveLowerBound | schedule_surgery/optimize.py:614-622 | for a valid roster with non-negative weights, the cost is at least the workplace term minus the weighted senior bonus |
| Prepare.Names | schedule_surgery/optimize.py:64 | `worker_names`, element by element |
| Prepare.Resolved | schedule_surgery/optimize.py:66-75 | each preschedule line resolved on its own, in order |
| Prepare.CollectOk | schedule_surgery/optimize.py:66-80 | collecting per-line results succeeds exactly when every line does, keeping their values in order |
| Prepare.CollectErr | schedule_surgery/optimize.py:66-80 | a failed collection carries the error of the first failing line |
| Prepare.CollectStops | schedule_surgery/optimize.py:66-80 | after the first failure, further lines do not change the result |
| Prepare.ResolveEntry | schedule_surgery/optimize.py:66-75 | one line: the day's index, then the workplace's index, then the first worker of that name if any; an unknown day or workplace is the ValueError |
| Prepare.ResolveEntryMeaning | schedule_surgery/optimize.py:66-75 | a line fails exactly when its day is not in the calendar (first) or its workplace is not a post; otherwise it carries both indices and the first worker of that name, or none exactly when no worker has it |
| Prepare.ResolveAll | schedule_surgery/optimize.py:66-80 | the lines resolved in order, stopping at the first failure |
| Prepare.ResolveAllOk | schedule_surgery/optimize.py:66-80 | resolution succeeds exactly when every line does, keeping one entry per line in order |
| Prepare.ResolveAllErr | schedule_surgery/optimize.py:66-80 | a failure is the failure of the first failing line |
| Prepare.ResolveAllStops | schedule_surgery/optimize.py:66-80 | once a line fails, later lines change nothing |
| Prepare.ResolveStep | schedule_surgery/optimize.py:66-80 | one more line extends the resolved prefix by its entry, or fails with its error |
| Prepare.ResolveLine | schedule_surgery/optimize.py:66-75 | one loop iteration computes exactly that line's resolution |
| Prepare.ResolveNext | schedule_surgery/optimize.py:66-80 | one more line gives the next prefix's result, and a failure is already the result of the whole preschedule |
| Prepare.ResolvePreschedule | schedule_surgery/optimize.py:64-80 | the loop computes exactly `ResolveAll` of the whole preschedule |
| Prepare.AbdomenCovered | schedule_surgery/optimize.py:95-108 | ABDOMEN is closed by the preschedule or some fully available worker has a positive quota |
| Prepare.AbdPripCoveredAsWritten | schedule_surgery/optimize.py:99-118 | ABD prip. as written: closed, or a fully available worker with a quota on a workday, or any fully available worker on another day |
| Prepare.AbdPripCovered | schedule_surgery/optimize.py:99-118 | ABD prip. as intended: closed, not a workday, or a fully available worker with a quota |
| Prepare.TravmaCoveredAsWritten | schedule_surgery/optimize.py:97-111 | TRAVMA as written: a fully available worker with a quota, a closing preschedule line does not count |
| Prepare.TravmaCovered | schedule_surgery/optimize.py:97-111 | TRAVMA as intended: closed, or a fully available worker with a quota |
| Prepare.DayVerdict | schedule_surgery/optimize.py:120-134 | a day passes exactly when every one of its tests passes |
| Prepare.DayCheckAsWritten | schedule_surgery/optimize.py:103-134 | one day as the code tests it: the workdates, then ABDOMEN, ABD prip. and TRAVMA in the order of the three exits |
| Prepare.DayCheck | schedule_surgery/optimize.py:103-134 | the same day test with the corrected ABD prip. and TRAVMA conditions |
| Prepare.AvailabilityCheckAsWritten | schedule_surgery/optimize.py:90-134 | the first failing day as the code tests it; an unstaffable unconnected post stops the run rather than leaving the slot open |
| Prepare.AvailabilityCheck | schedule_surgery/optimize.py:90-134 | the first failing day under the corrected test |
| Prepare.AvailabilityCheckMeaning | schedule_surgery/optimize.py:90-134 | the check passes exactly when every day does, and otherwise reports the first failing day |
| Prepare.AsWrittenIsStricter | schedule_surgery/optimize.py:95-134 | every input the code as written lets through, the corrected check does too |
| Prepare.TravmaPrescheduleStops | schedule_surgery/optimize.py:97-98 | a TRAVMA slot closed by the preschedule stops the run as written and passes as intended |
| Prepare.AbdPripWeekendStops | schedule_surgery/optimize.py:113-118 | on a weekend day with nobody fully available the ABD prip. test stops the run as written and passes as intended |
| Prepare.UnconnectedHolderOffers | schedule_surgery/optimize.py:105-115 | in a valid roster whoever holds an unconnected post is fully available that day and has a positive quota for it |
| Prepare.OpenSlotOffered | schedule_surgery/optimize.py:105-115 | in a valid roster an open unconnected slot has a fully available worker with a positive quota for it |
| Prepare.DayCheckOk | schedule_surgery/optimize.py:120-134 | a day with workdates whose three unconnected posts are covered passes |
| Prepare.DayCheckPasses | schedule_surgery/optimize.py:90-134 | in a valid roster every day passes the corrected day test |
| Prepare.AvailabilityNecessary | schedule_surgery/optimize.py:83-134 | any input that admits a valid roster passes the corrected availability check |
| Prepare.WorkdayFlags | schedule_surgery/optimize.py:50 | one flag per day, set on workdays |
| Prepare.QuotaWarningsAsWritten | schedule_surgery/optimize.py:169-177 | the three warnings as written, the TRAVMA one guarded by the ABDOMEN total |
| Prepare.QuotaWarnings | schedule_surgery/optimize.py:169-177 | each warning is issued exactly when its quota total differs from its day count, and none exactly when all match |
| Prepare.TravmaWarningMissed | schedule_surgery/optimize.py:176-177 | with matching ABDOMEN totals and a wrong TRAVMA total no warning is written, while the intended warning appears |
| Prepare.NightTotalsOf | schedule_surgery/optimize.py:341-351 | `total_min_shifts` and `total_max_shifts` over the night workers, or the KeyError of the first unknown status |
| Prepare.NightTotalsOfMeaning | schedule_surgery/optimize.py:341-351 | the bracket exists exactly when every night worker's status is known; the minimum never exceeds the maximum; a failure names such a worker |
| Prepare.NightTotalsStop | schedule_surgery/optimize.py:345-351 | after an unknown status, later workers change nothing |
| Prepare.AddNightBounds | schedule_surgery/optimize.py:345-351 | one more worker gives the next prefix's bracket, and a failure is already the result for all workers |
| Prepare.NightTotals | schedule_surgery/optimize.py:341-351 | the accumulator loop computes exactly `NightTotalsOf` of all workers |
| Prepare.NightWarnings | schedule_surgery/optimize.py:353-360 | each night warning is issued exactly when its total is on the wrong side of 3 x days |
| Prepare.NightWarningsExclusive | schedule_surgery/optimize.py:356-360 | both night warnings never fire together |
| Prepare.EligibleDays | schedule_surgery/optimize.py:385-388 | `eligible_days`: the days whose day half is +1 or 0 |
| Prepare.KrozeciCheck | schedule_surgery/optimize.py:381-390 | passes exactly when every Krožeči worker has at least `krozeci_scheduled` eligible days; otherwise names the first that does not |
| Prepare.OmejenoCheck | schedule_surgery/optimize.py:396-402 | passes exactly when every OMEJENO worker has both counts; otherwise names the first OMEJENO worker without one, the day count checked before the night count |
| Prepare.YearCheck | schedule_surgery/optimize.py:458 | passes exactly when every status is known; otherwise names the first unknown one |
| Prepare.WeightError | schedule_surgery/optimize.py:594-601 | a worker's lookups fail exactly when they are not Krožeči and one of their three weights is missing |
| Prepare.WeightsCheck | schedule_surgery/optimize.py:592-601 | passes exactly when every non-Krožeči worker has their three weights |
| Prepare.Prepare | schedule_surgery/optimize.py:64-601 | the checks before the model is built, in program order, with the corrected availability test: the first failure, or the resolved plan |
| Prepare.PrepareAsWritten | schedule_surgery/optimize.py:64-601 | the same checks with the availability test as written |
| Prepare.LaterChecks | schedule_surgery/optimize.py:90-601 | after the preschedule: the availability verdict, the night bracket, the Krožeči, OMEJENO, year and weight checks, in that order |
| Prepare.PrepareAsWrittenStricter | schedule_surgery/optimize.py:90-134 | every input the code as written lets through, the corrected run lets through with the same plan |
| Prepare.PlanReady | schedule_surgery/optimize.py:66-80 | after a successful run of the checks every resolved line names a day and a post in range and a worker in range |
| Prepare.WorkdatesReady | schedule_surgery/optimize.py:104 | after the availability check every worker has a pair for every day |
| Prepare.PreparePasses | schedule_surgery/optimize.py:63-134 | a successful run passed each check in turn: resolution, availability, the night bracket, Krožeči, OMEJENO, years, non-empty worker and weight lists, and the weight lookups |
| Prepare.ChecksReady | schedule_surgery/optimize.py:63-134 | inputs passing those checks are well-formed for the constraints |
| Prepare.PrepareReady | schedule_surgery/optimize.py:63-134 | inputs that pass every check are well-formed for the constraints |
| Totals.Column | schedule_surgery/optimize.py:153 | one column of a matrix of flags |
| Totals.ColTotalAppend | schedule_surgery/optimize.py:153 | an extra row adds its own count to the column totals |
| Totals.RowTotalStep | schedule_surgery/optimize.py:153 | one more row adds its own count to the matrix total |
| Totals.ColumnsMeetTargets | schedule_surgery/optimize.py:153 | when each column counts its target, the column totals add up to the targets' sum |
| Totals.DoubleCount | schedule_surgery/optimize.py:153 | summing a matrix by rows equals summing it by columns |
| Totals.PostMatrix | schedule_surgery/optimize.py:181-183 | per worker, their days at one post |
| Totals.SlotTotals | schedule_surgery/optimize.py:141-153 | per day, the number of holders a slot of the post must have |
| Totals.PostColumn | schedule_surgery/optimize.py:153 | a day's column of a post's matrix is that slot's holders |
| Totals.PostColumnsCovered | schedule_surgery/optimize.py:141-153 | when every day's holders of a post number its slot total, the post's column totals add up to the sum of its slot totals |
| Totals.SlotSumOpen | schedule_surgery/optimize.py:141-153 | with no slot closed, a post is filled on every day, ABD prip. on every workday |
| Totals.QuotaHeld | schedule_surgery/optimize.py:180-183 | each worker's count at ABDOMEN, ABD prip. or TRAVMA equals that quota |
| Totals.QuotaRows | schedule_surgery/optimize.py:169-171 | the quota total over the workers equals the sum of their counts at that post |
| Totals.QuotaTotalIsRowTotal | schedule_surgery/optimize.py:169-183 | in a valid roster `sum_abd_dez` and the others equal the posts' totals |
| Totals.RowTotalIsSlotSum | schedule_surgery/optimize.py:141-153 | when every slot of a post is covered as the coverage rule asks, the post's total over all workers equals the sum of its slot totals |
| Totals.QuotaTotalOpen | schedule_surgery/optimize.py:169-183 | with no slot closed, a valid roster makes the quota total the number of days (workdays for ABD prip.) |
| Totals.QuotaWarningsNecessary | schedule_surgery/optimize.py:168-177 | with no unconnected slot closed, an input admitting a valid roster raises no quota warning |
| Totals.NightMatrix | schedule_surgery/optimize.py:353 | a worker's night posts as a days x 3 matrix |
| Totals.NightRowTotal | schedule_surgery/optimize.py:373-376 | the matrix sums to the worker's nights |
| Totals.NightColumnCount | schedule_surgery/optimize.py:373-376 | each column counts one night post |
| Totals.ColTotalThree | schedule_surgery/optimize.py:353 | a three-column total is the sum of the three column counts |
| Totals.NightColumnsCount | schedule_surgery/optimize.py:373-376 | a worker's night matrix's column totals are the counts at the three night posts |
| Totals.NightPostsByPost | schedule_surgery/optimize.py:373-376 | a worker's nights are the sum of their counts at the three night posts |
| Totals.NightTotalByPost | schedule_surgery/optimize.py:353 | the month's nights are the sums at the three night posts |
| Totals.NightPostOpen | schedule_surgery/optimize.py:141-153 | when every slot of a night post is covered and none is closed, the post is held exactly once a day |
| Totals.NightPlacesCovered | schedule_surgery/optimize.py:353 | when every slot is covered and no night slot is closed, the month has exactly 3 x days nights |
| Totals.NightPlacesFilled | schedule_surgery/optimize.py:353 | with no night slot closed, a valid roster works exactly `total_night_places` = 3 x days nights |
| Totals.NightTotalFromPosts | schedule_surgery/optimize.py:353 | each night post held once a day makes 3 x days nights |
| Totals.NightPostOffered | schedule_surgery/worker.py:65-71 | a night post in YES or MAYBE makes a night worker |
| Totals.NoNightsForDayWorkers | schedule_surgery/optimize.py:157-162 | with every night post in one of the three lists, somebody who does not work nights holds no night post |
| Totals.NightTotalsBracket | schedule_surgery/optimize.py:341-351 | if every worker keeps to their own night bounds, the accumulated totals bracket the month's nights |
| Totals.ValidNightsWithin | schedule_surgery/optimize.py:364-376 | in a valid roster every worker keeps to their night bounds |
| Totals.NightWarningsNecessary | schedule_surgery/optimize.py:353-360 | with no night slot closed, an input admitting a valid roster has a bracket and raises neither night warning |
| Checker.CountStep | schedule_surgery/optimize.py:153 | one more flag adds its own count |
| Checker.SumStep | schedule_surgery/optimize.py:605 | one more entry adds its own value |
| Checker.SlotCount | schedule_surgery/optimize.py:153 | the loop counts a slot's holders |
| Checker.CheckWorker | schedule_surgery/optimize.py:155-405 | the loop over days accepts exactly the months that satisfy `WorkerRules` |
| Checker.CheckSlots | schedule_surgery/optimize.py:141-153 | accepts exactly when every slot's holder count equals its total |
| Checker.CheckPlan | schedule_surgery/optimize.py:70-80 | accepts exactly when every preschedule line naming a worker has that worker on the slot and every line naming an outsider leaves the slot empty |
| Checker.CheckRoster | schedule_surgery/optimize.py:139-405 | accepts exactly the valid rosters |
| Checker.NightPenalties | schedule_surgery/optimize.py:519-542 | the list has one flag per worker and pair of consecutive days, and counts exactly `ConsecutiveNights` |
| Checker.WorkerNightPenalties | schedule_surgery/optimize.py:523-541 | the loop over one worker's days builds exactly their consecutive-night flags |
| Checker.AllLoads | schedule_surgery/optimize.py:598-605 | per worker, the workload of each non-Krožeči worker |
| Checker.LoadsUpToKept | schedule_surgery/optimize.py:590-607 | the collected list holds the values of exactly the kept workers, in order |
| Checker.LoadsUpToAll | schedule_surgery/optimize.py:590-607 | collected over all workers, the list is `Loads` |
| Checker.AddLoad | schedule_surgery/optimize.py:592-605 | one loop iteration appends the worker's workload unless they are Krožeči |
| Checker.CollectLoads | schedule_surgery/optimize.py:590-607 | the accumulator loop over all workers builds exactly the collected list |
| Checker.TotalWorkloads | schedule_surgery/optimize.py:590-607 | the loop builds exactly `total_workloads` |
| ScheduleTable.Header | schedule_surgery/optimize.py:648-654 | "DATUM" followed by the eleven post names: 12 cells, one fewer than the `Width` of 13 of a day row |
| ScheduleTable.LastEntry | schedule_surgery/optimize.py:661-664 | the last preschedule line for a slot, or none exactly when no line names it |
| ScheduleTable.LastHolder | schedule_surgery/optimize.py:667-671 | the last worker holding a slot, or none exactly when nobody does |
| ScheduleTable.TableCell | schedule_surgery/optimize.py:647-671 | column 0 is the date text; columns past the last post stay "" |
| ScheduleTable.PlannedStep | schedule_surgery/optimize.py:661-664 | one more preschedule line overwrites its slot's cell only |
| ScheduleTable.AddDates | schedule_surgery/optimize.py:656-658 | fills column 0 of every day row with its date text and leaves the header unchanged |
| ScheduleTable.AddPreschedule | schedule_surgery/optimize.py:660-664 | writes the preschedule names into the day rows and leaves the header unchanged |
| ScheduleTable.FillRow | schedule_surgery/optimize.py:667-671 | a day's row, each cell as `TableCell` gives it |
| ScheduleTable.AddAssignments | schedule_surgery/optimize.py:666-671 | writes the holders into the day rows, leaving each cell as `TableCell` gives it and the header unchanged |
| ScheduleTable.FillSchedule | schedule_surgery/optimize.py:647-671 | a fresh table of days + 1 rows with the header first and every cell of every day row as `TableCell` gives it |
| ScheduleTable.TableShowsHolder | schedule_surgery/optimize.py:667-671 | in a valid roster a slot's cell shows its holder's name |
| ScheduleTable.TableShowsOutsider | schedule_surgery/optimize.py:661-664 | a slot nobody holds, but a preschedule line names, shows that line's name |
| ScheduleTable.TableEmptyCell | schedule_surgery/optimize.py:650 | a slot nobody holds or plans stays "" |

## Left out
- The CP-SAT search itself is left out. It is a foreign solver with parallel workers and a time limit. The model states the constraints and the cost, but makes no claim that any roster is optimal, or even that one is found.
- `print` and `exit()` are modelled as values, not output:
  - the messages at lines 122-133 become error results;
  - the messages at 172-177 and 357-360 become warning lists;
  - the `raise` at 390, 400 and 402 becomes an error result.
- CSV and statistics writing (optimize.py:673-727) are I/O and are not modelled. The same goes for app.py and generate_schedule.py.
- The first, superseded travma-pair bonus block (optimize.py:453-472) is not modelled. The model uses its recomputation at 474-508.
- `parse_workers` and `parse_preschedule` are DataFrame reading and merging, and are not modelled. Names arrive as parsing.py:42 leaves them, upper-cased.
- The `Day` class (days.py) is not part of this model. A day is a record with its text and its workday, weekend and holiday flags.
- Cell values are modelled as a `Cell` datatype:
  - NaN is a constructor of its own;
  - a number is a `real`;
  - `int()` is modelled as truncation toward zero.
- Lower-casing covers ASCII and the Slovenian letters č, š, ž, ć and đ only.
- The configuration is a record. A missing key under `workplace_weights` is modelled (`Lookup`). A missing top-level key is not, because `config[...]` raises before any rule.
- `workplace_weights` is a list of key/value pairs with distinct keys. That is a JSON object that has been read in.
- Workers.NewWorker copies its arguments and resolves the lists. Its properties are stated on `ResolveWorkplaces`.
- Objective.WorkloadBalanceBounds: with no non-Krožeči worker, the code calls `AddMaxEquality` on an empty list. The model gives that case a spread of 0 and the lemma states only the lower bound there.
- Prepare.EligibleDays: the code indexes `workdates[dd]` and would raise on a short list. Short lists cannot reach this check, because the availability check before it stops them. The function therefore ignores days past the end of the list.
- Prepare.KrozeciCheck: it is not shown to be necessary for a valid roster. Eligible days are counted by day availability, while a Krožeči worker may also work nights.
- The second accumulation into `total_min_shifts`/`total_max_shifts` at lines 369-370 is dead: nothing reads it afterwards. So are the `empty_days_*` lists. Both are left out.
- Prepare.AvailabilityCheck: the missing-workdates error is raised for a day before any worker is tested. In Python, the `IndexError` fires at the first worker whose list is too short.
- Totals.NightWarningsNecessary and Totals.NoNightsForDayWorkers assume that every night post is in one of the three lists. `parse_workplaces` guarantees this; see `Parsing.ParseWorkplaces`.

## Findings

| source | as written | input that shows it | evidently intended | confidence | as-written member | corrected member |
|---|---|---|---|---|---|---|
| schedule_surgery/optimize.py:98 | a TRAVMA slot closed by the preschedule is appended to `empty_days_travma_prip`, so it does not count as covered | one workday, one fully available worker with TRAVMA quota 0, a preschedule line for TRAVMA naming an outsider | like ABDOMEN and ABD prip., a closed slot counts as covered | high, not executed | Prepare.TravmaPrescheduleStops | Prepare.TravmaCovered |
| schedule_surgery/optimize.py:176 | the TRAVMA total warning tests `sum_abd_dez` | one day, one worker with ABDOMEN quota 1 and TRAVMA quota 0 | test `sum_travma_prip != num_days` | high, not executed | Prepare.TravmaWarningMissed | Prepare.QuotaWarnings |
| schedule_surgery/optimize.py:438 | `worker.workdates[dd] == (+1, +1)` compares a list with a tuple, so it is always false and the term is always 0 | a worker with workdates [1,1] on TRAVMA that day | count the (+1,+1) days | high, not executed | Objective.UnconnectedCounterexample | Objective.PrefUnconnected |
| schedule_surgery/optimize.py:113-118 | on a non-workday, `None` is appended only for fully available workers, so a day with nobody fully available stops the run for ABD prip. | one weekend day, a worker with workdates [-1,-1], ABDOMEN and TRAVMA closed by the preschedule | ABD prip. is not staffed on non-workdays, so it needs nobody | medium, not executed | Prepare.AbdPripWeekendStops | Prepare.AbdPripCovered |
