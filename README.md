# Player statistics engine — a Dafny model

This project models the core of a small NestJS service for a catalogue of tennis players.
The service keeps an in-memory list of player records. It offers:

- **find**: the list sorted by ascending rank and cut to an optional `limit`;
- **findOne**: a lookup by id that fails with a not-found error;
- **statistics**: three aggregates over the list:
  - the median height;
  - the mean body-mass index (BMI);
  - the country with the best win ratio (W − L) / (W + L), where W and L count the 1s and the 0s in each player's `last` results.

The logic exists twice in the source:

- as methods of the JSON-backed repository class, which holds the records in a `players` field and sorts that field in place;
- as static helpers of `PlayerUtils`.

Both are modelled. Both are proved equal to the same functional specifications.

Layout:

- `player.dfy` (module `Player`) holds:
  - the records (`Player`, `PlayerData`, `Country`);
  - the parameter and result shapes of the repository interface (`PaginationParams`, `StatisticEntity`);
  - the failures (`NotFound(id)`, `HeightsEmpty`, `PlayersEmpty`);
  - a `Result` type.
- `sorting.dfy` (module `Sorting`) holds `SortBy`, a stable ascending sort by a numeric key. It stands in for `Array.prototype.sort` with a comparator `key(a) - key(b)`. The module proves that `SortBy` sorts, permutes and is stable.
- `stats.dfy` (module `Stats`) holds:
  - the specifications `Median`, `MeanBMI` and `BestCountry`;
  - the grouping functions behind `BestCountry`, which model `Object.groupBy` followed by `for...in`;
  - the lemmas about all of these.
- `json_repository.dfy` holds two modules:
  - `JsonRepository`: the class `PlayerJsonRepository`, with `players: seq<Player>` and the fixture its constructor installs. `Find` reassigns the field to its sorted value. The loop-based aggregate methods are proved equal to the `Stats` functions.
  - `FixtureScenarios`: the checks from the repository's test suite, stated on a freshly constructed repository.
- `player_util.dfy` (module `PlayerUtils`): the static helpers, with their own loops, proved equal to the same `Stats` functions.

Modelling decisions:

- **Numbers.** Numbers are exact `real`s. `rank`, `id` and the entries of `last` are `int`s.
- **Missing fields.** Every record is assumed to have `data`, `data.height` and `country` (see "## Left out"). A missing weight is represented by 0: in the BMI, `undefined > 0` and `0 > 0` are both false, so the record contributes 0 either way. A missing `last` is represented by the empty sequence: the win/loss scan skips both.
- **Undefined win ratio.** When a country has W + L = 0, the source computes `NaN`. The model writes this as `Ratio.Undefined` and ranks it below every defined ratio.
- **Tie-breaks.** Among countries with equal ratios, the first in order of first appearance wins. The source gets this from a stable sort in descending order, after which it takes element 0.
- **Group order.** `Object.groupBy` plus `for...in` visits the country codes in order of first appearance. This holds for codes that are not integer-like strings, such as the three-letter codes of the data; the model builds the groups in that order (see "## Left out").
- **find sorts in place.** `find` sorts the stored list itself (`this.players.sort`). The model does the same: after `Find`, the field holds the sorted list.

## Model

| member | source | states |
|---|---|---|
| Player.Heights | src/infrastructure/jsonfile/playser-json-repository/playser-json-repository.service.ts:152 | one height per record, the i-th being the i-th record's height |
| Sorting.SortBy | src/infrastructure/jsonfile/playser-json-repository/playser-json-repository.service.ts:122-124 | the library sort (also used at lines 228-230 and 242), as an insertion sort keeping equal keys in input order; same length as the input (its other properties are the three lemmas below) |
| Sorting.SortBySorted | src/infrastructure/jsonfile/playser-json-repository/playser-json-repository.service.ts:122-124 | the sorted sequence is in ascending key order |
| Sorting.SortByPermutes | src/infrastructure/jsonfile/playser-json-repository/playser-json-repository.service.ts:122-124 | sorting only reorders: same multiset of elements |
| Sorting.SortByStable | src/infrastructure/jsonfile/playser-json-repository/playser-json-repository.service.ts:122-124 | for every key, the elements with that key keep their input order (stability) |
| Sorting.SortedUnique | src/infrastructure/jsonfile/playser-json-repository/playser-json-repository.service.ts:242 | two ascending sequences of numbers with the same multiset are equal, so the sorted copy of the heights is unique |
| Stats.Median | src/infrastructure/jsonfile/playser-json-repository/playser-json-repository.service.ts:237-244 | fails exactly on empty input, with the heights-empty error |
| Stats.MedianOdd | src/infrastructure/jsonfile/playser-json-repository/playser-json-repository.service.ts:241-244 | for an odd count the median is element n/2 of any ascending arrangement of the heights |
| Stats.MedianEven | src/infrastructure/jsonfile/playser-json-repository/playser-json-repository.service.ts:241-244 | for an even non-zero count the median is the mean of elements n/2−1 and n/2 of any ascending arrangement |
| Stats.Middle | src/infrastructure/jsonfile/playser-json-repository/playser-json-repository.service.ts:241-244 | the pick by parity on the sorted copy; on sorted input it lies between the two middle elements |
| Stats.MedianPermutation | src/infrastructure/jsonfile/playser-json-repository/playser-json-repository.service.ts:242 | the median does not depend on the order of the input |
| Stats.MedianWithinRange | src/infrastructure/jsonfile/playser-json-repository/playser-json-repository.service.ts:241-244 | the median lies between some input height and some other input height |
| Stats.MedianExample | src/infrastructure/jsonfile/playser-json-repository/playser-json-repository.service.spec.ts:126-128 | [185, 185, 185, 180, 178, 180] has median 182.5 |
| Stats.Contributions | src/infrastructure/jsonfile/playser-json-repository/playser-json-repository.service.ts:168-179 | one BMI contribution per record, in record order |
| Stats.BodyMassIndex | src/infrastructure/jsonfile/playser-json-repository/playser-json-repository.service.ts:170-174 | one record's contribution is never negative, and positive exactly when weight and height are both positive |
| Stats.Sum | src/infrastructure/jsonfile/playser-json-repository/playser-json-repository.service.ts:181 | the `reduce((a, b) => a + b)`: a left-to-right sum (its contract is SumFromFirst) |
| Stats.SumFromFirst | src/infrastructure/jsonfile/playser-json-repository/playser-json-repository.service.ts:181 | the left-to-right sum `Sum` (the `reduce`) of a non-empty list is its first element plus the sum of the rest, as `reduce` without an initial value starts from element 0 |
| Stats.MeanBMI | src/infrastructure/jsonfile/playser-json-repository/playser-json-repository.service.ts:165-166 | fails exactly on an empty list, with the players-empty error |
| Stats.MeanBMIBounds | src/infrastructure/jsonfile/playser-json-repository/playser-json-repository.service.ts:170-181 | the mean BMI is non-negative and at most any upper bound of the contributions |
| Stats.MeanBMIInvalidCounted | src/infrastructure/jsonfile/playser-json-repository/playser-json-repository.service.ts:173-181 | a record without positive weight and height adds 0 to the sum but still counts in the denominator: mean·(n+1) = old mean·n |
| Stats.MeanBMISingle | src/infrastructure/jsonfile/playser-json-repository/playser-json-repository.service.ts:181 | for one record the mean is that record's weight / height², or 0 |
| Stats.MeanBMIExample | src/infrastructure/jsonfile/playser-json-repository/playser-json-repository.service.ts:173-174 | Djokovic's record (80000, 188 cm) alone gives 80000 / 35344 |
| Stats.Countries | src/infrastructure/jsonfile/playser-json-repository/playser-json-repository.service.ts:192-198 | the group keys are exactly the country codes occurring in the input, and a non-empty input has at least one |
| Stats.Codes | src/infrastructure/jsonfile/playser-json-repository/playser-json-repository.service.ts:194 | the grouping key of each record, `country.code`, in record order |
| Stats.Members | src/infrastructure/jsonfile/playser-json-repository/playser-json-repository.service.ts:192-195 | one group of `Object.groupBy`: no longer than the input |
| Stats.MembersExactly | src/infrastructure/jsonfile/playser-json-repository/playser-json-repository.service.ts:192-195 | a record is in the group of `c` exactly when it is in the input with code `c` |
| Stats.CountriesDistinct | src/infrastructure/jsonfile/playser-json-repository/playser-json-repository.service.ts:192-198 | each country is visited once |
| Stats.CountriesInOrder | src/infrastructure/jsonfile/playser-json-repository/playser-json-repository.service.ts:192-198 | countries are visited in the order of their first occurrence in the input |
| Stats.CountriesOrderedAt | src/infrastructure/jsonfile/playser-json-repository/playser-json-repository.service.ts:192-198 | the same order fact for two given positions |
| Stats.MembersSnoc | src/infrastructure/jsonfile/playser-json-repository/playser-json-repository.service.ts:192-195 | appending a record extends its country's group by that record and leaves the other groups alone |
| Stats.GroupByCountry | src/infrastructure/jsonfile/playser-json-repository/playser-json-repository.service.ts:192-195 | one group per country, holding that country's records in input order |
| Stats.CountryStatistics | src/infrastructure/jsonfile/playser-json-repository/playser-json-repository.service.ts:197-227 | one statistic per group, in group order |
| Stats.CountIsMultiplicity | src/infrastructure/jsonfile/playser-json-repository/playser-json-repository.service.ts:212-219 | W (L) counts exactly the entries equal to 1 (0); every other value adds nothing |
| Stats.Count | src/infrastructure/jsonfile/playser-json-repository/playser-json-repository.service.ts:212-219 | the number of entries of one `last` equal to the marker, at most its length |
| Stats.TotalWin | src/infrastructure/jsonfile/playser-json-repository/playser-json-repository.service.ts:207-221 | a group's W: the 1s of its players' `last`, player by player (its contracts are TotalsStep and TotalsAtLeast) |
| Stats.TotalLost | src/infrastructure/jsonfile/playser-json-repository/playser-json-repository.service.ts:207-221 | a group's L: the 0s of its players' `last`, player by player (its contracts are TotalsStep and TotalsAtLeast) |
| Stats.CountPositive | src/infrastructure/jsonfile/playser-json-repository/playser-json-repository.service.ts:212-219 | a marker is counted at least once exactly when it occurs |
| Stats.TotalsAtLeast | src/infrastructure/jsonfile/playser-json-repository/playser-json-repository.service.ts:207-221 | the totals `TotalWin` and `TotalLost` of a group are at least each member's own counts of 1s and 0s |
| Stats.CountStep | src/infrastructure/jsonfile/playser-json-repository/playser-json-repository.service.ts:212-219 | scanning one more entry adds one exactly when it equals the marker |
| Stats.TotalsStep | src/infrastructure/jsonfile/playser-json-repository/playser-json-repository.service.ts:207-221 | taking one more player adds the counts of that player's `last` |
| Stats.WinRatio | src/infrastructure/jsonfile/playser-json-repository/playser-json-repository.service.ts:224-225 | the ratio is defined iff W + L > 0, and then lies in [−1, 1] |
| Stats.RatioCross | src/infrastructure/jsonfile/playser-json-repository/playser-json-repository.service.ts:228-230 | for defined ratios, "greater" is the integer test (W₁−L₁)(W₂+L₂) > (W₂−L₂)(W₁+L₁) |
| Stats.Statistic | src/infrastructure/jsonfile/playser-json-repository/playser-json-repository.service.ts:199-226 | the statistic of one group: its country, W and L over all its players, and the ratio of exactly those W and L |
| Stats.CountryRatio | src/infrastructure/jsonfile/playser-json-repository/playser-json-repository.service.ts:205-225 | a country's ratio over all its players: undefined exactly when it has no 0/1 result, otherwise in [−1, 1] |
| Stats.CountryStatisticAt | src/infrastructure/jsonfile/playser-json-repository/playser-json-repository.service.ts:222-226 | the k-th statistic carries the k-th country and that country's ratio over all of its players |
| Stats.BestIndex | src/infrastructure/jsonfile/playser-json-repository/playser-json-repository.service.ts:228-230 | a position whose ratio no other exceeds, and which strictly exceeds every earlier one |
| Stats.BestCountry | src/infrastructure/jsonfile/playser-json-repository/playser-json-repository.service.ts:189 | fails exactly on an empty list, with the players-empty error |
| Stats.BestCountryIsBest | src/infrastructure/jsonfile/playser-json-repository/playser-json-repository.service.ts:187-231 | the chosen code belongs to an input record, no country has a greater ratio, and it comes first among the countries with the same ratio |
| Stats.BestAgainst | src/infrastructure/jsonfile/playser-json-repository/playser-json-repository.service.ts:228-230 | the chosen country compared with any one country: not beaten, and earlier when tied |
| Stats.BestCountryUnique | src/infrastructure/jsonfile/playser-json-repository/playser-json-repository.service.ts:187-231 | any country meeting those three conditions is the result (the characterisation is complete) |
| Stats.DescendingKey | src/infrastructure/jsonfile/playser-json-repository/playser-json-repository.service.ts:228-230 | the comparator `b.winRatio - a.winRatio` as an ascending key: for ratios in range the key lies in [−1, 2], and is at most 1 exactly for defined ratios |
| Stats.DescendingKeyOrder | src/infrastructure/jsonfile/playser-json-repository/playser-json-repository.service.ts:228-230 | the comparator `b.winRatio - a.winRatio` as an ascending key: a sorts before b iff b's ratio is not greater |
| Stats.SortedHeadIsBest | src/infrastructure/jsonfile/playser-json-repository/playser-json-repository.service.ts:228-230 | element 0 after the stable descending sort is the first statistic with a maximal ratio |
| JsonRepository.RankKey | src/infrastructure/jsonfile/playser-json-repository/playser-json-repository.service.ts:122-124 | the sort key of `find`, the rank as a number (its contract is RankKeyOrder) |
| JsonRepository.RankKeyOrder | src/infrastructure/jsonfile/playser-json-repository/playser-json-repository.service.ts:122-124 | the key difference is the comparator's `p1.data.rank - p2.data.rank`, so key order is rank order |
| JsonRepository.Fixture | src/infrastructure/jsonfile/playser-json-repository/playser-json-repository.service.ts:17-118 | the five constructor records (computed fields only); their ids are distinct |
| JsonRepository.FindIndex | src/infrastructure/jsonfile/playser-json-repository/playser-json-repository.service.ts:134 | the first position whose record has the id, or −1 exactly when no record has it |
| JsonRepository.FixtureFirstPage | src/infrastructure/jsonfile/playser-json-repository/playser-json-repository.service.ts:17-126 | the first two fixture records by rank are Nadal (rank 1) and Djokovic (rank 2) |
| JsonRepository.SortFixtureShape | src/infrastructure/jsonfile/playser-json-repository/playser-json-repository.service.ts:122-124 | the stable sort of five records with the fixture's ranks (2, 52, 21, 10, 1) orders them 5th, 1st, 4th, 3rd, 2nd |
| JsonRepository.FixtureHeights | src/infrastructure/jsonfile/playser-json-repository/playser-json-repository.service.ts:152 | the fixture's heights are 188, 185, 183, 175, 185 |
| JsonRepository.FixtureHeightsArranged | src/infrastructure/jsonfile/playser-json-repository/playser-json-repository.service.ts:242 | 175, 183, 185, 185, 188 is an ascending arrangement of those heights |
| JsonRepository.FixtureContributions | src/infrastructure/jsonfile/playser-json-repository/playser-json-repository.service.ts:168-179 | the fixture's contributions are 80000/188², 74000/185², 81000/183², 72000/175² and 85000/185² |
| JsonRepository.SumOfFive | src/infrastructure/jsonfile/playser-json-repository/playser-json-repository.service.ts:181 | the left-to-right sum of five numbers is their plain sum |
| JsonRepository.FixtureMeanBMI | src/infrastructure/jsonfile/playser-json-repository/playser-json-repository.service.spec.ts:132-136 | the fixture's mean BMI is exactly (80000/188² + 74000/185² + 81000/183² + 72000/175² + 85000/185²) / 5 |
| JsonRepository.FixtureMeanBMIBounds | src/infrastructure/jsonfile/playser-json-repository/playser-json-repository.service.spec.ts:132-136 | that mean lies strictly between 2.3357 and 2.3358, around the test's 2.3357838995505835 |
| JsonRepository.FixtureMedianHeight | src/infrastructure/jsonfile/playser-json-repository/playser-json-repository.service.ts:237-244 | the fixture's median height is 185 |
| JsonRepository.OnlyFirstMember | src/infrastructure/jsonfile/playser-json-repository/playser-json-repository.service.ts:192-195 | in five records where only the first has a given code, that code's group is the first record alone |
| JsonRepository.FixtureSerbians | src/infrastructure/jsonfile/playser-json-repository/playser-json-repository.service.ts:192-195 | Serbia's group in the fixture is Djokovic alone |
| JsonRepository.FixtureSerbia | src/infrastructure/jsonfile/playser-json-repository/playser-json-repository.service.ts:207-225 | Serbia's win ratio in the fixture is 1 (five wins, no loss) |
| JsonRepository.FiveWins | src/infrastructure/jsonfile/playser-json-repository/playser-json-repository.service.ts:207-221 | a lone player with `last` [1, 1, 1, 1, 1] gives W = 5 and L = 0 |
| JsonRepository.FixtureBestCountry | src/infrastructure/jsonfile/playser-json-repository/playser-json-repository.service.ts:187-231 | the fixture's best country is SRB |
| JsonRepository.PlayerJsonRepository.constructor | src/infrastructure/jsonfile/playser-json-repository/playser-json-repository.service.ts:15-119 | a new repository holds the five fixture records |
| JsonRepository.PlayerJsonRepository.Find | src/infrastructure/jsonfile/playser-json-repository/playser-json-repository.service.ts:120-130 | `players` becomes its stable sort by rank: sorted, a permutation of the old list, equal-rank records in their old order; the result is the whole list without a limit or with a limit above the length, else its first `limit` records, and is itself sorted |
| JsonRepository.PlayerJsonRepository.FindOne | src/infrastructure/jsonfile/playser-json-repository/playser-json-repository.service.ts:132-142 | NotFound naming the id exactly when no record has it; otherwise the first record with that id; `players` is untouched (no modifies clause) |
| JsonRepository.PlayerJsonRepository.Statistics | src/infrastructure/jsonfile/playser-json-repository/playser-json-repository.service.ts:143-161 | fails (heights empty, the first sub-call) exactly when there are no records; otherwise the best country, mean BMI and median height of the same list |
| JsonRepository.PlayerJsonRepository.ComputeMeanBodyMassIndex | src/infrastructure/jsonfile/playser-json-repository/playser-json-repository.service.ts:163-185 | the push loop and the `reduce` loop compute `MeanBMI` |
| JsonRepository.PlayerJsonRepository.ComputeCountryMostWinRatio | src/infrastructure/jsonfile/playser-json-repository/playser-json-repository.service.ts:187-235 | the nested counting loops and the descending sort compute `BestCountry` |
| JsonRepository.PlayerJsonRepository.ComputeMedianPlayerHeight | src/infrastructure/jsonfile/playser-json-repository/playser-json-repository.service.ts:237-250 | the result is `Median` of the heights |
| FixtureScenarios.FirstPageByRank | src/infrastructure/jsonfile/playser-json-repository/playser-json-repository.service.spec.ts:158-162 | `find({ limit: 2 })` gives two records in non-decreasing rank: Nadal, Djokovic |
| FixtureScenarios.LookupById | src/infrastructure/jsonfile/playser-json-repository/playser-json-repository.service.spec.ts:144-154 | `findOne(52)` finds the first fixture record; `findOne(12222222222222222)` fails with NotFound naming that id |
| FixtureScenarios.FixtureStatistics | src/infrastructure/jsonfile/playser-json-repository/playser-json-repository.service.spec.ts:166-172 | `statistics()` on the fixture gives SRB, the fixture's mean BMI (between 2.3357 and 2.3358) and median height 185 |
| PlayerUtils.ComputeMostWinRatioByCountry | src/infrastructure/utils/player.util.ts:18-64 | the grouping and counting loops (scanning only a non-empty `last`) compute `BestCountry`, the same result as the repository method |
| PlayerUtils.ComputeMedianPlayerHeight | src/infrastructure/utils/player.util.ts:75-88 | the result is `Median` of the heights, the same as the repository method |
| PlayerUtils.ComputeMeanBodyMassIndex | src/infrastructure/utils/player.util.ts:100-124 | the push loop and the `reduce` loop compute `MeanBMI`, the same as the repository method |

## Left out

- Floating point: all numbers are exact reals. IEEE-754 rounding is not modelled, and neither is the test's bit-exact mean 2.3357838995505835 (`FixtureMeanBMI` states the exact rational mean, and `FixtureMeanBMIBounds` places it between 2.3357 and 2.3358).
- `Promise`, `async` and the `try { } catch { throw }` wrappers are not modelled. A thrown error becomes an `Err` result. The `forEach(async ...)` callbacks never await, so they are modelled as plain loops.
- Stats.BestCountry: a country with W + L = 0, whose ratio is `NaN` in the source, ranks below every defined ratio. The source's comparator returns `NaN` for such a pair, which the sort treats inconsistently. The model does not reproduce that order.
- Stats.WinRatio: the `NaN` of 0 / 0 is modelled as `Ratio.Undefined`, not as a number.
- JsonRepository.PlayerJsonRepository.Find: when `limit` exceeds the length, the source returns the stored array object itself, so a caller that mutates the result also mutates the store. The model returns a value and does not capture that aliasing.
- JsonRepository.PlayerJsonRepository.Find: `limit` is an optional natural number. Negative and fractional limits, where `slice` behaves differently, are not modelled.
- The list use-case calls `find()` with no argument. Destructuring `{ limit }` from `undefined` would throw there. That is outside the repository and is not modelled; `PaginationParams(None)` stands for `find({})`.
- Records without `data`, without `data.height` or without `country` are not modelled: the model assumes every record has all three. In the source a missing height reaches the median as `undefined`, which `sort` places last and which turns the arithmetic into `NaN` or `undefined` (heights [180, missing, 190] give 190 there, whereas a 0 height would give 180); a missing `data` makes `p.data.height` throw, and a missing `country` makes `player.country.code` throw. Only a missing weight (contributes 0 to the BMI) and a missing `last` (scanned as empty) are represented.
- Entries of `last` that are not integers are represented by integers other than 0 and 1: both are ignored.
- Stats.Countries: country codes are assumed not to be integer-like strings. For codes such as "1" or "42", `for...in` visits them first, in ascending numeric order, and not in order of first appearance as the model does.
- JsonRepository.PlayerJsonRepository.Statistics: the three sub-computations run in sequence, as the code does. The failures of the second and third sub-call cannot occur once the first has succeeded, so the result states the first failure only.
- `Object.groupBy` and `Array.prototype.sort` are library calls. They are modelled by `GroupByCountry` and `SortBy`, not by their implementations.
- The player records' display fields (names, short names, sex, pictures), the MongoDB repository (stubs that throw), the HTTP controller, the logging interceptor, the bootstrap code and the dependency-injection modules are not part of this model.
