# Advent of Code 2023 solvers, modelled in Dafny

The repository is a set of independent Rust solvers, one per puzzle day. Each
reads its puzzle input and prints two answers. This project models the logic of
those solvers as pure Dafny functions over immutable data, with a few methods
where the Rust code runs a loop that needs an invariant. The modelled logic is
parsers, classifiers, grid transforms, searches and small simulations. It
proves what each piece of logic promises.

- Text helpers (`text.dfy`, module `Text`) model the Rust `str` operations the
  solvers use. These are `split`, `lines`, `split_ascii_whitespace`,
  `strip_prefix`, `replace` and `parse::<uN>`, each with its round trip.
- Day 17 (`day17_*.dfy`) is the deepest piece. It models the Dijkstra search
  over (cell, heading) states, with its bulk jumps and lazy deletion, and
  proves that the returned heat loss is the least over all legal routes.
- Every other day from 01 to 25, except 03 and 24, lives in one file,
  `dayNN_<name>.dfy`, with one module. `arith.dfy` holds shared arithmetic
  facts and `wrappers.dfy` the `Option`/`Result` types.

A Rust `panic!`, `unwrap` on bad input or `usize` underflow that the source
lets callers reach is modelled either as a `requires` or as a `None` result;
each member's doc comment and the list under "Left out" say which. A
`Result` the source returns is modelled as `Result`/`Option` from
`wrappers.dfy`. Integers are unbounded. Where the source relies on a fixed
width, the model says so in a contract.

## Model

| member | source | states |
|---|---|---|
| Crucible.DiffInjective | day-17-clumsy-crucible/src/main.rs:15-22 | the four `get_diff` offsets are pairwise distinct unit steps |
| Crucible.OppositeIsNegatedDiff | day-17-clumsy-crucible/src/main.rs:15-31 | `is_opposite(a, b)` holds exactly when the offset of `b` is the negated offset of `a`, so each direction has exactly one opposite |
| Crucible.OppositeSymmetric | day-17-clumsy-crucible/src/main.rs:24-31 | `is_opposite` is symmetric and irreflexive |
| Crucible.TupleRuleAgrees | day-17-clumsy-crucible/src/working.rs:13-29 | the tuple test `d == dir` or `d == -dir` forbids exactly the turns `main.rs` forbids, and the start heading (0, 0) forbids none |
| Crucible.HeadingVectorInjective | day-17-clumsy-crucible/src/working.rs:13-29 | the stored offset determines the heading, with (0, 0) reserved for the start |
| Crucible.ParseFormat | day-17-clumsy-crucible/src/working.rs:60-71 | parsing the text of a digit map gives back the map, one row per line and one digit value per character |
| Crucible.Parse | day-17-clumsy-crucible/src/main.rs:101-112 | `parse` gives one row per line, each cell the decimal value of its character |
| CrucibleRoutes.AlongIsDiff | day-17-clumsy-crucible/src/working.rs:31-46 | the cell `k` steps away is the start plus `k` times the direction's offset |
| CrucibleRoutes.SeedsAreNotTargets | day-17-clumsy-crucible/src/main.rs:43-44 | no run ends on a seed state, so the zero-cost seeds are never improved |
| CrucibleRoutes.Extend | day-17-clumsy-crucible/src/main.rs:71-94 | extending a route by a legal run ends at the run's target and adds the heat loss of every entered cell |
| CrucibleSearch.RayOut | day-17-clumsy-crucible/src/main.rs:76-80 | once a run leaves the map, no longer run in that direction is legal, which justifies the `break` |
| CrucibleSearch.Ray | day-17-clumsy-crucible/src/main.rs:71-94 | one direction's jumps: `best` only improves, an entry is pushed exactly for each strict improvement at a distance in `min_step..=max_step`, and afterwards every legal run in that direction is accounted for |
| CrucibleSearch.RayAdvance | day-17-clumsy-crucible/src/main.rs:71-94 | one pass of that loop either stops at the map's edge, after which no longer run is legal, or adds the entered cell's heat loss and keeps the loop's records |
| CrucibleSearch.Expand | day-17-clumsy-crucible/src/main.rs:57-95 | relaxing a popped state skips its own and the reverse direction and leaves every legal run out of it accounted for in `best` |
| CrucibleSearch.PopLeast | day-17-clumsy-crucible/src/main.rs:40-47 | a pop returns an entry of least cost, as the negated costs in the max-heap make it |
| CrucibleSearch.FrontierBound | day-17-clumsy-crucible/src/main.rs:46-95 | while the queue is not empty, the least queued cost is at most the cost of any route to a state not yet settled |
| CrucibleSearch.StaleStep | day-17-clumsy-crucible/src/main.rs:52-55 | skipping a popped entry costlier than `best` keeps the search invariant |
| CrucibleSearch.GoalStep | day-17-clumsy-crucible/src/main.rs:46-50 | the first pop of the bottom-right cell carries the cost of a legal route and no legal route to that cell is cheaper |
| CrucibleSearch.EmptyStep | day-17-clumsy-crucible/src/main.rs:98 | an empty queue means no legal route reaches the bottom-right cell |
| CrucibleSearch.Seeded | day-17-clumsy-crucible/src/main.rs:43-44 | the queue starts with exactly the seed states at cost 0 |
| CrucibleSearch.Search | day-17-clumsy-crucible/src/main.rs:34-99 | the search returns the least heat loss over legal routes when the goal is reachable, and reports exhaustion exactly when it is not |
| CrucibleSearch.MainProblem | day-17-clumsy-crucible/src/main.rs:43-44 | `main.rs` seeds only (0, 0) heading right and heading down |
| CrucibleSearch.WorkingProblem | day-17-clumsy-crucible/src/working.rs:13 | `working.rs` seeds only (0, 0) with the sentinel heading |
| CrucibleSearch.MinHeatLoss | day-17-clumsy-crucible/src/main.rs:34-99 | `min_heat_loss` returns the least heat loss over legal routes from the seeds, or `u64::MAX` when no route reaches the goal |
| CrucibleSearch.MinHeatLossWorking | day-17-clumsy-crucible/src/working.rs:6-58 | the same promise for the sentinel-start version, whose first run may go in any direction |
| Trebuchet.FirstWord | day-01-trebuchet/src/main.rs:64-76 | the word loop picks the first word in list order that occurs at the position |
| Trebuchet.FindFrom | day-01-trebuchet/src/main.rs:57-80 | the scan returns the value at the earliest position that holds a numeral or starts a word, and 0 when there is none |
| Trebuchet.FindDigit | day-01-trebuchet/src/main.rs:57-80 | `find_digit` returns the digit at the earliest hit, 0 without one, and a value below 10 for the digit words |
| Trebuchet.HitAtReverse | day-01-trebuchet/src/main.rs:47-52 | scanning the reversed line with reversed words at position `k` sees the digit that ends `k` characters before the end |
| Trebuchet.LastDigit | day-01-trebuchet/src/main.rs:47-52 | the reversed scan returns the digit that ends latest in the line, so overlapping words such as "nineight" give their last word |
| Trebuchet.CalibrationNumber | day-01-trebuchet/src/main.rs:36-55 | the result is below 100, its tens digit is the earliest digit of the line and its units digit the latest, each 0 when the line has none |
| Trebuchet.SingleDigit | day-01-trebuchet/src/main.rs:91 | a line whose only digit is written once, as a numeral or as a word of value `d`, has calibration value `11 * d` |
| Trebuchet.NumeralsExample | day-01-trebuchet/src/main.rs:89 | "12" gives 12 |
| Trebuchet.SingleWordExample | day-01-trebuchet/src/main.rs:91 | "one" gives 11 |
| Trebuchet.ProbeSound | day-01-trebuchet/src/main.rs:64-71 | the source's character comparison agrees with "the word occurs here" whenever it finishes, and it runs off the line only when the rest of the line is a proper prefix of the word |
| Trebuchet.AsWrittenAgrees | day-01-trebuchet/src/main.rs:57-80 | whenever `find_digit` as written does not panic it returns what the corrected scan returns, and a panic means a suffix of the line is a proper prefix of a digit word |
| Trebuchet.OnPanics | day-01-trebuchet/src/main.rs:66-71 | on the line "on" the source indexes past the end, while the corrected scan returns 0 |
| Conundrum.MaxDraw | day-02-conundrum/src/main.rs:84-96 | the component-wise maximum admits every draw, each component is attained by some draw, and no draws give (0, 0, 0) |
| Conundrum.Minimum | day-02-conundrum/src/main.rs:84-96 | `get_minimum` gives a bag in which the game is possible |
| Conundrum.PossibleIffMinimum | day-02-conundrum/src/main.rs:77-96 | a game is possible with a bag exactly when its minimum draw fits in that bag |
| Conundrum.MinimumPowerLeast | day-02-conundrum/src/main.rs:25-27 | the power of the minimum is at most the power of any bag the game is possible with |
| Conundrum.MinimumExample | day-02-conundrum/src/main.rs:197-211 | the minimum of the test game is (20, 13, 6) and the power of (2, 5, 8) is 80 |
| Conundrum.ColourOf | day-02-conundrum/src/main.rs:51-59 | a colour word is red when it contains "red", else blue when it contains "blue", else green when it contains "green", and rejected otherwise |
| Conundrum.ParseItem | day-02-conundrum/src/main.rs:42-49 | an item parses exactly when its first space-separated piece is a `u32` and a second piece exists |
| Conundrum.ParseItems | day-02-conundrum/src/main.rs:41-60 | the item loop succeeds exactly when every item parses |
| Conundrum.ParseItemsLast | day-02-conundrum/src/main.rs:41-60 | after the loop each colour's count is the count of the last item naming it, or its value before the loop when none does |
| Conundrum.ParseDraw | day-02-conundrum/src/main.rs:36-63 | `Draw::from_str` succeeds exactly when every ", "-separated item parses, and each colour gets the last count given for it, 0 when none |
| Conundrum.ParseFormatDraw | day-02-conundrum/src/main.rs:36-63 | the text "R red, G green, B blue" of a draw with `u32` counts parses back to the draw |
| Conundrum.ParseDraws | day-02-conundrum/src/main.rs:117-123 | collecting the draws succeeds exactly when each draw parses, and keeps them in order |
| Conundrum.ParseGame | day-02-conundrum/src/main.rs:105-126 | a parsed game has a `u32` id and one draw per "; "-separated piece after ": ", each that piece's parse |
| Conundrum.ParseFormatGame | day-02-conundrum/src/main.rs:105-126 | the text "Game N: d1; d2; ..." of a game with a `u32` id and `u32` counts parses back to the game |
| Scratchcards.WinningSet | day-04-scratchcards/src/main.rs:35-41 | the folded set holds exactly the winning numbers |
| Scratchcards.WinningCountSingle | day-04-scratchcards/src/main.rs:34-44 | a single scratched number counts 1 exactly when it is a winning number |
| Scratchcards.WinningCountAppend | day-04-scratchcards/src/main.rs:43 | the count over two runs of scratched numbers is the sum of their counts, so a repeated scratched number counts once per repetition |
| Scratchcards.WinningCountSameNumbers | day-04-scratchcards/src/main.rs:34-44 | the count depends only on which numbers win and on the multiset of scratched numbers |
| Scratchcards.WinningCountExample | day-04-scratchcards/src/main.rs:133-137 | the sample card has four matches |
| Scratchcards.Points | day-04-scratchcards/src/main.rs:24-32 | with at most 32 matches, no match gives 0 points and `n` matches give 2^(n-1), which fits in `u32` |
| Scratchcards.ShlOne | day-04-scratchcards/src/main.rs:31 | `1 << k` on `u32` does not wrap for `k < 32` |
| Scratchcards.PointsDouble | day-04-scratchcards/src/main.rs:24-32 | one more match doubles the points |
| Scratchcards.PointsFewMatches | day-04-scratchcards/src/main.rs:187-203 | 0 matches give 0 points and 1 match gives 1 point |
| Scratchcards.PointsExample | day-04-scratchcards/src/main.rs:173-176 | the first sample card scores 8 |
| Scratchcards.WonCards | day-04-scratchcards/src/main.rs:81-96 | `get_won_cards` returns the sum over cards of their copies, where a card's copies are one plus the copies of each earlier card whose matches reach it, and the total is at least the number of cards |
| Scratchcards.WonCardsExample | day-04-scratchcards/src/main.rs:206-211 | the sample's matches give 30 cards |
| Text.ParseEach | day-04-scratchcards/src/main.rs:56-70 | collecting the parsed words succeeds exactly when each word is a number in range, and keeps them in order |
| Scratchcards.ParseCard | day-04-scratchcards/src/main.rs:53-73 | a card parses exactly when there is a piece after ": ", it has a piece after the vertical bar separator and both pieces are lists of `u32`s |
| Scratchcards.ParseFormatCard | day-04-scratchcards/src/main.rs:53-73 | the text of a card ("Card N: ", the winning numbers, a vertical bar, the scratched numbers) with `u32` numbers parses back to the card |
| Fertilizer.GetMapping | day-05-fertilizer/src/main.rs:16-22 | an interval maps exactly the numbers in `source..source+length`, each to the number at the same offset from `destination` |
| Fertilizer.MappingInverse | day-05-fertilizer/src/main.rs:16-22 | an interval is a bijection between its two ranges, and swapping source and destination gives its inverse |
| Fertilizer.MappingExample | day-05-fertilizer/src/main.rs:214-224 | the interval 50 98 2 maps 98 to 50 and 99 to 51, and maps neither 97 nor 100 |
| Fertilizer.AsWrittenAgrees | day-05-fertilizer/src/main.rs:16-22 | the `u64` arithmetic as written agrees with the unbounded mapping whenever it does not overflow, and overflows exactly when `source + length` or `destination + x` exceeds `u64::MAX` for a number not below the source |
| Fertilizer.TopOfRangeOverflows | day-05-fertilizer/src/main.rs:17-18 | an interval that ends at `u64::MAX` overflows as written on its last number, which it should map |
| Fertilizer.MapThrough | day-05-fertilizer/src/main.rs:68-76 | the first interval in the list that covers a number maps it, and a number no interval covers maps to itself |
| Fertilizer.MapThroughExample | day-05-fertilizer/src/main.rs:226-251 | the two-interval sample map sends 98, 99, 100, 50, 55, 97, 49 and 10 to 50, 51, 100, 52, 57, 99, 49 and 10 |
| Fertilizer.GetLocationChain | day-05-fertilizer/src/main.rs:89-98 | `get_location` passes the seed through the seven maps, seed-to-soil first and humidity-to-location last |
| Fertilizer.ChainAppend | day-05-fertilizer/src/main.rs:89-98 | passing a number through a list of maps is passing it through a prefix and then through the rest |
| Fertilizer.LocationExample | day-05-fertilizer/src/main.rs:264-281 | the sample seeds 79, 14, 55 and 13 reach the locations 82, 43, 86 and 35 |
| Fertilizer.ParseInterval | day-05-fertilizer/src/main.rs:31-47 | a line parses exactly when it has exactly three words and each is a `u64`; they are the destination, source and length in that order |
| Fertilizer.ParseFormatInterval | day-05-fertilizer/src/main.rs:31-47 | the line "destination source length" of an interval with `u64` fields parses back to the interval |
| Fertilizer.IntervalExample | day-05-fertilizer/src/main.rs:199-211 | "50 98 2" parses to destination 50, source 98 and length 2 |
| Fertilizer.ParseMappingSet | day-05-fertilizer/src/main.rs:50-52 | a map parses exactly when each of its lines parses as an interval, and keeps one interval per line in order |
| Fertilizer.ParseFormatMappingSet | day-05-fertilizer/src/main.rs:50-52 | the lines of a list of intervals with `u64` fields parse back to the list |
| Fertilizer.ExtractPart | day-05-fertilizer/src/main.rs:54-62 | a section is found exactly when the header occurs; it is the text that follows the first header, runs up to the first blank line, the next copy of the header or the end, and contains neither |
| Fertilizer.ParseMappings | day-05-fertilizer/src/main.rs:104-132 | the almanac parses exactly when all seven sections are found and parse, and each map is its section parsed |
| Fertilizer.ParseSeeds | day-05-fertilizer/src/main.rs:135-144 | the seeds parse exactly when every word of the first paragraph, after "seeds: " is stripped from its front, is a `u64`, and they keep their order |
| Fertilizer.ParseFormatSeeds | day-05-fertilizer/src/main.rs:135-144 | a line "seeds: " followed by `u64` numbers, then a blank line and any text, parses back to those numbers |
| Races.WinningWays | day-06-wait-for-it/src/main.rs:10-30 | a negative determinant `time^2 - 4 * distance` gives 0 ways |
| Races.WinningWaysCounts | day-06-wait-for-it/src/main.rs:10-30 | the result is the number of integer holds `x` with `x^2 - time * x + distance <= 0`, ties with the record included, and every such hold lies in `0..=time` |
| Races.WinsInterval | day-06-wait-for-it/src/main.rs:15-29 | with a non-negative determinant the winning holds are exactly the integers from the ceiling of `(time - sqrt)/2` to the floor of `(time + sqrt)/2` |
| Races.NoWinsCount | day-06-wait-for-it/src/main.rs:13-24 | with a negative determinant no hold wins |
| Races.WinningWaysExamples | day-06-wait-for-it/src/main.rs:143-171 | the races (7, 9), (6, 9) and (6, 10) have 4, 1 and 0 winning holds |
| Races.Tokens | day-06-wait-for-it/src/main.rs:37-45 | a line gives its words after the label, with leading whitespace trimmed, exactly when it starts with the label |
| Races.RaceTokens | day-06-wait-for-it/src/main.rs:36-54 | the two word lists exist exactly when there are two lines, the first starting with "Time:" and the second with "Distance:" |
| Races.Zip | day-06-wait-for-it/src/main.rs:56-68 | pairing succeeds exactly when each word up to the shorter list is a `u64`, and race `i` holds the `i`-th time and distance |
| Races.ParseRaces | day-06-wait-for-it/src/main.rs:36-69 | `parse_races` fails when a line or label is missing, and otherwise pairs the words |
| Races.ParseFormatRaces | day-06-wait-for-it/src/main.rs:36-69 | the two lines of `u64` times and distances parse back to the races paired up to the shorter list |
| Races.SampleRaces | day-06-wait-for-it/src/main.rs:117-141 | the sample sheet gives the races (7, 9), (15, 40) and (30, 200) |
| Races.ParseRace | day-06-wait-for-it/src/main.rs:71-95 | `parse_race` succeeds exactly when both labels are present and each line's words glued together are a `u64`, and those are the race |
| Races.SampleRace | day-06-wait-for-it/src/main.rs:173-188 | the sample sheet read as one race gives time 71530 and distance 940200 |
| CamelCards.RanksInjective | day-07-camel-cards/src/part1.rs:9-35 | cards and strengths are compared by their position in declaration order, and different faces or types have different positions |
| CamelCards.ParseCardSymbol | day-07-camel-cards/src/part1.rs:43-60 | `Card::from_str` maps a string to a card exactly when the string is that card's one character |
| CamelCards.ParseCardFails | day-07-camel-cards/src/part1.rs:43-60 | `Card::from_str` fails exactly on strings that are not one of the thirteen characters A K Q J T 9 8 7 6 5 4 3 2 |
| CamelCards.TallyFacts | day-07-camel-cards/src/part1.rs:72-75 | the fold's table has one entry per distinct card of the hand, holding that card's number of occurrences, and the counts add up to the number of cards |
| CamelCards.TallySize | day-07-camel-cards/src/part1.rs:77-97 | five cards give a table of one to five entries, so the `panic!` branch is never taken |
| CamelCards.ClassifyTable | day-07-camel-cards/src/part1.rs:77-96 | one entry is FiveKind, four OnePair, five HighCard; two entries are FourKind exactly when the largest count is 4 and FullHouse otherwise; three are ThreeKind exactly when the largest count is 3 and TwoPair otherwise, and each of these is the type the counts describe |
| CamelCards.StrengthIsType | day-07-camel-cards/src/part1.rs:71-99 | `get_strength` gives every five-card hand its type: five, four or three of a kind, full house, two pairs, one pair or high card, judged by how often each card occurs |
| CamelCards.StrengthExamples | day-07-camel-cards/src/part1.rs:195-225 | the seven test hands get FiveKind, FourKind, FullHouse, ThreeKind, TwoPair, OnePair and HighCard |
| CamelCards.NewHand | day-07-camel-cards/src/part1.rs:101-110 | `Hand::new` keeps the cards and bid and stores their strength |
| CamelCards.CompareCardsMeaning | day-07-camel-cards/src/part1.rs:116-125 | the card loop answers by the first position where the rows differ, and gives Equal exactly when the rows are equal |
| CamelCards.CompareMeaning | day-07-camel-cards/src/part1.rs:112-135 | a stronger hand is greater whatever its cards; with equal strengths the first differing card decides; the bid is not looked at |
| CamelCards.CompareEqual | day-07-camel-cards/src/part1.rs:112-135 | `cmp` gives Equal exactly for hands with the same cards, and swapping the hands flips the answer |
| CamelCards.CompareTransitive | day-07-camel-cards/src/part1.rs:112-135 | `cmp` is transitive, so with the two facts above it is a total order on hands |
| CamelCards.OrderExamples | day-07-camel-cards/src/part1.rs:227-351 | the ten test comparisons give the tests' Equal, Greater and Less answers |
| CamelCards.ParseCards | day-07-camel-cards/src/part1.rs:148-156 | the characters parse exactly when each one is a card, and then to those cards in order |
| CamelCards.ParseHand | day-07-camel-cards/src/part1.rs:143-166 | a line parses exactly when the text before the first space is cards, there is a second piece that is a `u64`, and there are five cards; the hand then has those cards, that bid and their strength |
| CamelCards.ParseFormatHand | day-07-camel-cards/src/part1.rs:143-166 | five cards, a space and a `u64` bid parse back to the same hand |
| CamelCards.ParseExamples | day-07-camel-cards/src/part1.rs:354-385 | the three test lines parse to the tests' hands |
| Wasteland.NewInstructions | day-08-haunted-wasteland/src/main.rs:16-21 | a new stream holds the list and starts at index 0 |
| Wasteland.Next | day-08-haunted-wasteland/src/main.rs:27-36 | a call always yields an instruction, the one at the index taken modulo the length, and moves the index to that position plus one, never past the length |
| Wasteland.StreamCycles | day-08-haunted-wasteland/src/main.rs:27-36 | from a fresh stream the i-th instruction yielded is the list entry at i modulo the length, and after k calls the index is (k - 1) modulo the length plus 1 |
| Wasteland.TakeCycles | day-08-haunted-wasteland/src/main.rs:27-36 | from any valid index the i-th instruction yielded is the one i places further round the list |
| Wasteland.StreamExample | day-08-haunted-wasteland/src/main.rs:172-195 | LLR repeated gives L L R L L R L for the first seven calls |
| Wasteland.ParseInstructions | day-08-haunted-wasteland/src/main.rs:45-58 | parsing never fails, gives one instruction per character starting at index 0, and an instruction is Right exactly when its character is 'R' |
| Wasteland.ParseFormatInstructions | day-08-haunted-wasteland/src/main.rs:45-58 | writing instructions as L and R and parsing them gives them back, and a string of L and R is written back from its parse |
| Wasteland.ParseInstructionsExample | day-08-haunted-wasteland/src/main.rs:160-170 | LLR parses to Left, Left, Right |
| Wasteland.ParseDestinationMeaning | day-08-haunted-wasteland/src/main.rs:72-90 | a destination parses exactly when the text before the first ", " starts with "(" and a second piece exists and ends with ")", the names being what lies inside |
| Wasteland.ParseFormatDestination | day-08-haunted-wasteland/src/main.rs:72-90 | "(left, right)" with comma-free names parses back to the same destination |
| Wasteland.ParseEntryMeaning | day-08-haunted-wasteland/src/main.rs:110-118 | a line parses exactly when the split on " = " has a second piece that is a destination, a missing piece being MapError and a bad destination DestinationError |
| Wasteland.ParseEntries | day-08-haunted-wasteland/src/main.rs:109-119 | all lines parse exactly when no line fails, giving one entry per line in order, and otherwise the error is that of the first failing line |
| Wasteland.ToMap | day-08-haunted-wasteland/src/main.rs:107-121 | the keys of the built map are exactly the keys of the entries |
| Wasteland.ToMapLast | day-08-haunted-wasteland/src/main.rs:118-118 | a key maps to the destination of its last entry, as repeated inserts overwrite |
| Wasteland.ParseFormatMap | day-08-haunted-wasteland/src/main.rs:106-122 | a map written line by line from names free of '=', ',' and newline parses to those entries inserted in order |
| Wasteland.ParseMapExample | day-08-haunted-wasteland/src/main.rs:197-220 | the test map parses, has exactly the keys AAA, BBB and ZZZ, and each has the test's left and right |
| Mirage.Diffs | day-09-mirage-maintenance/src/main.rs:11-14 | one difference per adjacent pair, each the later reading minus the earlier, so one fewer than there are readings |
| Mirage.ZeroExtrapolates | day-09-mirage-maintenance/src/main.rs:6-9 | an all-zero history, the empty one included, extrapolates to (0, 0) however deep the recursion goes |
| Mirage.PredictIsExtrapolate | day-09-mirage-maintenance/src/main.rs:6-22 | `predict_next` equals the extrapolation through the whole table of differences: the all-zero shortcut never changes the result |
| Mirage.ConstantPredict | day-09-mirage-maintenance/src/main.rs:6-22 | a non-empty constant history c predicts c before its first reading and c after its last |
| Mirage.ExtrapolatePlus | day-09-mirage-maintenance/src/main.rs:6-22 | the extrapolation of the element-wise sum of two equally long histories is the sum of their extrapolations, at both ends |
| Mirage.ExtrapolateNegate | day-09-mirage-maintenance/src/main.rs:6-22 | negating every reading negates both extrapolated readings |
| Mirage.ExtrapolateReverse | day-09-mirage-maintenance/src/main.rs:6-22 | extrapolating the reversed history swaps the previous and next readings |
| Mirage.PredictReverse | day-09-mirage-maintenance/src/main.rs:18-21 | the previous reading `predict_next` returns is the next reading of the reversed history, and the other way round |
| Mirage.AppendPrediction | day-09-mirage-maintenance/src/main.rs:16-21 | appending the extrapolated next reading leaves the extrapolated previous reading unchanged |
| Mirage.PredictAppend | day-09-mirage-maintenance/src/main.rs:16-21 | appending the predicted next reading to a history leaves its predicted previous reading unchanged |
| Mirage.PredictExamples | day-09-mirage-maintenance/src/main.rs:48-52 | the three test histories predict (-3, 18), (0, 28) and (5, 68) |
| PipeMaze.GetNext | day-10-pipe-maze/src/main.rs:21-31 | Ground gives the cell itself twice, any other tile two different cells, and a side is among the tile's openings exactly when stepping through it reaches one of the two cells |
| PipeMaze.ConnectsSide | day-10-pipe-maze/src/main.rs:21-31 | a tile connects to its neighbour on a side exactly when it opens to that side |
| PipeMaze.GetNextExamples | day-10-pipe-maze/src/main.rs:186-217 | each of the six pipes at row 2, column 3 connects to the two neighbours the test lists |
| PipeMaze.ParsePipeChar | day-10-pipe-maze/src/main.rs:34-44 | every tile is parsed back from the character drawn for it |
| PipeMaze.CharParsePipe | day-10-pipe-maze/src/main.rs:34-44 | a character parses to Ground exactly when it is not one of the six pipe characters, and a pipe character is the one drawn for its tile |
| PipeMaze.ParsePipes | day-10-pipe-maze/src/main.rs:151-170 | one row of tiles per line, each the parse of that line's characters, and the start is the last S in row-major order or (0, 0) when there is none |
| PipeMaze.ProbeOpensBack | day-10-pipe-maze/src/main.rs:49-60 | a neighbour is queued exactly when it lies in the grid and its tile opens back towards the start |
| PipeMaze.GetNextFromStartSides | day-10-pipe-maze/src/main.rs:46-65 | the queue holds one neighbour per side whose tile opens back, in the order North, East, South, West |
| PipeMaze.DetermineStartSides | day-10-pipe-maze/src/main.rs:67-96 | given neighbours on two sides in the order North, East, South, West, the chosen tile opens to exactly those two sides |
| PipeMaze.StartTileConnects | day-10-pipe-maze/src/main.rs:67-96 | the start tile chosen from the queue fits and connects the start to exactly the first two queued neighbours |
| PipeMaze.Level | day-10-pipe-maze/src/main.rs:112-124 | popping a level marks every queued cell, queues only cells linked to marked ones, keeps every marked tile's two cells marked or queued, and when nothing new is marked the queue held marked cells only and the next holds unmarked ones only; every marked cell was marked before or queued |
| PipeMaze.Bfs | day-10-pipe-maze/src/main.rs:98-129 | the start tile is replaced by the chosen one; the marked cells include the start, lie in the grid and are each reached from the start by a chain of cells whose tiles connect, so no cycle apart from the start's is marked; on success every marked tile connects only to marked cells; the search ends |
| PipeMaze.FlipsSouth | day-10-pipe-maze/src/main.rs:138-143 | a loop tile flips the inside flag exactly when it opens to the south |
| PipeMaze.InsideSurface | day-10-pipe-maze/src/main.rs:131-149 | the count is the number of cells off the loop with an odd number of flipping loop tiles before them in row-major order |
| PipeMaze.ScanRow | day-10-pipe-maze/src/main.rs:136-146 | scanning a row adds the cells of that row off the loop with an odd number of flips before them, and leaves the flag set exactly when the flips so far are odd |
| PipeMaze.NoFlipsNothingInside | day-10-pipe-maze/src/main.rs:131-149 | with no flipping tile nothing is counted |
| PipeMaze.InsideAppend | day-10-pipe-maze/src/main.rs:131-149 | after an even number of flips the rest of the scan counts as if started afresh, and flips add up |
| PipeMaze.RowsIndependent | day-10-pipe-maze/src/main.rs:131-149 | when every row crosses the loop an even number of times, the count is the sum of the rows' counts each scanned from outside |
| CosmicExpansion.ParseSpace | day-11-cosmic-expansion/src/main.rs:153-165 | one row per line, as long as the line, and a tile is a galaxy exactly when its character is '#' |
| CosmicExpansion.ParseFormatSpace | day-11-cosmic-expansion/src/main.rs:153-165 | every image is read back from its drawing |
| CosmicExpansion.StretchPlaces | day-11-cosmic-expansion/src/main.rs:14-48 | every item keeps its order at its index plus the number of doubled items before it, and a doubled item's copy follows it |
| CosmicExpansion.StretchItems | day-11-cosmic-expansion/src/main.rs:14-48 | doubling adds no item the original does not hold and drops none |
| CosmicExpansion.ExpandRowsPlaces | day-11-cosmic-expansion/src/main.rs:14-25 | the expanded image has one extra row per empty row, each row sits shifted by the empty rows above it, and an empty row is followed by its copy |
| CosmicExpansion.ExpandColumnsPlaces | day-11-cosmic-expansion/src/main.rs:27-48 | in each row every cell of the first row's width sits shifted by the empty columns to its left, and a cell of an empty column is followed by its copy |
| CosmicExpansion.RowsToExpand | day-11-cosmic-expansion/src/main.rs:85-95 | a row number is in the set exactly when that row holds no galaxy |
| CosmicExpansion.ColumnsToExpand | day-11-cosmic-expansion/src/main.rs:97-115 | a column below the first row's width is in the set exactly when no row has a galaxy in it |
| CosmicExpansion.FindGalaxiesMembers | day-11-cosmic-expansion/src/main.rs:50-62 | a position is listed exactly when it holds a galaxy |
| CosmicExpansion.FindGalaxiesOrder | day-11-cosmic-expansion/src/main.rs:50-62 | the galaxies are listed row by row, each row left to right, with no repeats |
| CosmicExpansion.GalaxiesStretchColumns | day-11-cosmic-expansion/src/main.rs:27-62 | doubling galaxy-free columns keeps the galaxies in order, each moved right by the doubled columns to its left |
| CosmicExpansion.GalaxiesStretchRows | day-11-cosmic-expansion/src/main.rs:14-62 | doubling galaxy-free rows keeps the galaxies in order, each moved down by the doubled rows above it |
| CosmicExpansion.ExpandGalaxies | day-11-cosmic-expansion/src/main.rs:79-83 | the galaxies of the expanded image are those of the original in the same order, each moved by the empty rows above and the empty columns left of it |
| CosmicExpansion.FindDistancesSum | day-11-cosmic-expansion/src/main.rs:64-77 | one row per galaxy but the last, row i holding one distance per later galaxy, each the Manhattan distance of the pair |
| CosmicExpansion.FindDistancesSumSets | day-11-cosmic-expansion/src/main.rs:117-151 | the same shape, each distance grown by factor minus one per expanded row and column strictly between the pair |
| CosmicExpansion.FactorOne | day-11-cosmic-expansion/src/main.rs:117-151 | with factor 1 the table is the plain distance table |
| CosmicExpansion.ShiftedPair | day-11-cosmic-expansion/src/main.rs:117-151 | the distance of two shifted galaxies is the original distance plus the expanded rows and columns between them |
| CosmicExpansion.SetsMatchExpanded | day-11-cosmic-expansion/src/main.rs:64-151 | with factor 2 the table from the sets equals the distance table of the literally expanded image |
| CosmicExpansion.SumsMatchExpanded | day-11-cosmic-expansion/src/main.rs:64-172 | hence both answers give the same total |
| HotSprings.ParseLine | day-12-hot-springs/src/main.rs:124-136 | a string parses exactly when every character is one of "#", "." and "?"; printing the parsed row gives the string back. The source panics on any other character |
| HotSprings.ParseLineToString | day-12-hot-springs/src/main.rs:124-168 | parsing the printed row gives the row back, so `parse_line` and `line_to_string` are inverse |
| HotSprings.ParseLineExample | day-12-hot-springs/src/main.rs:207-223 | the parse test: "#.#.??#" gives damaged, operational, damaged, operational, unknown, unknown, damaged |
| HotSprings.MultiplyLine | day-12-hot-springs/src/main.rs:138-148 | five copies of the row joined by four unknown springs: adding one more unknown gives five copies of the row followed by an unknown; the length is 5n + 4 |
| HotSprings.MultiplyGroup | day-12-hot-springs/src/main.rs:150-157 | five copies of the sizes one after the other; the length is 5k |
| HotSprings.MultiplyGroupExample | day-12-hot-springs/src/main.rs:271-275 | [1, 2] unfolds to [1, 2] five times |
| HotSprings.MultiplyLineExample | day-12-hot-springs/src/main.rs:277-285 | "???.###" unfolds to "???.###????.###????.###????.###????.###" |
| HotSprings.CompletionsFill | day-12-hot-springs/src/main.rs:77-117 | trying every unknown spring as damaged and as operational reaches exactly the rows of the same length that keep every known spring and leave nothing unknown |
| HotSprings.CompletionsDistinct | day-12-hot-springs/src/main.rs:77-117 | no filled-in row is reached twice |
| HotSprings.ArrangementsAreWays | day-12-hot-springs/src/main.rs:10-122 | with positive sizes, the search without its cache counts exactly the filled-in rows of the rest of the line whose damaged runs, after the open run, are the sizes not yet closed |
| HotSprings.KnownAtMostOne | day-12-hot-springs/src/main.rs:35-76 | a row with no unknown spring has at most one arrangement, because only the unknown branch adds two counts |
| HotSprings.KnownCount | day-12-hot-springs/src/main.rs:18-76 | with positive sizes, a row with no unknown spring counts 1 exactly when its own damaged runs are the sizes, and 0 otherwise |
| HotSprings.CountArrangementsLine | day-12-hot-springs/src/main.rs:10-122 | the cached search returns the count of the search without the cache; the row comes back unchanged; every count left in the cache equals the uncached search from its key (spring, group, run size) |
| HotSprings.CountUnknown | day-12-hot-springs/src/main.rs:77-117 | the unknown branch adds the count with the spring damaged to the count with it operational, then sets it back to unknown |
| HotSprings.CountArrangements | day-12-hot-springs/src/main.rs:188-189 | the search from spring 0, group 0, run 0 with an empty cache: with positive sizes, the number of ways to fill in the unknown springs so that the damaged runs are the sizes in order |
| HotSprings.ArrangementsExample1 | day-12-hot-springs/src/main.rs:227-232 | "#.#.###" with sizes 1, 1, 3 has 1 arrangement |
| HotSprings.ArrangementsExample2 | day-12-hot-springs/src/main.rs:234-238 | "???.###" with sizes 1, 1, 3 has 1 arrangement |
| HotSprings.ArrangementsExample3 | day-12-hot-springs/src/main.rs:240-244 | ".??..#....###." with sizes 1, 1, 3 has 2 |
| HotSprings.ArrangementsExample4 | day-12-hot-springs/src/main.rs:246-250 | ".??..??...?##." with sizes 1, 1, 3 has 4 |
| HotSprings.ArrangementsExample5 | day-12-hot-springs/src/main.rs:252-256 | "?#?#?#?#?#?#?#?" with sizes 1, 3, 1, 6 has 1 |
| HotSprings.ArrangementsExample6 | day-12-hot-springs/src/main.rs:258-262 | "?###????????" with sizes 3, 2, 1 has 10 |
| HotSprings.ArrangementsExample7 | day-12-hot-springs/src/main.rs:264-268 | ".##.?#??.#.?#" with sizes 2, 1, 1, 1 has 1 |
| PointOfIncidence.ParseLine | day-13-point-of-incidence/src/main.rs:12-21 | a row parses exactly when every character is "." or "#", and drawing the parsed row gives the string back; any other character is the parse error |
| PointOfIncidence.ParseFormatLine | day-13-point-of-incidence/src/main.rs:12-21 | drawing a row and parsing the drawing gives the row back |
| PointOfIncidence.ParseLines | day-13-point-of-incidence/src/main.rs:23-28 | the pattern parses exactly when every line does, one row per line, each the parse of its line |
| PointOfIncidence.ParsePattern | day-13-point-of-incidence/src/main.rs:23-28 | `parse_pattern` is an error exactly when some line of the text is, and otherwise has one row per line |
| PointOfIncidence.ParseFormatPattern | day-13-point-of-incidence/src/main.rs:12-28 | every pattern is read back from its drawing, one line per row |
| PointOfIncidence.TransposeTwice | day-13-point-of-incidence/src/main.rs:30-40 | transposing a rectangular pattern twice gives it back |
| PointOfIncidence.Transpose | day-13-point-of-incidence/src/main.rs:30-40 | the loops build the transposed table, cell (j, i) holding cell (i, j), with `pattern[0].len()` rows all of `pattern.len()` cells |
| PointOfIncidence.TransposeExample | day-13-point-of-incidence/src/main.rs:147-161 | the transpose test: the 3 by 2 pattern becomes the 2 by 3 one |
| PointOfIncidence.RowDiffZero | day-13-point-of-incidence/src/main.rs:54-58 | two rows with no differing cell among those compared are equal on those cells |
| PointOfIncidence.MismatchesZero | day-13-point-of-incidence/src/main.rs:42-68 | a mismatch count of 0 about a gap means every row above equals the row as far below, as far as both sides reach |
| PointOfIncidence.CheckExpand | day-13-point-of-incidence/src/main.rs:42-68 | within the threshold, the returned count is every mismatch of the whole reflection; above it, the whole reflection has more than the threshold too, so the count equals the threshold exactly when the reflection's does |
| PointOfIncidence.MiddleIndex | day-13-point-of-incidence/src/main.rs:70-89 | every row has a place in the middle-out order, so the order covers all rows |
| PointOfIncidence.MiddleOutInjective | day-13-point-of-incidence/src/main.rs:70-89 | no two places of the order name the same row, so the order is a permutation of the rows |
| PointOfIncidence.MiddleOutOrder | day-13-point-of-incidence/src/main.rs:70-89 | rows come by distance from the middle row, the one below before the one above |
| PointOfIncidence.GetIndexesFromMiddle | day-13-point-of-incidence/src/main.rs:70-89 | given at least one row, returns `length` rows in middle-out order: first `length / 2`, then one below and one above at each distance |
| PointOfIncidence.IndexesExamples | day-13-point-of-incidence/src/main.rs:141-145 | 5 rows give 2, 1, 3, 0, 4 and 6 rows give 3, 2, 4, 1, 5, 0 |
| PointOfIncidence.GetMirror | day-13-point-of-incidence/src/main.rs:91-104 | the result is below the row count; a positive result r has a line after row r - 1 with exactly the threshold of mismatches, and no line earlier in middle-out order has; 0 means no line has |
| PointOfIncidence.ReflectsPerfect | day-13-point-of-incidence/src/main.rs:91-104 | with threshold 0, a line of reflection is a perfect mirror |
| ReflectorDish.ParseRow | day-14-parabolic-reflector-dish/src/main.rs:151-166 | a row parses exactly when every character is 'O', '#' or '.', and drawing the parsed row gives the string back; any other character is the parse error the source panics on |
| ReflectorDish.ParseFormatRow | day-14-parabolic-reflector-dish/src/main.rs:134-166 | drawing a row and parsing the drawing gives the row back |
| ReflectorDish.Parse | day-14-parabolic-reflector-dish/src/main.rs:151-166 | `parse` succeeds exactly when every character of every line is 'O', '#' or '.'; it then gives one row per line, each drawing as its line |
| ReflectorDish.ParseToString | day-14-parabolic-reflector-dish/src/main.rs:134-166 | `parse(to_string(p))` is `p` for every platform |
| ReflectorDish.Transpose | day-14-parabolic-reflector-dish/src/main.rs:43-55 | `transpose` of a rectangular platform with n rows of m cells is rectangular with m rows of n cells |
| ReflectorDish.Mirror | day-14-parabolic-reflector-dish/src/main.rs:57-69 | `mirror` keeps the shape of a rectangular platform |
| ReflectorDish.TransposeTwice | day-14-parabolic-reflector-dish/src/main.rs:43-55 | transposing twice gives the platform back |
| ReflectorDish.MirrorTwice | day-14-parabolic-reflector-dish/src/main.rs:57-69 | mirroring twice gives the platform back |
| ReflectorDish.EastTwice | day-14-parabolic-reflector-dish/src/main.rs:43-69 | `transpose(mirror(.))` applied twice gives the platform back, whatever its shape |
| ReflectorDish.TransformTwice | day-14-parabolic-reflector-dish/src/main.rs:71-78 | `transform_to_north` applied twice with the same direction gives the platform back, for all four directions, as the transform test checks |
| ReflectorDish.TransposeRounds | day-14-parabolic-reflector-dish/src/main.rs:43-55 | transposing keeps the number of round rocks |
| ReflectorDish.MirrorRounds | day-14-parabolic-reflector-dish/src/main.rs:57-69 | mirroring keeps the number of round rocks |
| ReflectorDish.TransformRounds | day-14-parabolic-reflector-dish/src/main.rs:71-78 | turning to north keeps the number of round rocks, for every direction |
| ReflectorDish.TransformSquares | day-14-parabolic-reflector-dish/src/main.rs:71-78 | two platforms with their square rocks in the same cells still have them in the same cells after the same turn |
| ReflectorDish.Land | day-14-parabolic-reflector-dish/src/main.rs:80-103 | `new_position[i][j]` lies between -1 and i, is at least 0 under a rock, and is i under a square rock |
| ReflectorDish.LandMonotone | day-14-parabolic-reflector-dish/src/main.rs:93-103 | down a column `new_position` never decreases |
| ReflectorDish.LandStrict | day-14-parabolic-reflector-dish/src/main.rs:93-103 | each rock's new row is below the new row of every rock above it, so no two rocks share a cell |
| ReflectorDish.LandBelowSquare | day-14-parabolic-reflector-dish/src/main.rs:93-103 | no rock's new row is above a square rock it started below |
| ReflectorDish.PlaceTop | day-14-parabolic-reflector-dish/src/main.rs:104-114 | the placing loop writes each rock into a cell still empty, every cell below the last written one being empty |
| ReflectorDish.PlaceSquares | day-14-parabolic-reflector-dish/src/main.rs:104-114 | the placing loop leaves every square rock in its cell and writes no round rock over one |
| ReflectorDish.PlaceSettled | day-14-parabolic-reflector-dish/src/main.rs:104-114 | after every step of the placing loop no round rock has an empty cell north of it |
| ReflectorDish.PlaceWeigh | day-14-parabolic-reflector-dish/src/main.rs:104-114 | for any weight an empty cell does not count under, the placed column weighs what the rocks weigh at their new rows |
| ReflectorDish.SettledLand | day-14-parabolic-reflector-dish/src/main.rs:93-103 | in a column where no round rock has an empty cell north of it, every rock's new row is its own row |
| ReflectorDish.SettledFixed | day-14-parabolic-reflector-dish/src/main.rs:80-117 | tilting a settled column changes nothing |
| ReflectorDish.TiltColumnFacts | day-14-parabolic-reflector-dish/src/main.rs:80-117 | tilting a column north keeps its length, every square rock and the number of round rocks, leaves it settled, and changes nothing a second time |
| ReflectorDish.TiltNorth | day-14-parabolic-reflector-dish/src/main.rs:80-117 | the north tilt keeps the shape of the platform |
| ReflectorDish.TiltNorthSquares | day-14-parabolic-reflector-dish/src/main.rs:80-117 | the north tilt leaves every square rock where it is and puts none anywhere else |
| ReflectorDish.TiltNorthSettled | day-14-parabolic-reflector-dish/src/main.rs:80-117 | after the north tilt no round rock has an empty cell directly north of it |
| ReflectorDish.TiltNorthRounds | day-14-parabolic-reflector-dish/src/main.rs:80-117 | the north tilt keeps the number of round rocks |
| ReflectorDish.TiltNorthTwice | day-14-parabolic-reflector-dish/src/main.rs:80-117 | tilting north a second time changes nothing |
| ReflectorDish.TiltPlatformFacts | day-14-parabolic-reflector-dish/src/main.rs:80-117 | `tilt_platform` in any direction keeps the shape, every square rock and the number of round rocks, and tilting again the same way changes nothing |
| ReflectorDish.TiltAllFacts | day-14-parabolic-reflector-dish/src/main.rs:119-132 | any sequence of tilts keeps the shape, every square rock and the number of round rocks |
| ReflectorDish.CyclePlatform | day-14-parabolic-reflector-dish/src/main.rs:119-132 | `cycle_platform` is the north, west, south and east tilts in that order, and keeps the shape, every square rock and the number of round rocks |
| ReflectorDish.TiltedLoad | day-14-parabolic-reflector-dish/src/main.rs:80-180 | `calculate_load` of the north-tilted platform is the sum over round rocks of the row count minus the row each comes to rest in |
| ReflectorDish.TiltNeverLighter | day-14-parabolic-reflector-dish/src/main.rs:168-180 | tilting north never lowers `calculate_load` |
| ReflectorDish.ParseIsTiles | day-14-parabolic-reflector-dish/src/main.rs:151-166 | where `parse` succeeds, its platform is the tiles `calculate_load_1` reads from the same text |
| ReflectorDish.TopStep | day-14-parabolic-reflector-dish/src/main.rs:8-19 | how `previous_tilt[j]` moves past a row for 'O', '#' and any other character, and the load an 'O' adds |
| ReflectorDish.ScanRow | day-14-parabolic-reflector-dish/src/main.rs:8-22 | one row of the loop: afterwards `previous_tilt[j]` is the new row of the last rock of column j so far, and the load added is that of the row's round rocks at rest |
| ReflectorDish.LoadOfRows | day-14-parabolic-reflector-dish/src/main.rs:3-25 | the loop over the lines adds up the load of every round rock at the row it comes to rest in |
| ReflectorDish.RestingIsTilted | day-14-parabolic-reflector-dish/src/main.rs:3-180 | for a text `parse` accepts with rows of one width, that sum is `calculate_load` of the north-tilted platform |
| ReflectorDish.CalculateLoad1 | day-14-parabolic-reflector-dish/src/main.rs:3-26 | `calculate_load_1` equals `calculate_load(tilt_platform(parse(s), North))` whenever `parse` accepts the text and its rows have one width |
| LensLibrary.Hash | day-15-lens-library/src/main.rs:3-13 | the HASH of any text is below 256, so it always names one of the boxes |
| LensLibrary.HashLoop | day-15-lens-library/src/main.rs:3-13 | the `u32` loop never overflows and computes the HASH: each character added, times 17, modulo 256 |
| LensLibrary.HashOfHash | day-15-lens-library/src/main.rs:137-142 | `hash("HASH")` is 52 |
| LensLibrary.HashOfPut | day-15-lens-library/src/main.rs:137-142 | `hash("rn=1")` is 30 |
| LensLibrary.HashOfRemove | day-15-lens-library/src/main.rs:137-142 | `hash("cm-")` is 253 |
| LensLibrary.FindLabel | day-15-lens-library/src/main.rs:31-49 | the loops of `add_lens` and `remove_lens` stop at the first lens with the label, and find none exactly when the box has no such lens |
| LensLibrary.AddLens | day-15-lens-library/src/main.rs:31-40 | an existing label keeps its slot and takes the new focal length; a new label goes to the back; the box then reports the new focal length for that label and the old one for every other; labels stay unique |
| LensLibrary.AddAt | day-15-lens-library/src/main.rs:31-37 | with a lens of that label at its first position `i`, the box is the old one with slot `i` replaced |
| LensLibrary.RemoveLens | day-15-lens-library/src/main.rs:42-49 | the first lens with the label is taken out and the rest keep their order; with none the box is unchanged; other labels keep their focal lengths; a box of unique labels then lacks the label |
| LensLibrary.RemoveAt | day-15-lens-library/src/main.rs:42-49 | with the first lens of that label at `i`, the box is the old one without slot `i` |
| LensLibrary.NewBoxes | day-15-lens-library/src/main.rs:77-85 | `Boxes::new` makes exactly 256 boxes, all empty |
| LensLibrary.Apply | day-15-lens-library/src/main.rs:87-100 | a step changes only the box its label hashes to |
| LensLibrary.ApplySorted | day-15-lens-library/src/main.rs:87-100 | after a step every box still holds only labels that hash to it, each at most once |
| LensLibrary.ApplyAllLookup | day-15-lens-library/src/main.rs:121-126 | after any run of steps the focal length the boxes hold for a label is the one its last step set, or none after a removal |
| LensLibrary.ApplyAllBox | day-15-lens-library/src/main.rs:121-126 | box `k` after a run of steps is what the steps whose label hashes to `k` make of it alone |
| LensLibrary.ApplyAllSorted | day-15-lens-library/src/main.rs:121-126 | a run of steps from sorted boxes leaves them sorted |
| LensLibrary.FocusingPower | day-15-lens-library/src/main.rs:102-111 | the power is the sum over all boxes and slots of box number times slot number times focal length, numbered from 1, and 0 for empty boxes |
| LensLibrary.ParseOperation | day-15-lens-library/src/main.rs:62-73 | text without '=' is read as a removal exactly when it ends in '-', of the label before it; text with '=' is read, if at all, as a put of a label without '=' that the text starts with, and a focal length that fits a `u8` |
| LensLibrary.ParseFormatOperation | day-15-lens-library/src/main.rs:62-73 | reading a step written as `label=f` or `label-` gives the step back, for labels without '=' and focal lengths up to 255 |
| LensLibrary.FocusingPowerExample | day-15-lens-library/src/main.rs:144-158 | the example steps `rn=1,cm-,qp=3,cm=2,qp-,pc=4,ot=9,ab=5,pc-,pc=6,ot=7` on new boxes give a focusing power of 145 |
| FloorLava.NextCoord | day-16-the-floor-will-be-lava/src/main.rs:21-28 | `next_coord` moves exactly one cell, by the direction's offset, and a step in the opposite direction leads back |
| FloorLava.NextDirections | day-16-the-floor-will-be-lava/src/main.rs:30-48 | `next_direction` gives two directions exactly when a splitter is met on its flat side, and then the two are opposite and across the beam; a '/' mirror turns the step (a, b) into (-b, -a), a '\' mirror into (b, a), and every other tile lets the beam through |
| FloorLava.DirectionIndex | day-16-the-floor-will-be-lava/src/main.rs:75-79 | `Into<usize>` gives each direction its discriminant, below 4, in declaration order |
| FloorLava.FromIndex | day-16-the-floor-will-be-lava/src/main.rs:63-74 | `From<usize>` inverts `Into<usize>` on 0 to 3, and it is the only direction with that discriminant |
| FloorLava.Parse | day-16-the-floor-will-be-lava/src/main.rs:95-111 | `Tile::parse` succeeds exactly when every character is a dot, a slash, a backslash, a vertical bar or a dash, with one row per line and each tile of its character's kind with no flag set |
| FloorLava.ParseDrawing | day-16-the-floor-will-be-lava/src/main.rs:95-111 | parsing the drawing of a grid of tile kinds gives back those kinds, with every flag clear |
| FloorLava.ParseUnlit | day-16-the-floor-will-be-lava/src/main.rs:87-92 | every tile `Tile::parse` builds starts with all four flags clear |
| FloorLava.Beam | day-16-the-floor-will-be-lava/src/main.rs:144-164 | `beam` only sets flags and keeps the grid's shape and kinds, sets the flag of its start when the start is inside the grid, and changes nothing when the start is outside or already flagged |
| FloorLava.SpreadHolds | day-16-the-floor-will-be-lava/src/main.rs:160-163 | after the loop over the new directions, the flag of every beam it started inside the grid is set |
| FloorLava.BeamClosed | day-16-the-floor-will-be-lava/src/main.rs:144-164 | every flag a beam sets has the flags of all its next beams inside the grid set too |
| FloorLava.BeamSound | day-16-the-floor-will-be-lava/src/main.rs:144-164 | every flag a beam sets belongs to a beam reached from the start by a route of `next_direction` and `next_coord` steps inside the grid |
| FloorLava.BeamReach | day-16-the-floor-will-be-lava/src/main.rs:144-164 | on a grid with no flag set and a start inside it, `beam` sets exactly the flags of the beams the start reaches |
| FloorLava.EnergizedCountCells | day-16-the-floor-will-be-lava/src/main.rs:166-171 | `energized_count` is the number of cells whose tile is visited |
| FloorLava.VisitedFlag | day-16-the-floor-will-be-lava/src/main.rs:123-125 | `is_visited` holds exactly when the flag of some direction is set |
| FloorLava.EnergizedIsReached | day-16-the-floor-will-be-lava/src/main.rs:144-171 | the energized count after a beam from a start inside an unflagged grid is the number of cells some beam reached from the start is on |
| FloorLava.TileStringAsWrittenTwo | day-16-the-floor-will-be-lava/src/main.rs:127-141 | as written, a tile with two or more flags set is drawn as "2" |
| FloorLava.TileStringAsWrittenThree | day-16-the-floor-will-be-lava/src/main.rs:127-141 | as written, a tile crossed in three directions is drawn as "2" |
| FloorLava.NextDirectionsReversible | day-16-the-floor-will-be-lava/src/main.rs:30-48 | a beam turned by a mirror or passed through a splitter's edge, sent back the way it left, leaves against the way it came |
| FloorLava.TileStringShows | day-16-the-floor-will-be-lava/src/main.rs:127-141 | corrected, a tile is drawn as '.' with no flag, as the direction's arrow with one flag, and as the number of flags set otherwise |
| Lagoon.ParseDirection | day-18-lavaduct-lagoon/src/main.rs:12-20 | `Direction::parse` succeeds exactly on the letters U, R, D and L |
| Lagoon.ParseShow | day-18-lavaduct-lagoon/src/main.rs:12-45 | a text parses to a direction exactly when it is that direction's display |
| Lagoon.ParseCodeDirection | day-18-lavaduct-lagoon/src/main.rs:22-30 | `Direction::parse_2` succeeds exactly on the digits 0 to 3 |
| Lagoon.CodeDigitParses | day-18-lavaduct-lagoon/src/main.rs:22-30 | each direction has exactly one code digit that reads as it: 0 right, 1 down, 2 left, 3 up |
| Lagoon.GetNext | day-18-lavaduct-lagoon/src/main.rs:54-73 | `get_next` moves along one axis only: up and down change `y`, with down increasing it, and left and right change `x`, with right increasing it |
| Lagoon.GetNextBack | day-18-lavaduct-lagoon/src/main.rs:54-73 | moving back the same length the opposite way returns to the start, and two moves in one direction add up |
| Lagoon.ParseLength | day-18-lavaduct-lagoon/src/main.rs:87 | a parsed length lies in the `i64` range |
| Lagoon.ParseStep | day-18-lavaduct-lagoon/src/main.rs:82-89 | `Step::parse` succeeds only when the line has two space-separated pieces, the first a direction letter and the second an `i64`, and the step is made of those |
| Lagoon.ParseHexI64 | day-18-lavaduct-lagoon/src/main.rs:98 | `from_str_radix(_, 16)` gives an `i64`; for a non-empty run of hexadecimal digits it succeeds exactly when the value fits and then gives that value |
| Lagoon.ParseLine | day-18-lavaduct-lagoon/src/main.rs:82-100 | a plan line such as "D 6 (#70c710)" reads as the step of its letter and decimal length under `parse`, and as the step of its colour code under `parse_2` |
| Lagoon.ParseAll | day-18-lavaduct-lagoon/src/main.rs:123-125 | collecting parsed lines succeeds exactly when every line parses, and keeps one step per line in order |
| Lagoon.ParseSteps | day-18-lavaduct-lagoon/src/main.rs:123-125 | `parse_steps` gives the step of each line of the plan, in order, and fails when any line fails |
| Lagoon.GetArea | day-18-lavaduct-lagoon/src/main.rs:103-121 | the area `get_area` reports is at least the one starting block |
| Lagoon.ShoelaceParts | day-18-lavaduct-lagoon/src/main.rs:107-116 | the loop's sum is the plan's twice-signed shoelace area plus the length of the trench |
| Lagoon.GetAreaRotate | day-18-lavaduct-lagoon/src/main.rs:103-121 | for a closed plan, `get_area` does not depend on which step the digging starts with |
| Lagoon.ClockwiseArea | day-18-lavaduct-lagoon/src/main.rs:103-121 | a rectangle `w` wide and `h` high dug clockwise gives (w + 1) times (h + 1) |
| Lagoon.GetAreaClockwise | day-18-lavaduct-lagoon/src/main.rs:103-121 | for a plan whose signed area is not negative, `get_area` is the lagoon size: half the absolute area plus half the trench, plus one |
| Lagoon.CounterClockwiseAsWritten | day-18-lavaduct-lagoon/src/main.rs:113-120 | as written, a counter-clockwise rectangle gives 1 + abs(w + h - w * h), because the trench length cancels against the negative signed area |
| Lagoon.CounterClockwiseSquare | day-18-lavaduct-lagoon/src/main.rs:113-120 | the 2-by-2 square dug counter-clockwise gives 1 instead of 9 |
| Lagoon.LagoonSizeRotate | day-18-lavaduct-lagoon/src/main.rs:103-121 | the corrected lagoon size of a closed plan does not depend on the starting step |
| Lagoon.RectangleArea | day-18-lavaduct-lagoon/src/main.rs:103-121 | the corrected lagoon size of a rectangle is (w + 1) times (h + 1), whichever way it is dug |
| Aplenty.ParseCategory | day-19-aplenty/src/main.rs:17-25 | `Category::parse` succeeds exactly on the letters x, m, a and s |
| Aplenty.ShowCategory | day-19-aplenty/src/main.rs:17-25 | each category's letter parses back to it |
| Aplenty.ParseDestination | day-19-aplenty/src/main.rs:35-41 | "A" accepts and only "A" does, "R" rejects and only "R" does, and any other text names the workflow with that text |
| Aplenty.ShowDestination | day-19-aplenty/src/main.rs:35-41 | a destination whose workflow name is not "A" or "R" reads back from its text |
| Aplenty.RuleOrder | day-19-aplenty/src/main.rs:55-63 | a rule is "<" when its text holds "<", otherwise ">" when it holds ">", and otherwise it panics |
| Aplenty.ParseLimit | day-19-aplenty/src/main.rs:67-69 | the text after the sign gives a rule with the given category and order and an `i64` threshold |
| Aplenty.ParseRule | day-19-aplenty/src/main.rs:52-77 | a parsed rule has the order the text's sign shows and an `i64` threshold |
| Aplenty.RuleFree | day-19-aplenty/src/main.rs:52-77 | a well-formed rule's text holds no comma and not the other comparison sign |
| Aplenty.OrderParses | day-19-aplenty/src/main.rs:55-63 | the sign of a displayed rule is found again |
| Aplenty.LimitParses | day-19-aplenty/src/main.rs:67-69 | the threshold and destination text of a rule reads back as that rule |
| Aplenty.RuleSplits | day-19-aplenty/src/main.rs:57-65 | a displayed rule splits at its sign into the category letter and the rest |
| Aplenty.RuleParses | day-19-aplenty/src/main.rs:52-77 | every rule with an `i64` threshold and a printable destination parses back from its text |
| Aplenty.ParseWorkflow | day-19-aplenty/src/main.rs:123-131 | `Workflow::parse` makes a rule of every comma-separated piece but the last, and the last piece is the final destination |
| Aplenty.ParseRules | day-19-aplenty/src/main.rs:128 | the rules parse exactly when every piece parses, one rule per piece in order |
| Aplenty.CollectRules | day-19-aplenty/src/main.rs:128 | collecting succeeds exactly when every element is present, and keeps them in order |
| Aplenty.RulesParse | day-19-aplenty/src/main.rs:128 | the texts of well-formed rules parse back to those rules |
| Aplenty.WorkflowParses | day-19-aplenty/src/main.rs:123-131 | every well-formed workflow parses back from its comma-joined text |
| Aplenty.ParseValue | day-19-aplenty/src/main.rs:259-261 | a parsed rating had the category's prefix and lies in the `i64` range |
| Aplenty.ParsePart | day-19-aplenty/src/main.rs:263-273 | a parsed part has four `i64` ratings |
| Aplenty.ValueParses | day-19-aplenty/src/main.rs:259-261 | the prefix followed by an `i64` in decimal reads back as that number |
| Aplenty.FieldsParse | day-19-aplenty/src/main.rs:265-272 | the four fields of a part, x, m, a, s in that order, read back as the part |
| Aplenty.FieldsSplit | day-19-aplenty/src/main.rs:265 | the comma-joined fields split back into the fields |
| Aplenty.Braces | day-19-aplenty/src/main.rs:264-265 | stripping the braces leaves exactly the text between them |
| Aplenty.PartParses | day-19-aplenty/src/main.rs:263-273 | every part with `i64` ratings parses back from "{x=..,m=..,a=..,s=..}" |
| Aplenty.RouteFirst | day-19-aplenty/src/main.rs:133-141 | from rule `k` on, a part goes where the first rule it satisfies sends it, and to the final destination when it satisfies none |
| Aplenty.ProcessPartFirst | day-19-aplenty/src/main.rs:79-91 | `process_part` returns the destination of the first rule whose comparison the part's rating passes strictly, or the final destination |
| Aplenty.SplitAt | day-19-aplenty/src/main.rs:291-304 | `Interval::split` gives the values up to `mid` and the values above it, each `None` exactly when empty, the two sizes adding up to the whole, and non-empty intervals stay non-empty |
| Aplenty.SplitExamples | day-19-aplenty/src/main.rs:353-375 | the five cases of the `split` unit test |
| Aplenty.ValuesCount | day-19-aplenty/src/main.rs:306-308 | `values` is the number of members of an interval that is not reversed by more than one |
| Aplenty.NewIntervalPart | day-19-aplenty/src/main.rs:313-323 | `new_interval_part` copies the box, sets the category's interval and leaves every other category as it was |
| Aplenty.SplitInterval | day-19-aplenty/src/main.rs:93-114 | both sub-boxes keep the box's categories and change only the rule's category |
| Aplenty.SplitIntervalSound | day-19-aplenty/src/main.rs:93-114 | the accepted sub-box holds exactly the parts of the box that satisfy the rule, and the rejected one exactly those that do not |
| Aplenty.ReplaceInBox | day-19-aplenty/src/main.rs:313-323 | a part lies in the box with one interval replaced exactly when its rating lies in the new interval and the rest of the box holds it |
| Aplenty.VolumeFactors | day-19-aplenty/src/main.rs:237-247 | a box's combinations are one category's size times the product of the other three |
| Aplenty.SplitIntervalVolume | day-19-aplenty/src/main.rs:93-114 | the two sub-boxes of a full box are full and their combinations add up to the box's |
| Aplenty.SideVolume | day-19-aplenty/src/main.rs:313-323 | a sub-box made by replacing one interval holds that interval's size times the other three |
| Aplenty.Taken | day-19-aplenty/src/main.rs:153-155 | a rule adds at most one piece |
| Aplenty.PiecesStep | day-19-aplenty/src/main.rs:150-163 | one pass of the loop: the rule's accepted piece, then the pieces of the rejected rest, or nothing more when nothing is rejected |
| Aplenty.PiecesTotal | day-19-aplenty/src/main.rs:143-170 | the loop panics only when a rule's category is missing from the box, and every piece keeps the box's categories |
| Aplenty.PiecesWithin | day-19-aplenty/src/main.rs:143-170 | every piece lies inside the box, and a part in a piece goes where that piece says |
| Aplenty.PiecesCover | day-19-aplenty/src/main.rs:143-170 | every part of the box lies in some piece |
| Aplenty.PiecesDisjoint | day-19-aplenty/src/main.rs:143-170 | no part lies in two pieces |
| Aplenty.ProcessIntervalPartition | day-19-aplenty/src/main.rs:143-170 | `process_interval` splits a full box into full pieces that partition it, each sending its parts where `process_part` sends them |
| Aplenty.CombinationsAppend | day-19-aplenty/src/main.rs:237-247 | the combinations of two lists of boxes add up |
| Aplenty.PiecesVolume | day-19-aplenty/src/main.rs:143-170 | the pieces of a full box hold as many combinations as the box |
| Aplenty.PiecesAppend | day-19-aplenty/src/main.rs:237-247 | the combinations of two lists of pieces add up |
| Aplenty.TakenVolume | day-19-aplenty/src/main.rs:153-155 | the piece a rule adds holds as many combinations as its accepted sub-box |
| Aplenty.ProcessIntervalVolume | day-19-aplenty/src/main.rs:143-170 | over a whole workflow, the pieces `process_interval` makes of a full box hold as many combinations as the box |
| PulseNetwork.Send | day-20-pulse-propagation/src/main.rs:38-47 | `send` makes one signal per receiver, in receiver order, each from the sender and carrying the given pulse |
| PulseNetwork.Verdict | day-20-pulse-propagation/src/main.rs:132-140 | a conjunction sends low exactly when every remembered pulse is high |
| PulseNetwork.Process | day-20-pulse-propagation/src/main.rs:64-148 | `process` keeps the module's name, receivers and kind; a broadcaster forwards the pulse; a flip-flop ignores high, and on low it toggles and sends high exactly when it is now on; a conjunction records the sender's pulse and sends low exactly when all it remembers is high; every answer goes to all receivers with one pulse |
| PulseNetwork.FeedFlipFlop | day-20-pulse-propagation/src/main.rs:89-105 | feeding `n` low pulses to a flip-flop gives one answer per pulse |
| PulseNetwork.FlipFlopAlternates | day-20-pulse-propagation/src/main.rs:89-105 | after `n` low pulses a flip-flop has toggled `n` times, and its answers alternate between high and low, starting with high when it starts off |
| PulseNetwork.FeedConjunction | day-20-pulse-propagation/src/main.rs:127-143 | a conjunction stays a conjunction whatever it is fed |
| PulseNetwork.ConjunctionRemembers | day-20-pulse-propagation/src/main.rs:127-143 | a conjunction remembers the last pulse each input sent it and otherwise what it remembered before, and it learns of exactly the inputs that sent it something |
| PulseNetwork.FeedLast | day-20-pulse-propagation/src/main.rs:127-143 | feeding a list of signals is feeding all but the last, then the last |
| PulseNetwork.Declaration | day-20-pulse-propagation/src/main.rs:173-182 | a line declares a flip-flop or a conjunction, with no receivers, a flip-flop off and a conjunction remembering nothing |
| PulseNetwork.LastDeclared | day-20-pulse-propagation/src/main.rs:172-183 | the last declaration of a name has that name, no receivers, and is a flip-flop that is off or a conjunction that remembers nothing |
| PulseNetwork.DeclareAllSpec | day-20-pulse-propagation/src/main.rs:161-183 | after the first loop the modules are the broadcaster and the declared names, each holding the module of the last line declaring it |
| PulseNetwork.CollectWires | day-20-pulse-propagation/src/main.rs:185-192 | collecting succeeds exactly when every element is present, and keeps them in order |
| PulseNetwork.ParseWires | day-20-pulse-propagation/src/main.rs:185-192 | reading the wiring succeeds exactly when every line reads, one wire per line in order |
| PulseNetwork.Connect | day-20-pulse-propagation/src/main.rs:193-212 | wiring one receiver adds no module and removes none |
| PulseNetwork.ConnectSpec | day-20-pulse-propagation/src/main.rs:193-212 | one receiver keeps every module's kind and state, appends the receiver to the source's receivers, and makes a conjunction receiver remember a low pulse from the source |
| PulseNetwork.ConnectAll | day-20-pulse-propagation/src/main.rs:192-213 | wiring one line adds no module and removes none |
| PulseNetwork.WireAll | day-20-pulse-propagation/src/main.rs:185-214 | the second loop adds no module and removes none |
| PulseNetwork.ConnectAllSpec | day-20-pulse-propagation/src/main.rs:192-213 | wiring one line keeps every module's kind and state, gives the source the line's receivers in order, and makes a conjunction among them remember a low pulse from the source |
| PulseNetwork.WireAllSpec | day-20-pulse-propagation/src/main.rs:185-214 | after the second loop each module's receivers are the targets of the lines it sources, in line order, and a conjunction remembers a low pulse from exactly the sources of the lines that list it |
| PulseNetwork.NetworkSpec | day-20-pulse-propagation/src/main.rs:161-217 | the network built from declared lines and wiring holds the broadcaster and the declared names, with their receivers and memories as the lines give them |
| PulseNetwork.ParseSpec | day-20-pulse-propagation/src/main.rs:161-217 | `Modules::parse` keeps the broadcaster, declares every module by the last line naming it, with flip-flops off, gives each module the targets of its lines in order, and makes each conjunction remember a low pulse from exactly its inputs |
| PulseNetwork.Initial | day-20-pulse-propagation/src/main.rs:220-223 | the first signals are the broadcaster's low pulse to each receiver, and none when "broadcaster" names a module of another kind |
| PulseNetwork.Deliver | day-20-pulse-propagation/src/main.rs:239-250 | delivering a signal changes only the addressed module, and a signal to a missing name changes nothing and produces nothing |
| PulseNetwork.RunStep | day-20-pulse-propagation/src/main.rs:229-251 | one pass of the loop delivers the front signal and queues its answers at the back |
| PulseNetwork.RunFifo | day-20-pulse-propagation/src/main.rs:229-260 | the queue is first in, first out: the delivered signals followed by those still queued are the first signals followed by every answer, and the loop stops only when the queue is empty or the fuel is spent |
| PulseNetwork.CountBoth | day-20-pulse-propagation/src/main.rs:230-233 | every signal is counted once, as low or as high |
| PulseNetwork.CountAppend | day-20-pulse-propagation/src/main.rs:230-233 | one more signal adds one to the count of its own pulse only |
| PulseNetwork.RxAppend | day-20-pulse-propagation/src/main.rs:235-237 | one more signal reaches "rx" with a low pulse exactly when it is such a signal or an earlier one was |
| PulseNetwork.StartStep | day-20-pulse-propagation/src/main.rs:229-251 | one turn of the loop keeps its counts, its "rx" flag and the run still to come in step with the signals delivered |
| PulseNetwork.Start | day-20-pulse-propagation/src/main.rs:219-254 | `start` runs the delivery loop from the broadcaster's first signals; the low count is one for the button plus the low signals delivered, the high count the high ones, the two together one more than the deliveries, and `sent_to_rx` holds exactly when a low pulse to "rx" was delivered |
| StepCounter.ParseTile | day-21-step-counter/src/main.rs:22-31 | a map character reads exactly when it is '#', '.' or 'S', and it is rock exactly when it is '#' |
| StepCounter.ParseRow | day-21-step-counter/src/main.rs:20-32 | a line reads exactly when each of its characters does, one tile per character |
| StepCounter.ParseRows | day-21-step-counter/src/main.rs:16-34 | the map reads exactly when each line does, one row per line |
| StepCounter.ScanRowSpec | day-21-step-counter/src/main.rs:25-29 | scanning a line from column `j` keeps the start it had when no later column holds 'S', and otherwise records the last 'S' of the line |
| StepCounter.ScanRowsSpec | day-21-step-counter/src/main.rs:16-34 | scanning the lines from row `i` keeps the start it had when no later row holds 'S', and otherwise records the last 'S' in reading order |
| StepCounter.ParseStart | day-21-step-counter/src/main.rs:12-37 | `parse` returns as the start the last 'S' in reading order, or (0, 0) when the map has none |
| StepCounter.DrawRowParses | day-21-step-counter/src/main.rs:20-32 | a drawn row reads back as the row |
| StepCounter.ParseDraw | day-21-step-counter/src/main.rs:12-37 | a map drawn with its start on a plot reads back as the map and that start |
| StepCounter.NeighbourAdjacent | day-21-step-counter/src/main.rs:47 | the four moves (-1, 0), (1, 0), (0, -1), (0, 1) reach exactly the adjacent cells, and adjacency is symmetric |
| StepCounter.Part1 | day-21-step-counter/src/main.rs:39-67 | with 0 steps the queue holds only the start, so `part1` gives 1 |
| StepCounter.Part2 | day-21-step-counter/src/main.rs:69-95 | with 0 steps `part2` gives 1 too |
| StepCounter.WalkAppend | day-21-step-counter/src/main.rs:47-59 | a walk extended by an open neighbour is a walk |
| StepCounter.WalkPrefix | day-21-step-counter/src/main.rs:47-59 | a non-empty prefix of a walk is a walk |
| StepCounter.NextMember | day-21-step-counter/src/main.rs:44-63 | a cell is in the next frontier exactly when it is open and adjacent to a cell of the current one |
| StepCounter.ReachStep | day-21-step-counter/src/main.rs:44-63 | a walk of `n - 1` moves followed by a move to an open neighbour is a walk of `n` moves |
| StepCounter.ReachBack | day-21-step-counter/src/main.rs:44-63 | a walk of `n` moves ends with a move from the end of a walk of `n - 1` moves |
| StepCounter.FrontierReaches | day-21-step-counter/src/main.rs:43-64 | after `n` passes the frontier is exactly the set of cells a walk of exactly `n` moves from the start can end on |
| StepCounter.Part1Counts | day-21-step-counter/src/main.rs:39-67 | `part1(k)` is the number of plots a walk of exactly `k` moves from the start can end on |
| StepCounter.OpenTiled | day-21-step-counter/src/main.rs:50-57 | a cell open in the bounded garden is open in the repeated one |
| StepCounter.BoundedWithinTiled | day-21-step-counter/src/main.rs:39-95 | every cell `part1` counts, `part2` counts too |
| StepCounter.FrontierGrows | day-21-step-counter/src/main.rs:43-64 | from an open start, a cell reachable in `n` moves is reachable in `n + 2`, by stepping back and forth |
| StepCounter.OpenPeriodic | day-21-step-counter/src/main.rs:80-82 | shifting a cell by a whole garden does not change whether it is open in the repeated garden |
| StepCounter.ShiftForward | day-21-step-counter/src/main.rs:73-92 | shifting the start by a whole garden carries every frontier cell along |
| StepCounter.ShiftBackward | day-21-step-counter/src/main.rs:73-92 | a cell whose shift by a whole garden is on the shifted start's frontier is on the frontier of the start itself |
| StepCounter.FrontierPeriodic | day-21-step-counter/src/main.rs:73-92 | shifting the start by a whole garden shifts the repeated garden's frontier by exactly the same amount |
| SandSlabs.ParseBrick | day-22-sand-slabs/src/main.rs:19-49 | a parsed brick carries the id it was given |
| SandSlabs.Collect | day-22-sand-slabs/src/main.rs:178-182 | collecting succeeds exactly when every element is present, and keeps them in order |
| SandSlabs.ParseBricks | day-22-sand-slabs/src/main.rs:178-182 | the input gives one brick per line, each numbered by its line |
| SandSlabs.PointParses | day-22-sand-slabs/src/main.rs:22-27 | a corner with `u64` coordinates, written "x,y,z", reads back as that corner |
| SandSlabs.BrickParses | day-22-sand-slabs/src/main.rs:19-49 | a brick written "x,y,z~x,y,z" reads back as that brick, under any id |
| SandSlabs.LineParses | day-22-sand-slabs/src/main.rs:19-49 | the line of a brick reads back as the brick with its own id |
| SandSlabs.BricksParse | day-22-sand-slabs/src/main.rs:178-182 | bricks written one per line and numbered by line read back as the same bricks |
| SandSlabs.Span | day-22-sand-slabs/src/main.rs:53 | the range `lo..=hi` holds the values from `lo` to `hi` in order, and nothing when `lo > hi` |
| SandSlabs.GetArea | day-22-sand-slabs/src/main.rs:51-77 | `get_area` gives a one-high point per x along x, a one-high point per y along y, and otherwise one point as high as the brick; it panics exactly when such a brick is written top-down |
| SandSlabs.AreaIsFootprint | day-22-sand-slabs/src/main.rs:51-77 | for a straight brick written from its low corner the footprint covers exactly its columns, each once, and each point's height is the brick's height |
| SandSlabs.InsertByZ | day-22-sand-slabs/src/main.rs:92 | insertion adds the brick and keeps every other one |
| SandSlabs.InsertSorted | day-22-sand-slabs/src/main.rs:92 | inserting into a list sorted by bottom height keeps it sorted |
| SandSlabs.SortByZ | day-22-sand-slabs/src/main.rs:92 | the sort returns a permutation of the bricks ordered by bottom height |
| SandSlabs.InsertIds | day-22-sand-slabs/src/main.rs:92 | insertion adds the brick's id and keeps every other id |
| SandSlabs.SortIds | day-22-sand-slabs/src/main.rs:92 | sorting keeps every id, as often as it occurs |
| SandSlabs.RestFrom | day-22-sand-slabs/src/main.rs:100-110 | the footprint loop run from any point keeps what the loop has established |
| SandSlabs.RestStep | day-22-sand-slabs/src/main.rs:101-109 | one turn of the footprint loop, raising the maximum and restarting the set, or adding to it at equal height, keeps what the loop has established |
| SandSlabs.RestSpec | day-22-sand-slabs/src/main.rs:98-110 | the brick rests on the tallest column top under its footprint, or at 0, and the bricks it rests on are exactly those whose top is at that height |
| SandSlabs.Cover | day-22-sand-slabs/src/main.rs:117-119 | after the second footprint loop every column top either belongs to the new brick or is as it was |
| SandSlabs.CoverKeeps | day-22-sand-slabs/src/main.rs:117-119 | a column outside the footprint keeps its top |
| SandSlabs.CoverTops | day-22-sand-slabs/src/main.rs:117-119 | with each column covered once, each footprint column ends at the resting height plus its point's height, owned by the brick |
| SandSlabs.Land | day-22-sand-slabs/src/main.rs:96-119 | landing a brick panics exactly when it rests on a brick missing from `supports`, and otherwise adds the brick to `supports` and `supported_by` |
| SandSlabs.Place | day-22-sand-slabs/src/main.rs:94-120 | placing a brick fails exactly when its footprint panics or landing it does |
| SandSlabs.RestOnStack | day-22-sand-slabs/src/main.rs:98-113 | on a consistent stack every brick the new one rests on is already on the stack |
| SandSlabs.LandFields | day-22-sand-slabs/src/main.rs:96-119 | after landing, the brick's `supported_by` entry is the bricks it rests on, each of those lists it, and every other brick's record is unchanged |
| SandSlabs.LandConsistent | day-22-sand-slabs/src/main.rs:94-120 | landing a brick with a new id on a consistent stack never panics and keeps the stack consistent |
| SandSlabs.PlaceConsistent | day-22-sand-slabs/src/main.rs:94-120 | placing a brick with a new id on a consistent stack fails exactly when its footprint panics, and keeps the stack consistent |
| SandSlabs.SettleConsistent | day-22-sand-slabs/src/main.rs:94-120 | settling bricks with new, pairwise different ids keeps the stack consistent and fails exactly when some footprint panics |
| SandSlabs.FallConsistent | day-22-sand-slabs/src/main.rs:87-127 | bricks with pairwise different ids fall into a consistent stack, and `fall` panics exactly when some brick's footprint does |
| SandSlabs.IndexedIds | day-22-sand-slabs/src/main.rs:180-181 | numbering bricks by position gives each id exactly once |
| SandSlabs.InputFallsConsistent | day-22-sand-slabs/src/main.rs:176-184 | the bricks of a puzzle input fall into a consistent stack, failing exactly when some footprint panics |
| SandSlabs.LandRests | day-22-sand-slabs/src/main.rs:98-115 | a landed brick rests on the tallest column top under it, and its `supported_by` entry is exactly the bricks whose top is at that height |
| SandSlabs.LandCovers | day-22-sand-slabs/src/main.rs:117-119 | each footprint column of a landed brick ends at its resting height plus its point's height, owned by the brick |
| SandSlabs.LandKeeps | day-22-sand-slabs/src/main.rs:117-119 | landing a brick leaves columns outside its footprint as they were |
| SandSlabs.Dissolvable | day-22-sand-slabs/src/main.rs:129-142 | `dissolvable` lists only bricks of the stack; which ones it lists is stated by `DissolvableIffNothingFalls` |
| SandSlabs.Scan | day-22-sand-slabs/src/main.rs:161-169 | the inner loop of `fall_brick` only adds to `fallen`, adds only bricks resting wholly on fallen ones, never shortens the queue, and leaves it as it was when it adds nothing |
| SandSlabs.FallFrom | day-22-sand-slabs/src/main.rs:160-170 | the queue loop only adds to `fallen`, and every brick it adds rests wholly on fallen bricks |
| SandSlabs.FallenRestOnFallen | day-22-sand-slabs/src/main.rs:154-173 | `fall_brick` counts the fallen bricks other than the one taken away, and each of them rested only on fallen bricks |
| SandSlabs.ScanQueues | day-22-sand-slabs/src/main.rs:161-169 | the inner loop only appends to the queue, queues every brick it adds to `fallen`, and queues nothing else |
| SandSlabs.AwaitedStep | day-22-sand-slabs/src/main.rs:160-170 | one turn of the queue loop keeps the invariant that a brick whose supporters have all fallen, but which has not fallen yet, has a supporter still in the queue |
| SandSlabs.FallClosed | day-22-sand-slabs/src/main.rs:160-170 | run to the end from a state with that invariant, the queue loop leaves a set closed under falling |
| SandSlabs.FallenClosed | day-22-sand-slabs/src/main.rs:154-173 | on a consistent stack, every brick that a fallen brick supports and whose supporters have all fallen has fallen too, so the count is the whole chain reaction |
| SandSlabs.ScanLeast | day-22-sand-slabs/src/main.rs:161-169 | the inner loop adds nothing outside a closed set that holds the scanned brick and everything fallen so far |
| SandSlabs.FallLeast | day-22-sand-slabs/src/main.rs:160-170 | the queue loop adds nothing outside a closed set that holds everything fallen or queued so far |
| SandSlabs.FallenLeast | day-22-sand-slabs/src/main.rs:154-173 | on a consistent stack the fallen set lies within every set that holds the brick taken away and is closed under falling, so with `FallenClosed` it is the least such set |
| SandSlabs.ScanQuiet | day-22-sand-slabs/src/main.rs:161-169 | a scan over bricks that all stand changes nothing |
| SandSlabs.ScanCatches | day-22-sand-slabs/src/main.rs:161-169 | a scanned brick all of whose supporters have fallen falls |
| SandSlabs.DissolvableIffNothingFalls | day-22-sand-slabs/src/main.rs:129-173 | on a consistent stack, taking a brick away brings nothing else down exactly when `dissolvable` lists it |
| SandSlabs.DissolvableStands | day-22-sand-slabs/src/main.rs:129-173 | taking a dissolvable brick away brings nothing else down |
| SandSlabs.SupportedFalls | day-22-sand-slabs/src/main.rs:129-173 | on a consistent stack, taking away a brick that is not dissolvable brings something down |
| SandSlabs.ScanTotal | day-22-sand-slabs/src/main.rs:161-169 | on a consistent stack the inner loop never panics and queues only bricks of the stack |
| SandSlabs.FallTotal | day-22-sand-slabs/src/main.rs:160-170 | on a consistent stack the queue loop never panics |
| SandSlabs.FallBrickTotal | day-22-sand-slabs/src/main.rs:154-173 | on a consistent stack `fall_brick` never panics for a brick of the stack and counts fewer bricks than the stack holds |
| SandSlabs.Plus | day-22-sand-slabs/src/main.rs:148 | a sum of two counts is defined exactly when both are, and then adds them |
| SandSlabs.TotalAppend | day-22-sand-slabs/src/main.rs:144-152 | the total over two lists of bricks is the sum of their totals |
| SandSlabs.TotalMoveFront | day-22-sand-slabs/src/main.rs:144-152 | taking one brick out of the order takes exactly its term out of the total |
| SandSlabs.TotalAnyOrder | day-22-sand-slabs/src/main.rs:144-152 | `total_destruction` is the same for every order of the same bricks, so the hash-map order does not matter |
| SandSlabs.Falling | day-22-sand-slabs/src/main.rs:129-142 | the number of bricks that are not dissolvable is at most the number of bricks |
| SandSlabs.FallTerm | day-22-sand-slabs/src/main.rs:144-173 | a brick's term of the total is 0 exactly when it is dissolvable, and at least 1 otherwise |
| SandSlabs.TotalCountsFalling | day-22-sand-slabs/src/main.rs:144-152 | on a consistent stack the total never panics, is at least the number of bricks that are not dissolvable, and is 0 exactly when all are dissolvable |
| LongWalk.GetNext | day-23-a-long-walk/src/main.rs:12-19 | `get_next` moves one cell in the direction's own sense and panics exactly when going north from row 0 or west from column 0 |
| LongWalk.Opposite | day-23-a-long-walk/src/main.rs:21-28 | `opposite` never gives the direction itself |
| LongWalk.OppositeUndoes | day-23-a-long-walk/src/main.rs:12-28 | a step in the opposite direction undoes a step, and the opposite of the opposite is the direction |
| LongWalk.ParseTile | day-23-a-long-walk/src/main.rs:39-49 | `Tile::parse` succeeds exactly on the six map characters, and each tile's character reads back as it |
| LongWalk.Steps | day-23-a-long-walk/src/main.rs:54-68 | the cells one step away in each listed direction, in order; as written one underflow panics the whole list |
| LongWalk.Successors | day-23-a-long-walk/src/main.rs:51-71 | forest lists nothing; a path lists north, south, west and east in that order; a slope lists the cell it points to and, only in part 2, the cell behind it; every listed cell is adjacent; the call panics exactly when one of those steps underflows |
| LongWalk.ParseRow | day-23-a-long-walk/src/main.rs:84-86 | a line reads exactly when each character does, one tile per character |
| LongWalk.ParseRows | day-23-a-long-walk/src/main.rs:81-88 | the map reads exactly when each line does, one row per line |
| LongWalk.ParseHike | day-23-a-long-walk/src/main.rs:80-94 | `Hike::parse` succeeds exactly when the input has a line and every line reads, and gives the tiles with nothing visited in a grid as tall as the map and as wide as its first row |
| LongWalk.DrawRowParses | day-23-a-long-walk/src/main.rs:84-86 | a drawn row reads back as the row |
| LongWalk.ParseDraw | day-23-a-long-walk/src/main.rs:80-94 | a drawn map reads back as its tiles |
| LongWalk.Mark | day-23-a-long-walk/src/main.rs:97-113 | setting `visited[i][j]` changes that mark only |
| LongWalk.UnvisitedUpdate | day-23-a-long-walk/src/main.rs:97-113 | replacing a row of marks changes the unmarked count by the difference of the rows' counts |
| LongWalk.MarkUnvisited | day-23-a-long-walk/src/main.rs:97 | marking an unmarked cell leaves one unmarked cell fewer, so the search terminates |
| LongWalk.MarkSame | day-23-a-long-walk/src/main.rs:113 | unmarking an unmarked cell changes nothing |
| LongWalk.MarkTwice | day-23-a-long-walk/src/main.rs:97-113 | unmarking a cell just marked is the same as unmarking it |
| LongWalk.Backtrack | day-23-a-long-walk/src/main.rs:96-115 | `backtrack` leaves the marks as it found them apart from the cell itself, which ends unmarked, and reports a dead end exactly when it found no step and the cell is not on the last row |
| LongWalk.Explore | day-23-a-long-walk/src/main.rs:103-111 | the successor loop restores the marks and never lowers the best found |
| LongWalk.HikeIsSimplePath | day-23-a-long-walk/src/main.rs:96-115 | a hike ends on the last row, steps from each cell to one of its successors, only on open cells, and never comes back to a cell |
| LongWalk.SimplePathIsHike | day-23-a-long-walk/src/main.rs:96-115 | conversely, every such path is a hike |
| LongWalk.BacktrackLongest | day-23-a-long-walk/src/main.rs:96-115 | what `backtrack` returns is the length of the longest hike from the cell, and it reports a dead end exactly when there is no hike |
| LongWalk.LastRowHikes | day-23-a-long-walk/src/main.rs:98-101 | from a cell on the last row the only hike is the cell itself |
| LongWalk.HikesThrough | day-23-a-long-walk/src/main.rs:103-111 | a hike from a cell before the last row is one step longer than a hike from one of its successors |
| LongWalk.HikeStep | day-23-a-long-walk/src/main.rs:104-106 | the first step of such a hike goes to a successor, and the rest is a hike with the cell marked |
| LongWalk.ExploreLongest | day-23-a-long-walk/src/main.rs:103-111 | the loop finds the longest hike through the successors from `k` on, or keeps `max` when that is longer |
| LongWalk.GuardedAnswers | day-23-a-long-walk/src/main.rs:96-115 | with steps off the map skipped, the search answers from every cell on the map |
| LongWalk.EntrancePanics | day-23-a-long-walk/src/main.rs:122-127 | started as `main` starts it, below the entrance, the search as written panics on the entrance's north step, while the guarded search answers |
| Snowverload.DotNotation | day-25-snowverload/src/main.rs:3-13 | the drawing starts with "graph {" and a newline, and ends with the closing brace |
| Snowverload.EdgesUnlines | day-25-snowverload/src/main.rs:6-10 | the loop writes one newline-terminated drawing line per input line, in order |
| Snowverload.DotLines | day-25-snowverload/src/main.rs:3-13 | read back line by line, the drawing is "graph {", then each input line as a tab, the line with every ": " replaced by " -- {" and a closing brace, then "}" |
| Snowverload.DrawingUnlines | day-25-snowverload/src/main.rs:3-13 | the drawing lines, each newline-terminated, are the drawing followed by one newline |
| Snowverload.EdgeOfAdjacency | day-25-snowverload/src/main.rs:8 | the adjacency line "a: b" is drawn as a tab, `a`, " -- {", `b` and the closing brace |
| Snowverload.Kept | day-25-snowverload/src/main.rs:18-23 | the kept lines are no more than the input lines |
| Snowverload.KeptMembers | day-25-snowverload/src/main.rs:18-23 | a line is kept exactly when it is an input line whose node, the text before the first ": ", is not among the names |
| Snowverload.KeptInOrder | day-25-snowverload/src/main.rs:18-23 | the kept lines keep their input order |
| Snowverload.KeptTextUnlines | day-25-snowverload/src/main.rs:15-26 | the loop writes each kept line followed by a newline |
| Snowverload.RemovedLines | day-25-snowverload/src/main.rs:15-26 | read back line by line, the result of `remove_nodes` is exactly the kept lines, in order |
| Snowverload.KeepAll | day-25-snowverload/src/main.rs:18-23 | with no names every line is kept |
| Snowverload.RemoveNothing | day-25-snowverload/src/main.rs:15-26 | `remove_nodes` with no names returns every line, newline-terminated |
| Snowverload.KeptTwice | day-25-snowverload/src/main.rs:18-23 | keeping twice is keeping once against the union of the names |
| Snowverload.RemoveTwice | day-25-snowverload/src/main.rs:15-26 | removing two sets of nodes one after the other removes their union |
| Snowverload.KeyOf | day-25-snowverload/src/main.rs:19 | the node of "a: b" is `a` when `a` has no ':', and a line without ':' is its own node |

## Left out

- Every `main`: file reading, printing and timing.
- Rust `lines()` also strips a `\r` before each `\n`; `Text.Lines` splits on `\n` only.
- Trebuchet.FindDigit: only ASCII digits count as numerals. The source's `is_numeric` also accepts other Unicode numerals, and `to_digit(10).unwrap()` then panics.
- Trebuchet.FindDigit: the `usize` to `u32` conversion of a word's value is not modelled. Every value passed in is below 10.
- Conundrum.MinimumPowerLeast: `power` multiplies in `u32` and can overflow. The model's power is unbounded.
- Conundrum.ColourOf: a colour is recognised by `contains`, so a word such as "reddish" counts as red. The model keeps this behaviour and does not flag it.
- Scratchcards.WonCards: takes the match count of each card rather than the cards, and does not model the `usize` overflow of very large totals.
- Scratchcards.Points: more than 32 matches would shift a `u32` by 32 or more. This panics in a debug build, so it is a precondition.
- Fertilizer.GetMapping: computes in unbounded integers. The `u64` overflow of the source is modelled separately in `GetMappingAsWritten` and reported under Findings.
- Fertilizer.ExtractPart: the header must be non-empty. Every header the source passes is a fixed non-empty string.
- Races.WinningWays: the source finds the bounds with `f64` square roots, `ceil` and `floor`. The model takes the integer square root instead, which gives the count the source's comment describes. The `i128` arithmetic is unbounded in the model, so `time^2` does not overflow for times near `u64::MAX`.
- Races.SampleRaces: the sample is written with single spaces between numbers. The source's sample has runs of spaces, which `split_ascii_whitespace` reads the same way.
- Day 07 total winnings: `main` sorts the hands and adds up rank times bid in `u64`. The model stops at the order the sort uses.
- CamelCards.Compare: only defined for hands with equally many cards. Every `Hand` has five, and the proofs about `cmp` assume hands built by `Hand::new`.
- CamelCards.TallyOf: the table of counts is a list of (card, count) pairs in first-seen order. The source uses a `HashMap`; its iteration order does not change the number of entries or the largest count.
- Day 08 walk from AAA to ZZZ: it is part of `main` and follows the parsed map and stream, which are modelled.
- Wasteland.Next: an empty instruction list makes `next` index out of bounds and panic, so a non-empty list is a precondition.
- Wasteland.ToMap: the `HashMap` is a Dafny `map`. Iteration order plays no part in the source.
- Mirage.PredictNext: the `i64` arithmetic is unbounded in the model, so an overflow of a difference or a prediction is not modelled.
- PipeMaze.GetNext: the `usize` subtraction `i - 1` or `j - 1` would panic below zero; the model asks that the tile fit its cell.
- PipeMaze.GetNextFromStart: the source calls `get_next` on every in-bounds neighbour, which panics on a tile leading below zero; the model takes that none does as a precondition.
- PipeMaze.Bfs: `ok` is false where the source would panic (a tile that does not fit or leads off the grid). The visited table is a set of cells. The level count is not related to the farthest distance along the loop.
- PipeMaze.InsideSurface: the `u32` count is unbounded in the model; the table of loop flags is a set of cells.
- PipeMaze.DetermineStart: the source indexes `next[0]` and `next[1]` and panics with fewer than two; the model asks for two.
- CosmicExpansion.FindDistancesSum: distances and sums are unbounded, not `usize`; the `len() - 1` loop bound panics on an image without galaxies, so the model asks for one.
- CosmicExpansion.FindDistancesSumSets: the `usize` subtraction `expand_factor - 1` panics at factor 0, so the model asks for a positive factor.
- CosmicExpansion.SetsMatchExpanded: stated for images whose rows all have the width of the first; `expand_columns` cuts longer rows to that width, which the sets do not see.
- CosmicExpansion tests: they read the puzzle's "test" and "test_expanded" files, which are not part of this model.
- HotSprings.CountArrangementsLine: counts are unbounded rather than `u64`, and sizes are unbounded rather than `u32`. The `HashMap` cache is a Dafny `map`.
- HotSprings.CountArrangementsLine: an empty list of sizes makes `groups.len() - 1` underflow, so the model asks for at least one size.
- HotSprings.ArrangementsAreWays: stated for positive sizes only. A size of 0 is never a run, and the search then counts differently from the filled-in rows.
- HotSprings.CountArrangementsLine: the source reads "the previous spring is damaged" from the row; the model asks that this holds exactly when a run is open, which every call from spring 0 keeps.
- Day 12 input lines: splitting a line into the row and its comma-separated sizes is part of `main`.
- PointOfIncidence.Transpose: `pattern[0]` panics on an empty pattern and a row longer than the first writes outside the table, so the model asks for neither.
- PointOfIncidence.CheckExpand: the rows compared must be no shorter than the first, or the indexing panics. Above the threshold the exact count is not stated, only that it is over the threshold; `get_mirror` only compares it with the threshold.
- PointOfIncidence.GetIndexesFromMiddle: 0 rows makes the loop run forever, so at least one row is a precondition.
- PointOfIncidence.GetMirror: the empty pattern reaches that loop, so it is excluded too.
- Day 13 `main` and the `get_mirror` tests: splitting the input at blank lines and scoring rows times 100 plus columns are part of `main`; the tests read pattern files that are not part of this model.
- ReflectorDish.Transpose: a platform with no rows, an empty first row or a row shorter than the first panics in the source's indexing; a row longer than the first is cut to its width. The model asks for a rectangular platform with at least one row and column, here and in every transform and tilt.
- ReflectorDish.TiltNorth: the source fills `new_position` row by row over all columns; the model computes it column by column. Each column depends only on itself, so the result is the same.
- ReflectorDish.CalculateLoad1: empty text makes `rows[0]` panic and a line longer than the first indexes past `previous_tilt`, so both are preconditions. The load is unbounded rather than `usize`.
- Day 14 billion-cycle search: the loop in `main` that spins the platform until a drawing repeats, then finishes the remaining cycles, is not modelled. One cycle is.
- Day 14 tests: they read the puzzle's "test" files, which are not part of this model.
- LensLibrary.FocusingPower: the power is unbounded rather than a `usize` cast to `u64`.
- LensLibrary.ParseOperation: `unwrap` on a missing '-' or a bad number panics; the model gives `None`. Text after a second '=' is ignored, as in the source. The contract pins the label of a put; its focal length is stated through the round trip with `FormatOperation`.
- Day 15 focal lengths: they are naturals; only `ParseOperation` bounds them by 255, as `u8` parsing does.
- Day 15 `main`: the comma split of the input and the sum of the hashes of its parts are not modelled; the run of steps is `ApplyAll`.
- CrucibleSearch.MinHeatLoss: a map row shorter than the first panics when the search indexes it, so every row must be at least as wide as the first. Longer rows are read only up to the first row's width, as in the source; the same holds for `MinHeatLossWorking`.
- Day 15 tests: `test_focusing_power` reads `test.txt`, which is not part of this model; `FocusingPowerExample` uses the puzzle's published example sequence instead.
- FloorLava.Beam: the grid must have rows of equal width and four flags per tile. `beam` measures every row by the first, so a shorter later row would panic on indexing. The recursion depth of the source is not modelled.
- FloorLava.Beam: the `i64` coordinates and their `usize` casts are unbounded integers; a coordinate below zero is out of bounds, as the source's sign test makes it.
- FloorLava.Parse: an unknown character panics in the source; the model gives `None`.
- FloorLava.TileStringAsWritten: a string `parse::<usize>` rejects would panic; the model gives `None`. No input reaches that branch.
- Day 16 `tiles_to_string`: it joins `to_string` over the grid for debug printing, used only in a commented-out line, and is not modelled.
- Day 16 `main`: the search over all edge starts for the largest energized count is not modelled. Its last block beams into `up_start` and then counts `down_start`, which is never beamed into; that mistake lies in `main` and is not modelled either.
- Lagoon.GetArea: the `i64` accumulator, the coordinates and the final `as u64` are unbounded in the model, so an overflow on a very long plan is not modelled.
- Lagoon.ParseStepCode: every `unwrap` and `from_str_radix` failure of the source panics; the model gives `None`. A code digit other than 0 to 3 panics in `Direction::parse_2` and is `None` too.
- Aplenty.SplitInterval: `threshold - 1` is `i64` arithmetic and would overflow at `i64::MIN`; the model computes it unbounded.
- Aplenty.VolumeFactors: `values` and `combinations` multiply and add in `i64`; the model's products and sums are unbounded.
- Aplenty.SplitInterval: a rule whose category is missing from the box panics on the `HashMap` index; every box the source builds has all four categories, so the model asks for it. The `HashMap` from categories to intervals is a Dafny `map`.
- Day 19 `WorkflowMap`: `parse`, the `process_part` and `process_interval` loops that follow workflow names from "in", `sum_accepted`, `parse_parts` and `main` are not modelled. The loops need not terminate on a cyclic set of workflows. One workflow's routing and partition are modelled.
- PulseNetwork.Start: the delivery loop runs until the queue is empty, which need not happen. The model delivers at most `fuel` signals; the contract relates the counts to that many deliveries.
- PulseNetwork.Start: the `i64` pulse counters are unbounded in the model.
- Day 20 button presses: the loop in `main` that presses the button 1000 times, and the search for the press that sends low to "rx", are not modelled. One press is `Start`.
- PulseNetwork.ParseWire: `&name[1..]` panics on a name that does not start on a one-byte character; the model drops one character. A line with an empty name or without " -> " panics; the model gives `None`.
- PulseNetwork.Parse: a sender without a '%' or '&' prefix still loses its first character, and a "%broadcaster" or "&broadcaster" line replaces the broadcaster. The model keeps both behaviours.
- PulseNetwork.Parse: the `HashMap` of modules is a Dafny `map`. The source's iteration order plays no part.
- StepCounter.Part2: the remainders by the garden's height and width need a garden with at least one row and a first row that is not empty, and every row must be at least as wide as the first, or the indexing panics. These are preconditions, as `Wide` is for `Part1`.
- StepCounter.Part1: the `HashSet` frontier is a Dafny `set` and the `VecDeque` is not modelled; the count does not depend on their order. The `usize` and `i64` casts are unbounded integers.
- Day 21 `main`: it calls `part2` for 26501365 steps, and its comment says the answer was worked out by hand from the input's shape. That hand calculation is not modelled; `Part2` is, for any number of steps.
- SandSlabs.FallFrom: `fall_brick` can queue a brick again after it has fallen, when a second supporter falls later; the model does not queue it twice. The re-queueing loop itself is not modelled. Its fallen set is the same by this argument: it adds a brick only when all of its supporters have fallen, so it stays inside every closed set holding the brick. It is also closed once its queue is empty. `FallenClosed` and `FallenLeast` prove the model's set is the least such set.
- SandSlabs.SortByZ: stated as a permutation sorted by bottom height. The stability of Rust's `sort_by` is not stated.
- SandSlabs.Land: heights and coordinates are unbounded rather than `u64` and `usize`; only the underflow of a brick written top-down is modelled.
- SandSlabs.Scan: a supported brick without a `supported_by` entry panics on the `HashMap` index; the model gives `None`.
- SandSlabs.Dissolvable: a supported brick without a `supported_by` entry panics on the `HashMap` index at main.rs:135; the model leaves its supporter out of the set instead. This cannot happen on a stack `Fall` builds, by `FallConsistent`.
- SandSlabs.TotalCountsFalling: `total_destruction` visits the bricks in hash-map order; the model takes the order as a parameter and proves the total does not depend on it.
- LongWalk.Backtrack: as written, the search returns `None` where the source's `usize` step below row or column 0 panics; in a release build it would wrap and then index out of bounds, which panics too.
- LongWalk.EntrancePanics: the scan of row 1 in `main` for the first non-forest cell is not modelled; the lemma starts from that cell directly.
- LongWalk.Backtrack: the `visited` table is an immutable grid passed down the recursion; the source's in-place flag and its reset are the same values on return.
- Day 25 `main`: reading the input, the three node names fixed in `main`, and writing the drawing to a file are not modelled.
- Snowverload.RemoveNodes: the `HashSet` of node names is a Dafny `set`.

## Findings

| source | as written | input that shows it | evidently intended | confidence | as-written member | corrected member |
|---|---|---|---|---|---|---|
| day-01-trebuchet/src/main.rs:66-71 | `line[i + j]` is indexed with no bounds check while a word is compared | the line "on": "one" matches 'o' and 'n', then index 2 is read | a word running past the end of the line is a mismatch, so "on" yields 0 | high, not executed | Trebuchet.OnPanics | Trebuchet.FindDigit |
| day-05-fertilizer/src/main.rs:17-18 | `source < self.source + self.length` and `self.destination + source` are computed in `u64` | the interval with source `u64::MAX`, destination 0 and length 1, applied to `u64::MAX` | the interval covers its top number and maps it to 0 | medium, not executed | Fertilizer.TopOfRangeOverflows | Fertilizer.GetMapping |
| day-16-the-floor-will-be-lava/src/main.rs:127-141 | a flag after the first gives "2" when the string has one character, and "2" has one character too, so the branch that re-parses the number is never reached | a tile crossed Up, Down and Left, drawn as "2" | the drawing shows how many directions crossed the tile, so three flags give "3" | medium, not executed | FloorLava.TileStringAsWrittenThree | FloorLava.TileStringShows |
| day-18-lavaduct-lagoon/src/main.rs:113 | the trench length is added to the accumulated sum before `abs` | the plan "D 2", "R 2", "U 2", "L 2", a 2-by-2 square dug counter-clockwise, gives 1 | the lagoon is 3 by 3, so 9; the length should be added after `abs` | medium, not executed | Lagoon.CounterClockwiseSquare | Lagoon.RectangleArea |
| day-23-a-long-walk/src/main.rs:122-127 | `main` starts the search at row 1, below the entrance, and the entrance's north step computes `0 - 1` in `usize` | any puzzle map: the search steps back up to the entrance on row 0, whose first successor is north of row 0 | the search skips a step off the map, or starts at the entrance itself | medium, not executed | LongWalk.EntrancePanics | LongWalk.GuardedAnswers |
