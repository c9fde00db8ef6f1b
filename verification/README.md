# BMI tracker: a verified model of its data logic

The tracker is a single React component (`src/App.jsx`). It keeps a history
of BMI measurements for up to four users. It shows the history as a table,
newest first, and as a line chart with one line per user. This project
models the component's data logic as pure Dafny functions over immutable
records, and proves what that logic promises:

- `getBmiCategory` classifies a BMI into four labels (`BmiCategory.Classify`).
  `toFixed(1)` rounds the stored value to tenths (`BmiCategory.Round1`). A
  stored BMI is an integer count of tenths.
- The state transitions, in module `History`:
  - `calculateBmi` validates its inputs and records one measurement.
  - `saveToHistory` appends.
  - `deleteHistoryItem` removes entries by id.
  - `handleUserCountChange` resets the tracker.
  - The user tabs select the active user.
- The views derived on every render, in module `Views`:
  - `groupedHistory` is a stable sort by time, folded into per-user arrays.
  - `combinedHistoryForTable` is a stable sort, newest first.
  - `chartData` pivots the per-user arrays into rows `Entry 1`, `Entry 2`, …
- Supporting modules:
  - `StableSort` is an insertion sort on an integer key, proved sorted,
    a permutation and stable.
  - `Collections` holds order-preserving filtering.
  - `Decimal` renders the row labels' numerals.
  - `Sample` holds the pre-populated sample history and the initial state.

Timestamps are integers counting milliseconds since the epoch, the value a
`Date` compares by. Ids are strings that the caller supplies. The values
of `new Date()` and `crypto.randomUUID()` are parameters of `CalculateBmi`.
The BMI that the formula computed is also a parameter: a `Num`, which is a
finite real, NaN or an infinity.

The category stored with an entry is computed from the unrounded BMI
(line 111). The BMI stored with it is rounded to one decimal (line 115). The
table colours each row from the rounded value (line 276). So a row's label
and its colour can name different categories.
`BmiCategory.StoredAndDisplayedCategory` characterises exactly when this
happens: the raw BMI lies in [18.45, 18.5), [24.95, 25) or [29.95, 30). The
colour is then always one category heavier. A reader might expect an
entry's stored label to match its row colour. The code does not guarantee
this, and the model follows the code.

## Model

| member | source | states |
|---|---|---|
| BmiCategory.Classify | src/App.jsx:10-15 | exactly one of the four labels, each an if-and-only-if over its interval; 18.5, 25 and 30 belong to the heavier label |
| BmiCategory.ClassifyMonotone | src/App.jsx:10-15 | a larger BMI never gets a lighter label |
| BmiCategory.Round1 | src/App.jsx:115 | the stored tenths are the nearest ones to the raw BMI, the larger on a tie |
| BmiCategory.RoundReachesThreshold | src/App.jsx:115 | rounding reaches a threshold exactly when the raw value is at most half a tenth below it |
| BmiCategory.ClassifyTenths | src/App.jsx:276 | the label of a stored (rounded) BMI, with thresholds 185, 250 and 300 tenths |
| BmiCategory.StoredAndDisplayedCategory | src/App.jsx:111-115 | stored label and row colour differ if and only if the raw BMI is in [18.45,18.5), [24.95,25) or [29.95,30); the colour is then one category heavier |
| BmiCategory.MismatchExample | src/App.jsx:111-115 | a raw BMI of 18.47 is stored as 18.5, labelled Underweight and coloured Normal |
| BmiCategory.NearestDoubleBelowTie | src/App.jsx:115 | the double nearest 18.45 is stored as 18.4, and its label and colour agree |
| BmiCategory.ImperialBoundaryExample | src/App.jsx:104-115 | 150 lb at 65 in is labelled Normal, stored as 25.0 and coloured Overweight |
| History.CalculateBmi | src/App.jsx:93-125 | a non-positive or NaN weight or height sets the invalid-input message and changes nothing else; a non-finite BMI sets the other message; otherwise exactly one entry is appended for the active user, with the rounded BMI, the label of the raw BMI, the given id and time; it becomes the latest result and the message is cleared |
| History.SaveToHistory | src/App.jsx:127-129 | the result is one longer, keeps the old history as its prefix and ends with the new entry |
| History.DeleteHistoryItem | src/App.jsx:131-133 | no remaining entry carries the id; exactly the entries with other ids remain, every copy of each, in their original relative order |
| History.SaveThenDelete | src/App.jsx:127-133 | appending an entry under a fresh id and then deleting it restores the history exactly |
| History.DeleteIdempotent | src/App.jsx:131-133 | deleting the same item twice equals deleting it once |
| History.DeleteAbsent | src/App.jsx:131-133 | deleting an id that no entry carries leaves the history unchanged |
| History.ChangeUserCount | src/App.jsx:84-91 | the new count is set, user 1 is active, history and latest result are cleared, the message is kept |
| History.SelectUser | src/App.jsx:201-202 | the chosen tab's user becomes active and nothing else changes |
| History.ChangeUserCountValid | src/App.jsx:84-91 | a positive count yields a valid state |
| History.SelectUserValid | src/App.jsx:201-202 | selecting a shown tab keeps the state valid |
| History.CalculateValid | src/App.jsx:111-122 | recording under a fresh id keeps every entry owned by a shown user and all ids distinct |
| History.DeleteValid | src/App.jsx:131-133 | deleting keeps the state valid |
| History.RecordedColour | src/App.jsx:276 | for a freshly recorded entry, its colour differs from its label exactly in the three bands below the thresholds, and is then one category heavier |
| Views.SortedHistory | src/App.jsx:138 | a permutation of the history in non-decreasing timestamp order |
| Views.CombinedHistoryForTable | src/App.jsx:149-151 | a permutation of the history in non-increasing timestamp order |
| Views.SortsAreStable | src/App.jsx:136-151 | in both sorts, the entries with one timestamp keep the order in which they were saved |
| Views.GroupIntoAppends | src/App.jsx:139-146 | the fold creates an array for every user it meets and pushes that user's entries onto it in order |
| Views.GroupedHistory | src/App.jsx:136-147 | the keys are exactly the users owning entries; each group is the stable, oldest-first sort of its user's entries |
| Views.GroupExists | src/App.jsx:139-146 | a user has a group if and only if it owns an entry, and then the group is non-empty |
| Views.GroupCounts | src/App.jsx:136-147 | a group holds every copy of each of its user's entries and nothing else |
| Views.GroupStable | src/App.jsx:138 | within a group, entries with one timestamp are in saving order |
| Views.GroupContents | src/App.jsx:136-147 | a group's contents, ownership, count of each entry, time order and stability together |
| Views.GroupsPartitionHistory | src/App.jsx:136-147 | when all users are in 1 to n, the groups of users 1 to n together are a permutation of the history |
| Views.MaxGroupLength | src/App.jsx:156 | bounds every listed group's length and is attained by one of them, or is 0 |
| Views.LongestGroup | src/App.jsx:156 | with every key listed, the maximum is the longest group's length |
| Views.RowValues | src/App.jsx:162-166 | a row has a value for user u if and only if 1 <= u <= numUsers and u's group is longer than the row index, and the value is that element's BMI |
| Views.BuildRows | src/App.jsx:159-168 | one row per index, labelled with the index plus one and carrying that index's values |
| Views.Pivot | src/App.jsx:153-170 | no rows if and only if every group is empty; otherwise as many rows as the longest group, labelled and filled as above |
| Views.ChartData | src/App.jsx:153-170 | as many rows as the longest group of `groupedHistory`, or none; row i is labelled with i + 1 and holds the i-th BMI of each shown user whose group reaches that far |
| Views.ChartRowCount | src/App.jsx:153-157 | no rows if and only if the history is empty; every user's count of entries is at most the row count, and some user's count equals it, users outside 1 to numUsers included |
| Views.ChartCells | src/App.jsx:160-166 | row i exists and has a value for user u if and only if 1 <= u <= numUsers and u has more than i entries; the value is the BMI of u's i-th entry, oldest first |
| Views.RowNameDenotesPosition | src/App.jsx:161 | every row i is named "Entry " followed by a numeral whose value is i + 1 |
| StableSort.Sort | src/App.jsx:138 | the result is sorted by key and is a permutation of the input |
| StableSort.SortFilter | src/App.jsx:138 | sorting then filtering equals filtering then sorting |
| StableSort.SortStable | src/App.jsx:138 | elements that share a key keep their input order |
| Decimal.NatToString | src/App.jsx:161 | a non-empty numeral of decimal digits without a leading zero |
| Decimal.NatToStringRoundTrip | src/App.jsx:161 | reading the numeral back gives the number |
| Sample.SampleLabels | src/App.jsx:18-54 | the sample labels by value: user 1 from Overweight down to Normal, user 2 Normal throughout, user 3 from Underweight up to Normal, user 4 between Normal and Overweight, with 25.0 Overweight |
| Sample.InitialStateValid | src/App.jsx:60-71 | the initial state, with 4 users, user 1 active and the 20 sample entries, is valid |

`ChartData` is the model of `chartData`: the pivot of `GroupedHistory` over
the owners of the entries. Its contract states the rows in terms of the
groups. `Views.ChartRowCount`, `Views.ChartCells` and
`Views.RowNameDenotesPosition` state its rows in terms of the history alone.

## Left out

- JSX rendering, Tailwind class strings, the `recharts` and `lucide-react` components, and the scroll-into-view effect: presentation and foreign library code.
- React hooks (`useState`, `useMemo`, `useRef`, `useEffect`): the state is a plain record and every handler is a pure function from the old state to the new one. The batching of state updates is not modelled.
- The BMI formula (line 104) and `parseFloat`: floating-point arithmetic is not modelled. The parsed weight and height and the computed BMI are inputs. A finite BMI is the exact real value of the double.
- BmiCategory.Round1: takes the floor of ten times the value plus one half. `toFixed(1)` rounds the exact value of the double and picks the larger count of tenths on a tie, so the two agree on every non-negative value. On a negative tie `toFixed` rounds away from zero and `Round1` does not. The source never computes a negative BMI, because both inputs are positive.
- `crypto.randomUUID()` and `new Date()`: supplied by the caller. `CalculateValid` assumes the id is fresh, as a random UUID is with overwhelming probability.
- The `color` field and `USER_COLORS`: presentation only. The row colour is modelled as the category it stands for (`ClassifyTenths`).
- The form fields, the unit selector, the placeholders, and clearing the fields after a successful calculation (lines 123-124): text-field UI state.
- The `isLoading` flag: it is never set in the source.
- The chart's value keys are the strings `User 1`…`User 4`. The model uses the user number as the key, which is a one-to-one renaming.
- handleUserCountChange reads the count with `parseInt` from a selector that offers 2, 3 and 4 (lines 194-198). The initial count is 4 (line 60). `ChangeUserCount` takes the integer itself. `ChangeUserCountValid` requires it to be positive, which covers every offered value.
