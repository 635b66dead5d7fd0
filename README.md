# Meme-coin surge detector and Solana holder tracker, modelled in Dafny

This project models two small programs.

- **The BNB-chain meme-coin detector.** It runs one detection cycle,
  `check_meme_coins_bnb_chain`, in these steps:
  1. Merge the pairs returned by ten broad searches with the direct lookup of one
     configured pair.
  2. For every merged pair, in dictionary order, append its one-hour volume to that
     pair's bounded history (`deque(maxlen=20)`).
  3. Look up a baseline five minutes back in that history.
  4. Decide whether the pair shows a volume surge (the core condition) and whether its
     price is also rising (the auxiliary condition).
  5. Collect a report entry, with its severity, for every pair that surges.
- **The Solana top-holder tracker.** It keeps snapshots of a token's top holders in a
  spreadsheet, one column per snapshot. `get_previous_holders` parses the previous
  snapshot back out of the sheet's last column. `write_holders_to_excel` does three
  things:
  - writes the new snapshot into a fresh column;
  - compares its addresses with the previous snapshot's;
  - highlights the cells of added wallets and appends a row to a change sheet when
    some wallet was added or removed.

The model is organised by the programs' structure:

| module | file | what it holds |
|---|---|---|
| `Wrappers` | wrappers.dfy | `Option`, for missing values and failed parses |
| `Text` | text.dfy | `str.strip`, `str.split`, `str.join` and `str.replace` as Python defines them |
| `Numbers` | numbers.dfy | `float()` on decimal text, `:.4f` formatting, and the round trip between the two |
| `VolumeHistory` | volume_history.dfy | the bounded buffer, the lookback, and the `History` class holding the process-wide store |
| `Surge` | surge.dfy | the constants, the token-age gate, the core and auxiliary conditions, and report entries |
| `PairMerge` | pair_merge.dfy | the dictionary of pairs as an insertion-ordered table, and the merge |
| `Detector` | detector.dfy | a whole cycle: the merge, then the loop that records and judges each pair |
| `HolderSheet` | holder_sheet.dfy | the worksheet as a `Sheet` class over a grid of text cells, and `get_previous_holders` |
| `HolderDiff` | holder_diff.dfy | `write_holders_to_excel`: the column layout, the diff, the highlight and the change row |

Conventions:

- Timestamps are integer milliseconds.
- Volumes, price changes and percentages are exact `real`s.
- A JSON scalar from the market-data API is a number or a string. `Float` is Python's
  `float()` applied to it; `None` stands for the `ValueError` that the source catches.
- The loops of the source are methods with `for` or `while` loops. Each is proved
  against a function of its inputs.
- The history store and the worksheets are classes whose methods change their fields.

Three behaviours of the code that a reader might not expect:

- **Lookback.** The lookback takes the FIRST observation in buffer order that is at
  least five minutes old. It does not take the one nearest to the cutoff. With ordered
  timestamps this is the oldest retained observation (`VolumeHistory.OrderedLookback`,
  `VolumeHistory.FirstMatchNotNearest`).
- **Key of the configured pair.** A pair added by the direct lookup is stored under its
  `pairAddress` even when that field is missing (line 65 does not check it), so keys
  are `Option<string>`.
- **First run of the tracker.** Before any snapshot, the sheet already has two columns,
  because the token address is written to `B1`. The first previous snapshot is
  therefore read from column B and has no holders, and the diff is skipped
  (`HolderDiff.Diffed`).

## Model

| member | source | states |
|---|---|---|
| VolumeHistory.Append | meme-coin-detector/detect_meme_coin_v4.py:97-102 | a `deque(maxlen=20)` append keeps at most 20 entries, puts the new observation last and keeps the newest older entries in order |
| VolumeHistory.AppendBelowCapacity | meme-coin-detector/detect_meme_coin_v4.py:97-102 | below capacity, an append only adds the observation at the end |
| VolumeHistory.AppendAtCapacity | meme-coin-detector/detect_meme_coin_v4.py:97-102 | on a full buffer, an append drops exactly the oldest entry, shifts the rest forward by one and puts the new one last |
| VolumeHistory.AppendOrdered | meme-coin-detector/detect_meme_coin_v4.py:102 | appending an observation no older than the buffered ones keeps the buffer in time order |
| VolumeHistory.VolumeAsOf | meme-coin-detector/detect_meme_coin_v4.py:109-116 | the baseline is absent exactly when every entry is newer than the cutoff; otherwise it is the volume of the first entry in buffer order at or before the cutoff, with every earlier entry after the cutoff |
| VolumeHistory.FindVolumeAsOf | meme-coin-detector/detect_meme_coin_v4.py:111-116 | the oldest-first scan that breaks on the first match returns that baseline |
| VolumeHistory.OrderedLookback | meme-coin-detector/detect_meme_coin_v4.py:113-116 | with ordered timestamps, the baseline is the oldest entry's volume when that entry is old enough, and absent otherwise |
| VolumeHistory.FirstMatchNotNearest | meme-coin-detector/detect_meme_coin_v4.py:113-116 | with entries at minutes 0, 2 and 4 and a cutoff at minute 4, the minute-0 volume is chosen |
| VolumeHistory.NewestNeverChosen | meme-coin-detector/detect_meme_coin_v4.py:102-116 | the observation appended at `now` is never the baseline of the same cycle |
| VolumeHistory.NewestNeverChosenAfterAppend | meme-coin-detector/detect_meme_coin_v4.py:102-116 | the same holds after an append that evicted an entry |
| VolumeHistory.Observe | meme-coin-detector/detect_meme_coin_v4.py:99-104 | a buffer within capacity stays within it; without a parsable one-hour volume the buffer is unchanged; with one, the buffer ends with `(now, float(h1))` after a suffix of the old buffer |
| VolumeHistory.Recorded | meme-coin-detector/detect_meme_coin_v4.py:96-104 | recording a pair creates its entry even without a volume, and leaves every other pair's buffer as it was |
| VolumeHistory.RecordedBufferOf | meme-coin-detector/detect_meme_coin_v4.py:96-104 | seen through the buffer lookup, recording gives the recorded pair its buffer with the observation added and leaves every other pair's buffer as it was |
| VolumeHistory.RecordedBounded | meme-coin-detector/detect_meme_coin_v4.py:97 | recording keeps every buffer within 20 entries |
| VolumeHistory.RecordedChronological | meme-coin-detector/detect_meme_coin_v4.py:102 | recording at a time no earlier than any stored observation keeps every buffer in time order |
| VolumeHistory.History.Record | meme-coin-detector/detect_meme_coin_v4.py:96-104 | the in-place update of the store: the pair's entry exists afterwards and holds its buffer with the observation appended if the volume parses; no other key is added or changed |
| VolumeHistory.History.Baseline | meme-coin-detector/detect_meme_coin_v4.py:110-116 | the lookback over the pair's buffer, five minutes before `now` |
| Surge.TokenAgeHours | meme-coin-detector/detect_meme_coin_v4.py:87-94 | for a nonzero numeric creation time `ms` whose date lies in years 1 to 9999, the age in hours times 3,600,000 is `now - ms`; a nonzero age comes only from such a time |
| Surge.PastAgeGate | meme-coin-detector/detect_meme_coin_v4.py:87-109 | such a token passes the six-hour gate exactly when more than 21,600,000 ms passed since its creation |
| Surge.Auxiliary | meme-coin-detector/detect_meme_coin_v4.py:130-138 | the auxiliary condition holds exactly when both price changes are present and parse, the one-hour change is positive, and it is strictly above the 24-hour change |
| Surge.Judge | meme-coin-detector/detect_meme_coin_v4.py:106-138 | the verdict carries the token's age and the auxiliary condition; a token past no gate or without a baseline has no core condition and a five-minute volume of 0; a core condition needs the age gate, a positive baseline and a five-minute gain above the minimum |
| Surge.AuxiliaryExamples | meme-coin-detector/detect_meme_coin_v4.py:130-138 | one-hour and 24-hour changes of 5 and 2 meet the auxiliary condition; -1 and -5 do not, as the one-hour change is not positive; a missing 24-hour change never does |
| Surge.StringCreationTime | meme-coin-detector/detect_meme_coin_v4.py:87-94 | a creation time given as a string leaves the age at 0, since its division raises the `TypeError` that is caught, so the pair is never flagged |
| Surge.OutOfRangeCreationTime | meme-coin-detector/detect_meme_coin_v4.py:87-94 | a creation time whose date falls outside years 1 to 9999 leaves the age at 0, since `fromtimestamp` raises the `ValueError` that is caught, so the pair is never flagged |
| Surge.FarPastCreationTime | meme-coin-detector/detect_meme_coin_v4.py:87-94 | a creation time of -10^15 milliseconds is such a case: its age is 0 |
| Surge.AgeGate | meme-coin-detector/detect_meme_coin_v4.py:107-109 | a token no older than six hours is never flagged, and its five-minute volume stays 0 |
| Surge.MissingCreationTime | meme-coin-detector/detect_meme_coin_v4.py:87-89 | without a creation time the age is 0 and the pair is never flagged |
| Surge.MissingVolume | meme-coin-detector/detect_meme_coin_v4.py:118 | without a current volume the pair is never flagged, and its five-minute volume stays 0 |
| Surge.UnparsableVolume | meme-coin-detector/detect_meme_coin_v4.py:118-128 | a current volume that is present but does not parse raises the `ValueError` that is caught: the pair is never flagged, and its five-minute volume stays 0 |
| Surge.NoBaseline | meme-coin-detector/detect_meme_coin_v4.py:111-118 | without an observation five minutes old the pair is never flagged, and its five-minute volume stays 0 |
| Surge.CoreWhenEvaluated | meme-coin-detector/detect_meme_coin_v4.py:118-126 | once age, volume and baseline are present, the five-minute volume is `cur - old` whether or not the thresholds pass, and the core condition holds iff `old > 0`, `cur > 1.5 old` and `cur - old > 50000` |
| Surge.CoreOnlyWhenEvaluated | meme-coin-detector/detect_meme_coin_v4.py:109-126 | conversely, a flagged pair passed the age gate, had a parsed volume and a baseline, and passed the thresholds |
| Surge.SmallSurgeNotFlagged | meme-coin-detector/detect_meme_coin_v4.py:123-125 | a baseline of 1000 and a current volume of 1600 fail the thresholds |
| Surge.LargeSurgeFlagged | meme-coin-detector/detect_meme_coin_v4.py:123-125 | a baseline of 40000 and a current volume of 100000 pass them |
| Surge.ReportFor | meme-coin-detector/detect_meme_coin_v4.py:130-154 | a pair is reported iff the core condition holds; its severity is high iff the auxiliary condition holds too; the entry carries the pair's fields, its age and its five-minute volume |
| Surge.ReportedGain | meme-coin-detector/detect_meme_coin_v4.py:109-140 | every reported pair is older than six hours and gained more than 50000 in five minutes |
| PairMerge.Put | meme-coin-detector/detect_meme_coin_v4.py:55-65 | a dictionary assignment places a new key last and keeps an existing key in its place |
| PairMerge.BroadFirstSeenWins | meme-coin-detector/detect_meme_coin_v4.py:50-55 | the broad merge adds exactly the usable addresses, each with the first pair returned for it, and never overwrites |
| PairMerge.MergeBroadAppend | meme-coin-detector/detect_meme_coin_v4.py:50-55 | merging search after search is merging their concatenated results |
| PairMerge.UserPairsLastWins | meme-coin-detector/detect_meme_coin_v4.py:63-65 | the direct lookup stores exactly the pairs on chain `bsc`, under their address, and the last such pair for an address wins |
| PairMerge.MergedEntries | meme-coin-detector/detect_meme_coin_v4.py:46-68 | which address maps to which pair after the whole merge, with and without the direct lookup |
| PairMerge.UserPairFoundByBroadSearch | meme-coin-detector/detect_meme_coin_v4.py:58-59 | the configured pair is not looked up when a search already returned it |
| PairMerge.MergeBatch | meme-coin-detector/detect_meme_coin_v4.py:52-55 | the loop over one search's pairs computes the broad merge |
| PairMerge.AddFetched | meme-coin-detector/detect_meme_coin_v4.py:62-65 | the loop over the direct lookup's pairs computes the user-pair merge |
| PairMerge.MergePairs | meme-coin-detector/detect_meme_coin_v4.py:46-68 | the merge as the source runs it yields the merged table, and tells whether the direct lookup was made |
| Detector.KeptSize | meme-coin-detector/detect_meme_coin_v4.py:140-154 | the report list has as many entries as there are outcomes with a report, and no more than there are outcomes |
| Detector.KeptSources | meme-coin-detector/detect_meme_coin_v4.py:140-154 | every entry of the report list is the report of an outcome at or after its own position |
| Detector.KeptPositions | meme-coin-detector/detect_meme_coin_v4.py:140-154 | the report of outcome `i` is in the list, at the position given by the number of reports before it |
| Detector.KeptReports | meme-coin-detector/detect_meme_coin_v4.py:140-154 | together: the report list holds exactly one entry per outcome with a report; each entry comes from an outcome at or after its position; the report of outcome `i` sits at the number of reports before `i` |
| Detector.CountReportedGrows | meme-coin-detector/detect_meme_coin_v4.py:140-154 | the position of a report is below that of every later outcome, so the reports keep the order of their pairs |
| Detector.RecordPairsObserved | meme-coin-detector/detect_meme_coin_v4.py:78-104 | with distinct keys, after recording the first `n` merged pairs each of them has its buffer from before the cycle with only its own observation added |
| Detector.RecordPairsAt | meme-coin-detector/detect_meme_coin_v4.py:78-104 | with distinct keys, after the cycle each merged pair's buffer is its buffer from before the cycle with only this cycle's observation added |
| Detector.RecordOthers | meme-coin-detector/detect_meme_coin_v4.py:96-104 | recording other pairs leaves a pair's buffer, present or not, as it was |
| Detector.RecordKeys | meme-coin-detector/detect_meme_coin_v4.py:96-97 | after a cycle every merged pair has a buffer, and no other key was added |
| Detector.RecordBounded | meme-coin-detector/detect_meme_coin_v4.py:97 | a cycle keeps every buffer within 20 entries |
| Detector.RecordChronological | meme-coin-detector/detect_meme_coin_v4.py:102 | cycles at non-decreasing times keep every buffer in time order |
| Detector.OutcomeCore | meme-coin-detector/detect_meme_coin_v4.py:140-141 | a pair yields a report iff its core condition holds, at high severity iff the auxiliary one holds too |
| Detector.CycleReports | meme-coin-detector/detect_meme_coin_v4.py:78-154 | the outcome of merged pair `i` is its report judged on its own buffer with this cycle's observation added; every report in the list is the outcome of a merged pair; every flagged pair's report is in the list at the number of reports before it; the reports come in dictionary order |
| Detector.AnalysePair | meme-coin-detector/detect_meme_coin_v4.py:96-154 | one pair's turn: the store is updated by recording it, and its entry is its outcome on its own buffer |
| Detector.AnalysePairs | meme-coin-detector/detect_meme_coin_v4.py:76-154 | the loop over the merged pairs in order leaves the store and the report list as the cycle's definition gives |
| Detector.DetectCycle | meme-coin-detector/detect_meme_coin_v4.py:46-154 | one call: the merged table drives the store update and the report list, and an empty merge returns with the history unchanged and no reports |
| Numbers.Round4Error | solana-top-holder-tracker/main.py:76 | the rounding of `:.4f` moves a number by at most 0.00005 and keeps its sign |
| Numbers.ParseFormatted | solana-top-holder-tracker/main.py:56-58 | `float()` of what `:.4f` wrote is the number rounded to four places |
| HolderSheet.ParseLine | solana-top-holder-tracker/main.py:53-61 | a line yields a holder only when its stripped text splits on `" ("` into two parts and the second part, less `%` and `)`, parses; the address then contains no `" ("` |
| HolderSheet.PreviousHoldersOf | solana-top-holder-tracker/main.py:42-62 | nothing iff the sheet has fewer than two columns |
| HolderSheet.OnlyColumnRead | solana-top-holder-tracker/main.py:46-49 | only the last column is read: grids that agree on it yield the same holders |
| HolderSheet.ParseDisplayLine | solana-top-holder-tracker/main.py:53-58 | a display line of a readable address parses back to that address and the percentage rounded to four places |
| HolderSheet.CellOfDisplayLine | solana-top-holder-tracker/main.py:50-61 | a cell holding one display line yields exactly that holder, rounded |
| HolderSheet.ReadLines | solana-top-holder-tracker/main.py:52-61 | the loop over a cell's lines keeps the holders of the lines that parse, in order |
| HolderSheet.ReadCell | solana-top-holder-tracker/main.py:49-61 | an empty cell yields nothing; otherwise its lines, split on newlines, are read |
| HolderSheet.ReadColumn | solana-top-holder-tracker/main.py:48-61 | the walk down rows 4 to `max_row` collects the holders of every cell, in row order |
| HolderSheet.Sheet.PreviousHolders | solana-top-holder-tracker/main.py:42-62 | `get_previous_holders` on the sheet returns the holders of its last column |
| HolderSheet.Sheet.Put | solana-top-holder-tracker/main.py:81 | writing a cell sets its value and grows the extent to include it, leaving the fills alone |
| HolderSheet.Sheet.Fill | solana-top-holder-tracker/main.py:94 | filling a cell adds it to the highlighted cells and grows the extent, leaving the values alone |
| HolderDiff.AddressMapKeys | solana-top-holder-tracker/main.py:84 | the address map's keys are exactly the snapshot's addresses |
| HolderDiff.LastOccurrenceWins | solana-top-holder-tracker/main.py:78 | when an address repeats, the map keeps the percentage of its last occurrence |
| HolderDiff.DiffMembers | solana-top-holder-tracker/main.py:85-89 | an address is added iff some current holder has it and no previous holder does, and removed in the opposite case |
| HolderDiff.DiffDisjoint | solana-top-holder-tracker/main.py:85-89 | the added and removed sets are disjoint, an address in both snapshots is in neither, and both are empty iff the address sets are equal |
| HolderDiff.Enumerate | solana-top-holder-tracker/main.py:88-89 | `list(set)` lists every element of the set exactly once |
| HolderDiff.ColumnCellHolder | solana-top-holder-tracker/main.py:80-81 | row `i + 4` of the new column holds the display line of holder `i` |
| HolderDiff.ColumnCellTimestamp | solana-top-holder-tracker/main.py:71 | row 3 of the new column holds the timestamp |
| HolderDiff.ColumnCellOther | solana-top-holder-tracker/main.py:68-81 | every other cell, of every other column in particular, keeps what it held |
| HolderDiff.HighlightedCells | solana-top-holder-tracker/main.py:92-94 | the highlighted cells are exactly rows `i + 4` of the new column whose holder's address was added |
| HolderDiff.WrittenSnapshotReadsBack | solana-top-holder-tracker/main.py:42-81 | after a snapshot of readable addresses is written, the next `get_previous_holders` reads exactly those holders back, percentages rounded to four places |
| HolderDiff.DisplayData | solana-top-holder-tracker/main.py:73-78 | the first loop builds the display line of every holder, in order, and the address-to-percentage map |
| HolderDiff.WriteColumn | solana-top-holder-tracker/main.py:68-81 | the new column `max_column + 1` receives the timestamp and the display lines; the fills stay; the extent grows to that column and row `len + 3` |
| HolderDiff.HighlightAdded | solana-top-holder-tracker/main.py:92-94 | the highlight loop fills exactly the cells of holders whose address is listed as added, and changes no value |
| HolderDiff.AppendChangeRow | solana-top-holder-tracker/main.py:97-104 | the change row goes below the change sheet's last row: the timestamp, then the added and the removed display lines |
| HolderDiff.ChangeRowCondition | solana-top-holder-tracker/main.py:88-96 | a change row is written iff the two snapshots' address sets differ |
| HolderDiff.DiffLists | solana-top-holder-tracker/main.py:85-89 | the two lists enumerate current minus previous and previous minus current |
| HolderDiff.RecordDiff | solana-top-holder-tracker/main.py:83-104 | against previous holders: the lists enumerate the diff, added wallets are highlighted, and the change row is appended only when a list is non-empty, with current percentages for added wallets and previous ones for removed wallets |
| HolderDiff.WriteHolders | solana-top-holder-tracker/main.py:64-104 | the whole write: the new column always; without previous holders (none or empty) no diff, no highlight and no change row |

## Left out

- HTTP: `get_pairs_data_by_chain`, `get_pair_data_by_address` and `get_top_holders`
  are network clients. What they return is a parameter. The two pair clients return an
  empty list on a failed request. `get_top_holders` returns `None`, or a response that
  is not a holder list. `run_tracker` then skips `write_holders_to_excel` altogether, as
  it does for an empty list. `HolderDiff.WriteHolders` therefore stands for calls with a
  non-empty list of holders. Its contract also covers the empty list, which the tracker
  never passes.
- The polling loop, `time.sleep`, the `subprocess` pip install, command-line
  arguments, and `run_tracker` with its normalisation of the API response: process
  plumbing.
- Clocks: `datetime.now()` is a parameter, `now` in milliseconds, or the timestamp text.
- Console output: the printed report, `:,.2f`, the fire emojis (a `Severity`), and
  the user-pair messages.
- openpyxl I/O: `load_workbook`, `save`, `initialize_excel` and the `PatternFill`
  style (a fill is a highlighted cell). Reading a cell with `.cell()` creates an empty
  cell in openpyxl, which the model does not do. Every cell the source reads lies
  within the sheet's extent, so this changes neither `max_row` nor `max_column`.
- Numbers.Float: it does not model floating point. It gives exact values, and it
  accepts only decimal notation. Exponents, `inf`, `nan` and underscores are not
  modelled. Neither are JSON booleans, which Python turns into 1.0 or 0.0, nor lists
  and objects, on which the source raises an uncaught `TypeError`.
- Numbers.FormatFixed4: it rounds exact reals half away from zero. Python rounds the
  binary value of the float, so the two can disagree on ties.
- Surge.TokenAgeHours: the year 1 to 9999 range it checks is in UTC. `fromtimestamp`
  converts to local time, which moves both ends by the local offset. It does not model
  the rounding to microseconds either. Nor does it model the uncaught `OverflowError`
  that `fromtimestamp` raises on times beyond the platform's `time_t`: these get age 0
  like the other out-of-range times.
- HolderDiff.Enumerate: the order of `list(set)` depends on string hashing in CPython.
  The model leaves that order open: any order that lists the set once is allowed, and
  the contracts hold for every such order.
- HolderSheet.Sheet: cells hold text only. The numbers, dates and formulas a
  hand-edited sheet could hold are not modelled, and neither is `None` written as a
  value.
