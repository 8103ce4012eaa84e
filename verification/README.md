# check-duplicate-files, modelled in Dafny

`check-duplicate-files <root directory path> [remove]` walks a directory
tree and groups the files by the CRC-32 checksum of their contents. For each
group of two or more files it sorts the group by the timestamp at the start
of each file name (`YYYY-MM-DD_hh.mm.ss`) and prints one line
`<checksum as 8 hex digits>;<rank from 1>;<path>` per file. It counts the
files after the first of each printed group. In remove mode it then asks for
confirmation and moves every file but the first of each group into
`<root>/REMOVED`.

The model follows the one source file, `check-duplicate-files.go`:

- `Paths`: the Unix rules of Go's `filepath.Base`, `filepath.Clean` and
  two-argument `filepath.Join`. This is enough to state that a moved file
  keeps its base name.
- `Timestamp`: `convertPathToTime`. It takes the base name, rejects names
  shorter than 19 characters, and parses the first 19 against the layout
  `2006-01-02_15.04.05`. A validity predicate stands for `time.Parse`'s
  range checks: month 1–12, day within the month (leap years included),
  hour below 24, minute and second below 60. `After` is the strict
  lexicographic order on the six fields, which is what `Time.After` means
  for these UTC times.
- `PathSort`: `bubbleSortPaths` as an in-place method on `array<string>`.
  It is proved equal to a functional bubble sort, `BubbleSort`.
  `BubbleSortSpec` then shows what that sort does:
  - it permutes its input;
  - it fails iff some key fails to parse, for two or more paths;
  - on success it is sorted and stable, and equal to a reference
    insertion sort.
- `ReportFormat`: the `%08x;%d;%s\n` line, with a parser that inverts it.
- `DuplicateIndex`: the global `filesMap`, as the class `FileIndex` with a
  `map<Checksum, seq<string>>` field.
  - The walk callback is `Insert`.
  - `outputMap` is `OutputMap`.
  - `moveDuplicates` is `MoveDuplicates`, which returns the renames it would
    issue.
  - Go's map iteration order is a parameter, a sequence listing every key
    once. Lemmas show that the count, the set of printed lines and the
    state left behind do not depend on it.
- `Cli`: `main`. It covers the usage error, the exact `"remove"` argument,
  the prompt, the exact `"Y\n"` answer, and the run as a whole.

In three places the program's evident intent is stricter than what its
code does. The model follows the code:

- A group whose files cannot be ordered by timestamp is not printed or
  counted, and one would expect it to be left alone. Yet `moveDuplicates`
  moves every file but the first of every group of two or more, including
  groups whose sort failed. Those groups keep whatever swaps the abandoned
  sort made, because the sorted slice shares the map entry's storage.
  `MovesMatchCount` states the consequence: the number of moves is at least
  the printed count, and equal exactly when every group of two or more was
  sorted.
- An error during the walk does not end the program. The callback hands the
  error back, so `filepath.WalkDir` stops there. `main` ignores the error it
  returns and goes on with the files found so far.
- Every entry that is not a directory is indexed, symbolic links and other
  special files included. The callback skips only directories.

## Model

| member | source | states |
|---|---|---|
| `Paths.Base` | check-duplicate-files.go:94 | `filepath.Base` is never empty; it is "." for the empty path and otherwise "/" or a name without '/' |
| `Paths.BaseTrailingSlash` | check-duplicate-files.go:94 | a trailing '/' does not change the base name of a non-empty path |
| `Paths.BaseOfSlashes` | check-duplicate-files.go:94 | a path made only of slashes has base name "/" |
| `Paths.BaseOfName` | check-duplicate-files.go:94 | a name without '/' placed after a directory prefix is its own base name |
| `Paths.CleanKeepsLastName` | check-duplicate-files.go:141 | cleaning `p + "/" + name` keeps a proper file name as the last element |
| `Paths.Join` | check-duplicate-files.go:127 | `filepath.Join` of two parts is empty exactly when both parts are empty |
| `Paths.JoinKeepsName` | check-duplicate-files.go:140-141 | `Join(dir, name)` has base name `name` for every directory and every proper file name |
| `Timestamp.DaysIn` | check-duplicate-files.go:100 | a month has 28 to 31 days, and 29 exactly for February of a leap year |
| `Timestamp.ParseLayout` | check-duplicate-files.go:100 | parsing against the layout succeeds iff the text has the layout's digits and separators and the fields form a valid time; otherwise the error names the text |
| `Timestamp.ConvertPathToTime` | check-duplicate-files.go:92-105 | a base name shorter than 19 characters is an error naming it; otherwise the key is the parse of the base name's first 19 characters, and a success is a valid time |
| `Timestamp.ParseFormat` | check-duplicate-files.go:93 | every valid time printed in the layout parses back to itself |
| `Timestamp.FormatParse` | check-duplicate-files.go:93 | every text that parses is the layout printing of its time, so the parse is one-to-one |
| `Timestamp.After` | check-duplicate-files.go:118 | a time is never after itself: `After` relates only distinct times |
| `Timestamp.AfterIsLaterOrdinal` | check-duplicate-files.go:118 | for valid times, `After` holds exactly when the first comes later in a count of seconds that numbers times in clock order |
| `Timestamp.AfterIsStrictTotalOrder` | check-duplicate-files.go:118 | `After` is irreflexive, transitive, asymmetric and total on distinct times |
| `Timestamp.NotAfterTransitive` | check-duplicate-files.go:118 | "not after" is transitive, so "not out of order" chains along a sorted group |
| `Timestamp.KeyIgnoresDirectory` | check-duplicate-files.go:94 | the key of a path is the key of its file name: directories do not matter |
| `Timestamp.KeyDependsOnPrefixOnly` | check-duplicate-files.go:96-100 | two paths whose base names agree on the first 19 characters have the same key |
| `Timestamp.ExampleKey` | check-duplicate-files.go:92-105 | "2024-01-01_10.00.00_a.txt" has key 2024-01-01 10:00:00 |
| `PathSort.AllParsePermutation` | check-duplicate-files.go:110-117 | whether every key parses does not depend on the order of the paths |
| `PathSort.BubblePass` | check-duplicate-files.go:109-121 | one inner pass over `a[..m]` leaves the array and error of the functional pass, which swaps neighbours only when the left one is strictly later and stops at the first unreadable key |
| `PathSort.BubbleSortPaths` | check-duplicate-files.go:107-124 | the array and error left by the in-place sort are those of `BubbleSort` on the old contents |
| `PathSort.BubbleSortSpec` | check-duplicate-files.go:107-124 | the sort permutes its input; it fails iff there are two or more paths and some key fails, and the error is a failing path's; fewer than two paths come back unchanged; a success is sorted, keeps equal times in input order, and equals the reference stable sort |
| `PathSort.StableSort` | check-duplicate-files.go:107-124 | the reference insertion sort returns a permutation of its input |
| `PathSort.StableSortIsSortedAndStable` | check-duplicate-files.go:118-119 | when every key parses, the reference sort is non-decreasing in time and keeps paths of equal time in input order |
| `PathSort.SortedStableUnique` | check-duplicate-files.go:118-119 | two sorted orders with the same paths of each time in the same relative order are equal, so a stable sort has one answer |
| `ReportFormat.Hex8` | check-duplicate-files.go:81 | `%08x` of a checksum is 8 hex digits whose value is the checksum |
| `ReportFormat.Decimal` | check-duplicate-files.go:81 | `%d` of a natural number is digits with that value and no leading zero |
| `ReportFormat.DecimalOfNumber` | check-duplicate-files.go:81 | every canonical digit string is the `%d` printing of its value |
| `ReportFormat.HexDigitsOfValue` | check-duplicate-files.go:81 | every hex digit string is the zero-padded printing of its value at its width |
| `ReportFormat.FormatLine` | check-duplicate-files.go:81 | a report line starts with the checksum's 8 hex digits and ';', ends with a newline, and is at least 12 characters longer than its path |
| `ReportFormat.ParseLine` | check-duplicate-files.go:81 | a line that parses is exactly the printing of the parsed line |
| `ReportFormat.ParseFormatLine` | check-duplicate-files.go:81 | every printed report line parses back to its checksum, rank and path |
| `DuplicateIndex.Walked` | check-duplicate-files.go:49-50 | the walk gets through the longest error-free prefix of the visits and stops at the first error |
| `DuplicateIndex.IndexGroups` | check-duplicate-files.go:48-68 | after the walk each group is the old group followed by the reached non-directory files of that checksum, in visit order, and a checksum has a group iff it had one or a reached file has it |
| `DuplicateIndex.FilesWithMembers` | check-duplicate-files.go:52-65 | a path is among the files of checksum `c` exactly when some non-directory visit of that path has contents with checksum `c` |
| `DuplicateIndex.FilesWithNoRepeats` | check-duplicate-files.go:58-65 | when no two visits share a path, no path occurs twice among the files of one checksum |
| `DuplicateIndex.FilesWithOneChecksum` | check-duplicate-files.go:57-65 | when no two visits share a path, a path is among the files of at most one checksum |
| `DuplicateIndex.PathInOneGroup` | check-duplicate-files.go:48-68 | when the visits the walk gets through (up to the first one carrying an error) have distinct paths, the index built from an empty map holds each path at most once in a group and in at most one group |
| `DuplicateIndex.DiscoveredUnique` | check-duplicate-files.go:48-68 | the same, for all groups and paths at once |
| `DuplicateIndex.UnreadableDirectoryVisitedTwice` | check-duplicate-files.go:49-50 | a walk that visits a directory a second time with the error of reading it repeats a path, yet the visits it gets through, which end before that error, do not |
| `DuplicateIndex.FileIndex.constructor` | check-duplicate-files.go:27 | the map starts empty and the checksum function is the given one |
| `DuplicateIndex.FileIndex.Insert` | check-duplicate-files.go:48-68 | one callback: an error is handed back and changes nothing; a directory changes nothing; a file is appended to its checksum's group, or starts one; every other group is unchanged |
| `DuplicateIndex.FileIndex.Walk` | check-duplicate-files.go:34 | the map after the callbacks is `IndexOf` of the old map, and the error returned is that of the first failing visit |
| `DuplicateIndex.RankedLines` | check-duplicate-files.go:80-81 | line `i` of a group's listing names its `i`-th path with rank `i + 1` |
| `DuplicateIndex.Printed` | check-duplicate-files.go:81 | one printed text per report line, in order |
| `DuplicateIndex.PrintedAppend` | check-duplicate-files.go:73-88 | the text printed for two runs of lines is the text of the first followed by the second |
| `DuplicateIndex.SortedIndex` | check-duplicate-files.go:73-79 | the map after `outputMap` has the same checksums as before |
| `DuplicateIndex.GroupReport` | check-duplicate-files.go:74-86 | a group is reported iff it has two or more paths that all parse; an unreported group prints nothing and counts 0; a reported one prints one line per path, ranked in the reference stable order, and counts size − 1; the group left behind is a permutation of the old one, sorted when reported |
| `DuplicateIndex.SortedIndexKeepsUnique` | check-duplicate-files.go:75-79 | `outputMap` only permutes each group, so a map with each path in one place keeps that property |
| `DuplicateIndex.GroupLinesMembers` | check-duplicate-files.go:74-86 | a line is printed for a group iff the group is reported and the line has its checksum and a rank within it naming the path at that rank |
| `DuplicateIndex.ReportMembers` | check-duplicate-files.go:73-88 | a line is in the report iff its checksum is visited, that group is reported, and it names the sorted group's path at its rank |
| `DuplicateIndex.ReportLinesIndependentOfOrder` | check-duplicate-files.go:73 | every iteration order of the map prints the same set of lines |
| `DuplicateIndex.SortedOnAll` | check-duplicate-files.go:73-79 | sorting the groups one by one in any iteration order leaves the same map |
| `DuplicateIndex.SumPermutation` | check-duplicate-files.go:73 | a sum over the groups is the same for any two orders with the same keys |
| `DuplicateIndex.EnumerationsPermute` | check-duplicate-files.go:73 | two iteration orders of the same map are permutations of each other |
| `DuplicateIndex.CountIndependentOfOrder` | check-duplicate-files.go:70-90 | the count `outputMap` returns is the same for every iteration order |
| `DuplicateIndex.MapOrder` | check-duplicate-files.go:73 | some order lists every key of the map exactly once |
| `DuplicateIndex.FileIndex.OutputMap` | check-duplicate-files.go:70-90 | `outputMap` over an iteration order returns the count and prints the report of that order, and leaves every group rearranged as its sort left it |
| `DuplicateIndex.FileIndex.OutputRound` | check-duplicate-files.go:74-87 | handling one more key extends the map, count and report of the keys handled so far |
| `DuplicateIndex.FileIndex.OutputGroup` | check-duplicate-files.go:74-87 | one group is replaced by its rearranged order and prints and counts as `GroupLines` and `GroupDuplicates` say |
| `DuplicateIndex.FileIndex.PrintGroup` | check-duplicate-files.go:80-85 | the print loop emits one ranked line per path in array order and counts the paths at index > 0 |
| `DuplicateIndex.MoveDestination` | check-duplicate-files.go:140-141 | the destination `Join(removed, Base(path))` is never empty, and a moved file keeps its base name |
| `DuplicateIndex.GroupMoves` | check-duplicate-files.go:136-147 | a group of two or more issues one rename per file after the first, in group order, each to its target; a smaller group issues none |
| `DuplicateIndex.MovesMembers` | check-duplicate-files.go:136-147 | a rename is issued iff its source is a file at position 1 or later of a visited group and its destination is that file's target |
| `DuplicateIndex.FirstFileStays` | check-duplicate-files.go:136-147 | in a map with each path in one place, the first file of every group is never the source of a rename |
| `DuplicateIndex.MovesMatchCount` | check-duplicate-files.go:136-147 | after `outputMap`, the renames number at least the count it returned, and exactly that many iff every group of two or more was sorted |
| `DuplicateIndex.FileIndex.MoveDuplicates` | check-duplicate-files.go:126-149 | the renames are those of the map in the given order, each file sent to `Join(Join(root, "REMOVED"), Base(path))` |
| `DuplicateIndex.FileIndex.SelectMoves` | check-duplicate-files.go:136-148 | the loop over the map issues the renames of each visited group in turn |
| `DuplicateIndex.MoveGroup` | check-duplicate-files.go:137-146 | the loop over one group issues exactly that group's renames |
| `Cli.IsRemoveMode` | check-duplicate-files.go:30 | remove mode needs a second argument, so it always comes with a root and never with the usage error |
| `Cli.IsConfirmed` | check-duplicate-files.go:41 | the answer confirms exactly when it is the two characters 'Y' and newline |
| `Cli.ExactMatches` | check-duplicate-files.go:30-41 | "remove" and "Y\n" must match exactly: "Remove", "remove ", "y\n", "Yes\n", "Y" and "Y\r\n" are refused, and extra arguments after "remove" are ignored |
| `Cli.Prompt` | check-duplicate-files.go:39 | the question is the fixed head, then the count as `%d` writes it (canonical digits whose value is the count), then the fixed tail naming "REMOVED" and asking [Y/N] |
| `Cli.Run` | check-duplicate-files.go:21-46 | with no root argument the run fails with the usage message and only then; otherwise the count is the same for every map order, the report is that of some order, the prompt is shown iff the second argument is exactly "remove", and files move only in remove mode after the answer "Y\n", then at least as many as counted |
| `Cli.Report` | check-duplicate-files.go:34-35 | the walk from an empty map and `outputMap` give an order-independent count, the report of some order, and the sorted map |
| `Cli.Confirm` | check-duplicate-files.go:37-44 | the prompt is shown only in remove mode and renames happen only in remove mode after "Y\n" |
| `Cli.Remove` | check-duplicate-files.go:42 | without confirmation nothing moves; with it the renames are those of some order of the sorted map, at least as many as counted |
| `Cli.FirstFileStaysInRun` | check-duplicate-files.go:34-42 | when the visits the walk gets through have distinct paths, no rename of a run moves the first file of a group of the sorted map, which is the earliest file of every reported group |
| `Cli.MovesCoverCount` | check-duplicate-files.go:35-42 | the renames after `outputMap` are those of some iteration order and number at least the count it returned |

## Left out

- `filepath.WalkDir` itself: the callback's arguments (path, directory flag, error, and the bytes read) are the `visits` parameter, in the order the walk would produce them.
- `ioutil.ReadFile` and its fatal error (lines 53-56): each visit carries the file contents; a read failure is not modelled.
- `crc32.Checksum` with the table for polynomial 0xD5828281 (lines 26, 57): the checksum is a function parameter from bytes to a 32-bit value.
- The `log.Println` of a sort error (line 77), and the `log.Fatal` exit for the usage error, which is modelled as an `Err` result.
- `os.Stat`, `os.Mkdir` and `os.Rename` and their fatal errors (lines 129-143): the model returns the list of renames `moveDuplicates` would issue. It does not model the filesystem afterwards, and two moved files with the same base name are not resolved.
- Reading standard input: the answer line is a parameter.
- Distinct paths in the walk: `filepath.WalkDir` calls back once per path, except that a directory it cannot read is reported a second time with the reading error. That second call returns the error and ends the walk. The visits are a parameter here, so the lemmas that keep each path in one group, and the first file of each group in place, require `DistinctPaths(Walked(visits))`: distinct paths among the visits before the first error.
- Go's randomised map iteration: every order is a parameter listing each key once. `outputMap` and `moveDuplicates` may see different orders, so the order is chosen independently for each.
- `Timestamp.ConvertPathToTime`: the 19-unit limit counts characters of the name, not UTF-8 bytes; both agree for ASCII names.
- `time.Parse` beyond the fixed layout: time zones and other layouts are not modelled. Times are UTC, compared as six-field tuples.
- The members of `DuplicateIndex` and `PathSort` take the sort key and the rename target as parameters; `FileIndex`'s callers and `Cli` pass `ConvertPathToTime` and the `REMOVED` target.
