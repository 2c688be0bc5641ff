# NickelMenu core, modelled in Dafny

NickelMenu adds custom menu items to the Kobo e-reader software (Nickel).
This project models the parts of it that decide what happens, and proves
properties of that model:

- **Symbol checker** (`test/syms/main.go`): the build-time tool that scans the
  sources for `//libnickel <version> <symbol>` annotations. It expands each
  annotation over the known firmware versions and checks that every symbol
  resolves in every library of every version. It also reports failures, as
  plain text and as GitHub Actions annotations (modules `Annotations`,
  `Expander`, `Versions`, `Ordering`, `Driver`).
- **Menu engine** (`src/nickelmenu.cc`, module `NickelMenu`):
  - running the actions of an item, with the success/failure chaining and
    `skip`;
  - the one-shot item slot;
  - the main-menu configuration key;
  - injecting and re-injecting items into a Qt menu.
- **Generators** (`src/generator.c`, `src/generator_c.c`, module
  `Generators`): the built-in generators `_test`, `_test_time` and `kfmon`,
  and the relocation and error-item wrapper `nm_generator_do`.
- **Error register** (`src/util.c`, module `ErrState`): the thread-local error
  buffer with its truncation rule.
- **KFMon client** (`src/kfmon.c`, module `KFMon`):
  - the reply protocol;
  - the linked watch list;
  - the poll loop with retries;
  - the command packet;
  - the list parser;
  - the error reporting.
- **Actions** (`src/action_cc.cc`, module `Actions`):
  - argument parsing;
  - the error messages;
  - the state changes of `nickel_open`, `nickel_setting`, `nickel_extras`,
    `nickel_wifi`, `nickel_orientation`, `nickel_bluetooth`, `cmd_spawn` and
    `cmd_output`.

Shared modules:
- `Wrappers`: `Option` and `Result`.
- `Text`: C and Go string functions — `strsep`, `strtrim`, `strtol`,
  `strings.Split`, `strings.Fields`, NUL-terminated buffers.
- `MenuItems`: the item and action values.

Operations that work step by step over mutable state are methods proved
against a specification function:
- the watch list and its parser;
- the poll loop;
- the error register;
- the menu's action list;
- the Bluetooth, wireless and settings managers;
- the checker's loops.

Operations that only compute are functions, with lemmas about them.

## Model

| member | source | states |
|---|---|---|
| Text.NatToDecimal | src/action_cc.cc:869 | the decimal rendering of a number is a non-empty digit string whose value is that number |
| Text.Split | test/syms/main.go:122 | `strings.Split` yields at least one part and no part contains the separator |
| Text.SplitJoin | test/syms/main.go:122-123 | splitting a join of separator-free parts gives back the parts |
| Text.SplitFirst | test/syms/main.go:122 | text before the first separator becomes the first part and the rest is split in turn |
| Text.SplitConcat | test/syms/main.go:122 | splitting across a separator is the concatenation of the splits of both sides |
| Text.SplitNoSep | test/syms/main.go:122 | a string without the separator splits into itself alone |
| Text.IndexOf | src/kfmon.c:166-177 | returns the first position of the character, or none exactly when it is absent |
| Text.StrSep | src/action_cc.cc:69-72 | `strsep` cuts at the first separator (the head has none and head+sep+tail is the input) or leaves the input whole when it has none |
| Text.StrSepAt | src/action_cc.cc:69-72 | `strsep` on x+sep+y with a separator-free x returns exactly (x, y) |
| Text.SplitStrSep | src/kfmon.c:156-192 | repeated `strsep` enumerates exactly the parts of `strings.Split` |
| Text.Find | test/syms/main.go:221 | returns the first position where the pattern matches, and none exactly when it never matches |
| Text.TrimC | src/action_cc.cc:69-72 | the result of `strtrim` is empty or starts and ends with a non-space |
| Text.TrimCDropsSpace | src/action_cc.cc:69-72 | `strtrim` only drops white space: the input is white space, then the result, then white space |
| Text.TrimLeftC | src/action_cc.cc:69-72 | the result is a suffix of the input that is empty or starts with a non-space |
| Text.TrimLeftCDropsSpace | src/action_cc.cc:69-72 | everything the left trim drops is white space |
| Text.TrimLeftCSpaces | src/generator_c.c:24-25 | white space followed by text that starts with a non-space trims to exactly that text |
| Text.TrimRightC | src/action_cc.cc:69-72 | the result is a prefix of the input that is empty or ends with a non-space |
| Text.TrimRightCDropsSpace | src/action_cc.cc:69-72 | everything the right trim drops is white space |
| Text.TrimCKeeps | src/action_cc.cc:69-72 | a string with no white space at either end is left unchanged by `strtrim` |
| Text.Fields | test/syms/main.go:226 | every field `strings.Fields` returns is a non-empty word without white space |
| Text.FieldsWord | test/syms/main.go:226 | a word followed by white space or the end is the first field, and the rest is split in turn |
| Text.FieldsSkipSpace | test/syms/main.go:226 | leading white space does not change the fields |
| Text.FieldsJoin | test/syms/main.go:226 | splitting words joined by single spaces gives back exactly those words |
| Text.FieldsDropTrailingSpace | test/syms/main.go:225-226 | a trailing white-space character does not change the fields |
| Text.FieldsTrimGoSpace | test/syms/main.go:225-226 | trimming with `bytes.TrimSpace` before `strings.Fields` does not change the fields |
| Text.WordLength | test/syms/main.go:226 | the word at the start of a string is free of white space and ends at white space or at the end of the string; it is non-empty when the string starts with a non-space |
| Text.WordLengthBeforeSpace | test/syms/main.go:226 | a word followed by one more character reads the same when that character is white space |
| Text.DigitRun | src/generator_c.c:24-25 | the leading digit run is all digits and is followed by a non-digit or the end |
| Text.DigitRunAll | src/generator_c.c:24-25 | on an all-digit string the run covers the whole string |
| Text.Strtol | src/generator_c.c:24-25 | a conversion that reports success on non-empty input has consumed at least one digit |
| Text.StrtolValue | src/generator_c.c:24-25 | after leading white space, a digit run gives its decimal value, and the whole input is consumed exactly when nothing follows the digits |
| Text.StrtolSignedValue | src/generator_c.c:24-25 | a '-' before the digits negates the value, a '+' keeps it, and success again means nothing follows the digits |
| Text.StrtolNoDigits | src/generator_c.c:24-25 | with no digit, sign or further white space after the leading white space the result is 0, a success only on the empty string |
| Text.StrtolSignNoDigits | src/generator_c.c:24-25 | a sign not followed by a digit gives 0 and fails |
| Text.StrtolDigits | src/generator_c.c:24-25 | on a non-empty digit string `strtol` succeeds with the decimal value of the digits |
| Text.IntToDecimal | src/action_cc.cc:691-693 | a non-negative integer renders as its decimal digits, a negative one as '-' followed by the digits of its magnitude |
| Text.CString | src/util.c:18-22 | a NUL-terminated read stops at the first NUL: the result is a NUL-free prefix followed by NUL or the end of the buffer |
| Text.CStringStop | src/kfmon.c:100-110 | what follows a NUL in a buffer does not affect the string read from it |
| Versions.ParseAll | test/syms/main.go:274-281 | every version segment is converted with `strconv.ParseInt(p, 10, 64)`, the error discarded, one integer per segment |
| Versions.LexCmp | test/syms/main.go:259-270 | segment-wise comparison returns only -1, 0 or 1 |
| Versions.Splint | test/syms/main.go:274-281 | `splint` computes the integer segments of a version string |
| Versions.VersionCmp | test/syms/main.go:250-272 | `versioncmp`, loop and all, returns the specified comparison of the two versions |
| Versions.CompareSegments | test/syms/main.go:255-271 | the index loop of `versioncmp` gives the lexicographic order of the two segment lists, a list that runs out first being the smaller |
| Versions.LexCmpAntisymmetric | test/syms/main.go:259-270 | swapping the operands negates the comparison |
| Versions.LexCmpZeroIffEqual | test/syms/main.go:259-270 | two segment lists compare equal exactly when they are identical |
| Versions.LexCmpTransitive | test/syms/main.go:259-270 | the segment order is transitive, and strictness survives a chain |
| Versions.LexCmpProperPrefix | test/syms/main.go:266-270 | a proper prefix sorts strictly before the longer list |
| Versions.WildcardComparesEqual | test/syms/main.go:251-253 | `*` compares equal to every version in both directions |
| Versions.CompareAntisymmetric | test/syms/main.go:250-272 | version comparison is antisymmetric, and without `*` it is zero exactly when the parsed segments agree |
| Versions.CompareTransitive | test/syms/main.go:250-272 | version comparison is transitive on concrete versions, strictly when either step is strict |
| Versions.ShorterSortsFirst | test/syms/main.go:266-270 | a version whose segments are a proper prefix of another's sorts before it (4.6 < 4.6.9960) |
| Versions.NonNumericSegmentIsZero | test/syms/main.go:278 | a segment that `strconv.ParseInt(p, 10, 64)` rejects counts as 0 |
| Versions.SplitLongExample | test/syms/main.go:276 | "4.6.9960" splits into three segments |
| Versions.ParseLongExample | test/syms/main.go:278 | those segments parse to 4, 6, 9960 |
| Versions.ExamplePrefix | test/syms/main.go:250-272 | 4.6 sorts before 4.6.9960 |
| Versions.ExampleLeadingZero | test/syms/main.go:278 | 4.06 and 4.6 compare equal |
| Versions.ExampleNonNumeric | test/syms/main.go:278 | 4.x and 4.0 compare equal |
| Annotations.Ext | test/syms/main.go:200-209 | the extension of a path is empty or a dotted suffix of the path |
| Annotations.ExtShape | test/syms/main.go:200-209 | a non-empty extension has no '/' and no '.' after its leading dot, so it starts at the last '.' of the final path element |
| Annotations.ExtEmptyIff | test/syms/main.go:200-209 | the extension is empty exactly when the final path element has no '.' |
| Annotations.ExtDotted | test/syms/main.go:200-209 | a path ending in '.' followed by a suffix without '.' or '/' has that dotted suffix as its extension, e.g. `dir/name.c` has ".c" |
| Annotations.ParseLine | test/syms/main.go:219-238 | every annotation accepted from a line is well formed: a location with a key, and the versions and symbol from the line |
| Annotations.ParseLineNoMarker | test/syms/main.go:221-224 | a line without `//libnickel` declares nothing and is no error |
| Annotations.ParseLineOf | test/syms/main.go:221-236 | a line with the marker at 0-based byte `c` followed by words gives a parse error at column c+1 when there are fewer than three words or the first is `*`, and otherwise the check with location path:line:c+1, the library, the two versions and the remaining words as symbols |
| Annotations.WordsAfterMarker | test/syms/main.go:221-226 | on such a line the marker is found at the end of the marker-free prefix and the fields after it are exactly the words |
| Annotations.ScanFile | test/syms/main.go:219-238 | the line loop over one file computes the specified scan of its lines |
| Annotations.FindSymChecks | test/syms/main.go:197-248 | the walk over all files computes the specified scan, stopping at the first malformed annotation |
| Annotations.ScanLinesStopsAtError | test/syms/main.go:227-229 | once a line fails, later lines do not change the result |
| Annotations.ScanFilesStopsAtError | test/syms/main.go:227-229 | once a file fails, later files do not change the result |
| Annotations.ScanLinesOkIff | test/syms/main.go:219-238 | scanning a file succeeds exactly when every line is acceptable, and then every check is well formed |
| Annotations.ScanFilesOkIff | test/syms/main.go:197-248 | scanning a prefix of the files succeeds exactly when each file scans |
| Annotations.ScanFilesFrom | test/syms/main.go:197-248 | every check a successful scan returns was found in one of the scanned files, whose own scan succeeded |
| Annotations.ScanOkIffAllLinesOk | test/syms/main.go:197-248 | the whole scan succeeds exactly when every file is acceptable, and all checks found are well formed |
| Annotations.LocationSplits | test/syms/main.go:231-237 | for a path without ':', a "path:line:col" location splits back into its three parts |
| Expander.AddCheck | test/syms/main.go:53-58 | adding a check to a version files it under that version and library only, and keeps the plan free of duplicates |
| Expander.Selected | test/syms/main.go:53-58 | the checks planned for a version and library are exactly the checks for that library whose range covers the version |
| Expander.ExpandOne | test/syms/main.go:43-66 | the loop over versions for one check adds it where its range applies and counts exact matches of its start and end |
| Expander.ExpandChecks | test/syms/main.go:43-66 | the expansion loop computes the specified plan and warnings |
| Expander.CountExactZeroIff | test/syms/main.go:60-65 | an endpoint has no exact match exactly when no known version has it as its base |
| Expander.WarningsExact | test/syms/main.go:60-65 | a warning is issued exactly for a non-wildcard endpoint that matches no known version |
| Expander.ExpandCheckLookup | test/syms/main.go:53-58 | expanding one check adds it exactly to the versions in its range, for its library |
| Expander.ExpandPlan | test/syms/main.go:43-66 | the plan maps each known version and library to the in-range checks, in source order, and holds only versions that some check covers |
| Expander.ExpandCheckFrom | test/syms/main.go:53-58 | expanding one check adds nothing but that check |
| Expander.ExpandFrom | test/syms/main.go:43-66 | every planned check comes from the scan |
| Expander.ExactBaseOrder | test/syms/main.go:53-58 | a version whose base is an endpoint sorts at or after that endpoint |
| Expander.BaseEndExcludesBuilds | test/syms/main.go:53-58 | a build of an end version counts as an exact match but is outside the range |
| Ordering.StrLessIrreflexive | test/syms/main.go:68-74 | string order is irreflexive |
| Ordering.StrLessTrichotomy | test/syms/main.go:68-74 | of two strings exactly one of equal, less, greater holds |
| Ordering.StrLessTransitive | test/syms/main.go:68-74 | string order is transitive |
| Ordering.Insert | test/syms/main.go:68-74 | inserting adds exactly the element, as a multiset |
| Ordering.SortBy | test/syms/main.go:68-74 | sorting permutes its input |
| Ordering.InsertElems | test/syms/main.go:68-74 | the members after an insertion are the old members and the new one |
| Ordering.SortByElems | test/syms/main.go:68-74 | sorting keeps exactly the same members |
| Ordering.InsertAdjSorted | test/syms/main.go:68-74 | insertion keeps a list sorted under a total order |
| Ordering.SortByAdjSorted | test/syms/main.go:68-74 | the sort's output is sorted under a total order |
| Ordering.InsertDistinct | test/syms/main.go:68-74 | inserting a new element keeps a list duplicate-free |
| Ordering.SortByDistinct | test/syms/main.go:68-74 | sorting keeps a list duplicate-free |
| Ordering.AdjSortedIncreasing | test/syms/main.go:68-74 | a sorted duplicate-free list of strings is strictly increasing |
| Ordering.MinExists | test/syms/main.go:68-74 | every non-empty set of strings has a least element |
| Ordering.SortedKeys | test/syms/main.go:68-74 | the keys of a set in order form a strictly increasing list of exactly its members |
| Ordering.IncreasingUnique | test/syms/main.go:68-74 | two strictly increasing lists with the same members are equal, so the key order is fixed |
| Ordering.FirstIsLeast | test/syms/main.go:68-74 | the first element of an increasing list is its least |
| Ordering.TailMembers | test/syms/main.go:68-74 | the tail of an increasing list holds every member except the first |
| Ordering.SortStringsIsSortedKeys | test/syms/main.go:68-74 | `sort.Strings` of the map's keys, whatever order the map yields them in, gives the sorted key list |
| Driver.FailuresMembers | test/syms/main.go:105-125 | a failure is among a group's failures exactly when its check belongs to the group, its version and library are the group's, and none of its symbols resolves |
| Driver.Pairs | test/syms/main.go:78-85 | the groups of a version are that version paired with each library in order |
| Driver.CollectKeys | test/syms/main.go:68-74 | collecting the keys of a map gives each key exactly once |
| Driver.CheckSymbols | test/syms/main.go:105-116 | the symbol loop reports found exactly when one of the check's symbols resolves |
| Driver.RecordFailure | test/syms/main.go:117-125 | a failure is appended to both error lists, and the tool panics exactly when its file has no location key |
| Driver.CheckGroup | test/syms/main.go:105-125 | checking one group appends exactly its failures to both lists, or panics when one of them has no key |
| Driver.CheckLib | test/syms/main.go:85-126 | checking a library is one step of the specified run, with the annotation map kept in step with the error list |
| Driver.CheckGroups | test/syms/main.go:85-127 | the library loop of a version computes the specified run |
| Driver.SortedLibs | test/syms/main.go:79-83 | the libraries of a version are visited in sorted order, each planned |
| Driver.CheckVersion | test/syms/main.go:78-127 | checking a version runs its sorted libraries in turn |
| Driver.Drive | test/syms/main.go:76-128 | versions are visited once each in version order, and the outcome is the specified run over the full schedule |
| Driver.ScheduleSplit | test/syms/main.go:76-128 | the schedule of a prefix of the versions is a prefix of the whole schedule |
| Driver.RunAppend | test/syms/main.go:76-128 | running two group lists one after the other equals running their concatenation |
| Driver.RunSnoc | test/syms/main.go:76-128 | running one more group is one more step |
| Driver.RunStopped | test/syms/main.go:88-103 | after a missing binary or a panic nothing more runs |
| Driver.GroupFromAppend | test/syms/main.go:117-125 | grouping annotation messages is compositional |
| Driver.RunOutcome | test/syms/main.go:76-128 | the run completes exactly when every group has no data or a loaded binary whose failures all have location keys, and then it collects every group's failures in order |
| Driver.AllFailuresMembers | test/syms/main.go:105-125 | a failure is reported exactly when its check is planned for a scheduled group and does not resolve there |
| Driver.RowMembers | test/syms/main.go:79-85 | the groups of a version are exactly its planned libraries |
| Driver.ScheduleCovers | test/syms/main.go:76-128 | the schedule holds exactly the planned version/library pairs of the visited versions |
| Driver.SchedulePlanned | test/syms/main.go:76-128 | every scheduled group is planned |
| Driver.DriveFailures | test/syms/main.go:76-128 | over a full permutation of the versions, a completed run reports exactly the planned checks that do not resolve |
| Driver.GroupFromMessages | test/syms/main.go:117-125 | a file key gets annotation lines exactly when some failure has that key, and they are its messages in order |
| Driver.LocationHasKey | test/syms/main.go:117-125 | every "path:line:col" location yields an annotation key |
| Driver.LocationKey | test/syms/main.go:117-125 | for a path without ':', the annotation key of a location is "file=<path>,line=<line>,col=<col>" |
| Driver.VersionOrderSorted | test/syms/main.go:68-74 | a version order sorted by adjacent pairs is sorted for every pair |
| Driver.ExitStatus | test/syms/main.go:129-147 | the tool exits 0 exactly when it completes with no failures |
| Driver.DriveSucceeds | test/syms/main.go:76-147 | the tool exits 0 exactly when every planned group is skipped for want of data or has every check resolve in its binary |
| Driver.SucceedsOnlyIfAllPass | test/syms/main.go:76-147 | a clean run means every planned check resolves |
| Driver.AllPassSucceeds | test/syms/main.go:76-147 | if every planned check resolves, the run is clean |
| Driver.AllFoundNoFailures | test/syms/main.go:105-125 | a group whose checks all resolve has no failures |
| Driver.AllFailuresEmpty | test/syms/main.go:105-125 | if every planned check resolves, no scheduled group reports a failure |
| Driver.AnnotationLines | test/syms/main.go:143-145 | one "::error key::messages" line per key, with the messages joined by %0A |
| Driver.Report | test/syms/main.go:129-147 | the report is empty on success; otherwise it is the header, one line per failure in order, and then the annotations |
| Driver.Annotate | test/syms/main.go:137-146 | the annotations follow the sorted order of their keys |
| Driver.WellFormedHasKey | test/syms/main.go:117-125 | a scanned check always has a location key |
| Driver.KeyedNeverPanics | test/syms/main.go:117-125 | when every planned check has a key, the run never panics |
| Driver.ScannedNeverPanics | test/syms/main.go:43-128 | plans built from scanned annotations never make the tool panic |
| Driver.CheckRepository | test/syms/main.go:21-148 | the whole tool exits 1 on a malformed annotation, emits the expansion warnings, exits 0 exactly when everything resolves, and never panics |
| ErrState.Stored | src/util.c:24-40 | what the error buffer holds is shorter than the buffer and NUL-free |
| ErrState.CStringOfText | src/util.c:18-22 | reading back NUL-free text gives the text |
| ErrState.StoredFits | src/util.c:31-36 | a message that fits is stored verbatim |
| ErrState.StoredTruncates | src/util.c:31-35 | a message that does not fit keeps its first 2044 characters, followed by "..." |
| ErrState.StoredIdempotent | src/util.c:24-40 | storing a stored message changes nothing |
| ErrState.ErrorRegister.constructor | src/util.c:6-8 | a new register holds no error |
| ErrState.ErrorRegister.Peek | src/util.c:18-22 | `nm_err_peek` returns the message exactly when an error is pending |
| ErrState.ErrorRegister.Take | src/util.c:10-16 | `nm_err` returns the pending message and clears the pending flag |
| ErrState.ErrorRegister.Format | src/util.c:24-35 | formatting returns the untruncated length and leaves a NUL-terminated copy in the scratch buffer |
| ErrState.ErrorRegister.MarkCut | src/util.c:31-35 | a message that did not fit keeps its first 2044 characters and ends with three dots before the final NUL |
| ErrState.ErrorRegister.CopyScratch | src/util.c:36 | the message buffer becomes a copy of the scratch buffer, which is left as it was |
| ErrState.BufferHolds | src/util.c:24-40 | a buffer holding the message, or its cut form, followed by a NUL reads back as the stored form of the message |
| ErrState.ErrorRegister.Set | src/util.c:24-40 | setting stores the truncated message and marks an error pending; clearing keeps the buffer |
| ErrState.SetPeekTakeTwice | src/util.c:10-40 | a set error can be peeked, is taken once, and is gone on the second take |
| ErrState.SetThenClear | src/util.c:10-40 | clearing after a set leaves nothing to peek or take |
| KFMon.Code | src/kfmon.h:17-45 | each status has a code; only success is 0, and errors lie in 512..532 |
| KFMon.HandleReply | src/kfmon.c:56-95 | reading a reply never ends in "try again" for a simple request |
| KFMon.PrefixAt | src/kfmon.c:56-95 | a matching prefix fixes the leading characters |
| KFMon.Excludes | src/kfmon.c:56-95 | a reply can begin with at most one of two words that differ early |
| KFMon.HandleReplyByWord | src/kfmon.c:72-91 | a reply gets a known status exactly when it begins with that status's reply word |
| KFMon.HandleReplyUnknown | src/kfmon.c:89-91 | an unknown-reply status means the reply starts with none of the known words |
| KFMon.WatchIndexTruncates | src/kfmon.c:189 | the index read from a list line is the number modulo 256, because it is stored in a `uint8_t` |
| KFMon.ParseWatch | src/kfmon.c:156-192 | a list line yields a watch exactly when it contains a colon |
| KFMon.ParseWatchLine | src/kfmon.c:156-192 | a line written from a watch with colon-free fields parses back to that watch |
| KFMon.ParseLines | src/kfmon.c:156-192 | the parser adds at most one watch per line |
| KFMon.Leading | src/kfmon.c:156-163 | parsing stops at the first empty line |
| KFMon.ParseLinesSpec | src/kfmon.c:156-192 | the list parses exactly when every line before the first empty one has a colon, and then it yields one watch per such line, in order |
| KFMon.ParseLinesOkIff | src/kfmon.c:156-192 | the list parses exactly when every line before the first empty one has a colon |
| KFMon.ParseLinesWatches | src/kfmon.c:156-192 | a list that parses yields one watch per line before the first empty one, each the watch of its line, in order |
| KFMon.ListReplyRejectsControl | src/kfmon.c:124-132 | a control reply to a list request adds no watch and reports invalid command or unknown reply |
| KFMon.ListReplyEndOfText | src/kfmon.c:138-143 | a list reply is complete exactly when it ends in NUL; otherwise the client waits for more |
| KFMon.Node.constructor | src/kfmon.c:35-38 | a new node is zeroed and unlinked |
| KFMon.WatchList.constructor | src/generator_c.c:114 | a new list is empty, as the caller's zero-initialised `kfmon_watch_list_t` |
| KFMon.WatchList.Grow | src/kfmon.c:33-53 | growing appends a fresh zeroed node at the tail and keeps the links |
| KFMon.WatchList.SetTail | src/kfmon.c:186-191 | filling the tail changes only the last watch |
| KFMon.WatchList.Append | src/kfmon.c:33-53 | appending adds exactly one watch at the end |
| KFMon.WatchList.Teardown | src/kfmon.c:18-30 | teardown frees every node, in list order, and empties the list |
| KFMon.SplitWatchLine | src/kfmon.c:156-192 | the `strsep` code on one line computes the specified watch |
| KFMon.HandleListReply | src/kfmon.c:98-200 | the list-reply handler returns the specified status and appends exactly the specified watches |
| KFMon.LinesStep | src/kfmon.c:156 | splitting off one line with `strsep` leaves the remaining lines |
| KFMon.ParseLinesCons | src/kfmon.c:156-192 | the parser handles one line and continues |
| KFMon.ResumeStep | src/kfmon.c:156-192 | one turn of the line loop is one step of the parse |
| KFMon.NextLine | src/kfmon.c:156-192 | one turn of the line loop appends that line's watch and leaves a shorter remainder |
| KFMon.CutLine | src/kfmon.c:156-177 | one `strsep` ends the parse on an empty line, fails it on a line without ':', or yields the line's watch, and leaves a shorter remainder |
| KFMon.ParseInto | src/kfmon.c:156-192 | the line loop appends exactly the watches the parse specifies and reports whether it succeeded |
| KFMon.Step | src/kfmon.c:255-323 | one poll event never ends in "try again", counts timeouts, and only stops on a timeout once the retries are used up |
| KFMon.WaitNeverAgain | src/kfmon.c:255-323 | waiting for replies never ends in "try again" |
| KFMon.Timeouts | src/kfmon.c:309-318 | the timeouts among the events are at most all of them |
| KFMon.TimedOutAfterAttempts | src/kfmon.c:309-318 | a timed-out wait has seen at least as many timeouts as the retries left |
| KFMon.TimeoutRun | src/kfmon.c:309-318 | a run of n timeouts has n events, all timeouts |
| KFMon.TimeoutsEndWait | src/kfmon.c:309-318 | enough timeouts in a row end the wait with a timeout and no watches |
| KFMon.HangUpIsEPipe | src/kfmon.c:277-283 | a hang-up after an unsuccessful read is a broken pipe |
| KFMon.AgainKeepsWaiting | src/kfmon.c:284-286 | an incomplete list reply keeps waiting |
| KFMon.Poll | src/kfmon.c:255-323 | one poll step computes the specified outcome and appends its watches to the list |
| KFMon.PollNext | src/kfmon.c:265-319 | one poll either ends the whole wait with its status and the watches added so far, or leaves the rest of the wait to the following events |
| KFMon.HandleAny | src/kfmon.c:277 | the handler called is the list handler exactly when a list is given; it returns that handler's status and its watches go at the end of the list |
| KFMon.WaitForReplies | src/kfmon.c:255-323 | the poll loop returns the specified status and appends the specified watches |
| KFMon.ListBuffer | src/kfmon.c:100-110 | the reply read lands at the start of a zeroed buffer of PIPE_BUF bytes |
| KFMon.UnterminatedListBuffer | src/kfmon.c:100-110 | a full read of PIPE_BUF bytes leaves no NUL in the buffer |
| KFMon.ListBufferTerminated | src/kfmon.c:100-110 | a read capped one byte short always leaves a NUL, and the string is the data |
| KFMon.PacketOverRead | src/kfmon.c:241-253 | the length sent can exceed the 256-byte buffer |
| KFMon.Packet | src/kfmon.c:241-253 | the packet is the NUL-terminated command, cut to fit the buffer |
| KFMon.PacketRoundTrip | src/kfmon.c:241-253 | a packet that fits reads back as the command and its argument |
| KFMon.Setup | src/kfmon.c:325-358 | a request proceeds exactly when both the connection and the send succeed |
| KFMon.SimpleRequest | src/kfmon.c:325-358 | a simple request never ends in "try again" |
| KFMon.WaitSuccessNeedsOk | src/kfmon.c:255-323 | a simple wait succeeds only after an OK reply |
| KFMon.SimpleRequestSuccess | src/kfmon.c:325-358 | a successful simple request was connected and sent, and KFMon answered OK |
| KFMon.ListRequest | src/kfmon.c:361-394 | a list request sends the list packet once connected, returns the setup failure or the wait status, and appends exactly the watches received |
| KFMon.ErrorMessage | src/kfmon.c:397-451 | the message text of each failure status, with `%m` rendered as the given error text |
| KFMon.ErrorHandler | src/kfmon.c:397-451 | the handler fails exactly on a non-success status and then stores that status's message |
| KFMon.ReturnHandler | src/kfmon.c:453-457 | the action result is silent on success; otherwise there is no result and the error is pending |
| KFMon.TriggerStatus | src/action_c.c:38-48 | an invalid-id status is reported as an invalid-name status, and every other status is kept |
| KFMon.RequestFailureReported | src/kfmon.c:397-457 | after a failed request the caller takes exactly the message of that status |
| Generators.Relocated | src/generator.c:36-46 | the first n items take the generator's location, whatever they held; later items are unchanged |
| Generators.GeneratorDo | src/generator.c:11-50 | an error becomes one error item; otherwise the generated items are passed on, relocated |
| Generators.TestCount | src/generator_c.c:24-30 | an accepted count is at most 10 |
| Generators.TestItems | src/generator_c.c:32-41 | the test generator makes exactly n items |
| Generators.TestGenerator | src/generator_c.c:17-49 | `_test` generates once: an invalid count is an error, 0 gives no items, otherwise n items and the time is updated |
| Generators.MakeTestItems | src/generator_c.c:32-41 | the array holds exactly the `n` generated items, labelled from 1 in order |
| Generators.TestCountDigits | src/generator_c.c:24-30 | a digit string is accepted as a count exactly when its value is at most 10 |
| Generators.TestLabelsDistinct | src/generator_c.c:32-41 | the test items have distinct labels |
| Generators.TestTimeGenerator | src/generator_c.c:51-91 | `_test_time` rejects an argument, skips when regenerated within a few seconds, and otherwise makes one item labelled with the local time |
| Generators.TestTimeTwice | src/generator_c.c:51-91 | a second call within the window generates nothing |
| Generators.Pad2Digits | src/generator_c.c:76-83 | each clock field is rendered as two digits of its value |
| Generators.TimeLabelFields | src/generator_c.c:76-83 | the time label splits into hour, minute and second fields |
| Generators.KfmonCommand | src/generator_c.c:104-111 | only no argument, "gui" and "all" are accepted; "all" lists every watch and the others list the GUI watches |
| Generators.WatchItems | src/generator_c.c:129-143 | one item per watch, labelled with the watch label and triggering its file |
| Generators.ItemsOfList | src/generator_c.c:129-143 | the item array holds one item per watch of the list, in order |
| Generators.ListWatchItems | src/generator_c.c:114-148 | a failed list is an error, an empty list gives no items, and otherwise one item per watch |
| Generators.ItemsOfAnswer | src/generator_c.c:117-146 | a failed status is reported as its error, an empty list gives no items, and otherwise one item per watch in list order |
| Generators.KfmonGenerator | src/generator_c.c:93-150 | `kfmon` regenerates only when the modification time of KFMon's IPC socket changed, and reports stat, argument and list failures as errors |
| NickelMenu.ItemEffects | src/nickelmenu.cc:729-806 | the effects of running an item are those of the specified run |
| NickelMenu.ItemDo | src/nickelmenu.cc:729-806 | the action loop produces exactly the specified effects |
| NickelMenu.NegativeSkipSkipsRest | src/nickelmenu.cc:738-742 | a skip of -1 skips every later action |
| NickelMenu.PositiveSkipSkips | src/nickelmenu.cc:738-742 | a skip of k passes over the next k actions |
| NickelMenu.CalledIffRan | src/nickelmenu.cc:743-760 | an action is called exactly when it is not skipped and its success/failure gate opens; a failed argument transform is an error |
| NickelMenu.SuccessAfterRun | src/nickelmenu.cc:762-771 | after an action runs, the success flag is whether it reported no error; an error-free skip result leaves it unchanged |
| NickelMenu.LastRan | src/nickelmenu.cc:729-806 | the last action that ran is an action that did run |
| NickelMenu.ErrorOfLastRan | src/nickelmenu.cc:762-771 | the pending error is the one from the last action that ran |
| NickelMenu.ErrorDialogIff | src/nickelmenu.cc:802-805 | the error dialog is shown exactly when the last action that ran failed |
| NickelMenu.ItemSlot.constructor | src/nickelmenu.cc:482-491 | the slot starts empty |
| NickelMenu.ItemSlot.Hook | src/nickelmenu.cc:482-491 | storing an item remembers it; reading returns the item and empties the slot |
| NickelMenu.SlotOneShot | src/nickelmenu.cc:482-491 | a stored item can be taken exactly once |
| NickelMenu.SlotEmpty | src/nickelmenu.cc:482-491 | an empty slot yields nothing |
| NickelMenu.MainMenuKeyFits | src/nickelmenu.cc:267-274 | for a one-digit index and an option of up to 11 characters the configuration is looked up under the full key |
| NickelMenu.MainMenuKeyTooLong | src/nickelmenu.cc:267-274 | the buffer holds 30 bytes, the length of "menu_main_15505_9_icon_active" plus a NUL; a key of 30 or more characters, i.e. a two-digit or negative index with an option of 11 or more characters, or any option of 12 or more, does not fit and is never looked up |
| NickelMenu.Untagged | src/nickelmenu.cc:674-681 | removing the injected entries never adds entries |
| NickelMenu.UntaggedConcat | src/nickelmenu.cc:674-681 | removal distributes over concatenation |
| NickelMenu.UntaggedNone | src/nickelmenu.cc:674-681 | a menu with nothing injected is left as is |
| NickelMenu.UntaggedClean | src/nickelmenu.cc:674-681 | after removal nothing injected remains |
| NickelMenu.Block | src/nickelmenu.cc:706-721 | every entry of the injected block is tagged as injected |
| NickelMenu.InsertionPoint | src/nickelmenu.cc:685-688 | the insertion point is within the menu |
| NickelMenu.InjectedItemsConcat | src/nickelmenu.cc:706-721 | the injected items of a concatenation are the items of both parts |
| NickelMenu.InjectedItemsClean | src/nickelmenu.cc:674-681 | a menu with nothing injected has no injected items |
| NickelMenu.BlockItems | src/nickelmenu.cc:706-721 | the block holds exactly the items for this location, in order |
| NickelMenu.BlockUntagged | src/nickelmenu.cc:706-721 | removal deletes the whole block |
| NickelMenu.BlockUntaggedPrefix | src/nickelmenu.cc:706-721 | removal deletes any prefix of the block |
| NickelMenu.SplitClean | src/nickelmenu.cc:685-688 | splitting a clean menu at the insertion point leaves two clean halves |
| NickelMenu.UntaggedAround | src/nickelmenu.cc:674-721 | removing a block inserted into a clean menu gives back the menu |
| NickelMenu.InjectKeepsOwnEntries | src/nickelmenu.cc:663-727 | injection never changes Nickel's own entries |
| NickelMenu.InjectAddsMatching | src/nickelmenu.cc:663-727 | after a non-skipped injection the injected items are exactly the items for this location, and the revision is current |
| NickelMenu.InjectIdempotent | src/nickelmenu.cc:663-727 | injecting twice at the same revision equals injecting once |
| NickelMenu.Menu.constructor | src/nickelmenu.cc:663-727 | a menu starts with Nickel's entries at revision 0 |
| NickelMenu.Menu.RemoveInjected | src/nickelmenu.cc:674-681 | an up-to-date menu is left alone; otherwise every injected entry is removed |
| NickelMenu.Menu.CreateActionBefore | src/nickelmenu.cc:808-846 | an item and its separator are inserted at the given position, both tagged |
| NickelMenu.Menu.Inject | src/nickelmenu.cc:663-727 | injection updates the menu and its revision as specified |
| NickelMenu.Menu.InsertItems | src/nickelmenu.cc:708-723 | the items for the menu's location go in, in order, before the insertion point, and the rest of the menu is unchanged |
| Actions.CutPlain | src/action_cc.cc:69-72 | a non-empty argument without a colon and with no C white space at either end is cut into itself and no second part |
| Actions.NameKeeps | src/action_cc.cc:69-72 | a lower-case name is kept intact by trimming and has no colon |
| Actions.CutNames | src/action_cc.cc:69-72 | "a:b" with names a and b is cut into a and b |
| Actions.CutTrimmed | src/action_cc.cc:69-72 | "a:b" with a colon-free, trimmed a and a trimmed b is cut into a and b |
| Actions.RotatedInvolution | src/action_cc.cc:677-693 | invert and swap change a known orientation, keep it concrete, undo themselves, and each keeps one of axis or inversion and flips the other |
| Actions.OrientationFixed | src/action_cc.cc:677-693 | an argument other than invert or swap does not depend on the current orientation |
| Actions.Resolve | src/action_cc.cc:975-977 | toggle becomes on or off according to the current power state; other requests are kept |
| Actions.BluetoothManager.constructor | src/action_cc.cc:930-998 | the manager starts with the given power state and no calls |
| Actions.BluetoothManager.Up | src/action_cc.cc:975 | asking for the power state records the call and changes nothing |
| Actions.BluetoothManager.On | src/action_cc.cc:983 | turning on records the call and powers the device |
| Actions.BluetoothManager.Off | src/action_cc.cc:988 | turning off records the call and powers the device down |
| Actions.BluetoothManager.Scan | src/action_cc.cc:984 | a scan records the call and keeps the power state |
| Actions.BluetoothManager.StopScan | src/action_cc.cc:987 | stopping a scan records the call and keeps the power state |
| Actions.NickelBluetooth | src/action_cc.cc:930-998 | an unknown argument is an error with no calls; otherwise it queries the power state, makes the calls of the resolved request, and toasts the outcome |
| Actions.ToggleBluetoothTwice | src/action_cc.cc:975-989 | toggling twice restores the power state and toasts off then on, or the reverse |
| Actions.WirelessManager.constructor | src/action_cc.cc:629-675 | the manager starts with the given airplane mode and no calls |
| Actions.WirelessManager.Call | src/action_cc.cc:640-672 | a call is recorded, and only setting airplane mode changes it |
| Actions.NickelWifi | src/action_cc.cc:629-675 | a known wifi action makes its calls silently; an unknown one is an error that changes nothing |
| Actions.EnableWifiTwice | src/action_cc.cc:640-672 | enabling twice leaves airplane mode off and turns it off at most once |
| Actions.SettingsStore.constructor | src/action_cc.cc:217-443 | the store starts with the given settings |
| Actions.SettingsStore.Set | src/action_cc.cc:278-433 | writing a setting changes that setting only |
| Actions.NickelSetting | src/action_cc.cc:217-443 | a bad argument is an error that changes nothing; otherwise the named setting takes its new value and the action reports it |
| Actions.ToggleSetting | src/action_cc.cc:217-443 | `toggle` flips the named setting, leaves every other setting alone and reports the new value |
| Actions.ModeNames | src/action_cc.cc:229-236 | every mode name parses back to its mode |
| Actions.SettingNames | src/action_cc.cc:278-433 | every setting name parses back to its setting |
| Actions.ParseSettingNames | src/action_cc.cc:224-433 | "mode:setting" built from any mode and setting parses to that request |
| Actions.ToggleSettingTwice | src/action_cc.cc:217-443 | toggling a setting twice restores it and reports the two values in turn |
| Actions.ExtrasMimetypeStable | src/action_cc.cc:445-460 | the mimetype chosen always contains a slash and is chosen again from itself |
| Actions.ViewTable | src/action_cc.cc:136-176 | the table has a view under a category and name exactly when some view has that category and name |
| Actions.ViewNames | src/action_cc.cc:136-176 | category and view names are lower-case names |
| Actions.ViewTableNames | src/action_cc.cc:136-176 | each view is found in the table under its own category and name |
| Actions.CloudViewNames | src/action_cc.cc:75-134 | only the Dropbox and Google Drive views have the names that get special treatment |
| Actions.OpenNames | src/action_cc.cc:68-215 | opening "category:view" gives that view, except Dropbox and Google Drive on the new navigation, which open their controllers |
| Actions.QuietPrefixGiven | src/action_cc.cc:843-850 | a "quiet:" prefix is removed and makes the action silent |
| Actions.QuietPrefixAbsent | src/action_cc.cc:843-850 | an argument without a colon is used as is and is not quiet |
| Actions.QuietPrefixOther | src/action_cc.cc:843-850 | a prefix other than "quiet" is part of the command |
| Actions.CmdSpawnToast | src/action_cc.cc:842-870 | a process that starts yields a silent result exactly when quiet, and otherwise a toast with its PID |
| Actions.Truncated | src/action_cc.cc:921-923 | output of up to 500 characters is kept; longer output keeps its first 500 characters followed by "..." |
| Actions.OutputNullCommand | src/action_cc.cc:873-887 | a bare timeout passes the checks with no command |
| Actions.DigitsPlain | src/action_cc.cc:873-879 | a digit string has no colon or white space |
| Actions.OutputArgs | src/action_cc.cc:873-887 | an accepted argument has a colon and a timeout between 1 and 9999 |
| Actions.OutputTimeoutDigits | src/action_cc.cc:873-879 | "t:cmd" with a digit string t is accepted exactly when t is between 1 and 9999, and then that is the timeout |
| Actions.CmdOutputShows | src/action_cc.cc:872-928 | a command that exits with status 0 gives its output, truncated and converted, or nothing when quiet |

## Left out

- **Menu loading** (`src/config.c`, `src/nickelmenu.cc`'s hooks of the Qt menu
  constructors and `dlsym` lookups): not part of this model. The menu state
  and the item list are inputs.
- **Calls into Nickel and Qt:** `dlsym`, `QProcess`, `QScreen` and the
  settings objects are not part of this model. They are replaced by explicit
  managers (`BluetoothManager`, `WirelessManager`, `SettingsStore`) or by
  function parameters (`start`, `run`, `html`, `config`, `resolves`, `bin`).
- **Reading a setting back:** the "failed to set setting" checks are not
  modelled; a write always takes effect.
- **Stale headers:** `src/generator.h` and `src/util.h` use macro names that
  differ from the code. The code is followed.
- **The `kfmon` generator's error path:** it calls `nm_kfmon_error_handler`
  with an argument list that no longer matches the handler. The model reports
  the handler's message as the generator's error.
- **The `kfmon` generator on an empty list:** it does not update the time,
  and the model keeps this.
- **The watch list on an error status:** the list is leaked; the model leaves
  it as it is.
- **`strtrim`:** its definition is not part of this model. It is taken to
  trim C white space and to pass NULL through.
- **Allocation failures** (`calloc`, `malloc`, `strdup`): not modelled.
- **The clock and the file-system time:** they are parameters.
- **The sockets:** modelled as a session, i.e. a connect result, a send
  result and a list of poll events.
- **`_nm_selmenu_argtransform`:** it is an oracle, the `transform` field of
  `Env`.
- **`nickel_open` on old firmware:** the `MoreController` symbol used there
  for library:dropbox/gdrive is not modelled.
- **Go map iteration order:** modelled by an arbitrary choice.
- **`sort.Slice` and `sort.Strings`:** modelled by an insertion sort, proved
  to give the unique sorted order.
- **`splint`:** overflow clamping of very large segments is not modelled.
- **Opening the symbol checker's binaries:** modelled as the `bin` oracle.
- **The remaining actions:** `nickel_browser`, `nickel_misc`, `power`,
  `dbg_*`, `skip` (beyond its result) and `kfmon_id` are not part of this
  model.
- **The text of an orientation change:** the effect of `nickel_orientation`
  on the screen is not modelled; only the chosen orientation is.
- KFMon.ListRequest: requires `ListReadsFit`, i.e. each reply read fits the
  capped buffer. Without it the read can run past the buffer (see Findings).
- Generators.KfmonGenerator: requires `Concludes`, i.e. the session's events
  end the wait, so that the list status is defined.
- Generators.ListWatchItems: requires `ListReadsFit` and `Concludes`, as
  above.
- KFMon.WatchIndexTruncates: only covers indices up to ULONG_MAX; `strtoul`'s
  saturation beyond it is not modelled.
- **Text encoding:** a `char` stands for one byte of ASCII text. Go's
  `bytes.Index` counts bytes and `strings.Fields` and `bytes.TrimSpace` decode
  UTF-8, and `QString` lengths count UTF-16 units; the model's white-space
  test includes the Unicode spaces Go recognises, but columns and lengths
  agree with the code only on ASCII text.
- Annotations.ParseLine: the column in a location is the index of the marker
  in the model's characters, which is the code's byte column only when the
  text before the marker is ASCII.
- Actions.Truncated: the 500-character limit counts characters, which is the
  code's count of UTF-16 units only for text inside the Basic Multilingual
  Plane.
- Annotations.FindSymChecks: read failures are not modelled: an open error
  (test/syms/main.go:211-214) and a scanner error (test/syms/main.go:239-241),
  such as a line over `bufio.Scanner`'s 64 KiB limit or a directory whose
  name ends in `.c`. Every file is given as its list of lines.
- Driver.CheckRepository: for the same reason it does not model the tool
  printing `[FTL]` and exiting 1 on such a read failure
  (test/syms/main.go:22-27); it exits 1 only on a malformed annotation.
- NickelMenu.MainMenuKeyFits: only covers one-digit indices; larger indices
  are covered only through `MainMenuKeyTooLong`.

## Findings

| source | as written | input that shows it | evidently intended | confidence | as-written member | corrected member |
|---|---|---|---|---|---|---|
| src/kfmon.c:241-253 | the length sent is the one `snprintf` reports, which is the untruncated length | the command "trigger" with a 255-character argument: "trigger:" plus the argument and its NUL make 264 bytes, which the send reads from the 256-byte buffer | send at most the bytes written into the buffer | not executed | KFMon.PacketOverRead | KFMon.PacketRoundTrip |
| src/kfmon.c:100-110 | a list reply is read into a PIPE_BUF buffer with up to PIPE_BUF bytes | a reply of exactly PIPE_BUF bytes leaves no NUL, and the `strsep` loop runs past the buffer | read at most PIPE_BUF-1 bytes so that a NUL always remains | not executed | KFMon.UnterminatedListBuffer | KFMon.ListBufferTerminated |
| src/action_cc.cc:873-887 | the timeout is parsed and checked before the colon is required | the argument "100" passes the timeout check with no command, and the NULL command is then duplicated | reject an argument without a colon before using the command | not executed | Actions.OutputNullCommand | Actions.OutputArgs |
