# Linux updates check: a Dafny model

This project models the part of a Zabbix agent plugin that counts the package updates waiting on a
Linux host, and the standalone command that does the same.

* **The APT update engine** (`plugin/handlers/handlers.go`) runs `apt-get -s upgrade` in the C
  locale, with or without phased updates. It reads the "deferred due to phasing" section of the
  simulation and turns every `Inst` line into an update record: name, installed version, target
  version, phased flag. It filters the records by update type (all, security, recommended,
  optional) by asking `apt-cache policy`. `GetAllUpdates` runs two simulations: the first fills
  the set of deferred packages, and the second marks its records with that set. The updates are
  then put into phased, security, recommended and optional buckets. The engine also reports the
  time of the last `apt update` (the newest file under `/var/lib/apt/lists`). It keeps the
  deprecated `apt list` line parser `parsePackageLine`.
* **The standalone command** (`main.go`) reads two environment variables into its settings. It
  finds APT or DNF on the path, parses `apt list --upgradable` or `dnf check-update`, and reports
  the count against a warning threshold.

Modules, one file each:

| module | file | contents |
|---|---|---|
| `Wrappers` | `wrappers.dfy` | `Option`, `Result` |
| `Exec` | `exec.dfy` | an external command as a `Runner`: command and arguments to combined output and an optional error (an exit status, or a failure to start) |
| `Seqs` | `seqs.dfy` | `Filter`, `Collect` (filter and map in one), `Map`, with membership, append and idempotence lemmas |
| `GoStrings` | `strings.dfy` | the Go library functions the code uses: `unicode.IsSpace`, `strings.TrimSpace`/`Fields`/`Split`/`Join`/`Contains`/`HasPrefix`/`HasSuffix`/`TrimSuffix`/`ToLower`, `strconv.Atoi` on 64-bit integers, and RE2's `\s` |
| `AptOutput` | `apt_output.dfy` | `parsePackageLine`; the scan of the deferred section; a recogniser for the `Inst` pattern with round-trip lemmas |
| `Handlers` | `handlers.dfy` | type selection, `isPackageOfType`, `checkAPTUpdates` (the function `Check` and the step-by-step method `CheckAptUpdates`), the four handlers, the bucketing of `GetAllUpdates`, `getLastAptUpdateTime` |
| `Cli` | `cli.dfy` | the settings (`Config` class with `Init`), `detectPackageManager`, the APT and DNF checks and their line parsers, `Check` |

Each command is a `Runner` value. The functions say what a check computes from the commands'
answers. The methods are written step by step, as the Go loops are, and each one is proved
equal to its function. The lemmas state what the code's comments and tests promise about those functions.

Notes on the code as written:

* The type filter runs twice in `checkAPTUpdates`: in the `Inst` loop and again after it. Both
  passes ask the same `Runner`, so the second pass removes nothing
  (`Handlers.SecondFilterKeepsAll`). A failed policy query drops the package in both passes.
* The deferred scan collects every field of every non-summary line between the header and the
  first `N upgraded` line. Words of other sections that fall in between (for example "The
  following packages will be upgraded:") are collected too (`AptOutput.DeferredMembership`).
  See "## Findings"; `AptOutput.DeferredSection` is the scan that stops at the next section.
* The `Inst` target is the run up to the first space or `)`. It can keep a trailing `]`, or be
  `[phased` when a phasing marker follows `(`. The lemmas `AptOutput.TargetWithBracket` and
  `AptOutput.PhasingMarkerTarget` show both cases. The test at
  `src/plugin/handlers/handlers_test.go:108-110` expects no target to hold `[` or `]`, and the
  format comment at `plugin/handlers/handlers.go:580` shows the target without brackets; the
  model follows the code.
* An `Inst` line that ends at its bracketed version (`Inst pkg [1.2]`, the fixture of
  `plugin/handlers/handlers_test.go`) yields no record (`AptOutput.BracketOnlyRejected`).
* `apt list --upgradable` in `main.go` takes the *last* field as the target, verbatim.
  `dnf check-update` drops the last two `-` pieces of the last field, so `1.2-3` gives an empty
  target (`Cli.DnfTwoPieceTarget`).
* Exit status 100 from `apt list` gives an empty result whose warning threshold is 0, not the
  configured one (`Cli.AptExitStatus`).
* `getUpdateTypeAndFlagsFromExtra` compares the trimmed first parameter case-sensitively.
  Phasing flags are matched in lower case in every parameter, the first one included.

## Model

Each method's row also covers the function it is proved equal to: `Handlers.CheckAptUpdates` covers
`Handlers.Check`, `Handlers.GetAllUpdates` covers `Handlers.AllUpdates`, `AptOutput.ScanDeferred`
covers `AptOutput.Deferred`, `Cli.ParseAptList` covers `Cli.AptListLine`, `Cli.ParseDnfList` covers
`Cli.DnfLine`, `Cli.CheckDnfUpdates` covers `Cli.DnfCheck` and `Cli.Check` covers `Cli.CheckFor`.
`Handlers.IsPhasedUpdate` (plugin/handlers/handlers.go:325-333) is covered by
`Handlers.PhasedUpdateSimplified`, and `Handlers.InCategory` with `Handlers.Placed`
(plugin/handlers/handlers.go:222-258) by `Handlers.BucketMembership`, `Handlers.Bucketize` and
`Handlers.OptionalFailureOnly`.

| member | source | states |
|---|---|---|
| `Handlers.UpdateTypeFromExtra` | plugin/handlers/handlers.go:292-305 | with no parameters the type is "all" |
| `Handlers.TypeFromName` | plugin/handlers/handlers.go:292-305 | the exact name of a type as the first parameter selects it, whatever follows |
| `Handlers.NameFromType` | plugin/handlers/handlers.go:292-305 | a type other than "all" is chosen only by its exact trimmed name; any other first parameter gives "all" |
| `Handlers.UpdateTypeAndFlagsFromExtra` | plugin/handlers/handlers.go:337-362 | the type is that of the first parameter, and phased updates are included iff some parameter contains "phased" or "include" in lower case |
| `Handlers.SelectType` | plugin/handlers/handlers.go:341-351 | the switch on the trimmed first parameter picks the same type as `getUpdateTypeFromExtra` |
| `Handlers.IsPackageOfType` | plugin/handlers/handlers.go:365-404 | security and optional ask `apt-cache policy`; a failed query is an error; otherwise the answer is the presence of the security markers, or of universe/multiverse; every other type holds without a query |
| `Handlers.NoQueryForOtherTypes` | plugin/handlers/handlers.go:383-403 | recommended and all hold on every machine, without running a command |
| `Handlers.ClassificationByPolicy` | plugin/handlers/handlers.go:365-404 | the classification depends only on the answer to `apt-cache policy <name>` |
| `Handlers.PhasedUpdateSimplified` | plugin/handlers/handlers.go:325-333 | a package is phased iff it is flagged or "phased" appears in the lower case of its name and target; the separate "[phased" test adds nothing |
| `Handlers.EffectiveDeferred` | plugin/handlers/handlers.go:532-576 | a supplied deferred set is kept; otherwise the scanned set is used when it is not empty, and none when it is |
| `Handlers.RecordOf` | plugin/handlers/handlers.go:583-605 | a line gives a record iff it parses as an `Inst` line; the record holds the parsed parts and is phased iff its name is in the deferred set |
| `Handlers.Check` | plugin/handlers/handlers.go:502-657 | a failed simulation is an error iff it printed nothing, and then the slot is unchanged; a success counts its list; a supplied deferred set comes back unchanged |
| `Handlers.CheckAptUpdates` | plugin/handlers/handlers.go:502-648 | the step-by-step check (deferred scan, `Inst` loop, second type filter) returns the result and deferred slot of `Check` |
| `Handlers.SecondFilterKeepsAll` | plugin/handlers/handlers.go:627-642 | the second type filter, run over the updates the `Inst` loop kept, keeps every one of them, because it asks the same runner |
| `Handlers.ParseInstRecords` | plugin/handlers/handlers.go:581-625 | the `Inst` loop returns, in order, the records of the parsed lines that the type filter keeps |
| `Handlers.ReadInstLine` | plugin/handlers/handlers.go:584-605 | one line is trimmed, matched and marked phased by the deferred set |
| `Handlers.KeepsRecord` | plugin/handlers/handlers.go:607-617 | "all" keeps every record; any other type keeps it iff the classification succeeds with yes |
| `Handlers.SelectedStep` | plugin/handlers/handlers.go:583-625 | one more line appends its record at the end iff it has one and the filter keeps it |
| `Handlers.RecordsStep` | plugin/handlers/handlers.go:583-605 | one more line appends its record, if any, at the end of the records |
| `Handlers.FilterByType` | plugin/handlers/handlers.go:627-642 | the second pass keeps, in order, the updates whose classification succeeds with yes |
| `Handlers.RecordsMarked` | plugin/handlers/handlers.go:594-605 | every record is phased iff its name is deferred, and comes from an `Inst` line of the output |
| `Handlers.RecordsComplete` | plugin/handlers/handlers.go:583-624 | every `Inst` line of the output gives its record before the type filter |
| `Handlers.SelectedByType` | plugin/handlers/handlers.go:607-642 | an update is reported iff it is a record and its classification succeeds with yes |
| `Handlers.SelectedAll` | plugin/handlers/handlers.go:607-608 | for "all" and "recommended" every record is reported |
| `Handlers.CheckReports` | plugin/handlers/handlers.go:518-648 | a successful check reports an update iff an `Inst` line names its package and versions, it is phased iff its name is in the returned deferred set, and its type classification says yes; without a supplied set the returned set is the scanned one when non-empty, nil otherwise |
| `Handlers.EmptyOutputNoUpdates` | src/plugin/handlers/handlers_test.go:124-133 | a simulation that succeeds silently reports zero updates and an empty list |
| `Handlers.CheckUpdateCount` | plugin/handlers/handlers.go:117-126 | the count of updates of the selected type, or the wrapped error |
| `Handlers.NamesOf` | plugin/handlers/handlers.go:137-141 | the names of a list of updates, position by position |
| `Handlers.GetUpdateList` | plugin/handlers/handlers.go:129-143 | the names of the updates of the selected type, in the order found, or the wrapped error |
| `Handlers.ListNames` | plugin/handlers/handlers.go:137-141 | the loop over the details collects their names |
| `Handlers.GetUpdateDetails` | plugin/handlers/handlers.go:146-154 | the whole check result for the selected type, whose count is the length of its list, or the wrapped error |
| `Handlers.BucketOf` | plugin/handlers/handlers.go:212-218 | the "all" bucket holds every update in order, its count is its length, and its names are those of its details |
| `Handlers.GetAllUpdates` | plugin/handlers/handlers.go:157-261 | the first check without phased updates fills the slot, the second uses it, and the result is the bucketing of the second check's updates; each failure is wrapped with its pass's message |
| `Handlers.AllBucket` | plugin/handlers/handlers.go:212-218 | the index-by-index loop fills the "all" bucket |
| `Handlers.BucketStep` | plugin/handlers/handlers.go:222-258 | one more update is appended to a bucket iff it belongs to its category |
| `Handlers.Bucketize` | plugin/handlers/handlers.go:222-258 | the bucketing loop fills each of the four buckets with exactly the updates of its category, in order |
| `Handlers.BucketsConsistent` | plugin/handlers/handlers.go:212-258 | in every bucket the count equals the lengths of its lists, and the names are those of the details |
| `Handlers.BucketMembership` | plugin/handlers/handlers.go:222-258 | an update is in a bucket iff it is among the updates and in that bucket's category |
| `Handlers.PhasedAndRecommendedFit` | plugin/handlers/handlers.go:222-246 | phased and recommended together never exceed all updates |
| `Handlers.PhasedAndRecommendedSplit` | plugin/handlers/handlers.go:222-246 | when every policy query succeeds, phased plus recommended equals all |
| `Handlers.WithinRecommended` | plugin/handlers/handlers.go:229-258 | the security and optional buckets are sub-multisets of the recommended bucket |
| `Handlers.PhasedNotQueried` | plugin/handlers/handlers.go:224-228 | a phased update goes to the phased bucket only, without any query |
| `Handlers.FailedQueries` | plugin/handlers/handlers.go:231-235 | a failed security query leaves a non-phased update out of every bucket but "all"; with a working query it is recommended |
| `Handlers.OptionalFailureOnly` | plugin/handlers/handlers.go:231-253 | a non-phased update whose security query succeeds and whose optional query fails stays in recommended, keeps its security placement and misses only the optional bucket; a failed security query drops it from every bucket |
| `Handlers.FourUpdatesTwoPhased` | plugin/handlers/phased_updates_test.go:93-127 | two updates phased by their flag or by a `[phased` target, and two plain ones whose policy query succeeds, give four in all, two phased and two recommended, in order |
| `Handlers.SecondPassUsesFirstScan` | plugin/handlers/handlers.go:166-182 | when the first simulation defers packages, every update of the combined result is phased iff it is one of them |
| `Handlers.MaxStamp` | plugin/handlers/handlers.go:426-442 | the maximum is at least 0, at least every timestamp read, and is 0 or one of them |
| `Handlers.LastAptUpdateTime` | plugin/handlers/handlers.go:408-451 | the time in Unix seconds: the zero time when `find` failed without output or no timestamp is positive, otherwise the newest timestamp, truncated |
| `Handlers.MaxTimestamp` | plugin/handlers/handlers.go:426-442 | the loop computes the maximum timestamp, skipping blank and unreadable lines |
| `Handlers.MaxStampStep` | plugin/handlers/handlers.go:439-441 | one more line raises the maximum to its timestamp iff that is larger |
| `Handlers.NewestListTime` | plugin/handlers/handlers.go:408-451 | every positive timestamp of the listing is at most the reported time |
| `Handlers.AllUpdatesLastUpdate` | plugin/handlers/handlers.go:197-209 | the fallback reading of `GetAllUpdates` gives the same value as the second check's reading |
| `Handlers.NoListsReportZeroTime` | plugin/handlers/handlers.go:419-421 | as written: without package lists the reported time is -62135596800, not 0 |
| `Handlers.LastUpdateSeconds` | plugin/handlers/handlers.go:198-209 | as intended: the reported time is 0 or the newest timestamp's whole seconds, never negative |
| `Handlers.NoListsReportZero` | plugin/handlers/handlers.go:206-207 | as intended: without package lists the reported time is 0 |
| `AptOutput.FindVersionField` | plugin/handlers/handlers.go:479-486 | the index of the last field that ends with ']' and has no '[', or -1 when there is none |
| `AptOutput.ParsePackageLine` | plugin/handlers/handlers.go:455-497 | a blank, warning, one-field or version-less line gives ("", "", false); otherwise the name before the first '/', the last version field without ']', and whether the line holds "[phased" in lower case |
| `AptOutput.VersionOf` | plugin/handlers/handlers.go:492-494 | the version is the version field without its closing ']' |
| `AptOutput.LegacyPhasedLine` | plugin/handlers/handlers.go:455-497 | a line `name/suite [phased pct version]` gives the name, the version and the phased flag |
| `AptOutput.LegacyLineAccepted` | plugin/handlers/handlers.go:457-490 | a trimmed four-field line whose last field is a version is accepted, and that field is the only last version field |
| `AptOutput.PhasedLegacyExample` | plugin/handlers/phased_updates_test.go:66-72 | the phased line of the test gives "cpp-13", "13.2.0-5ubuntu1~24.04" and phased |
| `AptOutput.FieldSet` | plugin/handlers/handlers.go:552-555 | the names of a line are exactly its fields |
| `AptOutput.ListedNames` | plugin/handlers/handlers.go:547-557 | a line contributes its fields iff it is not blank, not a header and not a summary line |
| `AptOutput.KindOf` | plugin/handlers/handlers.go:538-562 | a line is a header iff it holds the phasing header; a body line contributes its listed names |
| `AptOutput.ScanDeferred` | plugin/handlers/handlers.go:532-563 | the scan loop, with its header flag and early exit, computes the deferred set |
| `AptOutput.ReadScanLine` | plugin/handlers/handlers.go:538-560 | one trimmed line classified as header, closing line or body with its names |
| `AptOutput.ScanAdvance` | plugin/handlers/handlers.go:537-563 | the scan's invariant carries over each kind of line |
| `AptOutput.ScanStep` | plugin/handlers/handlers.go:537-563 | one step of the scan, for each kind of line and state of the header flag |
| `AptOutput.KindOfBody` | plugin/handlers/handlers.go:547-562 | a line without the header closes the section iff it is `N upgraded`; otherwise it contributes its fields unless blank or a summary |
| `AptOutput.ScanInSection` | plugin/handlers/handlers.go:546-562 | inside the section the scan collects the names of the lines before the first closing line |
| `AptOutput.ScanBeforeHeader` | plugin/handlers/handlers.go:537-545 | before the header nothing is collected, and nothing at all without a header |
| `AptOutput.ScanIsSection` | plugin/handlers/handlers.go:532-563 | the scan collects exactly the names of the lines between the first header and the first closing line after it |
| `AptOutput.ScanMembership` | plugin/handlers/handlers.go:532-563 | a name is collected iff a body line within the section bounds contributes it |
| `AptOutput.KindNames` | plugin/handlers/handlers.go:547-557 | a line contributes a name iff it is listed and the name is one of its fields |
| `AptOutput.DeferredMembership` | plugin/handlers/handlers.go:532-563 | a name is deferred iff it is a field of a listed line after the first header and before the first `N upgraded` line after it |
| `AptOutput.NextSectionMarkedDeferred` | plugin/handlers/handlers.go:538-562 | as written, a name listed after a later "The following …:" line and before the `N upgraded` line is marked deferred, while the section scan leaves it out |
| `AptOutput.DeferredSectionMembership` | plugin/handlers/handlers.go:531-562 | the section scan collects a name iff it is a field of a listed line after the first header and before the next section or `N upgraded` line; no line it reads opens another section |
| `AptOutput.MatchInst` | plugin/handlers/handlers.go:581 | a match starts with "Inst", has a non-empty name without `\s` and a non-empty target without ' ' or ')', and the installed version has no ']' |
| `AptOutput.ParseInstLine` | plugin/handlers/handlers.go:583-596 | a parsed line, once trimmed, starts with "Inst " and has a non-empty name |
| `AptOutput.TrimVersions` | plugin/handlers/handlers.go:594-596 | the name is kept and the versions are trimmed |
| `AptOutput.MatchBracketed` | plugin/handlers/handlers.go:581 | with the runs ending where stated, the three groups are the name, the bracketed version and the target |
| `AptOutput.MatchPlain` | plugin/handlers/handlers.go:581 | with no bracket group, the installed version is empty |
| `AptOutput.InstRoundTrip` | plugin/handlers/handlers.go:581 | a line built from a name, an installed version and a target is matched back into those parts |
| `AptOutput.InstRoundTripNoCurrent` | plugin/handlers/handlers.go:581 | the same without an installed version |
| `AptOutput.ParseInstRoundTrip` | plugin/handlers/handlers.go:583-596 | a trimmed `Inst` line is parsed back into its parts, whatever follows the target |
| `AptOutput.ParseInstRoundTripNoCurrent` | plugin/handlers/handlers.go:583-596 | the same without an installed version |
| `AptOutput.ParseTrimmedInst` | plugin/handlers/handlers.go:584-596 | a trimmed line that the pattern matches is parsed into the trimmed groups |
| `AptOutput.BracketOnlyRejected` | plugin/handlers/handlers.go:589-592 | a line that ends at its bracketed version yields no record |
| `AptOutput.BracketOnlyExample` | plugin/handlers/handlers_test.go:45-46 | the test's `Inst bsdextrautils [2.39.3-9ubuntu6.3]` yields no record |
| `AptOutput.InstExample` | plugin/handlers/handlers.go:580-596 | a real `Inst` line gives its name, installed version and target |
| `AptOutput.TargetWithBracket` | plugin/handlers/handlers.go:581 | a target followed by ']' keeps the ']' |
| `AptOutput.PhasingMarkerTarget` | plugin/handlers/phased_updates_test.go:197-201 | a phasing marker right after '(' becomes the target "[phased" |
| `Cli.Configure` | main.go:45-56 | a setting whose variable is absent keeps its value |
| `Cli.Config.constructor` | main.go:40-43 | the defaults: no debugging, a threshold of 10 |
| `Cli.Config.Init` | main.go:45-56 | reading the environment sets the fields as `Configure` says |
| `Cli.ThresholdSetting` | main.go:51-55 | every 64-bit number in decimal becomes the threshold; text that is not a number keeps the old one |
| `Cli.DebugSetting` | main.go:47-49 | debugging is on iff the variable is "1" or "true" in any letter case |
| `Cli.DebugExamples` | main.go:48 | "TRUE" and "1" turn debugging on, "yes" does not |
| `Cli.DetectPackageManager` | main.go:59-71 | "apt" iff apt is found; "dnf" iff only dnf is found; "unknown" otherwise |
| `Cli.AptListLineParts` | main.go:100-125 | a line gives a record iff, trimmed, it has a '/' and two fields; the name is the text before the first '/', the target the last field |
| `Cli.CheckAptUpdates` | main.go:74-135 | the APT check returns the result of `AptCheck` |
| `Cli.ParseAptList` | main.go:100-125 | the line loop collects the records of the listing, in order |
| `Cli.AptListRoundTrip` | main.go:100-125 | a line `name/suite version` gives that name and version |
| `Cli.UpgradableShape` | main.go:100-125 | a full listing line `name/suite candidate arch [upgradable from: installed]` is trimmed, holds a '/', and its fields are its six words |
| `Cli.UpgradableTargetIsLastField` | main.go:113-119 | as written, a full listing line reports its last field, the installed version with its ']', as the target |
| `Cli.UpgradableCandidate` | main.go:106-119 | the reading by the format comment `package/state version` reports the candidate version of a full listing line |
| `Cli.CandidateAgrees` | main.go:100-125 | the candidate reading lists the same lines with the same names as the code, and the same record on every two-field line |
| `Cli.UpgradableTestLine` | apt_updates_check_test.go:29-66 | the single-update test line (line 29, expected at lines 62-66) gives curl with "7.81.0-1ubuntu1.8]" as written, and "7.81.0-1ubuntu1.9", the JSON test's target, when read by candidate |
| `Cli.AptListOfFields` | main.go:106-119 | a trimmed line whose first field is `name/suite` gives the name and the last field |
| `Cli.AptUpdatesFromLines` | main.go:100-125 | every reported APT update comes from a line of the listing, and every line's record is reported |
| `Cli.AptExitStatus` | main.go:81-94 | a failed `apt list` is success iff its exit status is 100, and then the result is `CheckResult(0, [], 0, false)`: no updates, threshold 0, not above the warning |
| `Cli.DnfTarget` | main.go:170-172 | a target exists iff the last field has at least two '-' pieces |
| `Cli.DnfLineOfFields` | main.go:154-178 | a two-field line gives a record iff it does not start with "Last metadata" and its last field has a '-'; the record is the stripped name and that field's target |
| `Cli.DnfTargetDropsTwoPieces` | main.go:170-172 | the target is the last field without its last two '-' pieces, and empty when there are only two |
| `Cli.DnfTwoPieceTarget` | main.go:170-172 | a `version-release` field gives an empty target |
| `Cli.DnfNameStrips` | main.go:166-167 | ".x86_64" and ".noarch" are removed, and a name without them is kept |
| `Cli.CheckDnfUpdates` | main.go:138-188 | the DNF check: any failure is an error, otherwise every parsed line is reported |
| `Cli.ParseDnfList` | main.go:154-178 | the line loop collects the records of the listing, in order |
| `Cli.ReadDnfLine` | main.go:155-177 | one line is trimmed, skipped when blank or the metadata header, then split and parsed |
| `Cli.Check` | main.go:191-206 | the check of the manager found, or an "unsupported" error |
| `Cli.ReportConsistent` | main.go:127-132 | every successful result counts its list, and is above the warning iff the count exceeds the threshold |
| `Cli.NoPackageManager` | main.go:191-206 | with neither manager on the path the check fails, naming "unknown" |

## Left out

- Durations (`CheckDurationSeconds`) and the clock are left out: they are wall-clock readings.
- The result datatypes do not carry the timing fields. The last-update time is computed on its own, by `Handlers.LastUpdateUnix` and its companions.
- `strconv.ParseFloat` is a parameter `parseFloat` that maps a line to a real or nothing. Float rounding, NaN and infinities are not modelled, and neither is an `int64` conversion out of range. Positive values are truncated with `Floor`.
- Handlers.LastAptUpdateTime: returns the Unix seconds of the time, not a `time.Time`, because the model has no clock type.
- `WithJSONResponse`, `PrintJSON`, `main` and JSON encoding are left out: they are serialisation and I/O.
- `plugin/plugin.go` and `plugin/config.go` (plugin registration and the SDK) are not part of this model.
- `getUpdateType` is left out: it reads keys from a Go map in map order, which is unspecified, and no handler calls it.
- Handlers.FailedQueries: the security query (plugin/handlers/handlers.go:231) and the optional query (plugin/handlers/handlers.go:248) both ask `apt-cache policy` of the same `Runner`, so in `Handlers.AllUpdates` they fail together. The path where only the optional query fails, which keeps the update in recommended and drops it from optional alone, is stated on the placement over independent answers (`Handlers.OptionalFailureOnly`), but is not reachable through `Handlers.GetAllUpdates` in this model.
- Context cancellation is left out: every command is a `Runner` that always answers.
- A `Runner` is a function, so a command asked twice answers the same both times. The source runs `apt-cache policy` separately in the `Inst` loop (`plugin/handlers/handlers.go:607-617`) and in the second filter (`plugin/handlers/handlers.go:627-642`). The case where the first query says yes and the second fails or says no is not modelled; the source would drop that package in the second pass.
- The debug log output is left out. Only the setting that turns it on is modelled.
- `bufio.Scanner` splits lines at '\n' and drops a trailing '\r'. It also stops at 64 KiB lines. The model splits at '\n' with `strings.Split`; this gives the same result because every loop trims each line and skips blank ones. The token limit is left out.
- Invalid UTF-8 is left out: strings are sequences of code points.
- `strings.ToLower` maps only ASCII letters, U+0130 and U+212A. Those are the only runes that Go lowers to ASCII, and every lowered text is only compared with ASCII words.
- The Go `UpdateType` "" is left out: no caller passes it.
- `exec.LookPath` is a parameter `found`; `exec.ExitError` is an `ExitStatus` error.

## Findings

| source | as written | input that shows it | evidently intended | confidence | as-written member | corrected member |
|---|---|---|---|---|---|---|
| plugin/handlers/handlers.go:419-421, 445-447, 198-209 | without package lists `getLastAptUpdateTime` returns `time.Time{}` with no error, and `Unix()` of it is -62135596800. That value is not 0, so `GetAllUpdates` reports it as the last update time. | `find /var/lib/apt/lists ...` prints nothing | the comment at line 206 says the time is 0 when there are no package lists | high, not executed | `Handlers.NoListsReportZeroTime` | `Handlers.NoListsReportZero` |
| plugin/handlers/handlers.go:538-562 | after the phasing header the scan collects the fields of every listed line until an `N upgraded` line. The section "The following packages will be upgraded:" comes between them, so its header words and every package in it are marked deferred, and `GetAllUpdates` puts them in the phased bucket. | `apt-get -s upgrade` printing "The following upgrades have been deferred due to phasing:", `foo`, "The following packages will be upgraded:", `bar`, "1 upgraded, 0 newly installed, 0 to remove and 1 not upgraded." marks `bar` deferred | the comments at lines 164 and 531 say the scan reads the "deferred due to phasing" section only | medium (apt's section order is taken from its usual report), not executed | `AptOutput.NextSectionMarkedDeferred` | `AptOutput.DeferredSectionMembership` |
| main.go:106-119 | the target is the last field of the line. `apt list --upgradable` prints `name/suite candidate arch [upgradable from: installed]`, so the target is the installed version with a trailing ']' | `curl/now 7.81.0-1ubuntu1.9 amd64 [upgradable from: 7.81.0-1ubuntu1.8]` (apt_updates_check_test.go:29) gives the target "7.81.0-1ubuntu1.8]" | the comment at line 106 gives the format `package/state version`, and `TestJSONOutput` (apt_updates_check_test.go:62-66) expects "7.81.0-1ubuntu1.9" for curl | high, not executed | `Cli.UpgradableTargetIsLastField` | `Cli.UpgradableCandidate` |
