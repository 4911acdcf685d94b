/**
 * The metric handlers of the APT updates plugin (plugin/handlers/handlers.go): the
 * simulation-based check, phasing resolution, type classification through `apt-cache policy`
 * and the bucketing of `GetAllUpdates`.
 *
 * Every external command (`apt-get -s upgrade`, `apt-cache policy`) is a call of a `Runner`.
 */
module Handlers {
  import opened Wrappers
  import opened GoStrings
  import opened Seqs
  import opened AptOutput
  import opened Exec

  // ---------------------------------------------------------------------------------------
  // Records, commands and errors

  /** The update categories a metric can ask for. */
  datatype UpdateType = All | Security | Recommended | Optional

  /** One pending package update. */
  datatype UpdateInfo = UpdateInfo(name: string, current: string, target: string, isPhased: bool)

  /** The result of one check: the number of updates and the updates themselves. */
  datatype CheckResult = CheckResult(availableUpdates: int, details: seq<UpdateInfo>)

  datatype Error =
    | SimulationFailed(cause: ExecError)
    | Wrapped(context: string, inner: Error)

  /** The arguments of `env` for `apt-get -s upgrade` in the C locale, with phased updates forced on or off. */
  function SimulationArgs(includePhased: bool): seq<string> {
    ["LC_ALL=C", "LANG=C", "apt-get", "-s", "-o",
     "APT::Get::Always-Include-Phased-Updates=" + (if includePhased then "true" else "false"),
     "upgrade"]
  }

  function Simulate(run: Runner, includePhased: bool): Outcome {
    run("env", SimulationArgs(includePhased))
  }

  function Policy(run: Runner, name: string): Outcome {
    run("apt-cache", ["policy", name])
  }

  // ---------------------------------------------------------------------------------------
  // Selector parameters

  /** The word a metric key uses for each type. */
  function TypeName(t: UpdateType): string {
    match t
    case All => "all"
    case Security => "security"
    case Recommended => "recommended"
    case Optional => "optional"
  }

  /** `getUpdateTypeFromExtra`: the trimmed first parameter, matched exactly and case-sensitively. */
  function UpdateTypeFromExtra(extra: seq<string>): (t: UpdateType)
    ensures extra == [] ==> t == All
  {
    if extra == [] then All
    else
      var word := TrimSpace(extra[0]);
      if word == "security" then Security
      else if word == "recommended" then Recommended
      else if word == "optional" then Optional
      else All
  }

  /** Every type is selected by its own name, whatever follows it. */
  lemma TypeFromName(t: UpdateType, rest: seq<string>)
    ensures UpdateTypeFromExtra([TypeName(t)] + rest) == t
  {
    var word := TypeName(t);
    assert word != [] && !IsSpace(word[0]) && !IsSpace(word[|word| - 1]);
    TrimSpaceOfTrimmed(word);
  }

  /** A type other than `All` is chosen only by its exact name in the first parameter. */
  lemma NameFromType(extra: seq<string>)
    ensures UpdateTypeFromExtra(extra) != All ==> extra != [] && TrimSpace(extra[0]) == TypeName(UpdateTypeFromExtra(extra))
    ensures extra != [] && TrimSpace(extra[0]) !in {"security", "recommended", "optional"} ==> UpdateTypeFromExtra(extra) == All
  {
  }

  /** A parameter that asks for phased updates to be included. */
  predicate IsPhasedFlag(param: string) {
    Contains(ToLower(param), "phased") || Contains(ToLower(param), "include")
  }

  /** `getUpdateTypeAndFlagsFromExtra`: the selected type and whether any parameter is a phasing flag. */
  method UpdateTypeAndFlagsFromExtra(extra: seq<string>) returns (t: UpdateType, includePhased: bool)
    ensures t == UpdateTypeFromExtra(extra)
    ensures includePhased <==> exists i :: 0 <= i < |extra| && IsPhasedFlag(extra[i])
  {
    includePhased := false;
    for i := 0 to |extra|
      invariant includePhased <==> exists j :: 0 <= j < i && IsPhasedFlag(extra[j])
    {
      if IsPhasedFlag(extra[i]) {
        includePhased := true;
      }
    }
    t := SelectType(extra);
  }

  /** The `switch` on the trimmed first parameter. */
  method SelectType(extra: seq<string>) returns (t: UpdateType)
    ensures t == UpdateTypeFromExtra(extra)
  {
    t := All;
    if |extra| > 0 {
      var word := TrimSpace(extra[0]);
      if word == "security" {
        t := Security;
      } else if word == "recommended" {
        t := Recommended;
      } else if word == "optional" {
        t := Optional;
      }
    }
  }

  // ---------------------------------------------------------------------------------------
  // Classification

  predicate SecurityPolicy(text: string) {
    Contains(text, "security.") || Contains(text, "Ubuntu: noble-security") || Contains(text, "Debian-Security")
  }

  predicate OptionalPolicy(text: string) {
    Contains(text, "universe") || Contains(text, "multiverse")
  }

  /** The types whose membership is decided by asking `apt-cache policy`. */
  predicate Queries(t: UpdateType) {
    t == Security || t == Optional
  }

  /**
   * `isPackageOfType`: security and optional look for repository markers in the package's
   * policy, and a failed query is an error (Go's `(false, err)`); every other type holds
   * without a query.
   */
  function IsPackageOfType(run: Runner, name: string, t: UpdateType): (r: Result<bool, ExecError>)
    ensures !Queries(t) ==> r == Success(true)
    ensures Queries(t) ==> (r.Failure? <==> Policy(run, name).err.Some?)
    ensures t == Security && r.Success? ==> (r.value <==> SecurityPolicy(Policy(run, name).output))
    ensures t == Optional && r.Success? ==> (r.value <==> OptionalPolicy(Policy(run, name).output))
  {
    match t
    case Security =>
      var out := Policy(run, name);
      if out.err.Some? then Failure(out.err.value) else Success(SecurityPolicy(out.output))
    case Optional =>
      var out := Policy(run, name);
      if out.err.Some? then Failure(out.err.value) else Success(OptionalPolicy(out.output))
    case _ => Success(true)
  }

  /** Types that do not query give the same answer on every machine: no command is run for them. */
  lemma NoQueryForOtherTypes(run1: Runner, run2: Runner, name: string, t: UpdateType)
    requires !Queries(t)
    ensures IsPackageOfType(run1, name, t) == IsPackageOfType(run2, name, t) == Success(true)
  {
  }

  /** A querying type depends only on the answer to `apt-cache policy <name>`. */
  lemma ClassificationByPolicy(run1: Runner, run2: Runner, name: string, t: UpdateType)
    requires Policy(run1, name) == Policy(run2, name)
    ensures IsPackageOfType(run1, name, t) == IsPackageOfType(run2, name, t)
  {
  }

  /** `isPhasedUpdate`: the flag set while parsing, or a phasing marker in the name or target. */
  predicate IsPhasedUpdate(pkg: UpdateInfo) {
    pkg.isPhased
    || Contains(ToLower(pkg.target), "[phased")
    || Contains(ToLower(pkg.name + " " + pkg.target), "phased")
  }

  /** The "[phased" test adds nothing: it is covered by the "phased" test over name and target. */
  lemma PhasedUpdateSimplified(pkg: UpdateInfo)
    ensures IsPhasedUpdate(pkg) <==> pkg.isPhased || Contains(ToLower(pkg.name + " " + pkg.target), "phased")
  {
    if Contains(ToLower(pkg.target), "[phased") {
      assert "[phased" == "[" + "phased";
      ContainsShorter(ToLower(pkg.target), "[", "phased");
      ToLowerConcat(pkg.name + " ", pkg.target);
      ContainsInSuffix(ToLower(pkg.name + " "), ToLower(pkg.target), "phased");
    }
  }

  // ---------------------------------------------------------------------------------------
  // The check: `checkAPTUpdates`

  /**
   * The deferred set a check works with: the one supplied by the caller, otherwise the one
   * scanned from the output when it is not empty, otherwise none.
   */
  function EffectiveDeferred(supplied: Option<set<string>>, scanned: set<string>): (d: Option<set<string>>)
    ensures supplied.Some? ==> d == supplied
    ensures supplied.None? ==> (d.Some? <==> scanned != {}) && (d.Some? ==> d.value == scanned)
  {
    if supplied.Some? then supplied else if scanned != {} then Some(scanned) else None
  }

  /** The record of one `Inst` line, phased exactly when its package is in the deferred set. */
  function RecordOf(line: string, deferred: Option<set<string>>): (r: Option<UpdateInfo>)
    ensures r.Some? <==> ParseInstLine(line).Some?
    ensures r.Some? ==> InstLine(r.value.name, r.value.current, r.value.target) == ParseInstLine(line).value
    ensures r.Some? ==> (r.value.isPhased <==> deferred.Some? && r.value.name in deferred.value)
  {
    match ParseInstLine(line)
    case None => None
    case Some(m) => Some(UpdateInfo(m.name, m.current, m.target, deferred.Some? && m.name in deferred.value))
  }

  /** The records of the `Inst` lines of an output, in the order of the lines. */
  function Records(lines: seq<string>, deferred: Option<set<string>>): seq<UpdateInfo> {
    Collect(lines, RecordFn(deferred))
  }

  function RecordFn(deferred: Option<set<string>>): string -> Option<UpdateInfo> {
    line => RecordOf(line, deferred)
  }

  /** Whether the type filter keeps a record: the classification succeeded and said yes. */
  predicate Keeps(run: Runner, t: UpdateType, pkg: UpdateInfo) {
    IsPackageOfType(run, pkg.name, t) == Success(true)
  }

  function KeepFilter(run: Runner, t: UpdateType): UpdateInfo -> bool {
    pkg => Keeps(run, t, pkg)
  }

  /** The updates a check reports: the records of the output that pass the type filter. */
  function Selected(run: Runner, t: UpdateType, lines: seq<string>, deferred: Option<set<string>>): seq<UpdateInfo> {
    Filter(Records(lines, deferred), KeepFilter(run, t))
  }

  /**
   * The check as a whole: the result and the caller's deferred slot afterwards. A failed
   * simulation is an error only when it printed nothing; otherwise its output is read.
   */
  function Check(run: Runner, t: UpdateType, includePhased: bool, supplied: Option<set<string>>)
    : (r: (Result<CheckResult, Error>, Option<set<string>>))
    ensures r.0.Failure? <==> Simulate(run, includePhased).err.Some? && Simulate(run, includePhased).output == []
    ensures r.0.Failure? ==> r.1 == supplied
    ensures r.0.Success? ==> r.0.value.availableUpdates == |r.0.value.details|
    ensures supplied.Some? ==> r.1 == supplied
  {
    var out := Simulate(run, includePhased);
    if out.err.Some? && out.output == [] then (Failure(SimulationFailed(out.err.value)), supplied)
    else
      var lines := Lines(out.output);
      var deferred := EffectiveDeferred(supplied, Deferred(lines));
      var updates := Selected(run, t, lines, deferred);
      (Success(CheckResult(|updates|, updates)), deferred)
  }

  /** `checkAPTUpdates`, step by step: the deferred scan, the `Inst` loop and the second type filter. */
  method CheckAptUpdates(run: Runner, t: UpdateType, includePhased: bool, supplied: Option<set<string>>)
    returns (r: Result<CheckResult, Error>, slot: Option<set<string>>)
    ensures (r, slot) == Check(run, t, includePhased, supplied)
  {
    var out := run("env", SimulationArgs(includePhased));
    slot := supplied;
    if out.err.Some? && out.output == [] {
      return Failure(SimulationFailed(out.err.value)), slot;
    }
    var lines := Lines(out.output);
    if supplied.None? {
      var scanned := ScanDeferred(lines);
      if scanned != {} {
        slot := Some(scanned);
      }
    }
    var updates := ParseInstRecords(run, t, lines, slot);
    if t != All {
      updates := FilterByType(run, t, updates);
      SecondFilterKeepsAll(run, t, lines, slot);
    }
    r := Success(CheckResult(|updates|, updates));
    CheckRead(run, t, includePhased, supplied);
  }

  /**
   * The second type filter, run over the updates the `Inst` loop kept, keeps all of them: both
   * passes classify each package through the same runner.
   */
  lemma SecondFilterKeepsAll(run: Runner, t: UpdateType, lines: seq<string>, deferred: Option<set<string>>)
    ensures Filter(Selected(run, t, lines, deferred), KeepFilter(run, t)) == Selected(run, t, lines, deferred)
  {
    FilterIdempotent(Records(lines, deferred), KeepFilter(run, t));
  }

  /** A simulation with output is read: its check is the selection under the effective deferred set. */
  lemma CheckRead(run: Runner, t: UpdateType, includePhased: bool, supplied: Option<set<string>>)
    requires !(Simulate(run, includePhased).err.Some? && Simulate(run, includePhased).output == [])
    ensures var lines := Lines(Simulate(run, includePhased).output);
            var deferred := EffectiveDeferred(supplied, Deferred(lines));
            var updates := Selected(run, t, lines, deferred);
            Check(run, t, includePhased, supplied) == (Success(CheckResult(|updates|, updates)), deferred)
  {
  }

  /** The `Inst` loop: parse, mark phased, and drop the records the type filter rejects. */
  method ParseInstRecords(run: Runner, t: UpdateType, lines: seq<string>, deferred: Option<set<string>>)
    returns (updates: seq<UpdateInfo>)
    ensures updates == Selected(run, t, lines, deferred)
  {
    updates := [];
    for i := 0 to |lines|
      invariant updates == Selected(run, t, lines[..i], deferred)
    {
      SelectedStep(run, t, lines, i, deferred);
      var pkg := ReadInstLine(lines[i], deferred);
      if pkg.Some? {
        var keep := KeepsRecord(run, t, pkg.value);
        if keep {
          updates := updates + [pkg.value];
        }
      }
    }
    assert lines[..|lines|] == lines;
  }

  /** One `Inst` line read: parsed, then marked phased when its package is deferred. */
  method ReadInstLine(line: string, deferred: Option<set<string>>) returns (pkg: Option<UpdateInfo>)
    ensures pkg == RecordOf(line, deferred)
  {
    var m := ParseInstLine(line);
    if m.None? {
      return None;
    }
    pkg := Some(UpdateInfo(m.value.name, m.value.current, m.value.target,
                           deferred.Some? && m.value.name in deferred.value));
  }

  /** The type test of the `Inst` loop: every record is kept for `All`, otherwise the classification decides. */
  method KeepsRecord(run: Runner, t: UpdateType, pkg: UpdateInfo) returns (keep: bool)
    ensures keep <==> Keeps(run, t, pkg)
  {
    keep := true;
    if t != All {
      var isMatch := IsPackageOfType(run, pkg.name, t);
      keep := isMatch == Success(true);
    }
  }

  /** One more line adds its record at the end of the selection when it has one that the filter keeps. */
  lemma SelectedStep(run: Runner, t: UpdateType, lines: seq<string>, i: nat, deferred: Option<set<string>>)
    requires i < |lines|
    ensures var r := RecordOf(lines[i], deferred);
            r.Some? && Keeps(run, t, r.value) ==>
              Selected(run, t, lines[..i + 1], deferred) == Selected(run, t, lines[..i], deferred) + [r.value]
    ensures var r := RecordOf(lines[i], deferred);
            !(r.Some? && Keeps(run, t, r.value)) ==>
              Selected(run, t, lines[..i + 1], deferred) == Selected(run, t, lines[..i], deferred)
  {
    RecordsStep(lines, i, deferred);
    var r := RecordOf(lines[i], deferred);
    if r.Some? {
      FilterAppend(Records(lines[..i], deferred), r.value, KeepFilter(run, t));
      if !Keeps(run, t, r.value) {
        assert Selected(run, t, lines[..i], deferred) + [] == Selected(run, t, lines[..i], deferred);
      }
    } else {
      assert Records(lines[..i + 1], deferred) == Records(lines[..i], deferred) + [];
      assert Records(lines[..i], deferred) + [] == Records(lines[..i], deferred);
    }
  }

  /** One more line adds its record, if it has one, at the end. */
  lemma RecordsStep(lines: seq<string>, i: nat, deferred: Option<set<string>>)
    requires i < |lines|
    ensures var r := RecordOf(lines[i], deferred);
            Records(lines[..i + 1], deferred) == Records(lines[..i], deferred) + (if r.Some? then [r.value] else [])
  {
    assert lines[..i + 1] == lines[..i] + [lines[i]];
    CollectAppend(lines[..i], lines[i], RecordFn(deferred));
  }

  /** The second filter pass over the collected updates. */
  method FilterByType(run: Runner, t: UpdateType, updates: seq<UpdateInfo>) returns (filtered: seq<UpdateInfo>)
    ensures filtered == Filter(updates, KeepFilter(run, t))
  {
    filtered := [];
    for i := 0 to |updates|
      invariant filtered == Filter(updates[..i], KeepFilter(run, t))
    {
      assert updates[..i + 1] == updates[..i] + [updates[i]];
      FilterAppend(updates[..i], updates[i], KeepFilter(run, t));
      var isMatch := IsPackageOfType(run, updates[i].name, t);
      if isMatch == Success(true) {
        filtered := filtered + [updates[i]];
      }
    }
    assert updates[..|updates|] == updates;
  }

  // ---------------------------------------------------------------------------------------
  // Properties of the check

  /** A record is phased exactly when its package is in the deferred set, and it comes from an `Inst` line. */
  lemma {:induction false} RecordsMarked(lines: seq<string>, deferred: Option<set<string>>, pkg: UpdateInfo)
    requires pkg in Records(lines, deferred)
    ensures pkg.isPhased <==> deferred.Some? && pkg.name in deferred.value
    ensures exists line :: line in lines && ParseInstLine(line).Some?
                          && ParseInstLine(line).value == InstLine(pkg.name, pkg.current, pkg.target)
  {
    CollectMembership(lines, RecordFn(deferred), pkg);
    var line :| line in lines && RecordOf(line, deferred) == Some(pkg);
  }

  /** Every `Inst` line of the output gives its record, marked by the deferred set, before the type filter. */
  lemma RecordsComplete(lines: seq<string>, deferred: Option<set<string>>, line: string)
    requires line in lines && ParseInstLine(line).Some?
    ensures var m := ParseInstLine(line).value;
            UpdateInfo(m.name, m.current, m.target, deferred.Some? && m.name in deferred.value) in Records(lines, deferred)
  {
    var m := ParseInstLine(line).value;
    var pkg := UpdateInfo(m.name, m.current, m.target, deferred.Some? && m.name in deferred.value);
    assert RecordFn(deferred)(line) == Some(pkg);
    CollectMembership(lines, RecordFn(deferred), pkg);
  }

  /** For a type other than `All`, exactly the records whose classification says yes are reported. */
  lemma SelectedByType(run: Runner, t: UpdateType, lines: seq<string>, deferred: Option<set<string>>, pkg: UpdateInfo)
    ensures pkg in Selected(run, t, lines, deferred)
            <==> pkg in Records(lines, deferred) && IsPackageOfType(run, pkg.name, t) == Success(true)
  {
    FilterMembership(Records(lines, deferred), KeepFilter(run, t), pkg);
  }

  /** For `All` and `Recommended` the filter lets everything through. */
  lemma SelectedAll(run: Runner, t: UpdateType, lines: seq<string>, deferred: Option<set<string>>)
    requires !Queries(t)
    ensures Selected(run, t, lines, deferred) == Records(lines, deferred)
  {
    FilterAll(Records(lines, deferred), KeepFilter(run, t));
  }

  lemma {:induction false} FilterAll<T>(s: seq<T>, f: T -> bool)
    requires forall x :: x in s ==> f(x)
    ensures Filter(s, f) == s
  {
    if s != [] {
      FilterAll(s[1..], f);
    }
  }

  /** The phasing marks come from the supplied set when there is one, and from the scan otherwise. */
  lemma CheckDeferral(run: Runner, t: UpdateType, includePhased: bool, supplied: Option<set<string>>)
    requires Check(run, t, includePhased, supplied).0.Success?
    ensures var lines := Lines(Simulate(run, includePhased).output);
            Check(run, t, includePhased, supplied).1 == EffectiveDeferred(supplied, Deferred(lines))
            && Check(run, t, includePhased, supplied).0.value.details
               == Selected(run, t, lines, EffectiveDeferred(supplied, Deferred(lines)))
  {
  }

  /**
   * What a successful check reports, stated without the check: an update is reported exactly when
   * an `Inst` line of the simulation names its package and versions, it is phased exactly when its
   * package is in the returned deferred set, and its classification for the type says yes. Without
   * a supplied set, the returned set is the scanned one when that is non-empty, and nil otherwise.
   */
  lemma CheckReports(run: Runner, t: UpdateType, includePhased: bool, supplied: Option<set<string>>, pkg: UpdateInfo)
    requires Check(run, t, includePhased, supplied).0.Success?
    ensures var lines := Lines(Simulate(run, includePhased).output);
            var slot := Check(run, t, includePhased, supplied).1;
            pkg in Check(run, t, includePhased, supplied).0.value.details
            <==> (exists line :: line in lines && ParseInstLine(line) == Some(InstLine(pkg.name, pkg.current, pkg.target)))
                 && (pkg.isPhased <==> slot.Some? && pkg.name in slot.value)
                 && IsPackageOfType(run, pkg.name, t) == Success(true)
    ensures var scanned := Deferred(Lines(Simulate(run, includePhased).output));
            var slot := Check(run, t, includePhased, supplied).1;
            supplied.None? ==> (slot.Some? <==> scanned != {}) && (slot.Some? ==> slot.value == scanned)
  {
    var lines := Lines(Simulate(run, includePhased).output);
    CheckDeferral(run, t, includePhased, supplied);
    var slot := Check(run, t, includePhased, supplied).1;
    SelectedByType(run, t, lines, slot, pkg);
    if pkg in Records(lines, slot) {
      RecordsMarked(lines, slot, pkg);
    }
    if exists line :: line in lines && ParseInstLine(line) == Some(InstLine(pkg.name, pkg.current, pkg.target)) {
      var line :| line in lines && ParseInstLine(line) == Some(InstLine(pkg.name, pkg.current, pkg.target));
      RecordsComplete(lines, slot, line);
    }
  }

  /** A simulation that succeeds silently reports no updates. */
  lemma EmptyOutputNoUpdates(run: Runner, t: UpdateType, includePhased: bool, supplied: Option<set<string>>)
    requires Simulate(run, includePhased) == Outcome([], None)
    ensures Check(run, t, includePhased, supplied).0 == Success(CheckResult(0, []))
  {
    var lines := Lines([]);
    assert lines == [[]];
    assert ParseInstLine([]) == None;
    assert Records(lines, EffectiveDeferred(supplied, Deferred(lines))) == [];
  }

  // ---------------------------------------------------------------------------------------
  // The metric handlers built on one check

  /** `CheckUpdateCount`: the number of updates of the selected type. */
  method CheckUpdateCount(run: Runner, extra: seq<string>) returns (r: Result<int, Error>)
    ensures var c := Check(run, UpdateTypeFromExtra(extra), false, None).0;
            r == if c.Success? then Success(|c.value.details|) else Failure(Wrapped("failed to check APT updates", c.error))
  {
    var t := UpdateTypeFromExtra(extra);
    var result, _ := CheckAptUpdates(run, t, false, None);
    if result.Failure? {
      return Failure(Wrapped("failed to check APT updates", result.error));
    }
    r := Success(result.value.availableUpdates);
  }

  /** The names of a list of updates, in order. */
  function NamesOf(pkgs: seq<UpdateInfo>): (r: seq<string>)
    ensures |r| == |pkgs| && forall i :: 0 <= i < |pkgs| ==> r[i] == pkgs[i].name
  {
    seq(|pkgs|, i requires 0 <= i < |pkgs| => pkgs[i].name)
  }

  lemma NamesOfAppend(pkgs: seq<UpdateInfo>, pkg: UpdateInfo)
    ensures NamesOf(pkgs + [pkg]) == NamesOf(pkgs) + [pkg.name]
  {
  }

  /** `GetUpdateList`: the names of the updates of the selected type, in the order they were found. */
  method GetUpdateList(run: Runner, extra: seq<string>) returns (r: Result<seq<string>, Error>)
    ensures var c := Check(run, UpdateTypeFromExtra(extra), false, None).0;
            r == if c.Success? then Success(NamesOf(c.value.details)) else Failure(Wrapped("failed to check APT updates", c.error))
  {
    var t := UpdateTypeFromExtra(extra);
    var result, _ := CheckAptUpdates(run, t, false, None);
    if result.Failure? {
      return Failure(Wrapped("failed to check APT updates", result.error));
    }
    var names := ListNames(result.value.details);
    r := Success(names);
  }

  /** The loop of `GetUpdateList` that collects the names of the updates. */
  method ListNames(details: seq<UpdateInfo>) returns (names: seq<string>)
    ensures names == NamesOf(details)
  {
    names := [];
    for i := 0 to |details|
      invariant names == NamesOf(details[..i])
    {
      assert details[..i + 1] == details[..i] + [details[i]];
      NamesOfAppend(details[..i], details[i]);
      names := names + [details[i].name];
    }
    assert details[..|details|] == details;
  }

  /** `GetUpdateDetails`: the whole result of the check for the selected type. */
  method GetUpdateDetails(run: Runner, extra: seq<string>) returns (r: Result<CheckResult, Error>)
    ensures var c := Check(run, UpdateTypeFromExtra(extra), false, None).0;
            r == if c.Success? then c else Failure(Wrapped("failed to check APT updates", c.error))
    ensures r.Success? ==> r.value.availableUpdates == |r.value.details|
  {
    var t := UpdateTypeFromExtra(extra);
    var result, _ := CheckAptUpdates(run, t, false, None);
    if result.Failure? {
      return Failure(Wrapped("failed to check APT updates", result.error));
    }
    r := result;
  }

  // ---------------------------------------------------------------------------------------
  // GetAllUpdates: two checks and the bucketing loop

  /** One bucket of the combined result: a count, the package names and the records, index by index. */
  datatype Bucket = Bucket(count: int, names: seq<string>, details: seq<UpdateInfo>)

  /** The bucket holding exactly `pkgs`, in order. */
  function BucketOf(pkgs: seq<UpdateInfo>): (b: Bucket)
    ensures b.count == |b.names| == |b.details| == |pkgs|
    ensures b.details == pkgs && forall i :: 0 <= i < |pkgs| ==> b.names[i] == pkgs[i].name
  {
    Bucket(|pkgs|, NamesOf(pkgs), pkgs)
  }

  /** The combined result of `GetAllUpdates`, without its timing fields. */
  datatype AllUpdatesResult = AllUpdatesResult(
    all: Bucket, phased: Bucket, security: Bucket, recommended: Bucket, optional: Bucket)

  datatype Category = PhasedBucket | SecurityBucket | RecommendedBucket | OptionalBucket

  /**
   * Where the bucketing loop puts an update, from what it learns about it: whether it is phased
   * and the answers of its security and optional queries. A phased update goes to the phased
   * bucket only. Any other update is placed only if its security query succeeds: then it is
   * recommended, security when the answer is yes, and optional when its optional query succeeds
   * with yes.
   */
  predicate Placed(phased: bool, security: Result<bool, ExecError>, optional: Result<bool, ExecError>, c: Category) {
    match c
    case PhasedBucket => phased
    case SecurityBucket => !phased && security == Success(true)
    case RecommendedBucket => !phased && security.Success?
    case OptionalBucket => !phased && security.Success? && optional == Success(true)
  }

  /** The placement of an update whose queries go to `run`. */
  predicate InCategory(run: Runner, c: Category, pkg: UpdateInfo) {
    Placed(IsPhasedUpdate(pkg), IsPackageOfType(run, pkg.name, Security), IsPackageOfType(run, pkg.name, Optional), c)
  }

  /** The four placements of one update, each in terms of its phasing and its two queries. */
  lemma CategoriesOf(run: Runner, pkg: UpdateInfo)
    ensures InCategory(run, PhasedBucket, pkg) == IsPhasedUpdate(pkg)
    ensures InCategory(run, SecurityBucket, pkg) == (!IsPhasedUpdate(pkg) && IsPackageOfType(run, pkg.name, Security) == Success(true))
    ensures InCategory(run, RecommendedBucket, pkg) == (!IsPhasedUpdate(pkg) && IsPackageOfType(run, pkg.name, Security).Success?)
    ensures InCategory(run, OptionalBucket, pkg)
            == (!IsPhasedUpdate(pkg) && IsPackageOfType(run, pkg.name, Security).Success?
                && IsPackageOfType(run, pkg.name, Optional) == Success(true))
  {
  }

  function CategoryFilter(run: Runner, c: Category): UpdateInfo -> bool {
    pkg => InCategory(run, c, pkg)
  }

  function BucketIn(run: Runner, c: Category, pkgs: seq<UpdateInfo>): Bucket {
    BucketOf(Filter(pkgs, CategoryFilter(run, c)))
  }

  /** The buckets `GetAllUpdates` reports for the updates of its second check. */
  function Aggregate(run: Runner, pkgs: seq<UpdateInfo>): AllUpdatesResult {
    AllUpdatesResult(
      BucketOf(pkgs),
      BucketIn(run, PhasedBucket, pkgs),
      BucketIn(run, SecurityBucket, pkgs),
      BucketIn(run, RecommendedBucket, pkgs),
      BucketIn(run, OptionalBucket, pkgs))
  }

  /**
   * `GetAllUpdates`: a first check without phased updates fills the deferred slot, a second
   * check with phased updates uses it, and its updates are bucketed.
   */
  function AllUpdates(run: Runner): Result<AllUpdatesResult, Error> {
    var first := Check(run, All, false, None);
    if first.0.Failure? then Failure(Wrapped("failed to check APT updates for first pass", first.0.error))
    else
      var second := Check(run, All, true, first.1);
      if second.0.Failure? then Failure(Wrapped("failed to check APT updates for 'all'", second.0.error))
      else Success(Aggregate(run, second.0.value.details))
  }

  method GetAllUpdates(run: Runner) returns (r: Result<AllUpdatesResult, Error>)
    ensures r == AllUpdates(run)
  {
    var first, deferred := CheckAptUpdates(run, All, false, None);
    if first.Failure? {
      return Failure(Wrapped("failed to check APT updates for first pass", first.error));
    }
    var allUpdates, _ := CheckAptUpdates(run, All, true, deferred);
    if allUpdates.Failure? {
      return Failure(Wrapped("failed to check APT updates for 'all'", allUpdates.error));
    }
    var pkgs := allUpdates.value.details;
    var all := AllBucket(pkgs);
    var phased, security, recommended, optional := Bucketize(run, pkgs);
    r := Success(AllUpdatesResult(all, phased, security, recommended, optional));
  }

  /** The "all" bucket, written index by index into lists of the final length. */
  method AllBucket(pkgs: seq<UpdateInfo>) returns (b: Bucket)
    ensures b == BucketOf(pkgs)
  {
    var names := new string[|pkgs|];
    var details := new UpdateInfo[|pkgs|];
    for i := 0 to |pkgs|
      invariant forall j :: 0 <= j < i ==> names[j] == pkgs[j].name && details[j] == pkgs[j]
    {
      names[i] := pkgs[i].name;
      details[i] := pkgs[i];
    }
    assert details[..] == pkgs;
    b := Bucket(|pkgs|, names[..], details[..]);
  }

  /** A bucket after one more update is appended to it. */
  function Add(b: Bucket, pkg: UpdateInfo): Bucket {
    Bucket(b.count + 1, b.names + [pkg.name], b.details + [pkg])
  }

  lemma BucketStep(run: Runner, c: Category, pkgs: seq<UpdateInfo>, i: nat)
    requires i < |pkgs|
    ensures BucketIn(run, c, pkgs[..i + 1])
            == if InCategory(run, c, pkgs[i]) then Add(BucketIn(run, c, pkgs[..i]), pkgs[i]) else BucketIn(run, c, pkgs[..i])
  {
    assert pkgs[..i + 1] == pkgs[..i] + [pkgs[i]];
    FilterAppend(pkgs[..i], pkgs[i], CategoryFilter(run, c));
    NamesOfAppend(Filter(pkgs[..i], CategoryFilter(run, c)), pkgs[i]);
  }

  /** The bucketing loop: phased updates apart, then security, recommended and optional. */
  method Bucketize(run: Runner, pkgs: seq<UpdateInfo>) returns (phased: Bucket, security: Bucket, recommended: Bucket, optional: Bucket)
    ensures phased == BucketIn(run, PhasedBucket, pkgs)
    ensures security == BucketIn(run, SecurityBucket, pkgs)
    ensures recommended == BucketIn(run, RecommendedBucket, pkgs)
    ensures optional == BucketIn(run, OptionalBucket, pkgs)
  {
    phased, security, recommended, optional := Bucket(0, [], []), Bucket(0, [], []), Bucket(0, [], []), Bucket(0, [], []);
    for i := 0 to |pkgs|
      invariant phased == BucketIn(run, PhasedBucket, pkgs[..i])
      invariant security == BucketIn(run, SecurityBucket, pkgs[..i])
      invariant recommended == BucketIn(run, RecommendedBucket, pkgs[..i])
      invariant optional == BucketIn(run, OptionalBucket, pkgs[..i])
    {
      var pkg := pkgs[i];
      BucketStep(run, PhasedBucket, pkgs, i);
      BucketStep(run, SecurityBucket, pkgs, i);
      BucketStep(run, RecommendedBucket, pkgs, i);
      BucketStep(run, OptionalBucket, pkgs, i);
      CategoriesOf(run, pkg);
      if IsPhasedUpdate(pkg) {
        phased := Bucket(phased.count + 1, phased.names + [pkg.name], phased.details + [pkg]);
        continue;
      }
      var isSecurity := IsPackageOfType(run, pkg.name, Security);
      if isSecurity.Failure? {
        continue;
      }
      if isSecurity.value {
        security := Bucket(security.count + 1, security.names + [pkg.name], security.details + [pkg]);
      }
      recommended := Bucket(recommended.count + 1, recommended.names + [pkg.name], recommended.details + [pkg]);
      var isOptional := IsPackageOfType(run, pkg.name, Optional);
      if isOptional.Failure? {
        continue;
      }
      if isOptional.value {
        optional := Bucket(optional.count + 1, optional.names + [pkg.name], optional.details + [pkg]);
      }
    }
    assert pkgs[..|pkgs|] == pkgs;
  }

  // ---------------------------------------------------------------------------------------
  // Properties of the buckets

  /** Every bucket's count is the length of its lists, and its names are those of its records. */
  lemma BucketsConsistent(run: Runner, pkgs: seq<UpdateInfo>, b: Bucket)
    requires var a := Aggregate(run, pkgs); b in {a.all, a.phased, a.security, a.recommended, a.optional}
    ensures b.count == |b.names| == |b.details|
    ensures forall i :: 0 <= i < |b.details| ==> b.names[i] == b.details[i].name
  {
  }

  /** A bucket holds exactly the updates of its category, each as often as in the input. */
  lemma BucketMembership(run: Runner, c: Category, pkgs: seq<UpdateInfo>, pkg: UpdateInfo)
    ensures pkg in BucketIn(run, c, pkgs).details <==> pkg in pkgs && InCategory(run, c, pkg)
  {
    FilterMembership(pkgs, CategoryFilter(run, c), pkg);
  }

  /** Phased updates are counted apart: phased and recommended together never exceed all updates. */
  lemma PhasedAndRecommendedFit(run: Runner, pkgs: seq<UpdateInfo>)
    ensures var a := Aggregate(run, pkgs); a.phased.count + a.recommended.count <= a.all.count
  {
    DisjointFiltersFit(pkgs, CategoryFilter(run, PhasedBucket), CategoryFilter(run, RecommendedBucket));
  }

  /** When every policy query succeeds, each update is either phased or recommended. */
  lemma PhasedAndRecommendedSplit(run: Runner, pkgs: seq<UpdateInfo>)
    requires forall pkg :: pkg in pkgs ==> Policy(run, pkg.name).err.None?
    ensures var a := Aggregate(run, pkgs); a.phased.count + a.recommended.count == a.all.count
  {
    ComplementaryFiltersSplit(pkgs, CategoryFilter(run, PhasedBucket), CategoryFilter(run, RecommendedBucket));
  }

  /** Security and optional updates are recommended updates too. */
  lemma WithinRecommended(run: Runner, pkgs: seq<UpdateInfo>)
    ensures var a := Aggregate(run, pkgs);
            multiset(a.security.details) <= multiset(a.recommended.details)
            && multiset(a.optional.details) <= multiset(a.recommended.details)
            && a.security.count <= a.recommended.count && a.optional.count <= a.recommended.count
  {
    FilterMonotone(pkgs, CategoryFilter(run, SecurityBucket), CategoryFilter(run, RecommendedBucket));
    FilterMonotone(pkgs, CategoryFilter(run, OptionalBucket), CategoryFilter(run, RecommendedBucket));
  }

  /** A phased update is placed without asking `apt-cache policy`: its place is the same on every machine. */
  lemma PhasedNotQueried(run1: Runner, run2: Runner, pkg: UpdateInfo, c: Category)
    requires IsPhasedUpdate(pkg)
    ensures InCategory(run1, c, pkg) == InCategory(run2, c, pkg) == (c == PhasedBucket)
  {
  }

  /**
   * A failed policy query drops a non-phased update from every bucket but "all"; a successful one
   * puts it in recommended. Under one runner the security and optional queries ask the same
   * command, so they fail together; `OptionalFailureOnly` states the case where only the optional
   * query fails.
   */
  lemma FailedQueries(run: Runner, pkg: UpdateInfo)
    requires !IsPhasedUpdate(pkg)
    ensures Policy(run, pkg.name).err.Some? ==> forall c :: !InCategory(run, c, pkg)
    ensures Policy(run, pkg.name).err.None? ==> InCategory(run, RecommendedBucket, pkg)
  {
  }

  /**
   * A non-phased update whose security query succeeds and whose optional query fails stays in
   * recommended, keeps its security placement, and only misses the optional bucket; a failed
   * security query drops it from every bucket, whatever the optional query says.
   */
  lemma OptionalFailureOnly(security: Result<bool, ExecError>, optional: Result<bool, ExecError>)
    ensures security.Success? && optional.Failure? ==>
            && Placed(false, security, optional, RecommendedBucket)
            && (Placed(false, security, optional, SecurityBucket) <==> security.value)
            && !Placed(false, security, optional, OptionalBucket)
            && !Placed(false, security, optional, PhasedBucket)
    ensures security.Failure? ==> forall c :: !Placed(false, security, optional, c)
  {
  }

  /**
   * Four updates of which two are phased, by their flag or by a `[phased` target as in the mock
   * of the phased-updates test, and two are plainly recommended.
   */
  lemma FourUpdatesTwoPhased(run: Runner, a: UpdateInfo, b: UpdateInfo, c: UpdateInfo, d: UpdateInfo)
    requires IsPhasedUpdate(a) && IsPhasedUpdate(b) && !IsPhasedUpdate(c) && !IsPhasedUpdate(d)
    requires Policy(run, c.name).err.None? && Policy(run, d.name).err.None?
    ensures var r := Aggregate(run, [a, b, c, d]);
            r.all.count == 4 && r.phased.count == 2 && r.recommended.count == 2
            && r.phased.names == [a.name, b.name] && r.recommended.names == [c.name, d.name]
  {
    var pf, rf := CategoryFilter(run, PhasedBucket), CategoryFilter(run, RecommendedBucket);
    assert pf(a) && pf(b) && !rf(a) && !rf(b);
    assert !pf(c) && !pf(d) && rf(c) && rf(d);
    FilterFour(a, b, c, d, pf);
    FilterFour(a, b, c, d, rf);
  }

  /** Filtering four updates keeps, in order, those the filter accepts. */
  lemma FilterFour(a: UpdateInfo, b: UpdateInfo, c: UpdateInfo, d: UpdateInfo, f: UpdateInfo -> bool)
    ensures Filter([a, b, c, d], f)
            == (if f(a) then [a] else []) + ((if f(b) then [b] else []) + ((if f(c) then [c] else []) + (if f(d) then [d] else [])))
  {
    assert [a, b, c, d][1..] == [b, c, d] && [b, c, d][1..] == [c, d] && [c, d][1..] == [d];
    assert Filter([d], f) == (if f(d) then [d] else []) + Filter([], f);
    assert Filter([c, d], f) == (if f(c) then [c] else []) + Filter([d], f);
    assert Filter([b, c, d], f) == (if f(b) then [b] else []) + Filter([c, d], f);
  }

  /**
   * When the first check finds deferred packages, the second check marks its updates by exactly
   * that set: the phasing of the first simulation reaches the combined result.
   */
  lemma SecondPassUsesFirstScan(run: Runner)
    requires Check(run, All, false, None).0.Success?
    requires Deferred(Lines(Simulate(run, false).output)) != {}
    requires Check(run, All, true, Check(run, All, false, None).1).0.Success?
    ensures var scanned := Deferred(Lines(Simulate(run, false).output));
            AllUpdates(run).Success?
            && forall pkg :: pkg in AllUpdates(run).value.all.details ==> (pkg.isPhased <==> pkg.name in scanned)
  {
    var scanned := Deferred(Lines(Simulate(run, false).output));
    CheckDeferral(run, All, false, None);
    var deferred := Check(run, All, false, None).1;
    assert deferred == Some(scanned);
    var lines := Lines(Simulate(run, true).output);
    CheckDeferral(run, All, true, deferred);
    SelectedAll(run, All, lines, deferred);
    forall pkg | pkg in AllUpdates(run).value.all.details
      ensures pkg.isPhased <==> pkg.name in scanned
    {
      RecordsMarked(lines, deferred, pkg);
    }
  }

  // ---------------------------------------------------------------------------------------
  // The time of the last `apt update` (getLastAptUpdateTime)

  /** The Unix time, in seconds, of Go's zero `time.Time`: January 1 of year 1, 00:00:00 UTC. */
  const ZeroTimeUnix: int := -62135596800

  /** The arguments of `find` that print the modification time of every file under the package lists. */
  function FindArgs(): seq<string> {
    ["/var/lib/apt/lists", "-type", "f", "-printf", "%T@\n"]
  }

  /** The timestamp a line holds: blank lines are skipped, the others are read by `strconv.ParseFloat`. */
  function Stamp(line: string, parseFloat: string -> Option<real>): Option<real> {
    if line == [] then None else parseFloat(line)
  }

  /** `maxTime` after the loop over `lines`: the largest timestamp read, or 0 when none is larger. */
  function MaxStamp(lines: seq<string>, parseFloat: string -> Option<real>): (m: real)
    ensures m >= 0.0
    ensures forall i :: 0 <= i < |lines| && Stamp(lines[i], parseFloat).Some? ==> Stamp(lines[i], parseFloat).value <= m
    ensures m == 0.0 || exists i :: 0 <= i < |lines| && Stamp(lines[i], parseFloat) == Some(m)
  {
    if lines == [] then 0.0
    else
      var init := lines[..|lines| - 1];
      var prev := MaxStamp(init, parseFloat);
      var s := Stamp(lines[|lines| - 1], parseFloat);
      assert forall i :: 0 <= i < |init| ==> init[i] == lines[i];
      if s.Some? && s.value > prev then s.value else prev
  }

  /** The lines of the listing `find` printed, once trimmed. */
  function StampLines(out: Outcome): seq<string> {
    Split(TrimSpace(out.output), '\n')
  }

  /**
   * The Unix seconds of the time `getLastAptUpdateTime` returns: the zero time when `find` failed
   * without output or no timestamp exceeds 0, otherwise the newest timestamp, truncated.
   */
  function LastUpdateUnix(run: Runner, parseFloat: string -> Option<real>): int {
    var out := run("find", FindArgs());
    if out.err.Some? && out.output == [] then ZeroTimeUnix
    else
      var m := MaxStamp(StampLines(out), parseFloat);
      if m == 0.0 then ZeroTimeUnix else m.Floor
  }

  /** `getLastAptUpdateTime`, with its loop over the listing, read as the Unix seconds of its result. */
  method LastAptUpdateTime(run: Runner, parseFloat: string -> Option<real>) returns (unix: int)
    ensures unix == LastUpdateUnix(run, parseFloat)
  {
    var out := run("find", FindArgs());
    if out.err.Some? && out.output == [] {
      return ZeroTimeUnix;
    }
    var maxTime := MaxTimestamp(Split(TrimSpace(out.output), '\n'), parseFloat);
    if maxTime == 0.0 {
      return ZeroTimeUnix;
    }
    unix := maxTime.Floor;
  }

  /** The loop of `getLastAptUpdateTime`: the largest timestamp of the listing, starting from 0. */
  method MaxTimestamp(lines: seq<string>, parseFloat: string -> Option<real>) returns (maxTime: real)
    ensures maxTime == MaxStamp(lines, parseFloat)
  {
    maxTime := 0.0;
    for i := 0 to |lines|
      invariant maxTime == MaxStamp(lines[..i], parseFloat)
    {
      MaxStampStep(lines, i, parseFloat);
      if lines[i] == [] {
        continue;
      }
      var timestamp := parseFloat(lines[i]);
      if timestamp.None? {
        continue;
      }
      if timestamp.value > maxTime {
        maxTime := timestamp.value;
      }
    }
    assert lines[..|lines|] == lines;
  }

  /** One more line raises the maximum to its timestamp when that is larger. */
  lemma MaxStampStep(lines: seq<string>, i: int, parseFloat: string -> Option<real>)
    requires 0 <= i < |lines|
    ensures var prev := MaxStamp(lines[..i], parseFloat);
            var s := Stamp(lines[i], parseFloat);
            MaxStamp(lines[..i + 1], parseFloat) == if s.Some? && s.value > prev then s.value else prev
  {
    assert lines[..i + 1][..i] == lines[..i];
  }

  /** A listing with a positive timestamp gives at least that timestamp's whole seconds. */
  lemma NewestListTime(run: Runner, parseFloat: string -> Option<real>, i: int)
    requires var out := run("find", FindArgs()); !(out.err.Some? && out.output == [])
    requires var lines := StampLines(run("find", FindArgs()));
             0 <= i < |lines| && Stamp(lines[i], parseFloat).Some? && Stamp(lines[i], parseFloat).value > 0.0
    ensures var stamp := Stamp(StampLines(run("find", FindArgs()))[i], parseFloat).value;
            0 <= stamp.Floor <= LastUpdateUnix(run, parseFloat)
  {
  }

  /**
   * The `last_apt_update_time` of `GetAllUpdates`: the second check's reading unless it is 0, and
   * then a fresh one. Both readings ask the same machine, so the fallback never changes the value.
   */
  function AllUpdatesLastUpdate(run: Runner, parseFloat: string -> Option<real>): (t: int)
    ensures t == LastUpdateUnix(run, parseFloat)
  {
    var checked := LastUpdateUnix(run, parseFloat);
    if checked != 0 then checked else LastUpdateUnix(run, parseFloat)
  }

  /** As written: without package lists the zero time's seconds are reported, and they are not 0. */
  lemma NoListsReportZeroTime(run: Runner, parseFloat: string -> Option<real>)
    requires run("find", FindArgs()).output == []
    ensures AllUpdatesLastUpdate(run, parseFloat) == ZeroTimeUnix
    ensures AllUpdatesLastUpdate(run, parseFloat) != 0
  {
    assert TrimSpace([]) == [];
    assert Split([], '\n') == [[]];
    assert MaxStamp([[]], parseFloat) == 0.0;
  }

  /** The last `apt update` as intended: the newest timestamp's whole seconds, and 0 when there is none. */
  function LastUpdateSeconds(run: Runner, parseFloat: string -> Option<real>): (t: int)
    ensures t >= 0
    ensures t == 0 || t == LastUpdateUnix(run, parseFloat)
  {
    var out := run("find", FindArgs());
    if out.err.Some? && out.output == [] then 0
    else MaxStamp(StampLines(out), parseFloat).Floor
  }

  /** Corrected: without package lists the reported time is 0. */
  lemma NoListsReportZero(run: Runner, parseFloat: string -> Option<real>)
    requires run("find", FindArgs()).output == []
    ensures LastUpdateSeconds(run, parseFloat) == 0
  {
    assert TrimSpace([]) == [];
    assert Split([], '\n') == [[]];
    assert MaxStamp([[]], parseFloat) == 0.0;
  }
}
