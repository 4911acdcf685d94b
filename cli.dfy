/**
 * The standalone command-line checker (main.go): it picks the package manager found on the
 * machine, lists the pending updates with `apt list --upgradable` or `dnf check-update`, and
 * flags a count above the warning threshold, configured from the environment.
 */
module Cli {
  import opened Wrappers
  import opened GoStrings
  import opened Seqs
  import opened Exec

  /** One pending update; this program only ever fills in the name and the target version. */
  datatype UpdateInfo = UpdateInfo(name: string, target: string)

  datatype CheckResult = CheckResult(
    availableUpdates: int, details: seq<UpdateInfo>, warningThreshold: int, isAboveWarning: bool)

  datatype Error =
    | AptFailed(cause: ExecError)
    | DnfFailed(cause: ExecError)
    | Unsupported(packageManager: string)

  // ---------------------------------------------------------------------------------------
  // Configuration

  const DebugVariable: string := "ZBX_DEBUG"
  const ThresholdVariable: string := "ZBX_UPDATES_THRESHOLD_WARNING"

  /** A debug setting that turns debugging on: "true" in any letter case, or "1". */
  predicate DebugOn(value: string) {
    ToLower(value) == "true" || value == "1"
  }

  /** The settings after reading the environment: each variable, when present, overrides its default. */
  function Configure(env: map<string, string>, debug: bool, threshold: int): (r: (bool, int))
    ensures DebugVariable !in env ==> r.0 == debug
    ensures ThresholdVariable !in env ==> r.1 == threshold
  {
    var d := if DebugVariable in env then DebugOn(env[DebugVariable]) else debug;
    var t := if ThresholdVariable in env && Atoi(env[ThresholdVariable]).Some? then Atoi(env[ThresholdVariable]).value else threshold;
    (d, t)
  }

  /** The program's settings. */
  class Config {
    var debug: bool
    var warningThreshold: int

    /** The defaults: no debugging, a warning above 10 updates. */
    constructor()
      ensures debug == false && warningThreshold == 10
    {
      debug := false;
      warningThreshold := 10;
    }

    /** `init`: reads the two environment variables into the settings. */
    method Init(env: map<string, string>)
      modifies this
      ensures (debug, warningThreshold) == Configure(env, old(debug), old(warningThreshold))
    {
      if DebugVariable in env {
        var val := env[DebugVariable];
        debug := ToLower(val) == "true" || val == "1";
      }
      if ThresholdVariable in env {
        var threshold := Atoi(env[ThresholdVariable]);
        if threshold.Some? {
          warningThreshold := threshold.value;
        }
      }
    }
  }

  /** Every 64-bit number written in decimal becomes the threshold; text that is not a number keeps the old one. */
  lemma ThresholdSetting(env: map<string, string>, debug: bool, threshold: int, n: int, text: string)
    requires MinInt64 <= n <= MaxInt64
    requires Atoi(text).None?
    ensures Configure(env[ThresholdVariable := Itoa(n)], debug, threshold).1 == n
    ensures Configure(env[ThresholdVariable := text], debug, threshold).1 == threshold
  {
    AtoiItoa(n);
  }

  /** Debugging follows the variable exactly when it is set: on for "1" and any casing of "true", off otherwise. */
  lemma DebugSetting(env: map<string, string>, debug: bool, threshold: int)
    requires DebugVariable in env
    ensures Configure(env, debug, threshold).0 <==> DebugOn(env[DebugVariable])
  {
  }

  /** "TRUE" turns debugging on and "yes" does not. */
  lemma DebugExamples()
    ensures DebugOn("TRUE") && DebugOn("1") && !DebugOn("yes")
  {
    assert ToLower("TRUE") == "true";
    assert |ToLower("yes")| == 3;
  }

  // ---------------------------------------------------------------------------------------
  // Choosing the package manager

  /** `detectPackageManager`: APT first, then DNF, where `found` says whether a command is on the path. */
  function DetectPackageManager(found: string -> bool): (pm: string)
    ensures pm in {"apt", "dnf", "unknown"}
    ensures pm == "apt" <==> found("apt")
    ensures pm == "dnf" <==> !found("apt") && found("dnf")
  {
    if found("apt") then "apt" else if found("dnf") then "dnf" else "unknown"
  }

  // ---------------------------------------------------------------------------------------
  // `apt list --upgradable`

  /**
   * One line of `apt list --upgradable`: a trimmed line with a '/' and at least two fields; the
   * name is the first field up to its first '/', the target the last field as it stands.
   */
  function AptListLine(raw: string): Option<UpdateInfo> {
    var line := TrimSpace(raw);
    if line == [] || !Contains(line, "/") then None
    else
      var parts := Fields(line);
      if |parts| < 2 then None
      else Some(UpdateInfo(BeforeFirst(parts[0], '/'), parts[|parts| - 1]))
  }

  /** Which listing lines give a record, and what it holds: the target is the last field, verbatim. */
  lemma AptListLineParts(raw: string)
    ensures var line := TrimSpace(raw);
            AptListLine(raw).Some? <==> Contains(line, "/") && |Fields(line)| >= 2
    ensures var parts := Fields(TrimSpace(raw));
            AptListLine(raw).Some? ==> AptListLine(raw).value == UpdateInfo(BeforeFirst(parts[0], '/'), parts[|parts| - 1])
  {
    var line := TrimSpace(raw);
    if line == [] {
      assert !Contains(line, "/") && AptListLine(raw) == None;
    } else if !Contains(line, "/") {
      assert AptListLine(raw) == None;
    } else {
      var parts := Fields(line);
      if |parts| < 2 {
        assert AptListLine(raw) == None;
      } else {
        assert AptListLine(raw) == Some(UpdateInfo(BeforeFirst(parts[0], '/'), parts[|parts| - 1]));
        assert AptListLine(raw).Some? && Contains(line, "/") && |Fields(line)| >= 2;
      }
    }
  }

  /** The report of a list of updates under a warning threshold. */
  function Report(updates: seq<UpdateInfo>, threshold: int): CheckResult {
    CheckResult(|updates|, updates, threshold, |updates| > threshold)
  }

  function AptListFn(): string -> Option<UpdateInfo> {
    line => AptListLine(line)
  }

  /**
   * `checkAPTUpdates`: exit status 100 means nothing to upgrade (an empty result without a
   * threshold); any other failure is an error; otherwise every listed line is reported.
   */
  function AptCheck(run: Runner, threshold: int): Result<CheckResult, Error> {
    var out := run("apt", ["list", "--upgradable"]);
    if out.err == Some(ExitStatus(100)) then Success(CheckResult(0, [], 0, false))
    else if out.err.Some? then Failure(AptFailed(out.err.value))
    else Success(Report(Collect(Lines(out.output), AptListFn()), threshold))
  }

  method CheckAptUpdates(run: Runner, config: Config) returns (r: Result<CheckResult, Error>)
    ensures r == AptCheck(run, config.warningThreshold)
  {
    var out := run("apt", ["list", "--upgradable"]);
    if out.err.Some? {
      if out.err.value.ExitStatus? && out.err.value.code == 100 {
        return Success(CheckResult(0, [], 0, false));
      }
      return Failure(AptFailed(out.err.value));
    }
    var updates := ParseAptList(Lines(out.output));
    r := Success(CheckResult(|updates|, updates, config.warningThreshold, |updates| > config.warningThreshold));
  }

  /** The line loop of `checkAPTUpdates`. */
  method ParseAptList(lines: seq<string>) returns (updates: seq<UpdateInfo>)
    ensures updates == Collect(lines, AptListFn())
  {
    updates := [];
    for i := 0 to |lines|
      invariant updates == Collect(lines[..i], AptListFn())
    {
      CollectStep(lines, i, AptListFn());
      var line := TrimSpace(lines[i]);
      if line == [] || !Contains(line, "/") {
        assert AptListLine(lines[i]) == None;
        continue;
      }
      var parts := Fields(line);
      if |parts| < 2 {
        assert AptListLine(lines[i]) == None;
        continue;
      }
      // `strings.Split` never returns an empty list, so the source's length check never fails.
      var pkgParts := Split(parts[0], '/');
      assert AptListLine(lines[i]) == Some(UpdateInfo(pkgParts[0], parts[|parts| - 1]));
      updates := updates + [UpdateInfo(pkgParts[0], parts[|parts| - 1])];
    }
    assert lines[..|lines|] == lines;
  }

  /** A line `name/suite version` lists `name` with `version`. */
  lemma AptListRoundTrip(name: string, suite: string, version: string)
    requires name != [] && NoSpace(name) && '/' !in name
    requires NoSpace(suite) && version != [] && NoSpace(version)
    ensures AptListLine(name + "/" + suite + " " + version) == Some(UpdateInfo(name, version))
  {
    var first := name + "/" + suite;
    var line := first + " " + version;
    FirstFieldWord(name, suite);
    TwoFields(first, version);
    ListingEnds(first, version);
    SlashLine(line, name, suite);
    AptListOfFields(line, name, suite);
  }

  /** A line `first version` starts with `first` and ends with the last character of `version`. */
  lemma ListingEnds(first: string, version: string)
    requires version != []
    ensures var line := first + " " + version;
            HasPrefix(line, first) && line[|line| - 1] == version[|version| - 1]
  {
    var line := first + " " + version;
    assert line[..|first|] == first;
  }

  /** The first field of a listing line, `name/suite`, is a word. */
  lemma FirstFieldWord(name: string, suite: string)
    requires name != [] && NoSpace(name) && NoSpace(suite)
    ensures var first := name + "/" + suite; first != [] && NoSpace(first) && first[0] == name[0] && first[|name|] == '/'
  {
    var first := name + "/" + suite;
    forall c | c in first ensures !IsSpace(c) {
      assert c in name || c == '/' || c in suite;
    }
  }

  /** A trimmed line with a '/' whose first field is `name/suite` lists `name` with its last field. */
  lemma AptListOfFields(line: string, name: string, suite: string)
    requires '/' !in name
    requires TrimSpace(line) == line && Contains(line, "/")
    requires |Fields(line)| >= 2 && Fields(line)[0] == name + "/" + suite
    ensures AptListLine(line) == Some(UpdateInfo(name, Fields(line)[|Fields(line)| - 1]))
  {
    BeforeFirstOfPrefix(name, suite);
    AptListLineParts(line);
  }

  /** A line that starts with `name/` and ends in a non-space is trimmed and contains a '/'. */
  lemma SlashLine(line: string, name: string, suite: string)
    requires name != [] && NoSpace(name)
    requires HasPrefix(line, name + "/" + suite) && !IsSpace(line[|line| - 1])
    ensures TrimSpace(line) == line && Contains(line, "/")
  {
    assert line[0] == name[0] && name[0] in name;
    TrimSpaceOfTrimmed(line);
    var p := name + "/" + suite;
    assert line[|name|] == p[|name|] == '/';
    ContainsCharAt(line, |name|, '/');
  }

  /** The name of a first field `name/suite` is the text before its '/'. */
  lemma BeforeFirstOfPrefix(name: string, suite: string)
    requires '/' !in name
    ensures BeforeFirst(name + "/" + suite, '/') == name
  {
    SplitCons(name, '/', suite);
  }

  // ---------------------------------------------------------------------------------------
  // The full `apt list --upgradable` line

  /**
   * `apt list --upgradable` prints `name/suite candidate arch [upgradable from: installed]`. Its
   * fields are the six words, with `marker` and `from` standing for "[upgradable" and "from:" and
   * `last` for the installed version followed by ']'.
   */
  function UpgradableLine(name: string, suite: string, candidate: string, arch: string,
                          marker: string, from: string, last: string): string
  {
    name + "/" + suite + " " + (candidate + " " + (arch + " " + (marker + " " + (from + " " + last))))
  }

  /** The words of a listing line after its first field, when each of them is a word. */
  predicate UpgradableWords(candidate: string, arch: string, marker: string, from: string, last: string) {
    && candidate != [] && NoSpace(candidate) && arch != [] && NoSpace(arch)
    && marker != [] && NoSpace(marker) && from != [] && NoSpace(from) && last != [] && NoSpace(last)
  }

  /** A full listing line is trimmed, holds a '/', and its fields are its six words. */
  lemma UpgradableShape(name: string, suite: string, candidate: string, arch: string,
                        marker: string, from: string, last: string)
    requires name != [] && NoSpace(name) && NoSpace(suite)
    requires UpgradableWords(candidate, arch, marker, from, last)
    ensures var line := UpgradableLine(name, suite, candidate, arch, marker, from, last);
            TrimSpace(line) == line && Contains(line, "/")
            && Fields(line) == [name + "/" + suite] + ([candidate] + ([arch] + ([marker] + [from, last])))
  {
    var first := name + "/" + suite;
    var rest := candidate + " " + (arch + " " + (marker + " " + (from + " " + last)));
    FirstFieldWord(name, suite);
    TwoFields(from, last);
    SpacedField(marker, from + " " + last, [from, last]);
    SpacedField(arch, marker + " " + (from + " " + last), [marker] + [from, last]);
    SpacedField(candidate, arch + " " + (marker + " " + (from + " " + last)), [arch] + ([marker] + [from, last]));
    SpacedField(first, rest, [candidate] + ([arch] + ([marker] + [from, last])));
    ListingEnds(first, rest);
    assert rest[|rest| - 1] == last[|last| - 1] && last[|last| - 1] in last;
    SlashLine(first + " " + rest, name, suite);
  }

  /** The fields of a full listing line, position by position. */
  lemma SixFields(first: string, candidate: string, arch: string, marker: string, from: string, last: string)
    ensures var fs := [first] + ([candidate] + ([arch] + ([marker] + [from, last])));
            |fs| == 6 && fs[0] == first && fs[1] == candidate && fs[5] == last
  {
  }

  /**
   * As written, a full listing line reports its last field as the target: the installed version
   * with its closing ']', not the candidate version.
   */
  lemma UpgradableTargetIsLastField(name: string, suite: string, candidate: string, arch: string,
                                    marker: string, from: string, last: string)
    requires name != [] && NoSpace(name) && '/' !in name && NoSpace(suite)
    requires UpgradableWords(candidate, arch, marker, from, last)
    ensures AptListLine(UpgradableLine(name, suite, candidate, arch, marker, from, last)) == Some(UpdateInfo(name, last))
  {
    var line := UpgradableLine(name, suite, candidate, arch, marker, from, last);
    UpgradableShape(name, suite, candidate, arch, marker, from, last);
    SixFields(name + "/" + suite, candidate, arch, marker, from, last);
    BeforeFirstOfPrefix(name, suite);
    assert line != [];
  }

  /**
   * The listing line read as its format comment describes it, `package/state version`: the
   * target is the second field, the candidate version.
   */
  function AptListCandidate(raw: string): Option<UpdateInfo> {
    var line := TrimSpace(raw);
    if line == [] || !Contains(line, "/") then None
    else
      var parts := Fields(line);
      if |parts| < 2 then None
      else Some(UpdateInfo(BeforeFirst(parts[0], '/'), parts[1]))
  }

  /** The candidate reading reports the candidate version of a full listing line. */
  lemma UpgradableCandidate(name: string, suite: string, candidate: string, arch: string,
                            marker: string, from: string, last: string)
    requires name != [] && NoSpace(name) && '/' !in name && NoSpace(suite)
    requires UpgradableWords(candidate, arch, marker, from, last)
    ensures AptListCandidate(UpgradableLine(name, suite, candidate, arch, marker, from, last)) == Some(UpdateInfo(name, candidate))
  {
    var line := UpgradableLine(name, suite, candidate, arch, marker, from, last);
    UpgradableShape(name, suite, candidate, arch, marker, from, last);
    SixFields(name + "/" + suite, candidate, arch, marker, from, last);
    BeforeFirstOfPrefix(name, suite);
    assert line != [];
  }

  /** The words of the listing line of the single-update test case. */
  lemma TestLineWords()
    ensures "curl" != [] && NoSpace("curl") && '/' !in "curl" && NoSpace("now")
    ensures UpgradableWords("7.81.0-1ubuntu1.9", "amd64", "[upgradable", "from:", "7.81.0-1ubuntu1.8]")
  {
    AsciiGraphicNoSpace("curl");
    AsciiGraphicNoSpace("now");
    AsciiGraphicNoSpace("7.81.0-1ubuntu1.9");
    AsciiGraphicNoSpace("amd64");
    AsciiGraphicNoSpace("[upgradable");
    AsciiGraphicNoSpace("from:");
    AsciiGraphicNoSpace("7.81.0-1ubuntu1.8]");
  }

  /**
   * The listing line of the single-update test case,
   * `curl/now 7.81.0-1ubuntu1.9 amd64 [upgradable from: 7.81.0-1ubuntu1.8]`: the code reports
   * curl with the target "7.81.0-1ubuntu1.8]", where the JSON test expects "7.81.0-1ubuntu1.9",
   * the candidate reading.
   */
  lemma UpgradableTestLine()
    ensures AptListLine(UpgradableLine("curl", "now", "7.81.0-1ubuntu1.9", "amd64", "[upgradable", "from:", "7.81.0-1ubuntu1.8]"))
            == Some(UpdateInfo("curl", "7.81.0-1ubuntu1.8]"))
    ensures AptListCandidate(UpgradableLine("curl", "now", "7.81.0-1ubuntu1.9", "amd64", "[upgradable", "from:", "7.81.0-1ubuntu1.8]"))
            == Some(UpdateInfo("curl", "7.81.0-1ubuntu1.9"))
  {
    TestLineWords();
    UpgradableTargetIsLastField("curl", "now", "7.81.0-1ubuntu1.9", "amd64", "[upgradable", "from:", "7.81.0-1ubuntu1.8]");
    UpgradableCandidate("curl", "now", "7.81.0-1ubuntu1.9", "amd64", "[upgradable", "from:", "7.81.0-1ubuntu1.8]");
  }

  /**
   * The candidate reading lists the same lines with the same names, and agrees with the code on
   * every line of exactly two fields.
   */
  lemma CandidateAgrees(raw: string)
    ensures AptListCandidate(raw).Some? <==> AptListLine(raw).Some?
    ensures AptListCandidate(raw).Some? ==> AptListCandidate(raw).value.name == AptListLine(raw).value.name
    ensures AptListCandidate(raw).Some? && |Fields(TrimSpace(raw))| == 2 ==> AptListCandidate(raw) == AptListLine(raw)
  {
    AptListLineParts(raw);
  }

  // ---------------------------------------------------------------------------------------
  // `dnf check-update`

  /** The name of a DNF line: the first field without a trailing ".x86_64", then without a trailing ".noarch". */
  function DnfName(field: string): string {
    TrimSuffix(TrimSuffix(field, ".x86_64"), ".noarch")
  }

  /** The target of a DNF line: the '-' pieces of the last field but its last two, joined by '-'. */
  function DnfTarget(field: string): (r: Option<string>)
    ensures r.Some? <==> |Split(field, '-')| >= 2
  {
    var pieces := Split(field, '-');
    if |pieces| >= 2 then Some(Join(pieces[..|pieces| - 2], "-")) else None
  }

  /**
   * One line of `dnf check-update`: a trimmed, non-empty line not starting with "Last metadata",
   * with at least two fields and a '-' in its last field.
   */
  function DnfLine(raw: string): Option<UpdateInfo> {
    var line := TrimSpace(raw);
    if line == [] || HasPrefix(line, "Last metadata") then None
    else
      var parts := Fields(line);
      if |parts| < 2 then None
      else
        match DnfTarget(parts[|parts| - 1])
        case None => None
        case Some(version) => Some(UpdateInfo(DnfName(parts[0]), version))
  }

  /**
   * A line of two fields, the package and a last field, gives the package's name and the target
   * of the last field, when that field has a '-' and the line is not the "Last metadata" line.
   */
  lemma DnfLineOfFields(first: string, last: string)
    requires first != [] && NoSpace(first)
    requires last != [] && NoSpace(last)
    ensures DnfLine(first + " " + last).Some? <==>
            !HasPrefix(first + " " + last, "Last metadata") && DnfTarget(last).Some?
    ensures DnfLine(first + " " + last).Some? ==>
            DnfLine(first + " " + last) == Some(UpdateInfo(DnfName(first), DnfTarget(last).value))
  {
    var line := first + " " + last;
    ListingEnds(first, last);
    assert line[0] == first[0] && first[0] in first && last[|last| - 1] in last;
    TrimSpaceOfTrimmed(line);
    if HasPrefix(line, "Last metadata") {
      assert DnfLine(line) == None;
    } else {
      TwoFields(first, last);
      var parts := Fields(line);
      assert |parts| == 2 && parts[0] == first && parts[|parts| - 1] == last;
      if DnfTarget(last).Some? {
        assert DnfLine(line) == Some(UpdateInfo(DnfName(first), DnfTarget(last).value));
      } else {
        assert DnfLine(line) == None;
      }
    }
  }

  function DnfLineFn(): string -> Option<UpdateInfo> {
    line => DnfLine(line)
  }

  /** `checkDNFUpdates`: any failure is an error (exit status 100 included); otherwise every parsed line is reported. */
  function DnfCheck(run: Runner, threshold: int): Result<CheckResult, Error> {
    var out := run("dnf", ["check-update"]);
    if out.err.Some? then Failure(DnfFailed(out.err.value))
    else Success(Report(Collect(Lines(out.output), DnfLineFn()), threshold))
  }

  method CheckDnfUpdates(run: Runner, config: Config) returns (r: Result<CheckResult, Error>)
    ensures r == DnfCheck(run, config.warningThreshold)
  {
    var out := run("dnf", ["check-update"]);
    if out.err.Some? {
      return Failure(DnfFailed(out.err.value));
    }
    var updates := ParseDnfList(Lines(out.output));
    r := Success(CheckResult(|updates|, updates, config.warningThreshold, |updates| > config.warningThreshold));
  }

  /** The line loop of `checkDNFUpdates`. */
  method ParseDnfList(lines: seq<string>) returns (updates: seq<UpdateInfo>)
    ensures updates == Collect(lines, DnfLineFn())
  {
    updates := [];
    for i := 0 to |lines|
      invariant updates == Collect(lines[..i], DnfLineFn())
    {
      CollectStep(lines, i, DnfLineFn());
      var pkg := ReadDnfLine(lines[i]);
      if pkg.Some? {
        updates := updates + [pkg.value];
      }
    }
    assert lines[..|lines|] == lines;
  }

  /** One line of `dnf check-update` read: trimmed, skipped when blank or a header, split and parsed. */
  method ReadDnfLine(raw: string) returns (pkg: Option<UpdateInfo>)
    ensures pkg == DnfLine(raw)
  {
    var line := TrimSpace(raw);
    if line == [] {
      return None;
    }
    if HasPrefix(line, "Last metadata") {
      return None;
    }
    var parts := Fields(line);
    if |parts| < 2 {
      return None;
    }
    var pkgName := TrimSuffix(parts[0], ".x86_64");
    pkgName := TrimSuffix(pkgName, ".noarch");
    var versionParts := Split(parts[|parts| - 1], '-');
    if |versionParts| >= 2 {
      var version := Join(versionParts[..|versionParts| - 2], "-");
      assert DnfName(parts[0]) == pkgName && DnfTarget(parts[|parts| - 1]) == Some(version);
      pkg := Some(UpdateInfo(pkgName, version));
    } else {
      pkg := None;
    }
  }

  /** The target is the last field with its last two '-' pieces cut off, and empty when there are only two. */
  lemma DnfTargetDropsTwoPieces(field: string)
    requires DnfTarget(field).Some?
    ensures var pieces := Split(field, '-');
            var target := DnfTarget(field).value;
            (|pieces| == 2 ==> target == [])
            && (|pieces| > 2 ==> target + "-" + pieces[|pieces| - 2] + "-" + pieces[|pieces| - 1] == field)
  {
    var pieces := Split(field, '-');
    if |pieces| > 2 {
      JoinSplit(field, '-');
      JoinLast(pieces, "-");
      JoinLast(pieces[..|pieces| - 1], "-");
      assert pieces[..|pieces| - 1][..|pieces| - 2] == pieces[..|pieces| - 2];
    }
  }

  /** A version with a single '-', such as "1.2-3", has two pieces, so its target is empty. */
  lemma DnfTwoPieceTarget(version: string, release: string)
    requires '-' !in version && '-' !in release
    ensures DnfTarget(version + "-" + release) == Some([])
  {
    SplitCons(version, '-', release);
    SplitNone(release, '-');
    assert version + "-" + release == version + ['-'] + release;
    assert Split(version + "-" + release, '-') == [version, release];
  }

  /** The architecture suffix goes, a ".noarch" under it too, and a name without either is kept. */
  lemma DnfNameStrips(name: string)
    requires !HasSuffix(name, ".x86_64") && !HasSuffix(name, ".noarch")
    ensures DnfName(name + ".x86_64") == name
    ensures DnfName(name + ".noarch") == name
    ensures DnfName(name) == name
  {
    assert (name + ".x86_64")[..|name|] == name;
    assert (name + ".noarch")[..|name|] == name;
    assert !HasSuffix(name + ".noarch", ".x86_64") by {
      assert (name + ".noarch")[|name| + 1] == 'n';
    }
  }

  // ---------------------------------------------------------------------------------------
  // The check

  /** `Check`: the check of the package manager found, or an error naming the one that is not supported. */
  function CheckFor(run: Runner, found: string -> bool, threshold: int): Result<CheckResult, Error> {
    var pm := DetectPackageManager(found);
    if pm == "apt" then AptCheck(run, threshold)
    else if pm == "dnf" then DnfCheck(run, threshold)
    else Failure(Unsupported(pm))
  }

  method Check(run: Runner, found: string -> bool, config: Config) returns (r: Result<CheckResult, Error>)
    ensures r == CheckFor(run, found, config.warningThreshold)
  {
    var pm := DetectPackageManager(found);
    if pm == "apt" {
      r := CheckAptUpdates(run, config);
    } else if pm == "dnf" {
      r := CheckDnfUpdates(run, config);
    } else {
      r := Failure(Unsupported(pm));
    }
  }

  /** Every successful result counts its list and is above the warning exactly when the count exceeds the threshold. */
  lemma ReportConsistent(run: Runner, found: string -> bool, threshold: int)
    requires CheckFor(run, found, threshold).Success?
    ensures var c := CheckFor(run, found, threshold).value;
            c.availableUpdates == |c.details| && (c.isAboveWarning <==> c.availableUpdates > c.warningThreshold)
  {
  }

  /** Exit status 100 from `apt` is success with nothing to upgrade; any other failure is an error. */
  lemma AptExitStatus(run: Runner, threshold: int)
    requires run("apt", ["list", "--upgradable"]).err.Some?
    ensures AptCheck(run, threshold).Success? <==> run("apt", ["list", "--upgradable"]).err == Some(ExitStatus(100))
    ensures run("apt", ["list", "--upgradable"]).err == Some(ExitStatus(100)) ==>
            AptCheck(run, threshold) == Success(CheckResult(0, [], 0, false))
  {
  }

  /** With neither manager on the path, the check fails, naming "unknown". */
  lemma NoPackageManager(run: Runner, found: string -> bool, threshold: int)
    requires !found("apt") && !found("dnf")
    ensures CheckFor(run, found, threshold) == Failure(Unsupported("unknown"))
  {
  }

  /** Every reported APT update comes from one line of the listing. */
  lemma AptUpdatesFromLines(lines: seq<string>, u: UpdateInfo)
    ensures u in Collect(lines, AptListFn()) <==> exists line :: line in lines && AptListLine(line) == Some(u)
  {
    CollectMembership(lines, AptListFn(), u);
  }
}
