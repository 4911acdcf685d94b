/**
 * The text formats that the APT check of `plugin/handlers/handlers.go` reads: the legacy
 * `apt list --upgradable` line, the "deferred due to phasing" section of `apt-get -s upgrade`,
 * and that command's `Inst` lines. The three regular expressions of the source are written out
 * as recognisers.
 */
module AptOutput {
  import opened Wrappers
  import opened GoStrings
  import opened Seqs

  // ---------------------------------------------------------------------------------------
  // Legacy `apt list --upgradable` lines (parsePackageLine)

  /** A field that can hold the version: it ends with ']' and has no '[' (a `[phased NN%]` part has one). */
  predicate IsVersionField(f: string) {
    HasSuffix(f, "]") && !Contains(ToLower(f), "[")
  }

  /** `i` is the last field of `parts` that can hold the version. */
  predicate LastVersionFieldAt(parts: seq<string>, i: int) {
    && 0 <= i < |parts|
    && IsVersionField(parts[i])
    && forall j :: i < j < |parts| ==> !IsVersionField(parts[j])
  }

  /** The lines the legacy parser turns down: blank, a warning, one field, or no version field. */
  predicate LegacyRejected(line: string) {
    var t := TrimSpace(line);
    var parts := Fields(t);
    || t == []
    || HasPrefix(ToLower(t), "warning:")
    || |parts| < 2
    || forall i :: 0 <= i < |parts| ==> !IsVersionField(parts[i])
  }

  /** The index of the last version field of `parts`, or -1 when there is none. */
  method FindVersionField(parts: seq<string>) returns (i: int)
    ensures -1 <= i < |parts|
    ensures i >= 0 ==> LastVersionFieldAt(parts, i)
    ensures i < 0 ==> forall j :: 0 <= j < |parts| ==> !IsVersionField(parts[j])
  {
    i := |parts| - 1;
    while i >= 0
      invariant -1 <= i < |parts|
      invariant forall j :: i < j < |parts| ==> !IsVersionField(parts[j])
    {
      if HasSuffix(parts[i], "]") && !Contains(ToLower(parts[i]), "[") {
        return;
      }
      i := i - 1;
    }
  }

  /**
   * parsePackageLine: the package name is the first field up to its first '/', the version the last
   * version field without its trailing ']', and the line is phased when its lower case holds "[phased".
   * A rejected line gives ("", "", false).
   */
  method ParsePackageLine(line: string) returns (name: string, version: string, phased: bool)
    ensures LegacyRejected(line) ==> name == [] && version == [] && !phased
    ensures !LegacyRejected(line) ==>
      && name == BeforeFirst(Fields(TrimSpace(line))[0], '/')
      && phased == Contains(ToLower(TrimSpace(line)), "[phased")
      && exists i :: LastVersionFieldAt(Fields(TrimSpace(line)), i) && version + "]" == Fields(TrimSpace(line))[i]
    ensures '[' !in version && NoSpace(version)
  {
    var t := TrimSpace(line);
    var parts := Fields(t);
    if t == [] || HasPrefix(ToLower(t), "warning:") || |parts| < 2 {
      return [], [], false;
    }
    var i := FindVersionField(parts);
    if i < 0 {
      return [], [], false;
    }
    name := BeforeFirst(parts[0], '/');
    phased := Contains(ToLower(t), "[phased");
    FieldsAreWords(t);
    assert parts[i] in parts;
    version := VersionOf(parts[i]);
  }

  /** The version a version field holds: the field without its closing ']'. */
  function VersionOf(field: string): (v: string)
    requires IsVersionField(field) && NoSpace(field)
    ensures v + "]" == field
    ensures '[' !in v && NoSpace(v)
  {
    var stripped := TrimSuffix(field, "]");
    assert forall c :: c in stripped ==> c in field by {
      assert field == stripped + "]";
    }
    NoSpaceTrimmed(stripped);
    BracketContained(field);
    stripped
  }

  /** A text with a '[' has one in its lower case too. */
  lemma BracketContained(f: string)
    ensures '[' in f ==> Contains(ToLower(f), "[")
  {
    if '[' in f {
      var k :| 0 <= k < |f| && f[k] == '[';
      assert ToLower(f)[k..k + 1] == "[";
      ContainsAt(ToLower(f), "[", k);
    }
  }

  /** The phased line of the legacy parser's tests: name, version without ']', and the phasing flag. */
  method PhasedLegacyExample() returns (name: string, version: string, phased: bool)
    ensures name == "cpp-13" && version == "13.2.0-5ubuntu1~24.04" && phased
  {
    var pkg, suite, pct, v := "cpp-13", "xenial-updates", "10%]", "13.2.0-5ubuntu1~24.04";
    LegacyExampleWords();
    var line := pkg + "/" + suite + " " + "[phased" + " " + pct + " " + v + "]";
    name, version, phased := ParsePackageLine(line);
    LegacyLineShape(pkg, suite, pct, v);
    LegacyPhasedLine(line, pkg + "/" + suite, "[phased", pct, v, pkg, name, version, phased);
  }

  /** The words of the example line hold no white space, and neither the name nor the version the delimiters. */
  lemma LegacyExampleWords()
    ensures "cpp-13" != [] && NoSpace("cpp-13") && '/' !in "cpp-13" && ':' !in "cpp-13"
    ensures NoSpace("xenial-updates") && "10%]" != [] && NoSpace("10%]") && NoSpace("[phased")
    ensures "13.2.0-5ubuntu1~24.04" != [] && NoSpace("13.2.0-5ubuntu1~24.04") && '[' !in "13.2.0-5ubuntu1~24.04"
  {
    AsciiGraphicNoSpace("cpp-13");
    AsciiGraphicNoSpace("xenial-updates");
    AsciiGraphicNoSpace("10%]");
    AsciiGraphicNoSpace("[phased");
    VersionExampleWord();
  }

  /** The example version is a word without '['. */
  lemma VersionExampleWord()
    ensures "13.2.0-5ubuntu1~24.04" != [] && NoSpace("13.2.0-5ubuntu1~24.04") && '[' !in "13.2.0-5ubuntu1~24.04"
  {
    AsciiGraphicNoSpace("13.2.0-5ubuntu1~24.04");
  }

  /**
   * A line of four words whose last one is a version closed by ']', whose first one names the
   * package before its '/', and which holds "[phased" and is not a warning, is accepted by the
   * legacy parser: it gives that name, the version without its ']', and the phasing flag.
   */
  lemma LegacyPhasedLine(line: string, w1: string, w2: string, w3: string, v: string, pkg: string,
                         name: string, version: string, phased: bool)
    requires w1 != [] && NoSpace(w1) && w2 != [] && NoSpace(w2) && w3 != [] && NoSpace(w3)
    requires NoSpace(v) && '[' !in v && BeforeFirst(w1, '/') == pkg
    requires line == w1 + " " + (w2 + " " + (w3 + " " + (v + "]")))
    requires Contains(ToLower(line), "[phased") && !HasPrefix(ToLower(line), "warning:")
    requires LegacyRejected(line) ==> name == [] && version == [] && !phased
    requires !LegacyRejected(line) ==>
      && name == BeforeFirst(Fields(TrimSpace(line))[0], '/')
      && phased == Contains(ToLower(TrimSpace(line)), "[phased")
      && exists i :: LastVersionFieldAt(Fields(TrimSpace(line)), i) && version + "]" == Fields(TrimSpace(line))[i]
    ensures name == pkg && version == v && phased
  {
    VersionWord(v);
    FourFields(w1, w2, w3, v + "]");
    var parts := Fields(line);
    LegacyLineAccepted(line, parts, v);
    var i :| LastVersionFieldAt(parts, i) && version + "]" == parts[i];
    assert i == 3;
    assert version == (version + "]")[..|version|] == (v + "]")[..|v|] == v;
  }

  /** The example line, regrouped into its four words; it holds "[phased" and is not a warning. */
  lemma LegacyLineShape(pkg: string, suite: string, pct: string, v: string)
    requires pkg != [] && NoSpace(pkg) && '/' !in pkg && ':' !in pkg && NoSpace(suite)
    ensures var line := pkg + "/" + suite + " " + "[phased" + " " + pct + " " + v + "]";
            && line == pkg + "/" + suite + " " + ("[phased" + " " + (pct + " " + (v + "]")))
            && Contains(ToLower(line), "[phased") && !HasPrefix(ToLower(line), "warning:")
    ensures pkg + "/" + suite != [] && NoSpace(pkg + "/" + suite) && BeforeFirst(pkg + "/" + suite, '/') == pkg
  {
    SlashWord(pkg, suite);
    SplitCons(pkg, '/', suite);
    PhasedMarker(pkg, suite, pct, v);
    NotWarning(pkg, suite, pct, v);
    Regrouped(pkg + "/" + suite, "[phased", pct, v);
  }

  /** Four words joined by spaces, the last closed by ']', grouped from the right. */
  lemma Regrouped(w1: string, w2: string, w3: string, v: string)
    ensures w1 + " " + w2 + " " + w3 + " " + v + "]" == w1 + " " + (w2 + " " + (w3 + " " + (v + "]")))
  {
  }

  /** A line that starts with a name free of ':' and '/', then '/', is not a warning. */
  lemma NotWarning(pkg: string, suite: string, pct: string, v: string)
    requires ':' !in pkg && '/' !in pkg
    ensures !HasPrefix(ToLower(pkg + "/" + suite + " " + "[phased" + " " + pct + " " + v + "]"), "warning:")
  {
    var s := pkg + "/" + suite + " " + "[phased" + " " + pct + " " + v + "]";
    // The first of the eight characters that differs: the '/' after a short name, or the eighth
    // character of a long one, which is not ':'.
    var k := if |pkg| <= 7 then |pkg| else 7;
    if |pkg| <= 7 {
      assert s[k] == '/';
    } else {
      assert s[k] == pkg[7];
    }
    assert forall j :: 0 <= j < 8 ==> "warning:"[j] != '/';
    assert ToLower(s)[k] != "warning:"[k];
  }

  /** A trimmed line whose last of four fields is a version closed by ']' is accepted. */
  lemma LegacyLineAccepted(line: string, parts: seq<string>, v: string)
    requires '[' !in v && NoSpace(v)
    requires |parts| == 4 && parts[3] == v + "]"
    requires TrimSpace(line) == line && line != [] && Fields(line) == parts
    requires !HasPrefix(ToLower(line), "warning:")
    ensures !LegacyRejected(line)
    ensures LastVersionFieldAt(parts, 3)
    ensures forall i :: LastVersionFieldAt(parts, i) ==> i == 3
  {
    VersionWord(v);
  }

  /** `name/suite` is a word when its two parts are. */
  lemma SlashWord(pkg: string, suite: string)
    requires pkg != [] && NoSpace(pkg) && NoSpace(suite)
    ensures NoSpace(pkg + "/" + suite) && pkg + "/" + suite != []
  {
    forall c | c in pkg + "/" + suite ensures !IsSpace(c) {
      assert c in pkg || c == '/' || c in suite;
    }
  }

  /** A version followed by ']' is a word that can hold the version. */
  lemma VersionWord(v: string)
    requires NoSpace(v) && '[' !in v
    ensures NoSpace(v + "]") && IsVersionField(v + "]")
  {
    var w := v + "]";
    forall c | c in w ensures !IsSpace(c) && c != '[' {
      assert c in v || c == ']';
    }
    assert w[|w| - 1..] == "]";
    assert forall i :: 0 <= i < |w| ==> ToLower(w)[i] != '[';
    if Contains(ToLower(w), "[") {
      ContainsChar(ToLower(w), "[", 0);
    }
  }

  /** Four words separated by single spaces are a trimmed line whose fields are those words. */
  lemma FourFields(w1: string, w2: string, w3: string, w4: string)
    requires w1 != [] && NoSpace(w1) && w2 != [] && NoSpace(w2)
    requires w3 != [] && NoSpace(w3) && w4 != [] && NoSpace(w4)
    ensures var line := w1 + " " + (w2 + " " + (w3 + " " + w4));
            TrimSpace(line) == line && Fields(line) == [w1, w2, w3, w4]
  {
    FieldsAfterWord(w1, w2, w3, w4);
    Prepended(w1, w2, [w3, w4]);
    var line := w1 + " " + (w2 + " " + (w3 + " " + w4));
    assert line[0] == w1[0] && w1[0] in w1;
    assert line[|line| - 1] == w4[|w4| - 1] && w4[|w4| - 1] in w4;
    TrimSpaceOfTrimmed(line);
  }

  lemma FieldsAfterWord(w1: string, w2: string, w3: string, w4: string)
    requires w1 != [] && NoSpace(w1) && w2 != [] && NoSpace(w2)
    requires w3 != [] && NoSpace(w3) && w4 != [] && NoSpace(w4)
    ensures Fields(w1 + " " + (w2 + " " + (w3 + " " + w4))) == [w1] + ([w2] + [w3, w4])
  {
    TwoFields(w3, w4);
    SpacedField(w2, w3 + " " + w4, [w3, w4]);
    SpacedField(w1, w2 + " " + (w3 + " " + w4), [w2] + [w3, w4]);
  }

  lemma Prepended(w1: string, w2: string, ws: seq<string>)
    requires |ws| == 2
    ensures [w1] + ([w2] + ws) == [w1, w2, ws[0], ws[1]]
  {
  }

  /** "[phased" in the middle of a line shows in its lower case. */
  lemma PhasedMarker(pkg: string, suite: string, pct: string, v: string)
    ensures Contains(ToLower(pkg + "/" + suite + " " + "[phased" + " " + pct + " " + v + "]"), "[phased")
  {
    var line := pkg + "/" + suite + " " + "[phased" + " " + pct + " " + v + "]";
    var at := |pkg| + |suite| + 2;
    assert line[at..at + 7] == "[phased";
    assert ToLower(line)[at..at + 7] == "[phased";
    ContainsAt(ToLower(line), "[phased", at);
  }

  // ---------------------------------------------------------------------------------------
  // The "deferred due to phasing" section of `apt-get -s upgrade`

  const PhasingHeader: string := "deferred due to phasing:"

  /** The number of decimal digits at the start of `s`. */
  function LeadingDigits(s: string): (n: nat)
    ensures n <= |s|
    ensures forall k :: 0 <= k < n ==> IsDigit(s[k])
    ensures n == |s| || !IsDigit(s[n])
  {
    if s != [] && IsDigit(s[0]) then 1 + LeadingDigits(s[1..]) else 0
  }

  /** `^\d+ (upgraded|newly installed|to remove)`: a summary line of the simulation. */
  predicate IsSummaryLine(line: string) {
    var n := LeadingDigits(line);
    n > 0 && (HasPrefix(line[n..], " upgraded") || HasPrefix(line[n..], " newly installed")
              || HasPrefix(line[n..], " to remove"))
  }

  /** `^\d+ upgraded`: the summary line that ends the deferred section. */
  predicate IsUpgradedLine(line: string) {
    var n := LeadingDigits(line);
    n > 0 && HasPrefix(line[n..], " upgraded")
  }

  /** A line that opens the deferred section. */
  predicate IsHeaderLine(line: string) {
    Contains(TrimSpace(line), PhasingHeader)
  }

  /** A line inside the section whose fields are collected: not blank, not a header, not a summary. */
  predicate IsListedLine(line: string) {
    var t := TrimSpace(line);
    t != [] && !IsHeaderLine(line) && !IsSummaryLine(t)
  }

  /** The fields of a line, as a set of package names. */
  function FieldSet(line: string): (r: set<string>)
    ensures forall f :: f in r <==> f in Fields(TrimSpace(line))
  {
    set f | f in Fields(TrimSpace(line))
  }

  /** The names a line contributes when it lies inside the section. */
  function ListedNames(line: string): (r: set<string>)
    ensures forall t :: t in r <==> IsListedLine(line) && t in Fields(TrimSpace(line))
  {
    if IsListedLine(line) then FieldSet(line) else {}
  }

  /** The role a line plays in the scan for deferred packages. */
  datatype LineKind = Header | Closing | Body(names: set<string>)

  /**
   * A header opens the section; otherwise an "N upgraded" line closes it; any other line
   * contributes its names (none unless it is listed).
   */
  function KindOf(line: string): (k: LineKind)
    ensures k.Body? ==> k.names == ListedNames(line)
    ensures k == Header <==> IsHeaderLine(line)
  {
    if IsHeaderLine(line) then Header
    else if IsUpgradedLine(TrimSpace(line)) then Closing
    else Body(ListedNames(line))
  }

  /** The kinds of the lines, in order. */
  function Kinds(lines: seq<string>): (ks: seq<LineKind>)
    ensures |ks| == |lines|
  {
    Map(lines, KindFn())
  }

  function KindFn(): string -> LineKind {
    line => KindOf(line)
  }

  lemma KindsAt(lines: seq<string>, i: int)
    requires 0 <= i < |lines|
    ensures Kinds(lines)[i] == KindOf(lines[i])
  {
    MapAt(lines, KindFn(), i);
  }

  /**
   * The names the scan collects from lines of these kinds, when it has (`found`) or has not yet seen
   * a header: the names of every line after a header, up to the first closing line.
   */
  function Scan(ks: seq<LineKind>, found: bool): set<string>
    decreases |ks|
  {
    if ks == [] then {}
    else match ks[0]
      case Header => Scan(ks[1..], true)
      case Closing => if found then {} else Scan(ks[1..], false)
      case Body(names) => if found then names + Scan(ks[1..], true) else Scan(ks[1..], false)
  }

  /** The packages the simulation lists as deferred due to phasing. */
  function Deferred(lines: seq<string>): set<string> {
    Scan(Kinds(lines), false)
  }

  /** The scan of checkAPTUpdates over the simulation's lines, with its header flag and early exit. */
  method ScanDeferred(lines: seq<string>) returns (deferred: set<string>)
    ensures deferred == Deferred(lines)
  {
    ghost var ks := Kinds(lines);
    deferred := {};
    var foundHeader := false;
    var i := 0;
    while i < |lines|
      invariant 0 <= i <= |lines|
      invariant deferred + Scan(ks[i..], foundHeader) == Scan(ks, false)
    {
      var header, closing, names := ReadScanLine(lines, i);
      ScanAdvance(ks, i, foundHeader, deferred);
      if header {
        foundHeader := true;
        i := i + 1;
        continue;
      }
      if foundHeader {
        deferred := deferred + names;
        if closing {
          break;
        }
      }
      i := i + 1;
    }
    assert ks[|lines|..] == [];
  }

  /**
   * Line `i` of the scan, trimmed: whether it holds the header, whether it is an "N upgraded"
   * line, and the fields it contributes when it is neither blank nor a summary line.
   */
  method ReadScanLine(lines: seq<string>, i: int) returns (header: bool, closing: bool, names: set<string>)
    requires 0 <= i < |lines|
    ensures Kinds(lines)[i] == (if header then Header else if closing then Closing else Body(names))
    ensures closing ==> names == {}
  {
    KindsAt(lines, i);
    var t := TrimSpace(lines[i]);
    if Contains(t, PhasingHeader) {
      return true, false, {};
    }
    header := false;
    closing := IsUpgradedLine(t);
    names := {};
    if t != [] && !IsSummaryLine(t) {
      names := FieldSet(lines[i]);
    }
    KindOfBody(lines[i]);
    if closing {
      assert IsSummaryLine(t);
    }
  }

  /** How the scan's invariant carries over line `i`, for each kind of line. */
  lemma ScanAdvance(ks: seq<LineKind>, i: int, found: bool, deferred: set<string>)
    requires 0 <= i < |ks|
    requires deferred + Scan(ks[i..], found) == Scan(ks, false)
    ensures ks[i] == Header ==> deferred + Scan(ks[i + 1..], true) == Scan(ks, false)
    ensures ks[i] == Closing && found ==> deferred == Scan(ks, false)
    ensures ks[i].Body? && found ==> (deferred + ks[i].names) + Scan(ks[i + 1..], true) == Scan(ks, false)
    ensures ks[i] != Header && !found ==> deferred + Scan(ks[i + 1..], false) == Scan(ks, false)
  {
    ScanStep(ks, i, found);
    if ks[i].Body? && found {
      assert deferred + (ks[i].names + Scan(ks[i + 1..], true)) == (deferred + ks[i].names) + Scan(ks[i + 1..], true);
    }
  }

  /** One step of `Scan` at index `i`, case by case. */
  lemma ScanStep(ks: seq<LineKind>, i: int, found: bool)
    requires 0 <= i < |ks|
    ensures ks[i] == Header ==> Scan(ks[i..], found) == Scan(ks[i + 1..], true)
    ensures ks[i] == Closing && found ==> Scan(ks[i..], found) == {}
    ensures ks[i] == Closing && !found ==> Scan(ks[i..], found) == Scan(ks[i + 1..], false)
    ensures ks[i].Body? && found ==> Scan(ks[i..], found) == ks[i].names + Scan(ks[i + 1..], true)
    ensures ks[i].Body? && !found ==> Scan(ks[i..], found) == Scan(ks[i + 1..], false)
  {
    assert ks[i..][0] == ks[i];
    assert ks[i..][1..] == ks[i + 1..];
  }

  /** The kind of a line that is not a header, as the scan computes it from the trimmed line. */
  lemma KindOfBody(line: string)
    requires !Contains(TrimSpace(line), PhasingHeader)
    ensures var t := TrimSpace(line);
      KindOf(line) == if IsUpgradedLine(t) then Closing
                      else Body(if t != [] && !IsSummaryLine(t) then FieldSet(line) else {})
  {
  }

  /** The index of the first header, or `|ks|`. */
  function FirstHeader(ks: seq<LineKind>): (h: nat)
    ensures h <= |ks|
    ensures forall k :: 0 <= k < h ==> ks[k] != Header
    ensures h < |ks| ==> ks[h] == Header
  {
    if ks == [] || ks[0] == Header then 0 else 1 + FirstHeader(ks[1..])
  }

  /** The index of the first closing line, or `|ks|`. */
  function FirstClosing(ks: seq<LineKind>): (e: nat)
    ensures e <= |ks|
    ensures forall k :: 0 <= k < e ==> ks[k] != Closing
    ensures e < |ks| ==> ks[e] == Closing
  {
    if ks == [] || ks[0] == Closing then 0 else 1 + FirstClosing(ks[1..])
  }

  /** The bounds of the section: after the first header, up to the first closing line after it. */
  function Bounds(ks: seq<LineKind>): (b: (nat, nat))
    ensures b.0 <= b.1 <= |ks|
  {
    var h := FirstHeader(ks);
    if h == |ks| then (|ks|, |ks|) else (h + 1, h + 1 + FirstClosing(ks[h + 1..]))
  }

  /** The names of the lines of the section. */
  function Names(ks: seq<LineKind>): set<string> {
    if ks == [] then {}
    else (if ks[0].Body? then ks[0].names else {}) + Names(ks[1..])
  }

  lemma {:induction false} ScanInSection(ks: seq<LineKind>)
    ensures Scan(ks, true) == Names(ks[..FirstClosing(ks)])
    decreases |ks|
  {
    if ks != [] && ks[0] != Closing {
      ScanInSection(ks[1..]);
      var e := FirstClosing(ks);
      assert ks[..e][0] == ks[0];
      assert ks[..e][1..] == ks[1..][..e - 1];
    }
  }

  lemma {:induction false} ScanBeforeHeader(ks: seq<LineKind>)
    ensures FirstHeader(ks) == |ks| ==> Scan(ks, false) == {}
    ensures FirstHeader(ks) < |ks| ==>
      Scan(ks, false) == Names(ks[FirstHeader(ks) + 1..][..FirstClosing(ks[FirstHeader(ks) + 1..])])
    decreases |ks|
  {
    if ks != [] {
      if ks[0] == Header {
        ScanInSection(ks[1..]);
      } else {
        ScanBeforeHeader(ks[1..]);
        var h := FirstHeader(ks);
        if h < |ks| {
          assert ks[1..][h..] == ks[h + 1..];
        }
      }
    }
  }

  lemma {:induction false} NamesMembership(ks: seq<LineKind>, t: string)
    ensures t in Names(ks) <==> exists i :: 0 <= i < |ks| && ks[i].Body? && t in ks[i].names
    decreases |ks|
  {
    if ks != [] {
      NamesMembership(ks[1..], t);
      if t in Names(ks[1..]) {
        var i :| 0 <= i < |ks| - 1 && ks[1..][i].Body? && t in ks[1..][i].names;
        assert ks[i + 1] == ks[1..][i];
      }
      if exists i :: 0 <= i < |ks| && ks[i].Body? && t in ks[i].names {
        var i :| 0 <= i < |ks| && ks[i].Body? && t in ks[i].names;
        if i > 0 {
          assert ks[1..][i - 1] == ks[i];
        }
      }
    }
  }

  /** Scanning from the start collects the names of the section's lines. */
  lemma ScanIsSection(ks: seq<LineKind>)
    ensures Scan(ks, false) == Names(ks[Bounds(ks).0..Bounds(ks).1])
  {
    ScanBeforeHeader(ks);
    var h := FirstHeader(ks);
    if h == |ks| {
      assert ks[|ks|..|ks|] == [];
    } else {
      var after := ks[h + 1..];
      assert after[..FirstClosing(after)] == ks[h + 1..h + 1 + FirstClosing(after)];
    }
  }

  lemma ScanMembership(ks: seq<LineKind>, t: string)
    ensures t in Scan(ks, false) <==>
            exists i :: Bounds(ks).0 <= i < Bounds(ks).1 && ks[i].Body? && t in ks[i].names
  {
    ScanIsSection(ks);
    NamesOfSlice(ks, Bounds(ks).0, Bounds(ks).1, t);
  }

  /** The names of a slice are those of the lines between its bounds. */
  lemma NamesOfSlice(ks: seq<LineKind>, lo: int, hi: int, t: string)
    requires 0 <= lo <= hi <= |ks|
    ensures t in Names(ks[lo..hi]) <==> exists i :: lo <= i < hi && ks[i].Body? && t in ks[i].names
  {
    var section := ks[lo..hi];
    NamesMembership(section, t);
    if t in Names(section) {
      var j :| 0 <= j < |section| && section[j].Body? && t in section[j].names;
      assert section[j] == ks[lo + j];
    }
    if exists i :: lo <= i < hi && ks[i].Body? && t in ks[i].names {
      var i :| lo <= i < hi && ks[i].Body? && t in ks[i].names;
      assert section[i - lo] == ks[i];
    }
  }

  /** A line contributes names to the section exactly when it is listed. */
  lemma KindNames(line: string, t: string)
    ensures (KindOf(line).Body? && t in KindOf(line).names) <==> IsListedLine(line) && t in Fields(TrimSpace(line))
  {
    var tl := TrimSpace(line);
    if IsUpgradedLine(tl) {
      var n := LeadingDigits(tl);
      assert IsSummaryLine(tl);
    }
  }

  /**
   * What the scan collects, stated without the scan: a name is deferred exactly when it is a field
   * of a listed line that lies after the first header and before the first closing line after it.
   */
  lemma DeferredMembership(lines: seq<string>, t: string)
    ensures t in Deferred(lines) <==>
            exists i :: Bounds(Kinds(lines)).0 <= i < Bounds(Kinds(lines)).1 && IsListedLine(lines[i])
                        && t in Fields(TrimSpace(lines[i]))
  {
    var ks := Kinds(lines);
    ScanMembership(ks, t);
    forall i | 0 <= i < |lines|
      ensures (ks[i].Body? && t in ks[i].names) <==> IsListedLine(lines[i]) && t in Fields(TrimSpace(lines[i]))
    {
      KindsAt(lines, i);
      KindNames(lines[i], t);
    }
  }

  // ---------------------------------------------------------------------------------------
  // The deferred section alone, ending at the next section of apt's report

  /** A line that opens a section of apt's report, such as "The following packages will be upgraded:". */
  predicate IsSectionStart(line: string) {
    HasPrefix(line, "The following") && HasSuffix(line, ":")
  }

  /**
   * The kind of a line when the deferred section also ends where the next section of the report
   * opens. The phasing header opens a section too, so it is recognised first.
   */
  function SectionKindOf(line: string): (k: LineKind)
    ensures k == Header <==> IsHeaderLine(line)
    ensures k == Closing <==> !IsHeaderLine(line) && (IsSectionStart(TrimSpace(line)) || IsUpgradedLine(TrimSpace(line)))
    ensures k != Closing ==> k == KindOf(line)
  {
    if IsHeaderLine(line) then Header
    else if IsSectionStart(TrimSpace(line)) then Closing
    else KindOf(line)
  }

  function SectionKinds(lines: seq<string>): (ks: seq<LineKind>)
    ensures |ks| == |lines|
  {
    Map(lines, SectionKindFn())
  }

  function SectionKindFn(): string -> LineKind {
    line => SectionKindOf(line)
  }

  lemma SectionKindsAt(lines: seq<string>, i: int)
    requires 0 <= i < |lines|
    ensures SectionKinds(lines)[i] == SectionKindOf(lines[i])
  {
    MapAt(lines, SectionKindFn(), i);
  }

  /** The packages listed under the phasing header and nowhere else. */
  function DeferredSection(lines: seq<string>): set<string> {
    Scan(SectionKinds(lines), false)
  }

  /** No line strictly inside the bounds of a section closes it. */
  lemma InsideBounds(ks: seq<LineKind>, i: int)
    requires Bounds(ks).0 <= i < Bounds(ks).1
    ensures ks[i] != Closing
  {
    var h := FirstHeader(ks);
    assert ks[h + 1..][i - h - 1] == ks[i];
  }

  /**
   * The section scan collects a name exactly when it is a field of a listed line after the first
   * header, and every line it reads is a header or belongs to no other section and is no
   * `N upgraded` line.
   */
  lemma DeferredSectionMembership(lines: seq<string>, t: string)
    ensures var b := Bounds(SectionKinds(lines));
            t in DeferredSection(lines) <==>
            exists i :: b.0 <= i < b.1 && IsListedLine(lines[i]) && t in Fields(TrimSpace(lines[i]))
    ensures var b := Bounds(SectionKinds(lines));
            forall i :: b.0 <= i < b.1 ==>
              IsHeaderLine(lines[i]) || (!IsSectionStart(TrimSpace(lines[i])) && !IsUpgradedLine(TrimSpace(lines[i])))
  {
    var ks := SectionKinds(lines);
    var b := Bounds(ks);
    ScanMembership(ks, t);
    forall i | b.0 <= i < b.1
      ensures (ks[i].Body? && t in ks[i].names) <==> IsListedLine(lines[i]) && t in Fields(TrimSpace(lines[i]))
      ensures IsHeaderLine(lines[i]) || (!IsSectionStart(TrimSpace(lines[i])) && !IsUpgradedLine(TrimSpace(lines[i])))
    {
      InsideBounds(ks, i);
      SectionKindsAt(lines, i);
      KindNames(lines[i], t);
    }
  }

  /**
   * As written, the scan reads past the deferred list into the next section: a name listed after
   * a later "The following …:" line and before the `N upgraded` line is marked deferred, while
   * the section scan leaves it out.
   */
  lemma NextSectionMarkedDeferred(lines: seq<string>, h: int, j: int, k: int, t: string)
    requires 0 <= h < j < k < |lines|
    requires IsHeaderLine(lines[h]) && forall i :: 0 <= i < h ==> !IsHeaderLine(lines[i])
    requires !IsHeaderLine(lines[j]) && IsSectionStart(TrimSpace(lines[j]))
    requires forall i :: h < i <= k ==> !IsUpgradedLine(TrimSpace(lines[i]))
    requires IsListedLine(lines[k]) && t in Fields(TrimSpace(lines[k]))
    requires forall i :: h < i < j ==> !(IsListedLine(lines[i]) && t in Fields(TrimSpace(lines[i])))
    ensures t in Deferred(lines)
    ensures t !in DeferredSection(lines)
  {
    var ks, sk := Kinds(lines), SectionKinds(lines);
    forall i | 0 <= i <= k
      ensures ks[i] == Header <==> IsHeaderLine(lines[i])
      ensures sk[i] == Header <==> IsHeaderLine(lines[i])
      ensures h < i ==> ks[i] != Closing
    {
      KindsAt(lines, i);
      SectionKindsAt(lines, i);
    }
    SectionKindsAt(lines, j);
    SectionReaches(ks, h, k);
    DeferredMembership(lines, t);
    SectionEndsBy(sk, h, j);
    DeferredSectionMembership(lines, t);
  }

  /** A section whose lines up to `k` do not close it reaches past `k`. */
  lemma SectionReaches(ks: seq<LineKind>, h: int, k: int)
    requires 0 <= h < k < |ks|
    requires ks[h] == Header && forall i :: 0 <= i < h ==> ks[i] != Header
    requires forall i :: h < i <= k ==> ks[i] != Closing
    ensures Bounds(ks).0 == h + 1 && Bounds(ks).1 > k
  {
    assert FirstHeader(ks) == h;
    var after := ks[h + 1..];
    forall m | 0 <= m < k - h
      ensures after[m] != Closing
    {
      assert after[m] == ks[h + 1 + m];
    }
  }

  /** A section closed by line `j` ends there at the latest. */
  lemma SectionEndsBy(ks: seq<LineKind>, h: int, j: int)
    requires 0 <= h < j < |ks|
    requires ks[h] == Header && forall i :: 0 <= i < h ==> ks[i] != Header
    requires ks[j] == Closing
    ensures Bounds(ks).0 == h + 1 && Bounds(ks).1 <= j
  {
    assert FirstHeader(ks) == h;
    assert ks[h + 1..][j - h - 1] == ks[j];
  }

  // ---------------------------------------------------------------------------------------
  // `Inst` lines of `apt-get -s upgrade`

  /** What one `Inst` line names: the package, its installed version (or "") and the target version. */
  datatype InstLine = InstLine(name: string, current: string, target: string)

  /** The end of the run of `\s` characters that starts at `i`. */
  function SkipReSpace(s: string, i: nat): (j: nat)
    requires i <= |s|
    ensures i <= j <= |s|
    ensures forall k :: i <= k < j ==> IsReSpace(s[k])
    ensures j == |s| || !IsReSpace(s[j])
    decreases |s| - i
  {
    if i < |s| && IsReSpace(s[i]) then SkipReSpace(s, i + 1) else i
  }

  /** The end of the run of `\S` characters that starts at `i`. */
  function SkipNonReSpace(s: string, i: nat): (j: nat)
    requires i <= |s|
    ensures i <= j <= |s|
    ensures forall k :: i <= k < j ==> !IsReSpace(s[k])
    ensures j == |s| || IsReSpace(s[j])
    decreases |s| - i
  {
    if i < |s| && !IsReSpace(s[i]) then SkipNonReSpace(s, i + 1) else i
  }

  /** The end of the run of `[^ )]` characters that starts at `i`. */
  function SkipTarget(s: string, i: nat): (j: nat)
    requires i <= |s|
    ensures i <= j <= |s|
    ensures forall k :: i <= k < j ==> s[k] != ' ' && s[k] != ')'
    ensures j == |s| || s[j] == ' ' || s[j] == ')'
    decreases |s| - i
  {
    if i < |s| && s[i] != ' ' && s[i] != ')' then SkipTarget(s, i + 1) else i
  }

  /** The position of the first ']' at or after `i`, or `|s|`. */
  function FindClose(s: string, i: nat): (j: nat)
    requires i <= |s|
    ensures i <= j <= |s|
    ensures forall k :: i <= k < j ==> s[k] != ']'
    ensures j == |s| || s[j] == ']'
    decreases |s| - i
  {
    if i < |s| && s[i] != ']' then FindClose(s, i + 1) else i
  }

  /**
   * The regular expression `^Inst\s+(\S+)(?:\s+\[([^\]]+)\])?\s+\(([^ )]+)` and its three groups.
   * Each repetition can only end where this recogniser ends it, and when the optional bracket group
   * fails, the alternative without it fails too (it would need '(' where '[' stands).
   */
  function MatchInst(line: string): (m: Option<InstLine>)
    ensures m.Some? ==> HasPrefix(line, "Inst") && m.value.name != [] && m.value.target != []
    ensures m.Some? ==> forall c :: c in m.value.name ==> !IsReSpace(c)
    ensures m.Some? ==> ']' !in m.value.current && ' ' !in m.value.target && ')' !in m.value.target
  {
    if !HasPrefix(line, "Inst") then None
    else
      var a := SkipReSpace(line, 4);
      var b := SkipNonReSpace(line, a);
      var c := SkipReSpace(line, b);
      if a == 4 || b == a || c == b || c == |line| then None
      else if line[c] == '[' then
        var e := FindClose(line, c + 1);
        if e == |line| || e == c + 1 then None
        else
          var d := SkipReSpace(line, e + 1);
          if d == e + 1 || d == |line| || line[d] != '(' then None
          else
            var z := SkipTarget(line, d + 1);
            if z == d + 1 then None
            else Some(InstLine(line[a..b], line[c + 1..e], line[d + 1..z]))
      else if line[c] == '(' then
        var z := SkipTarget(line, c + 1);
        if z == c + 1 then None
        else Some(InstLine(line[a..b], [], line[c + 1..z]))
      else None
  }

  /**
   * One line of checkAPTUpdates' second scan: a trimmed line that starts with "Inst " and matches the
   * pattern gives its name and, trimmed, its installed and target versions; every other line nothing.
   */
  function ParseInstLine(raw: string): (r: Option<InstLine>)
    ensures r.Some? ==> HasPrefix(TrimSpace(raw), "Inst ") && r.value.name != []
    ensures r.Some? ==> ']' !in r.value.current && ' ' !in r.value.target && ')' !in r.value.target
  {
    ParseTrimmed(TrimSpace(raw))
  }

  /** The parse of a line once it is trimmed. */
  function ParseTrimmed(line: string): (r: Option<InstLine>)
    ensures r.Some? ==> HasPrefix(line, "Inst ") && r.value.name != []
    ensures r.Some? ==> ']' !in r.value.current && ' ' !in r.value.target && ')' !in r.value.target
  {
    if line == [] || !HasPrefix(line, "Inst ") then None
    else match MatchInst(line)
      case None => None
      case Some(m) => Some(TrimVersions(m))
  }

  /** The captured versions, trimmed. */
  function TrimVersions(m: InstLine): (r: InstLine)
    ensures r.name == m.name
    ensures forall c :: c in r.current ==> c in m.current
    ensures forall c :: c in r.target ==> c in m.target
  {
    InstLine(m.name, TrimSpace(m.current), TrimSpace(m.target))
  }

  /** The recogniser's reading of a line whose runs end where stated, with a bracketed version. */
  lemma MatchBracketed(line: string, a: nat, b: nat, c: nat, e: nat, d: nat, z: nat)
    requires HasPrefix(line, "Inst") && 4 < a <= |line| && SkipReSpace(line, 4) == a
    requires a < b <= |line| && SkipNonReSpace(line, a) == b
    requires b < c < |line| && SkipReSpace(line, b) == c && line[c] == '['
    requires c + 1 < e < |line| && FindClose(line, c + 1) == e
    requires e + 1 < d < |line| && SkipReSpace(line, e + 1) == d && line[d] == '('
    requires d + 1 < z <= |line| && SkipTarget(line, d + 1) == z
    ensures MatchInst(line) == Some(InstLine(line[a..b], line[c + 1..e], line[d + 1..z]))
  {
  }

  /** The recogniser's reading of a line whose runs end where stated, without a bracketed version. */
  lemma MatchPlain(line: string, a: nat, b: nat, c: nat, z: nat)
    requires HasPrefix(line, "Inst") && 4 < a <= |line| && SkipReSpace(line, 4) == a
    requires a < b <= |line| && SkipNonReSpace(line, a) == b
    requires b < c < |line| && SkipReSpace(line, b) == c && line[c] == '('
    requires c + 1 < z <= |line| && SkipTarget(line, c + 1) == z
    ensures MatchInst(line) == Some(InstLine(line[a..b], [], line[c + 1..z]))
  {
  }

  /** A line with an installed version in brackets is read back as the parts it was made of. */
  lemma InstRoundTrip(name: string, current: string, target: string, rest: string)
    requires name != [] && forall c :: c in name ==> !IsReSpace(c)
    requires current != [] && ']' !in current
    requires target != [] && ' ' !in target && ')' !in target
    requires rest == [] || rest[0] == ' ' || rest[0] == ')'
    ensures MatchInst("Inst " + name + " [" + current + "] (" + target + rest) == Some(InstLine(name, current, target))
  {
    var line := "Inst " + name + " [" + current + "] (" + target + rest;
    BracketedLayout(name, current, target, rest);
    BracketedRuns(line, name, current, target, rest);
  }

  lemma BracketedLayout(name: string, current: string, target: string, rest: string)
    ensures var line := "Inst " + name + " [" + current + "] (" + target + rest;
      var b := 5 + |name|;
      var e := b + 2 + |current|;
      && |line| == e + 3 + |target| + |rest|
      && line[..4] == "Inst" && line[4] == ' ' && line[5..b] == name && line[b] == ' ' && line[b + 1] == '['
      && line[b + 2..e] == current && line[e] == ']' && line[e + 1] == ' ' && line[e + 2] == '('
      && line[e + 3..e + 3 + |target|] == target && line[e + 3 + |target|..] == rest
  {
    var tail := target + rest;
    var afterName := " [" + current + "] (" + tail;
    var line := "Inst " + name + afterName;
    assert line == "Inst " + name + " [" + current + "] (" + target + rest;
    var b := 5 + |name|;
    assert line[b..] == afterName;
    assert afterName[2..2 + |current|] == current;
    assert afterName[5 + |current|..] == tail;
  }

  lemma BracketedRuns(line: string, name: string, current: string, target: string, rest: string)
    requires name != [] && forall c :: c in name ==> !IsReSpace(c)
    requires current != [] && ']' !in current
    requires target != [] && ' ' !in target && ')' !in target
    requires rest == [] || rest[0] == ' ' || rest[0] == ')'
    requires var b := 5 + |name|;
      var e := b + 2 + |current|;
      && |line| == e + 3 + |target| + |rest|
      && line[..4] == "Inst" && line[4] == ' ' && line[5..b] == name && line[b] == ' ' && line[b + 1] == '['
      && line[b + 2..e] == current && line[e] == ']' && line[e + 1] == ' ' && line[e + 2] == '('
      && line[e + 3..e + 3 + |target|] == target && line[e + 3 + |target|..] == rest
    ensures MatchInst(line) == Some(InstLine(name, current, target))
  {
    var a, b := 5, 5 + |name|;
    var c := b + 1;
    var e := c + 1 + |current|;
    var d := e + 2;
    var z := d + 1 + |target|;
    assert line[a] == line[a..b][0] == name[0] && name[0] in name;
    SkipReSpaceRun(line, 4, a);
    WordRun(line, a, b, name);
    SkipReSpaceRun(line, b, c);
    CloseRun(line, c + 1, e, current);
    SkipReSpaceRun(line, e + 1, d);
    if z < |line| {
      assert line[z] == line[z..][0] == rest[0];
    }
    TargetRun(line, d + 1, z, target);
    assert line[a..b] == name && line[c + 1..e] == current && line[d + 1..z] == target;
    assert HasPrefix(line, "Inst");
    MatchBracketed(line, a, b, c, e, d, z);
  }

  /** A run that spells a word without `\s` ends where the word ends. */
  lemma WordRun(line: string, a: int, b: int, w: string)
    requires 0 <= a <= b <= |line| && line[a..b] == w && forall c :: c in w ==> !IsReSpace(c)
    requires b == |line| || IsReSpace(line[b])
    ensures SkipNonReSpace(line, a) == b
  {
    forall k | a <= k < b ensures !IsReSpace(line[k]) {
      assert line[k] == w[k - a];
    }
    SkipNonReSpaceRun(line, a, b);
  }

  /** A run that spells a text without ']' and is followed by ']' ends there. */
  lemma CloseRun(line: string, i: int, e: int, w: string)
    requires 0 <= i <= e < |line| && line[i..e] == w && ']' !in w && line[e] == ']'
    ensures FindClose(line, i) == e
  {
    forall k | i <= k < e ensures line[k] != ']' {
      assert line[k] == w[k - i];
    }
    FindCloseRun(line, i, e);
  }

  /** A run that spells a target, followed by the end, a space or ')', ends there. */
  lemma TargetRun(line: string, i: int, z: int, w: string)
    requires 0 <= i <= z <= |line| && line[i..z] == w && ' ' !in w && ')' !in w
    requires z == |line| || line[z] == ' ' || line[z] == ')'
    ensures SkipTarget(line, i) == z
  {
    forall k | i <= k < z ensures line[k] != ' ' && line[k] != ')' {
      assert line[k] == w[k - i];
    }
    SkipTargetRun(line, i, z);
  }

  /** A line without an installed version is read back as the parts it was made of. */
  lemma InstRoundTripNoCurrent(name: string, target: string, rest: string)
    requires name != [] && forall c :: c in name ==> !IsReSpace(c)
    requires target != [] && ' ' !in target && ')' !in target
    requires rest == [] || rest[0] == ' ' || rest[0] == ')'
    ensures MatchInst("Inst " + name + " (" + target + rest) == Some(InstLine(name, [], target))
  {
    var tail := target + rest;
    var line := "Inst " + name + " (" + tail;
    var a, b := 5, 5 + |name|;
    var c := b + 1;
    var z := c + 1 + |target|;
    assert line == "Inst " + name + " (" + target + rest;
    assert line[..4] == "Inst";
    assert line[4] == ' ' && line[a..b] == name;
    assert line[b] == ' ' && line[c] == '(';
    assert line[c + 1..] == tail && line[c + 1..z] == target && line[z..] == rest;
    SkipReSpaceRun(line, 4, a);
    SkipNonReSpaceRun(line, a, b);
    SkipReSpaceRun(line, b, c);
    SkipTargetRun(line, c + 1, z);
    MatchPlain(line, a, b, c, z);
  }

  /**
   * A trimmed `Inst` line with an installed version is parsed into the parts it was made of, whatever
   * follows the target (the repository and architecture of real output).
   */
  lemma ParseInstRoundTrip(name: string, current: string, target: string, rest: string)
    requires name != [] && NoSpace(name)
    requires current != [] && NoSpace(current) && ']' !in current
    requires target != [] && NoSpace(target) && ')' !in target
    requires rest == [] || ((rest[0] == ' ' || rest[0] == ')') && !IsSpace(rest[|rest| - 1]))
    ensures ParseInstLine("Inst " + name + " [" + current + "] (" + target + rest) == Some(InstLine(name, current, target))
  {
    var head := "Inst " + name + " [" + current + "] (";
    var line := head + target + rest;
    assert head[..5] == "Inst ";
    InstLineEnds(head, target, rest);
    TrimSpaceOfTrimmed(line);
    InstRoundTrip(name, current, target, rest);
    ParseTrimmedInst(line, InstLine(name, current, target));
    TrimVersionsOfWords(InstLine(name, current, target));
  }

  /** The parse of a line that is already trimmed and that the pattern matches. */
  lemma ParseTrimmedInst(line: string, m: InstLine)
    requires TrimSpace(line) == line && HasPrefix(line, "Inst ")
    requires MatchInst(line) == Some(m)
    ensures ParseInstLine(line) == Some(TrimVersions(m))
  {
    TrimmedLineParse(line);
    MatchedLineParse(line, m);
  }

  lemma TrimmedLineParse(line: string)
    requires TrimSpace(line) == line
    ensures ParseInstLine(line) == ParseTrimmed(line)
  {
  }

  lemma MatchedLineParse(line: string, m: InstLine)
    requires HasPrefix(line, "Inst ") && MatchInst(line) == Some(m)
    ensures ParseTrimmed(line) == Some(TrimVersions(m))
  {
  }

  lemma TrimVersionsOfWords(m: InstLine)
    requires NoSpace(m.current) && NoSpace(m.target)
    ensures TrimVersions(m) == m
  {
    NoSpaceTrimmed(m.current);
    NoSpaceTrimmed(m.target);
  }

  /** A trimmed `Inst` line without an installed version is parsed into the parts it was made of. */
  lemma ParseInstRoundTripNoCurrent(name: string, target: string, rest: string)
    requires name != [] && NoSpace(name)
    requires target != [] && NoSpace(target) && ')' !in target
    requires rest == [] || ((rest[0] == ' ' || rest[0] == ')') && !IsSpace(rest[|rest| - 1]))
    ensures ParseInstLine("Inst " + name + " (" + target + rest) == Some(InstLine(name, [], target))
  {
    var head := "Inst " + name + " (";
    var line := head + target + rest;
    assert head[..5] == "Inst ";
    InstLineEnds(head, target, rest);
    TrimSpaceOfTrimmed(line);
    InstRoundTripNoCurrent(name, target, rest);
    ParseTrimmedInst(line, InstLine(name, [], target));
    TrimVersionsOfWords(InstLine(name, [], target));
  }

  /** A line made of an "Inst " head, a target and a rest starts with "Inst " and ends in a non-space. */
  lemma InstLineEnds(head: string, target: string, rest: string)
    requires |head| >= 5 && head[..5] == "Inst "
    requires target != [] && !IsSpace(target[|target| - 1]) && (rest == [] || !IsSpace(rest[|rest| - 1]))
    ensures var line := head + target + rest;
      line[..5] == "Inst " && !IsSpace(line[0]) && !IsSpace(line[|line| - 1])
  {
    var line := head + target + rest;
    assert line[..5] == head[..5];
    if rest == [] {
      assert line[|line| - 1] == target[|target| - 1];
    } else {
      assert line[|line| - 1] == rest[|rest| - 1];
    }
  }

  /**
   * An `Inst` line that ends right after the bracketed version yields no record: the pattern needs
   * " (" and a target after the bracket, and skipping the optional bracket group does not help.
   */
  lemma BracketOnlyRejected(name: string, current: string)
    requires name != [] && NoSpace(name)
    requires current != [] && NoSpace(current) && ']' !in current
    ensures ParseInstLine("Inst " + name + " [" + current + "]") == None
  {
    var line := "Inst " + name + " [" + current + "]";
    BracketOnlyLayout(name, current);
    TrimSpaceOfTrimmed(line);
    BracketOnlyNoMatch(line, name, current);
    TrimmedLineParse(line);
    UnmatchedLineParse(line);
  }

  lemma BracketOnlyLayout(name: string, current: string)
    ensures var line := "Inst " + name + " [" + current + "]";
      var b := 5 + |name|;
      && |line| == b + 3 + |current|
      && line[..4] == "Inst" && line[4] == ' ' && line[5..b] == name && line[b] == ' ' && line[b + 1] == '['
      && line[b + 2..b + 2 + |current|] == current && line[b + 2 + |current|] == ']'
  {
    var line := "Inst " + name + " [" + current + "]";
    var b := 5 + |name|;
    assert line == "Inst " + name + (" [" + current + "]");
    assert line[b..] == " [" + current + "]";
  }

  lemma BracketOnlyNoMatch(line: string, name: string, current: string)
    requires name != [] && NoSpace(name)
    requires current != [] && ']' !in current
    requires var b := 5 + |name|;
      && |line| == b + 3 + |current|
      && line[..4] == "Inst" && line[4] == ' ' && line[5..b] == name && line[b] == ' ' && line[b + 1] == '['
      && line[b + 2..b + 2 + |current|] == current && line[b + 2 + |current|] == ']'
    ensures MatchInst(line) == None
  {
    var a, b := 5, 5 + |name|;
    var c := b + 1;
    var e := c + 1 + |current|;
    assert line[a] == line[a..b][0] == name[0] && name[0] in name;
    SkipReSpaceRun(line, 4, a);
    forall k | a <= k < b ensures !IsReSpace(line[k]) {
      assert line[k] == line[a..b][k - a];
      assert line[k] in name;
    }
    SkipNonReSpaceRun(line, a, b);
    SkipReSpaceRun(line, b, c);
    forall k | c + 1 <= k < e ensures line[k] != ']' {
      assert line[k] == line[c + 1..e][k - c - 1];
    }
    FindCloseRun(line, c + 1, e);
    SkipReSpaceRun(line, e + 1, e + 1);
  }

  lemma UnmatchedLineParse(line: string)
    requires MatchInst(line) == None
    ensures ParseTrimmed(line) == None
  {
  }

  /**
   * The shape of a real line: package, installed version, then target, release and architecture
   * (the pieces are written apart so that the line is read as their concatenation).
   */
  lemma InstExample()
    ensures ParseInstLine("Inst " + "bsdextrautils" + " [" + "2.35.1-6ubuntu1" + "] (" + "2.39.3-9ubuntu6.3"
                          + " Ubuntu:24.04/noble-updates [amd64])")
            == Some(InstLine("bsdextrautils", "2.35.1-6ubuntu1", "2.39.3-9ubuntu6.3"))
  {
    var rest := " Ubuntu:24.04/noble-updates [amd64])";
    ExampleWords();
    assert rest[0] == ' ' && rest[|rest| - 1] == ')';
    ParseInstRoundTrip("bsdextrautils", "2.35.1-6ubuntu1", "2.39.3-9ubuntu6.3", rest);
  }

  /** The words of the example line hold no white space and no closing delimiter. */
  lemma ExampleWords()
    ensures "bsdextrautils" != [] && NoSpace("bsdextrautils")
    ensures NoSpace("2.35.1-6ubuntu1") && ']' !in "2.35.1-6ubuntu1"
    ensures NoSpace("2.39.3-9ubuntu6.3") && ')' !in "2.39.3-9ubuntu6.3"
  {
    AsciiGraphicNoSpace("bsdextrautils");
    AsciiGraphicNoSpace("2.35.1-6ubuntu1");
    AsciiGraphicNoSpace("2.39.3-9ubuntu6.3");
  }

  /**
   * Lines with no '(' after the bracket, as in the version-parsing test of `handlers_test.go`,
   * yield no record at all.
   */
  lemma BracketOnlyExample()
    ensures ParseInstLine("Inst " + "bsdextrautils" + " [" + "2.39.3-9ubuntu6.3" + "]") == None
  {
    assert forall c :: c in "bsdextrautils" ==> !IsSpace(c);
    assert forall c :: c in "2.39.3-9ubuntu6.3" ==> !IsSpace(c) && c != ']';
    BracketOnlyRejected("bsdextrautils", "2.39.3-9ubuntu6.3");
  }

  /** The target is the run up to the first space or ')', so it keeps a trailing ']'. */
  lemma TargetWithBracket()
    ensures ParseInstLine("Inst " + "cpp-13" + " (" + "13.2.0-5ubuntu1~24.04]")
            == Some(InstLine("cpp-13", [], "13.2.0-5ubuntu1~24.04]"))
  {
    assert forall c :: c in "cpp-13" ==> !IsSpace(c);
    assert forall c :: c in "13.2.0-5ubuntu1~24.04]" ==> !IsSpace(c) && c != ')';
    ParseInstRoundTripNoCurrent("cpp-13", "13.2.0-5ubuntu1~24.04]", "");
    assert "Inst " + "cpp-13" + " (" + "13.2.0-5ubuntu1~24.04]" + "" == "Inst " + "cpp-13" + " (" + "13.2.0-5ubuntu1~24.04]";
  }

  /** A phasing marker right after '(' becomes the target: here the target is "[phased". */
  lemma PhasingMarkerTarget()
    ensures ParseInstLine("Inst " + "gcc-13" + " (" + "[phased" + " 10%] 13.2.0-6ubuntu2~24.04]")
            == Some(InstLine("gcc-13", [], "[phased"))
  {
    var rest := " 10%] 13.2.0-6ubuntu2~24.04]";
    assert forall c :: c in "gcc-13" ==> !IsSpace(c);
    assert forall c :: c in "[phased" ==> !IsSpace(c) && c != ')';
    assert rest[|rest| - 1] == ']';
    ParseInstRoundTripNoCurrent("gcc-13", "[phased", rest);
  }

  lemma {:induction false} SkipReSpaceRun(s: string, i: nat, j: nat)
    requires i <= j <= |s|
    requires forall k :: i <= k < j ==> IsReSpace(s[k])
    requires j == |s| || !IsReSpace(s[j])
    ensures SkipReSpace(s, i) == j
    decreases j - i
  {
    if i < j {
      SkipReSpaceRun(s, i + 1, j);
    }
  }

  lemma {:induction false} SkipNonReSpaceRun(s: string, i: nat, j: nat)
    requires i <= j <= |s|
    requires forall k :: i <= k < j ==> !IsReSpace(s[k])
    requires j == |s| || IsReSpace(s[j])
    ensures SkipNonReSpace(s, i) == j
    decreases j - i
  {
    if i < j {
      SkipNonReSpaceRun(s, i + 1, j);
    }
  }

  lemma {:induction false} FindCloseRun(s: string, i: nat, j: nat)
    requires i <= j <= |s|
    requires forall k :: i <= k < j ==> s[k] != ']'
    requires j == |s| || s[j] == ']'
    ensures FindClose(s, i) == j
    decreases j - i
  {
    if i < j {
      FindCloseRun(s, i + 1, j);
    }
  }

  lemma {:induction false} SkipTargetRun(s: string, i: nat, j: nat)
    requires i <= j <= |s|
    requires forall k :: i <= k < j ==> s[k] != ' ' && s[k] != ')'
    requires j == |s| || s[j] == ' ' || s[j] == ')'
    ensures SkipTarget(s, i) == j
    decreases j - i
  {
    if i < j {
      SkipTargetRun(s, i + 1, j);
    }
  }
}
