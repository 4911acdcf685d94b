/**
 * The parts of Go's `strings`, `unicode` and `strconv` packages that the update checks use,
 * over strings of Unicode scalar values.
 */
module GoStrings {
  import opened Wrappers

  /** `unicode.IsSpace`: the separators of `strings.TrimSpace` and `strings.Fields`. */
  predicate IsSpace(c: char) {
    || ('\t' <= c <= '\r') || c == ' ' || c == '\U{85}' || c == '\U{A0}' || c == '\U{1680}'
    || ('\U{2000}' <= c <= '\U{200A}') || c == '\U{2028}' || c == '\U{2029}' || c == '\U{202F}'
    || c == '\U{205F}' || c == '\U{3000}'
  }

  /** A text of printable ASCII characters other than the space. */
  predicate AsciiGraphic(s: string) {
    forall c :: c in s ==> '!' <= c <= '~'
  }

  lemma AsciiGraphicNoSpace(s: string)
    requires AsciiGraphic(s)
    ensures NoSpace(s)
  {
  }

  /** A text made of white space only. */
  predicate AllSpace(s: string) {
    forall c :: c in s ==> IsSpace(c)
  }

  /** The class `\s` of Go's regular expressions: ASCII only, and without vertical tab. */
  predicate IsReSpace(c: char) {
    c == ' ' || c == '\t' || c == '\n' || c == '\U{C}' || c == '\r'
  }

  /** The class `\d` of Go's regular expressions. */
  predicate IsDigit(c: char) {
    '0' <= c <= '9'
  }

  /**
   * `unicode.ToLower` as far as it can produce an ASCII character: ASCII capitals, and the two
   * non-ASCII capitals whose lower case is ASCII (dotted capital I and the Kelvin sign).
   * Every other character is kept; every lowered string of the checks is only compared with
   * ASCII text, so those characters can never match either way.
   */
  function LowerChar(c: char): (r: char)
    ensures 'A' <= c <= 'Z' ==> r as int == c as int + 32
    ensures !('A' <= c <= 'Z') && c != '\U{130}' && c != '\U{212A}' ==> r == c
  {
    if 'A' <= c <= 'Z' then (c as int + 32) as char
    else if c == '\U{130}' then 'i'
    else if c == '\U{212A}' then 'k'
    else c
  }

  /** `strings.ToLower`, character by character. */
  function ToLower(s: string): (r: string)
    ensures |r| == |s|
    ensures forall i :: 0 <= i < |s| ==> r[i] == LowerChar(s[i])
  {
    if s == [] then [] else [LowerChar(s[0])] + ToLower(s[1..])
  }

  predicate HasPrefix(s: string, p: string) {
    |p| <= |s| && s[..|p|] == p
  }

  predicate HasSuffix(s: string, p: string) {
    |p| <= |s| && s[|s| - |p|..] == p
  }

  /** `strings.Contains`: `t` occurs in `s` at some position. */
  predicate Contains(s: string, t: string)
    decreases |s|
  {
    HasPrefix(s, t) || (s != [] && Contains(s[1..], t))
  }

  /** `strings.TrimSuffix`: removes one occurrence of `p` at the end, if there is one. */
  function TrimSuffix(s: string, p: string): (r: string)
    ensures HasSuffix(s, p) ==> r + p == s
    ensures !HasSuffix(s, p) ==> r == s
  {
    if HasSuffix(s, p) then s[..|s| - |p|] else s
  }

  /** `strings.TrimLeftFunc(s, unicode.IsSpace)`. */
  function TrimLeft(s: string): (r: string)
    ensures |r| <= |s| && r == s[|s| - |r|..]
    ensures AllSpace(s[..|s| - |r|])
    ensures r == [] || !IsSpace(r[0])
  {
    if s != [] && IsSpace(s[0]) then TrimLeft(s[1..]) else s
  }

  /** `strings.TrimRightFunc(s, unicode.IsSpace)`. */
  function TrimRight(s: string): (r: string)
    ensures |r| <= |s| && r == s[..|r|]
    ensures AllSpace(s[|r|..])
    ensures r == [] || !IsSpace(r[|r| - 1])
  {
    if s != [] && IsSpace(s[|s| - 1]) then TrimRight(s[..|s| - 1]) else s
  }

  /** `strings.TrimSpace`: `s` without its leading and trailing white space. */
  function TrimSpace(s: string): (r: string)
    ensures |r| <= |s|
    ensures r == [] || (!IsSpace(r[0]) && !IsSpace(r[|r| - 1]))
  {
    var l := TrimLeft(s);
    var r := TrimRight(l);
    if r == [] then r else (
      assert r[0] == l[0];
      r)
  }

  /** Trimming only removes characters. */
  lemma TrimSpaceChars(s: string)
    ensures forall c :: c in TrimSpace(s) ==> c in s
  {
    var l := TrimLeft(s);
    assert forall c :: c in TrimRight(l) ==> c in l;
    assert forall c :: c in l ==> c in s;
  }

  /** A text with no white space in it, such as one field of `strings.Fields`. */
  predicate NoSpace(w: string) {
    forall c :: c in w ==> !IsSpace(c)
  }

  /** The longest prefix of `s` without white space. */
  function Word(s: string): (w: string)
    ensures |w| <= |s| && w == s[..|w|]
    ensures NoSpace(w)
    ensures |w| == |s| || IsSpace(s[|w|])
    ensures s != [] && !IsSpace(s[0]) ==> w != []
  {
    if s == [] || IsSpace(s[0]) then [] else [s[0]] + Word(s[1..])
  }

  /** `strings.Fields`: the maximal runs of non-space characters of `s`, in order. */
  function Fields(s: string): seq<string>
    decreases |s|
  {
    var t := TrimLeft(s);
    if t == [] then []
    else
      var w := Word(t);
      [w] + Fields(t[|w|..])
  }

  /** Every field is a non-empty text without white space. */
  lemma {:induction false} FieldsAreWords(s: string)
    ensures forall f :: f in Fields(s) ==> f != [] && NoSpace(f)
    decreases |s|
  {
    var t := TrimLeft(s);
    if t != [] {
      var w := Word(t);
      var rest := Fields(t[|w|..]);
      FieldsAreWords(t[|w|..]);
      assert Fields(s) == [w] + rest;
      assert w != [] && NoSpace(w);
      forall f | f in Fields(s) ensures f != [] && NoSpace(f) {
        if f != w {
          assert f in rest;
        }
      }
    }
  }

  /** `strings.Split(s, string(c))`: the pieces of `s` between occurrences of `c`; never empty. */
  function Split(s: string, c: char): (r: seq<string>)
    ensures |r| >= 1
    ensures forall p :: p in r ==> c !in p
  {
    if s == [] then [[]]
    else
      var rest := Split(s[1..], c);
      if s[0] == c then [[]] + rest else [[s[0]] + rest[0]] + rest[1..]
  }

  /** `strings.Join`. */
  function Join(ps: seq<string>, sep: string): string {
    if |ps| == 0 then []
    else if |ps| == 1 then ps[0]
    else ps[0] + sep + Join(ps[1..], sep)
  }

  /** The text before the first `c` of `s` (all of `s` when there is none): `strings.Split(s, c)[0]`. */
  function BeforeFirst(s: string, c: char): (r: string)
    ensures c !in r
    ensures HasPrefix(s, r)
    ensures |r| < |s| ==> s[|r|] == c
  {
    SplitFirstIsPrefix(s, c);
    Split(s, c)[0]
  }

  /** The lines of a command's output, split at newline characters. */
  function Lines(output: string): (r: seq<string>)
    ensures |r| >= 1
  {
    Split(output, '\n')
  }

  lemma {:induction false} SplitFirstIsPrefix(s: string, c: char)
    ensures HasPrefix(s, Split(s, c)[0])
    ensures |Split(s, c)[0]| < |s| ==> s[|Split(s, c)[0]|] == c
  {
    if s != [] {
      SplitFirstIsPrefix(s[1..], c);
    }
  }

  /** A text without `c` is its own single piece. */
  lemma {:induction false} SplitNone(s: string, c: char)
    requires c !in s
    ensures Split(s, c) == [s]
  {
    if s != [] {
      SplitNone(s[1..], c);
      assert s == [s[0]] + s[1..];
    }
  }

  /** Splitting a piece without `c`, then `c`, then more text: the piece, then the pieces of the rest. */
  lemma {:induction false} SplitCons(a: string, c: char, rest: string)
    requires c !in a
    ensures Split(a + [c] + rest, c) == [a] + Split(rest, c)
  {
    if a == [] {
      assert a + [c] + rest == [c] + rest;
      assert ([c] + rest)[1..] == rest;
    } else {
      SplitCons(a[1..], c, rest);
      assert (a + [c] + rest)[1..] == a[1..] + [c] + rest;
      assert a == [a[0]] + a[1..];
    }
  }

  /** Splitting at `c` and joining with `c` gives back the text. */
  lemma {:induction false} JoinSplit(s: string, c: char)
    ensures Join(Split(s, c), [c]) == s
  {
    if s != [] {
      var rest := Split(s[1..], c);
      JoinSplit(s[1..], c);
      assert s == [s[0]] + s[1..];
      if s[0] == c {
        assert Split(s, c) == [[]] + rest;
        JoinEmptyFirst(rest, [c]);
      } else {
        assert Split(s, c) == [[s[0]] + rest[0]] + rest[1..];
        JoinPrepend(s[0], rest, [c]);
      }
    }
  }

  /** Joining after an empty first piece starts with the separator. */
  lemma JoinEmptyFirst(ps: seq<string>, sep: string)
    requires |ps| >= 1
    ensures Join([[]] + ps, sep) == sep + Join(ps, sep)
  {
    assert ([[]] + ps)[0] == [] && ([[]] + ps)[1..] == ps;
  }

  /** A character put in front of the first piece comes first in the joined text. */
  lemma JoinPrepend(x: char, ps: seq<string>, sep: string)
    requires |ps| >= 1
    ensures Join([[x] + ps[0]] + ps[1..], sep) == [x] + Join(ps, sep)
  {
    var qs := [[x] + ps[0]] + ps[1..];
    assert qs[0] == [x] + ps[0] && qs[1..] == ps[1..];
    if |ps| > 1 {
      assert ([x] + ps[0]) + sep + Join(ps[1..], sep) == [x] + (ps[0] + sep + Join(ps[1..], sep));
    }
  }

  /** Joining peels off the last piece. */
  lemma {:induction false} JoinLast(ps: seq<string>, sep: string)
    requires |ps| >= 2
    ensures Join(ps, sep) == Join(ps[..|ps| - 1], sep) + sep + ps[|ps| - 1]
  {
    if |ps| > 2 {
      JoinLast(ps[1..], sep);
      assert ps[1..][..|ps| - 2] == ps[..|ps| - 1][1..];
      assert ps[1..][|ps| - 2] == ps[|ps| - 1];
    }
  }

  /** `Contains` means occurring at some position. */
  lemma {:induction false} ContainsAt(s: string, t: string, i: nat)
    requires i + |t| <= |s| && s[i..i + |t|] == t
    ensures Contains(s, t)
    decreases i
  {
    if i > 0 {
      assert s[1..][i - 1..i - 1 + |t|] == s[i..i + |t|];
      ContainsAt(s[1..], t, i - 1);
    }
  }

  /** A text contains each of its characters. */
  lemma ContainsCharAt(s: string, i: nat, c: char)
    requires i < |s| && s[i] == c
    ensures Contains(s, [c])
  {
    assert s[i..i + 1] == [c];
    ContainsAt(s, [c], i);
  }

  lemma {:induction false} ContainsWitness(s: string, t: string) returns (i: nat)
    requires Contains(s, t)
    ensures i + |t| <= |s| && s[i..i + |t|] == t
    decreases |s|
  {
    if HasPrefix(s, t) {
      i := 0;
    } else {
      var j := ContainsWitness(s[1..], t);
      i := j + 1;
      assert s[1..][j..j + |t|] == s[i..i + |t|];
    }
  }

  /** Every character of a contained text occurs in the containing one. */
  lemma ContainsChar(s: string, t: string, k: nat)
    requires Contains(s, t) && k < |t|
    ensures t[k] in s
  {
    var i := ContainsWitness(s, t);
    assert s[i + k] == t[k];
  }

  lemma ContainsInSuffix(a: string, b: string, t: string)
    requires Contains(b, t)
    ensures Contains(a + b, t)
  {
    var i := ContainsWitness(b, t);
    assert (a + b)[|a| + i..|a| + i + |t|] == b[i..i + |t|];
    ContainsAt(a + b, t, |a| + i);
  }

  lemma ContainsInPrefix(a: string, b: string, t: string)
    requires Contains(a, t)
    ensures Contains(a + b, t)
  {
    var i := ContainsWitness(a, t);
    assert (a + b)[i..i + |t|] == a[i..i + |t|];
    ContainsAt(a + b, t, i);
  }

  lemma ContainsShorter(s: string, t: string, u: string)
    requires Contains(s, t + u)
    ensures Contains(s, u)
  {
    var i := ContainsWitness(s, t + u);
    assert s[i + |t|..i + |t| + |u|] == (t + u)[|t|..];
    ContainsAt(s, u, i + |t|);
  }

  lemma ToLowerConcat(a: string, b: string)
    ensures ToLower(a + b) == ToLower(a) + ToLower(b)
  {
  }

  /** A text that starts and ends with something other than white space is its own trimming. */
  lemma TrimSpaceOfTrimmed(s: string)
    requires s == [] || (!IsSpace(s[0]) && !IsSpace(s[|s| - 1]))
    ensures TrimSpace(s) == s
  {
  }

  /** Trimming removes exactly the white space around the text. */
  lemma TrimSpaceSurrounded(a: string, b: string, c: string)
    requires AllSpace(a) && AllSpace(c)
    requires b != [] && !IsSpace(b[0]) && !IsSpace(b[|b| - 1])
    ensures TrimSpace(a + b + c) == b
  {
    TrimLeftSkips(a, b + c);
    assert a + b + c == a + (b + c);
    TrimRightSkips(b, c);
  }

  lemma {:induction false} TrimLeftSkips(a: string, b: string)
    requires AllSpace(a) && (b == [] || !IsSpace(b[0]))
    ensures TrimLeft(a + b) == b
  {
    if a != [] {
      assert (a + b)[1..] == a[1..] + b;
      TrimLeftSkips(a[1..], b);
    }
  }

  lemma {:induction false} TrimRightSkips(b: string, c: string)
    requires AllSpace(c) && (b == [] || !IsSpace(b[|b| - 1]))
    ensures TrimRight(b + c) == b
  {
    if c != [] {
      var d := c[..|c| - 1];
      assert (b + c)[..|b + c| - 1] == b + d;
      TrimRightSkips(b, d);
    } else {
      assert b + c == b;
    }
  }

  lemma NoSpaceTrimmed(s: string)
    requires NoSpace(s)
    ensures TrimSpace(s) == s
  {
    if s != [] {
      assert s[0] in s && s[|s| - 1] in s;
    }
  }

  /** The longest space-free prefix of a word followed by white space is the word. */
  lemma {:induction false} WordBeforeSpace(w: string, rest: string)
    requires NoSpace(w) && (rest == [] || IsSpace(rest[0]))
    ensures Word(w + rest) == w
  {
    if w != [] {
      assert (w + rest)[1..] == w[1..] + rest;
      assert w[0] in w;
      WordBeforeSpace(w[1..], rest);
    } else {
      assert w + rest == rest;
    }
  }

  /** `Fields` of a word, a space and more text: the word, then the fields of the rest. */
  lemma FieldsCons(w: string, sep: char, rest: string)
    requires w != [] && NoSpace(w) && IsSpace(sep)
    ensures Fields(w + [sep] + rest) == [w] + Fields(rest)
  {
    var s := w + [sep] + rest;
    assert w[0] in w;
    TrimLeftSkips([], s);
    assert [] + s == s;
    assert s == w + ([sep] + rest);
    WordBeforeSpace(w, [sep] + rest);
    assert s[|w|..] == [sep] + rest;
    TrimLeftSkips([sep], TrimLeft(rest));
    FieldsAfterSpace(sep, rest);
  }

  lemma FieldsAfterSpace(sep: char, rest: string)
    requires IsSpace(sep)
    ensures Fields([sep] + rest) == Fields(rest)
  {
    assert ([sep] + rest)[1..] == rest;
  }

  /** A single word is its only field. */
  lemma FieldsOfWord(w: string)
    requires w != [] && NoSpace(w)
    ensures Fields(w) == [w]
  {
    assert w[0] in w;
    TrimLeftSkips([], w);
    assert [] + w == w;
    WordBeforeSpace(w, []);
    assert w + [] == w;
    assert w[|w|..] == [];
  }

  /** A word, a space and more text: the word, then the fields of the rest. */
  lemma SpacedField(w: string, rest: string, fs: seq<string>)
    requires w != [] && NoSpace(w) && Fields(rest) == fs
    ensures Fields(w + " " + rest) == [w] + fs
  {
    FieldsCons(w, ' ', rest);
    assert w + " " + rest == w + [' '] + rest;
  }

  /** A word, a space and a word are two fields. */
  lemma TwoFields(first: string, second: string)
    requires first != [] && NoSpace(first) && second != [] && NoSpace(second)
    ensures Fields(first + " " + second) == [first, second]
  {
    FieldsOfWord(second);
    SpacedField(first, second, [second]);
  }

  // ---------------------------------------------------------------------------------------
  // strconv.Atoi on a 64-bit platform

  const MinInt64: int := -0x8000_0000_0000_0000
  const MaxInt64: int := 0x7FFF_FFFF_FFFF_FFFF

  predicate AllDigits(s: string) {
    forall i :: 0 <= i < |s| ==> IsDigit(s[i])
  }

  function DigitsValue(s: string): nat
    requires AllDigits(s)
  {
    if s == [] then 0 else DigitsValue(s[..|s| - 1]) * 10 + (s[|s| - 1] as int - '0' as int)
  }

  /**
   * `strconv.Atoi`: an optional sign followed by one or more decimal digits, whose value fits
   * in 64 bits; anything else (empty text, spaces, underscores, overflow) is an error.
   */
  function Atoi(s: string): (r: Option<int>)
    ensures r.Some? ==> MinInt64 <= r.value <= MaxInt64
    ensures r.Some? ==> s != [] && (IsDigit(s[0]) || s[0] == '+' || s[0] == '-')
  {
    var signed := |s| > 0 && (s[0] == '+' || s[0] == '-');
    var digits := if signed then s[1..] else s;
    if digits == [] || !AllDigits(digits) then None
    else
      var v: int := if signed && s[0] == '-' then 0 - DigitsValue(digits) else DigitsValue(digits);
      if MinInt64 <= v <= MaxInt64 then Some(v) else None
  }

  /** Decimal digits of a natural number, without leading zeros: the inverse of `DigitsValue`. */
  function NatDigits(n: nat): (s: string)
    ensures s != [] && AllDigits(s)
  {
    if n < 10 then [('0' as int + n) as char] else NatDigits(n / 10) + [('0' as int + n % 10) as char]
  }

  /** `strconv.Itoa`, the formatting that `Atoi` reads back. */
  function Itoa(n: int): string {
    if n < 0 then "-" + NatDigits(-n) else NatDigits(n)
  }

  lemma {:induction false} NatDigitsValue(n: nat)
    ensures DigitsValue(NatDigits(n)) == n
  {
    if n >= 10 {
      NatDigitsValue(n / 10);
      var s := NatDigits(n);
      assert s[..|s| - 1] == NatDigits(n / 10);
    }
  }

  /** Every 64-bit integer survives formatting and parsing. */
  lemma AtoiItoa(n: int)
    requires MinInt64 <= n <= MaxInt64
    ensures Atoi(Itoa(n)) == Some(n)
  {
    var s := Itoa(n);
    if n < 0 {
      var d := NatDigits(-n);
      NatDigitsValue(-n);
      assert s == "-" + d && s[0] == '-' && s[1..] == d;
      assert d != [] && AllDigits(d);
      assert DigitsValue(d) == -n;
    } else {
      var d := NatDigits(n);
      NatDigitsValue(n);
      assert s == d && IsDigit(d[0]);
      assert !(s[0] == '+' || s[0] == '-');
    }
  }
}
