/**
 * Models of the C++ standard-library string services used by the mask VM
 * interpreter: `std::isspace`/`std::isdigit` in the "C" locale, `std::stoi`,
 * `std::to_string(int)`, `std::string::find`, the `find_if`/`erase` trimming
 * idiom, and `std::getline` over an `std::istringstream`, together with the
 * interpreter's own `split` helper.
 */
module Strings {
  import opened Wrappers

  const INT32_MIN: int := -0x8000_0000
  const INT32_MAX: int := 0x7fff_ffff

  /** The range of the C++ `int` type on the platforms the source targets. */
  predicate IsInt32(n: int) {
    INT32_MIN <= n <= INT32_MAX
  }

  /** `std::isspace` in the "C" locale. */
  predicate IsSpace(c: char) {
    c == ' ' || c == '\t' || c == '\n' || c == '\U{B}' || c == '\U{C}' || c == '\r'
  }

  /** `std::isdigit`. */
  predicate IsDigit(c: char) {
    '0' <= c <= '9'
  }

  predicate AllDigits(s: string) {
    forall i :: 0 <= i < |s| ==> IsDigit(s[i])
  }

  function DigitValue(c: char): (v: nat)
    requires IsDigit(c)
    ensures v < 10
  {
    (c as int) - ('0' as int)
  }

  function DigitChar(v: nat): (c: char)
    requires v < 10
    ensures IsDigit(c) && DigitValue(c) == v
  {
    (('0' as int) + v) as char
  }

  // ---------------------------------------------------------------------------
  // Trimming (the `erase(find_if(...isspace...))` idiom)
  // ---------------------------------------------------------------------------

  /** `s` without its leading white space. */
  function TrimLeft(s: string): (r: string)
    ensures |r| <= |s|
    ensures forall i :: 0 <= i < |s| - |r| ==> IsSpace(s[i])
    ensures r != [] ==> !IsSpace(r[0])
    ensures s == [] || !IsSpace(s[0]) ==> r == s
  {
    if s != [] && IsSpace(s[0]) then TrimLeft(s[1..]) else s
  }

  /** What `TrimLeft` keeps is a suffix of its argument. */
  lemma {:induction false} TrimLeftSuffix(s: string)
    ensures TrimLeft(s) == s[|s| - |TrimLeft(s)|..]
  {
    if s != [] && IsSpace(s[0]) {
      TrimLeftSuffix(s[1..]);
    }
  }

  /** `s` without its trailing white space. */
  function TrimRight(s: string): (r: string)
    ensures |r| <= |s| && r == s[..|r|]
    ensures forall i :: |r| <= i < |s| ==> IsSpace(s[i])
    ensures r != [] ==> !IsSpace(r[|r| - 1])
  {
    if s != [] && IsSpace(s[|s| - 1]) then TrimRight(s[..|s| - 1]) else s
  }

  /**
   * `s` without white space at either end: the contiguous middle of `s`
   * left once its leading and trailing blanks are removed.
   */
  function Trim(s: string): (r: string)
    ensures r != [] ==> !IsSpace(r[0]) && !IsSpace(r[|r| - 1])
    ensures exists i, j :: SlicedBetweenBlanks(s, r, i, j)
    ensures forall c :: c in r ==> c in s
  {
    TrimEnds(s);
    TrimMiddle(s, TrimLeft(s), TrimRight(TrimLeft(s)));
    TrimInside(s);
    TrimRight(TrimLeft(s))
  }

  /** `r` is `s[i..j]`, and everything of `s` outside that slice is white space. */
  predicate SlicedBetweenBlanks(s: string, r: string, i: int, j: int) {
    && 0 <= i <= j <= |s| && r == s[i..j]
    && (forall k :: 0 <= k < i ==> IsSpace(s[k]))
    && (forall k :: j <= k < |s| ==> IsSpace(s[k]))
  }

  lemma TrimEnds(s: string)
    ensures var r := TrimRight(TrimLeft(s));
            r != [] ==> !IsSpace(r[0]) && !IsSpace(r[|r| - 1])
  {
    var l := TrimLeft(s);
    var r := TrimRight(l);
    if r != [] {
      assert r[0] == l[0];
    }
  }

  /** Trimming keeps the slice `s[i..j]` between a blank prefix and a blank suffix. */
  lemma TrimMiddle(s: string, l: string, r: string)
    requires l == TrimLeft(s) && r == TrimRight(l)
    ensures SlicedBetweenBlanks(s, r, |s| - |l|, |s| - |l| + |r|)
  {
    TrimLeftSuffix(s);
    SuffixThenPrefix(s, l, r);
  }

  /** A prefix `r` of a suffix `l` of `s`, with blanks cut away on both sides, is a slice between blanks. */
  lemma SuffixThenPrefix(s: string, l: string, r: string)
    requires |l| <= |s| && l == s[|s| - |l|..] && (forall k :: 0 <= k < |s| - |l| ==> IsSpace(s[k]))
    requires |r| <= |l| && r == l[..|r|] && (forall k :: |r| <= k < |l| ==> IsSpace(l[k]))
    ensures SlicedBetweenBlanks(s, r, |s| - |l|, |s| - |l| + |r|)
  {
    var i := |s| - |l|;
    forall k | i + |r| <= k < |s|
      ensures IsSpace(s[k])
    {
      assert s[k] == l[k - i];
    }
  }

  lemma TrimInside(s: string)
    ensures forall c :: c in TrimRight(TrimLeft(s)) ==> c in s
  {
    var l := TrimLeft(s);
    var r := TrimRight(l);
    TrimLeftSuffix(s);
    forall c | c in r ensures c in s {
      var k :| 0 <= k < |r| && r[k] == c;
      assert r[k] == l[k];
      assert l[k] == s[|s| - |l| + k];
    }
  }

  // ---------------------------------------------------------------------------
  // std::stoi and std::to_string
  // ---------------------------------------------------------------------------

  /** Length of the longest prefix of `s` made of decimal digits. */
  function DigitRun(s: string): (n: nat)
    ensures n <= |s|
    ensures forall i :: 0 <= i < n ==> IsDigit(s[i])
    ensures n < |s| ==> !IsDigit(s[n])
  {
    if s != [] && IsDigit(s[0]) then 1 + DigitRun(s[1..]) else 0
  }

  /** The number denoted by a string of decimal digits (read left to right). */
  function DigitsValue(s: string): nat
    requires AllDigits(s)
  {
    if s == [] then 0 else 10 * DigitsValue(s[..|s| - 1]) + DigitValue(s[|s| - 1])
  }

  /**
   * `std::stoi(s)` with base 10: leading white space is skipped, one optional
   * sign is accepted, then at least one digit must follow; whatever follows
   * the digits is ignored. `None` stands for the `invalid_argument` (no
   * digits) and `out_of_range` (value outside `int`) exceptions.
   */
  function Stoi(s: string): (r: Option<int>)
    ensures r.Some? ==> IsInt32(r.value)
  {
    var t := TrimLeft(s);
    var negative := t != [] && t[0] == '-';
    var body := if t != [] && (t[0] == '-' || t[0] == '+') then t[1..] else t;
    var n := DigitRun(body);
    if n == 0 then None
    else
      var magnitude: int := DigitsValue(body[..n]);
      var v: int := if negative then -magnitude else magnitude;
      if IsInt32(v) then Some(v) else None
  }

  /** Decimal numeral of a natural number, most significant digit first. */
  function NatToString(n: nat): (s: string)
    ensures s != [] && AllDigits(s)
    decreases n
  {
    if n < 10 then [DigitChar(n)] else NatToString(n / 10) + [DigitChar(n % 10)]
  }

  /** `std::to_string(int)`: the decimal numeral, with a `-` sign when negative. */
  function IntToString(n: int): (s: string)
    ensures s != [] && (s[0] == '-' || IsDigit(s[0]))
  {
    if n < 0 then "-" + NatToString(-n) else NatToString(n)
  }

  lemma {:induction false} NatToStringValue(n: nat)
    ensures DigitsValue(NatToString(n)) == n
    decreases n
  {
    if n >= 10 {
      NatToStringValue(n / 10);
      var s := NatToString(n);
      assert s[..|s| - 1] == NatToString(n / 10);
    }
  }

  /** Reading back the numeral that `std::to_string` writes gives the same `int`. */
  lemma StoiIntToString(n: int)
    requires IsInt32(n)
    ensures Stoi(IntToString(n)) == Some(n)
  {
    var s := IntToString(n);
    var m: nat := if n < 0 then -n else n;
    var digits := NatToString(m);
    NatToStringValue(m);
    assert TrimLeft(s) == s;
    var body := if s[0] == '-' || s[0] == '+' then s[1..] else s;
    assert body == digits by {
      if n < 0 { assert s[1..] == digits; }
    }
    assert DigitRun(body) == |digits|;
    assert body[..|digits|] == digits;
  }

  /** `std::stoi` fails on text whose first character is neither blank, sign nor digit. */
  lemma StoiRejectsLeadingLetter(s: string)
    requires s != [] && !IsSpace(s[0]) && !IsDigit(s[0]) && s[0] != '-' && s[0] != '+'
    ensures Stoi(s) == None
  {
    assert TrimLeft(s) == s;
  }

  // ---------------------------------------------------------------------------
  // std::string::find and prefixes
  // ---------------------------------------------------------------------------

  predicate OccursAt(s: string, pat: string, i: nat) {
    i + |pat| <= |s| && s[i..i + |pat|] == pat
  }

  /** `s.find(pat, from)`: the first position at or after `from` where `pat` occurs. */
  function Find(s: string, pat: string, from: nat): (r: Option<nat>)
    requires from <= |s|
    ensures r.Some? ==> from <= r.value && OccursAt(s, pat, r.value)
    ensures forall i :: from <= i && (r.Some? ==> i < r.value) ==> !OccursAt(s, pat, i)
    decreases |s| - from
  {
    if from + |pat| > |s| then None
    else if s[from..from + |pat|] == pat then Some(from)
    else if from == |s| then None
    else Find(s, pat, from + 1)
  }

  /** Looking for a one-character pattern finds the first occurrence of that character. */
  lemma FindChar(s: string, c: char, from: nat)
    requires from <= |s|
    ensures Find(s, [c], from).None? ==> c !in s[from..]
    ensures Find(s, [c], from).Some? ==>
              var p := Find(s, [c], from).value;
              p < |s| && s[p] == c && c !in s[from..p]
  {
    var r := Find(s, [c], from);
    forall i | from <= i < |s| && (r.Some? ==> i < r.value)
      ensures s[i] != c
    {
      assert !OccursAt(s, [c], i);
      assert s[i..i + 1] == [s[i]];
    }
    if r.Some? {
      assert s[r.value..r.value + 1] == [s[r.value]];
    }
  }

  /** `s.substr(0, |p|) == p`. */
  predicate StartsWith(s: string, p: string) {
    |p| <= |s| && s[..|p|] == p
  }

  // ---------------------------------------------------------------------------
  // Splitting: std::getline over an istringstream, and the interpreter's split
  // ---------------------------------------------------------------------------

  /**
   * The maximal delimiter-free pieces of `s`, in order: there is always one
   * more piece than there are delimiters, and empty pieces are kept.
   */
  function Fields(s: string, d: char): (r: seq<string>)
    ensures |r| >= 1
    ensures forall i :: 0 <= i < |r| ==> d !in r[i]
  {
    if s == [] then [[]]
    else
      var f := Fields(s[..|s| - 1], d);
      var c := s[|s| - 1];
      if c == d then f + [[]] else f[..|f| - 1] + [f[|f| - 1] + [c]]
  }

  /** The pieces put back together with one delimiter between neighbours. */
  function Join(fs: seq<string>, d: char): string
    requires |fs| >= 1
  {
    if |fs| == 1 then fs[0] else Join(fs[..|fs| - 1], d) + [d] + fs[|fs| - 1]
  }

  lemma {:induction false} JoinExtendLast(fs: seq<string>, d: char, c: char)
    requires |fs| >= 1
    ensures Join(fs[..|fs| - 1] + [fs[|fs| - 1] + [c]], d) == Join(fs, d) + [c]
  {
    var gs := fs[..|fs| - 1] + [fs[|fs| - 1] + [c]];
    if |fs| > 1 {
      assert gs[..|gs| - 1] == fs[..|fs| - 1];
    }
  }

  /** Splitting at every delimiter and joining again gives back the text. */
  lemma {:induction false} JoinFields(s: string, d: char)
    ensures Join(Fields(s, d), d) == s
  {
    if s != [] {
      var p, c := s[..|s| - 1], s[|s| - 1];
      JoinFields(p, d);
      assert s == p + [c];
      JoinFieldsSnoc(p, c, d);
    }
  }

  /** One more character keeps `Join` and `Fields` inverse. */
  lemma JoinFieldsSnoc(p: string, c: char, d: char)
    requires Join(Fields(p, d), d) == p
    ensures Join(Fields(p + [c], d), d) == p + [c]
  {
    var f := Fields(p, d);
    assert (p + [c])[..|p|] == p;
    if c == d {
      assert (f + [[]])[..|f|] == f;
    } else {
      JoinExtendLast(f, d, c);
    }
  }

  /** The pieces kept by `split`: each raw piece trimmed, empty results dropped. */
  function Pieces(fs: seq<string>): (r: seq<string>)
    ensures |r| <= |fs|
    ensures forall i :: 0 <= i < |r| ==> r[i] != [] && !IsSpace(r[i][0]) && !IsSpace(r[i][|r[i]| - 1])
  {
    if fs == [] then []
    else
      var rest := Pieces(fs[..|fs| - 1]);
      var t := Trim(fs[|fs| - 1]);
      if t == [] then rest else rest + [t]
  }

  /** What `split(s, d)` returns. */
  function SplitPieces(s: string, d: char): (r: seq<string>)
    ensures forall i :: 0 <= i < |r| ==> r[i] != [] && d !in r[i]
  {
    PiecesAvoid(Fields(s, d), d);
    Pieces(Fields(s, d))
  }

  /**
   * `split` (mask-vm-parser.cpp): each `getline` piece is trimmed and kept
   * when non-empty. `getline` is modelled character by character: a piece
   * ends at a delimiter, and a last piece is read only if characters remain.
   */
  method Split(s: string, delimiter: char) returns (tokens: seq<string>)
    ensures tokens == SplitPieces(s, delimiter)
  {
    tokens := [];
    var token: string := [];
    ghost var done: seq<string> := [];
    var i := 0;
    while i < |s|
      invariant 0 <= i <= |s|
      invariant Fields(s[..i], delimiter) == done + [token]
      invariant tokens == Pieces(done)
    {
      FieldsStep(s, i, delimiter);
      if s[i] == delimiter {
        var t := Trim(token);
        if t != [] {
          tokens := tokens + [t];
        }
        PiecesSnoc(done, token);
        done := done + [token];
        token := [];
      } else {
        assert (done + [token])[..|done|] == done;
        token := token + [s[i]];
      }
      i := i + 1;
    }
    assert s[..|s|] == s;
    if token != [] {
      PiecesSnoc(done, token);
      var t := Trim(token);
      if t != [] {
        tokens := tokens + [t];
      }
    } else {
      PiecesSnoc(done, token);
    }
  }

  /** How `Fields` grows by one character. */
  lemma FieldsStep(s: string, i: nat, d: char)
    requires i < |s|
    ensures var f := Fields(s[..i], d);
            Fields(s[..i + 1], d) == if s[i] == d then f + [[]] else f[..|f| - 1] + [f[|f| - 1] + [s[i]]]
  {
    assert s[..i + 1][..i] == s[..i];
  }

  /** How `Pieces` grows by one raw piece. */
  lemma PiecesSnoc(done: seq<string>, token: string)
    ensures Pieces(done + [token]) == Pieces(done) + (if Trim(token) == [] then [] else [Trim(token)])
  {
    assert (done + [token])[..|done|] == done;
  }

  /** The lines `std::getline(iss, line)` yields: no line after a final newline. */
  function Lines(code: string): (r: seq<string>)
    ensures forall i :: 0 <= i < |r| ==> '\n' !in r[i]
  {
    var f := Fields(code, '\n');
    if f[|f| - 1] == [] then f[..|f| - 1] else f
  }

  /** Every piece `split` keeps is non-empty, trimmed, and free of the delimiter. */
  lemma SplitPiecesShape(s: string, d: char)
    ensures forall i :: 0 <= i < |SplitPieces(s, d)| ==>
      var p := SplitPieces(s, d)[i];
      p != [] && !IsSpace(p[0]) && !IsSpace(p[|p| - 1]) && d !in p
  {
    PiecesAvoid(Fields(s, d), d);
  }

  lemma {:induction false} PiecesAvoid(fs: seq<string>, d: char)
    requires forall i :: 0 <= i < |fs| ==> d !in fs[i]
    ensures forall i :: 0 <= i < |Pieces(fs)| ==> d !in Pieces(fs)[i]
  {
    if fs != [] {
      PiecesAvoid(fs[..|fs| - 1], d);
      var t := Trim(fs[|fs| - 1]);
      assert d !in t;
    }
  }
}
