/** String helpers the source gets from JavaScript: decimal rendering of an
    index in a template literal, `String.prototype.split` with a non-empty
    separator, and lower-casing. Each comes with the partner that pins it down
    (a parser, a join). */
module Strings {
  import opened Wrappers

  predicate IsDigit(c: char) {
    '0' <= c <= '9'
  }

  predicate AllDigits(s: string) {
    forall i :: 0 <= i < |s| ==> IsDigit(s[i])
  }

  function DigitChar(d: nat): char
    requires d < 10
  {
    ('0' as int + d) as char
  }

  function DigitValue(c: char): nat
    requires IsDigit(c)
  {
    c as int - '0' as int
  }

  /** Decimal rendering of a non-negative number, as `${n}` renders it. */
  function NatToString(n: nat): (s: string)
    ensures |s| >= 1
    ensures AllDigits(s)
  {
    if n < 10 then [DigitChar(n)] else NatToString(n / 10) + [DigitChar(n % 10)]
  }

  /** Reads a string of decimal digits back as a number. */
  function ParseNat(s: string): nat
    requires AllDigits(s)
  {
    if |s| == 0 then 0 else ParseNat(s[..|s| - 1]) * 10 + DigitValue(s[|s| - 1])
  }

  /** Parsing a rendered number gives the number back. */
  lemma {:induction false} ParseNatToString(n: nat)
    ensures ParseNat(NatToString(n)) == n
  {
    var s := NatToString(n);
    if n < 10 {
      assert s[..|s| - 1] == [];
    } else {
      assert s[..|s| - 1] == NatToString(n / 10);
      ParseNatToString(n / 10);
    }
  }

  /** Distinct numbers render as distinct strings. */
  lemma NatToStringInjective(a: nat, b: nat)
    ensures NatToString(a) == NatToString(b) ==> a == b
  {
    ParseNatToString(a);
    ParseNatToString(b);
  }

  /** `sep` occurs in `s` starting at index `j`. */
  predicate OccursAt(s: string, sep: string, j: nat) {
    j + |sep| <= |s| && s[j..j + |sep|] == sep
  }

  /** `sep` occurs nowhere in `s`. */
  ghost predicate Free(s: string, sep: string) {
    forall j: nat :: !OccursAt(s, sep, j)
  }

  /** The first occurrence of `sep` in `s` at or after `from`. */
  function FindFrom(s: string, sep: string, from: nat): (r: Option<nat>)
    requires |sep| > 0
    ensures r.Some? ==> from <= r.value && OccursAt(s, sep, r.value)
    ensures r.Some? ==> forall j: nat :: from <= j < r.value ==> !OccursAt(s, sep, j)
    ensures r.None? ==> forall j: nat :: from <= j ==> !OccursAt(s, sep, j)
    decreases |s| - from
  {
    if from + |sep| > |s| then None
    else if OccursAt(s, sep, from) then Some(from)
    else FindFrom(s, sep, from + 1)
  }

  /** The first occurrence is found wherever it is. */
  lemma FindFromFirst(s: string, sep: string, from: nat, i: nat)
    requires |sep| > 0 && from <= i && OccursAt(s, sep, i)
    requires forall j: nat :: from <= j < i ==> !OccursAt(s, sep, j)
    ensures FindFrom(s, sep, from) == Some(i)
  {
  }

  /** Searching a suffix is searching the whole string from where the
      suffix starts. */
  lemma FindFromShift(s: string, sep: string, a: nat)
    requires |sep| > 0 && a <= |s|
    ensures FindFrom(s, sep, a).Some? ==> FindFrom(s[a..], sep, 0) == Some(FindFrom(s, sep, a).value - a)
    ensures FindFrom(s, sep, a).None? ==> FindFrom(s[a..], sep, 0).None?
  {
    var r := FindFrom(s, sep, a);
    if r.Some? {
      ShiftFound(s, sep, a, r.value);
    } else {
      ShiftMissing(s, sep, a);
    }
  }

  lemma ShiftFound(s: string, sep: string, a: nat, k: nat)
    requires |sep| > 0 && a <= k && a <= |s| && OccursAt(s, sep, k)
    requires forall j: nat :: a <= j < k ==> !OccursAt(s, sep, j)
    ensures FindFrom(s[a..], sep, 0) == Some(k - a)
  {
    forall j: nat | j < k - a ensures !OccursAt(s[a..], sep, j) {
      OccursShift(s, sep, a, j);
    }
    OccursShift(s, sep, a, k - a);
    FindFromFirst(s[a..], sep, 0, k - a);
  }

  lemma ShiftMissing(s: string, sep: string, a: nat)
    requires |sep| > 0 && a <= |s|
    requires forall j: nat :: a <= j ==> !OccursAt(s, sep, j)
    ensures FindFrom(s[a..], sep, 0).None?
  {
    var r := FindFrom(s[a..], sep, 0);
    if r.Some? {
      OccursShift(s, sep, a, r.value);
    }
  }

  /** An occurrence in a suffix is an occurrence in the whole string. */
  lemma OccursShift(s: string, sep: string, a: nat, j: nat)
    requires a <= |s|
    ensures OccursAt(s[a..], sep, j) <==> OccursAt(s, sep, j + a)
  {
    if j + |sep| <= |s| - a {
      assert s[a..][j..j + |sep|] == s[j + a..j + a + |sep|];
    }
  }

  /** `s.split(sep)` for a non-empty separator: the pieces between
      successive non-overlapping occurrences, scanning left to right. */
  function Split(s: string, sep: string): (parts: seq<string>)
    requires |sep| > 0
    ensures |parts| >= 1
    ensures FindFrom(s, sep, 0).None? ==> parts == [s]
    ensures FindFrom(s, sep, 0).Some? ==> |parts| >= 2 && parts[0] == s[..FindFrom(s, sep, 0).value]
    ensures forall k :: 0 <= k < |parts| ==> Free(parts[k], sep)
    decreases |s|
  {
    match FindFrom(s, sep, 0)
    case None => [s]
    case Some(i) =>
      var head := s[..i];
      assert Free(head, sep) by {
        forall j: nat ensures !OccursAt(head, sep, j) {
          if j + |sep| <= |head| {
            assert head[j..j + |sep|] == s[j..j + |sep|];
            assert !OccursAt(s, sep, j);
          }
        }
      }
      [head] + Split(s[i + |sep|..], sep)
  }

  /** The cut is at the leftmost occurrence: "999" splits on "99" into an
      empty piece and "9", as JavaScript does. */
  lemma SplitCutsLeftmost()
    ensures Split("999", "99") == ["", "9"]
  {
    assert OccursAt("999", "99", 0);
    assert "999"[2..] == "9";
    assert !OccursAt("9", "99", 0);
  }

  /** `parts.join(sep)`. */
  function Join(parts: seq<string>, sep: string): string {
    if |parts| == 0 then ""
    else if |parts| == 1 then parts[0]
    else parts[0] + sep + Join(parts[1..], sep)
  }

  /** Splitting loses nothing: joining the pieces back gives the string. */
  lemma {:induction false} SplitJoin(s: string, sep: string)
    requires |sep| > 0
    ensures Join(Split(s, sep), sep) == s
    decreases |s|
  {
    match FindFrom(s, sep, 0)
    case None =>
    case Some(i) =>
      var rest := s[i + |sep|..];
      var parts := Split(s, sep);
      SplitJoin(rest, sep);
      assert parts[1..] == Split(rest, sep);
      assert s[i..i + |sep|] == sep;
      assert s == s[..i] + s[i..i + |sep|] + rest;
  }

  function LowerChar(c: char): char {
    if 'A' <= c <= 'Z' then (c as int + 32) as char else c
  }

  /** Lower-cases the ASCII letters of `s` (`toLowerCase` on ASCII text). */
  function ToLowerAscii(s: string): (r: string)
    ensures |r| == |s|
  {
    seq(|s|, i requires 0 <= i < |s| => LowerChar(s[i]))
  }
}
