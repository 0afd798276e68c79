/**
 * The few Python built-ins on `str` that the scripts rely on:
 * `s.split(sep)`, `sep.join(parts)`, `int(s)` and `str(n)`.
 */
module PyString {
  import opened Wrappers

  /** `sep` occurs in `s` starting at position `j`. */
  predicate OccursAt(s: string, sep: string, j: nat)
  {
    j + |sep| <= |s| && s[j..j + |sep|] == sep
  }

  /** `sep in s`, for a separator. */
  ghost predicate Contains(s: string, sep: string)
  {
    exists j: nat :: OccursAt(s, sep, j)
  }

  /** The first position at or after `from` where `sep` occurs, as `s.find(sep, from)` scans. */
  function Find(s: string, sep: string, from: nat): (r: Option<nat>)
    ensures r.Some? ==> from <= r.value && OccursAt(s, sep, r.value)
    ensures r.Some? ==> forall j: nat :: from <= j < r.value ==> !OccursAt(s, sep, j)
    ensures r.None? ==> forall j: nat :: from <= j ==> !OccursAt(s, sep, j)
    decreases |s| - from
  {
    if from + |sep| > |s| then None
    else if s[from..from + |sep|] == sep then Some(from)
    else Find(s, sep, from + 1)
  }

  /** `sep.join(parts)`. */
  function Join(parts: seq<string>, sep: string): string
  {
    if |parts| == 0 then ""
    else if |parts| == 1 then parts[0]
    else parts[0] + sep + Join(parts[1..], sep)
  }

  lemma PrefixBeforeFirst(s: string, sep: string, i: nat)
    requires |sep| > 0 && i <= |s|
    requires forall j: nat :: j < i ==> !OccursAt(s, sep, j)
    ensures !Contains(s[..i], sep)
  {
    forall j: nat | OccursAt(s[..i], sep, j)
      ensures false
    {
      assert s[..i][j..j + |sep|] == s[j..j + |sep|];
      assert OccursAt(s, sep, j);
    }
  }

  /**
   * `s.split(sep)` for a non-empty separator: cut at each occurrence of `sep`,
   * scanning left to right, occurrences never overlapping.
   * Joining the parts again gives back `s`, and no part holds the separator.
   */
  function Split(s: string, sep: string): (parts: seq<string>)
    requires |sep| > 0
    ensures |parts| >= 1
    ensures Join(parts, sep) == s
    ensures forall k :: 0 <= k < |parts| ==> !Contains(parts[k], sep)
    decreases |s|
  {
    match Find(s, sep, 0)
    case None =>
      assert !Contains(s, sep);
      [s]
    case Some(i) =>
      PrefixBeforeFirst(s, sep, i);
      var rest := Split(s[i + |sep|..], sep);
      assert s == s[..i] + sep + s[i + |sep|..] by {
        assert s[i..i + |sep|] == sep;
        assert s == s[..i] + s[i..i + |sep|] + s[i + |sep|..];
      }
      [s[..i]] + rest
  }

  /** A string without the separator is not cut at all. */
  lemma SplitWithout(s: string, sep: string)
    requires |sep| > 0
    requires !Contains(s, sep)
    ensures Split(s, sep) == [s]
  {
    assert Find(s, sep, 0).Some? ==> Contains(s, sep);
  }

  /**
   * When the first occurrence of `sep` in `a + sep + b` is the one right after `a`,
   * the split gives `a` and then the split of `b`.
   */
  lemma SplitAtFirst(a: string, b: string, sep: string)
    requires |sep| > 0
    requires forall j: nat :: j < |a| ==> !OccursAt(a + sep + b, sep, j)
    ensures Split(a + sep + b, sep) == [a] + Split(b, sep)
  {
    var s := a + sep + b;
    assert s[|a|..|a| + |sep|] == sep;
    assert OccursAt(s, sep, |a|);
    var r := Find(s, sep, 0);
    assert r == Some(|a|);
    assert s[..|a|] == a;
    assert s[|a| + |sep|..] == b;
  }

  /** Cutting `a + sep + b` in exactly two, back into `a` and `b`. */
  lemma SplitInTwo(a: string, b: string, sep: string)
    requires |sep| > 0
    requires forall j: nat :: j < |a| ==> !OccursAt(a + sep + b, sep, j)
    requires !Contains(b, sep)
    ensures Split(a + sep + b, sep) == [a, b]
  {
    SplitAtFirst(a, b, sep);
    SplitWithout(b, sep);
  }

  /** The two parts of a `split` into two glue back with one separator between them. */
  lemma SplitTwoParts(s: string, sep: string)
    requires |sep| > 0
    requires |Split(s, sep)| == 2
    ensures s == Split(s, sep)[0] + sep + Split(s, sep)[1]
    ensures !Contains(Split(s, sep)[0], sep) && !Contains(Split(s, sep)[1], sep)
  {
    var p := Split(s, sep);
    assert p[1..] == [p[1]];
  }

  // ---------------------------------------------------------------------
  // int(s) and str(n) for base-10 text

  predicate IsDigit(c: char)
  {
    '0' <= c <= '9'
  }

  /** The ASCII characters that Python's `str.isspace` accepts, which `int()` strips. */
  predicate IsSpace(c: char)
  {
    c == ' ' || 9 <= c as int <= 13 || 28 <= c as int <= 31
  }

  function TrimLeft(s: string): string
  {
    if |s| > 0 && IsSpace(s[0]) then TrimLeft(s[1..]) else s
  }

  function TrimRight(s: string): string
  {
    if |s| > 0 && IsSpace(s[|s| - 1]) then TrimRight(s[..|s| - 1]) else s
  }

  /** `s.strip()`, restricted to ASCII whitespace. */
  function Strip(s: string): string
  {
    TrimRight(TrimLeft(s))
  }

  /** Digits with single underscores between them, as `int()` accepts after an optional sign. */
  predicate DigitRun(d: string)
  {
    && |d| > 0
    && IsDigit(d[0])
    && IsDigit(d[|d| - 1])
    && (forall i :: 0 <= i < |d| ==> IsDigit(d[i]) || d[i] == '_')
    && (forall i: nat | i < |d| :: !OccursAt(d, "__", i))
  }

  /** The digits of `d`, underscores dropped. */
  function DropUnderscores(d: string): string
  {
    if d == [] then []
    else (if d[0] == '_' then [] else [d[0]]) + DropUnderscores(d[1..])
  }

  function DigitValue(c: char): nat
  {
    if IsDigit(c) then c as int - '0' as int else 0
  }

  /** The value of a string of decimal digits, most significant first. */
  function Decimal(ds: string): nat
  {
    if ds == [] then 0 else 10 * Decimal(ds[..|ds| - 1]) + DigitValue(ds[|ds| - 1])
  }

  /**
   * `int(s)`: `None` where Python raises `ValueError`.
   * Surrounding whitespace is stripped, one sign is allowed, and leading zeros are fine.
   */
  function ParseInt(s: string): Option<int>
  {
    var t := Strip(s);
    if |t| > 0 && (t[0] == '+' || t[0] == '-') then
      if DigitRun(t[1..]) then
        var v: int := Decimal(DropUnderscores(t[1..]));
        Some(if t[0] == '-' then -v else v)
      else None
    else if DigitRun(t) then Some(Decimal(DropUnderscores(t)))
    else None
  }

  function DigitChar(d: nat): (c: char)
    requires d < 10
    ensures IsDigit(c) && DigitValue(c) == d
  {
    ('0' as int + d) as char
  }

  /** `str(n)` for `n >= 0`: the shortest decimal numeral. */
  function NatToString(n: nat): (s: string)
    ensures |s| >= 1
    ensures forall i :: 0 <= i < |s| ==> IsDigit(s[i])
    ensures n > 0 ==> s[0] != '0'
  {
    (if n < 10 then "" else NatToString(n / 10)) + [DigitChar(n % 10)]
  }

  /** `str(n)`. */
  function IntToString(n: int): string
  {
    if n < 0 then "-" + NatToString(-n) else NatToString(n)
  }

  lemma {:induction false} DecimalOfNatToString(n: nat)
    ensures Decimal(NatToString(n)) == n
  {
    var s := NatToString(n);
    var last := [DigitChar(n % 10)];
    if n < 10 {
      assert s == last;
      assert s[..|s| - 1] == [];
    } else {
      DecimalOfNatToString(n / 10);
      assert s[..|s| - 1] == NatToString(n / 10);
    }
  }

  lemma {:induction false} DropUnderscoresOfDigits(d: string)
    requires forall i :: 0 <= i < |d| ==> IsDigit(d[i])
    ensures DropUnderscores(d) == d
  {
    if d != [] {
      DropUnderscoresOfDigits(d[1..]);
      assert d == [d[0]] + d[1..];
    }
  }

  lemma DigitRunOfDigits(d: string)
    requires |d| > 0
    requires forall i :: 0 <= i < |d| ==> IsDigit(d[i])
    ensures DigitRun(d)
  {
    forall i: nat | i < |d|
      ensures !OccursAt(d, "__", i)
    {
      if i + 2 <= |d| {
        assert d[i..i + 2][0] == d[i];
      }
    }
  }

  lemma StripKeeps(s: string)
    requires |s| > 0 && !IsSpace(s[0]) && !IsSpace(s[|s| - 1])
    ensures Strip(s) == s
  {
  }

  /** `int()` of an unsigned digit run with no surrounding space is its decimal value. */
  lemma ParseIntUnsigned(t: string)
    requires DigitRun(t) && Strip(t) == t
    ensures ParseInt(t) == Some(Decimal(DropUnderscores(t)))
  {
    assert !(t[0] == '+' || t[0] == '-');
  }

  /** `int()` of a minus sign before a digit run with no surrounding space. */
  lemma ParseIntNegative(d: string, v: nat)
    requires DigitRun(d) && Strip("-" + d) == "-" + d && Decimal(DropUnderscores(d)) == v
    ensures ParseInt("-" + d) == Some(-(v as int))
  {
    assert ("-" + d)[1..] == d;
  }

  /** `int()` of a non-empty string of plain digits is its decimal value. */
  lemma ParseDigits(d: string)
    requires |d| > 0 && forall i :: 0 <= i < |d| ==> IsDigit(d[i])
    ensures ParseInt(d) == Some(Decimal(d))
  {
    DropUnderscoresOfDigits(d);
    DigitRunOfDigits(d);
    StripKeeps(d);
    ParseIntUnsigned(d);
  }

  /** `int()` of a minus sign before a non-empty string of plain digits of value `v`. */
  lemma ParseNegatedDigits(d: string, v: nat)
    requires |d| > 0 && forall i :: 0 <= i < |d| ==> IsDigit(d[i])
    requires Decimal(d) == v
    ensures ParseInt("-" + d) == Some(-(v as int))
  {
    DropUnderscoresOfDigits(d);
    DigitRunOfDigits(d);
    NegatedStripKeeps(d);
    ParseIntNegative(d, v);
  }

  lemma NegatedStripKeeps(d: string)
    requires |d| > 0 && IsDigit(d[|d| - 1])
    ensures Strip("-" + d) == "-" + d
  {
    var s := "-" + d;
    assert s[0] == '-' && s[|s| - 1] == d[|d| - 1];
    StripKeeps(s);
  }

  /** `int(str(m))` for `m >= 0`. */
  lemma ParseIntOfNatToString(m: nat)
    ensures ParseInt(NatToString(m)) == Some(m)
  {
    ParseDigits(NatToString(m));
    DecimalOfNatToString(m);
  }

  /** `int(str(-m))` for `m > 0`. */
  lemma ParseIntOfNegated(m: nat)
    requires m > 0
    ensures ParseInt("-" + NatToString(m)) == Some(-(m as int))
  {
    DecimalOfNatToString(m);
    ParseNegatedDigits(NatToString(m), m);
  }

  /** Reading back what `str(n)` printed gives `n`, so `int(str(n))` never fails. */
  lemma ParseIntOfIntToString(n: int)
    ensures ParseInt(IntToString(n)) == Some(n)
  {
    if n < 0 {
      var m: nat := -n;
      assert IntToString(n) == "-" + NatToString(m);
      ParseIntOfNegated(m);
    } else {
      assert IntToString(n) == NatToString(n);
      ParseIntOfNatToString(n);
    }
  }

  /** Distinct integers print differently. */
  lemma IntToStringInjective(m: int, n: int)
    requires m != n
    ensures IntToString(m) != IntToString(n)
  {
    ParseIntOfIntToString(m);
    ParseIntOfIntToString(n);
  }
}
