/**
 * Decoding of the chain's column names (TTYPEn) and units (TUNITn) into plot titles,
 * and the per-field loop that builds the list of titles, as both scripts do it.
 */
module Columns {
  import opened Wrappers
  import opened PyString

  /** One column of the chain table: its TTYPEn keyword, and TUNITn when the header has it. */
  datatype Column = Column(key: string, unit: Option<string>)

  /** The `tnum`, `tname` and `tunit` that the loop settles on for one column. */
  datatype Decoded = Decoded(num: string, name: string, unit: string)

  /** What the loop does with `tnum` when a key does not split into two parts. */
  datatype Fallback =
    | Increment  // tkXspecCorner.py: tnum = str(int(tnum) + 1)
    | Reuse      // pyXspecCorner.py: tnum is left as the previous column set it

  /** The exceptions that escape the loop. */
  datatype DecodeError =
    | UndefinedIndex                 // NameError: no earlier column has set tnum
    | IndexNotInteger(text: string)  // ValueError: int(tnum) cannot read the previous index

  const Delimiter: string := "__"
  const FallbackName: string := "Chi-Squared"

  /** A missing TUNITn keyword reads as the empty unit. */
  function UnitText(unit: Option<string>): string
  {
    match unit
    case Some(u) => u
    case None => ""
  }

  /** `tname, tnum = ttype.split('__')` unpacks without raising. */
  predicate SplitsInTwo(key: string)
  {
    |Split(key, Delimiter)| == 2
  }

  /**
   * One pass of the loop body: `prev` is the `tnum` left by the columns before
   * (None before the first one has set it).
   */
  function DecodeColumn(c: Column, prev: Option<string>, fb: Fallback): (r: Result<Decoded, DecodeError>)
    ensures r.Success? <==> SplitsInTwo(c.key) || (prev.Some? && (fb == Reuse || ParseInt(prev.value).Some?))
    ensures r.Success? && SplitsInTwo(c.key) ==>
      && c.key == r.value.name + Delimiter + r.value.num
      && !Contains(r.value.name, Delimiter) && !Contains(r.value.num, Delimiter)
      && r.value.unit == UnitText(c.unit)
    ensures r.Success? && !SplitsInTwo(c.key) ==> r.value.name == FallbackName && r.value.unit == ""
  {
    var parts := Split(c.key, Delimiter);
    if |parts| == 2 then
      SplitTwoParts(c.key, Delimiter);
      Success(Decoded(parts[1], parts[0], UnitText(c.unit)))
    else
      match prev
      case None => Failure(UndefinedIndex)
      case Some(tnum) =>
        match fb
        case Reuse => Success(Decoded(tnum, FallbackName, ""))
        case Increment =>
          match ParseInt(tnum)
          case None => Failure(IndexNotInteger(tnum))
          case Some(n) => Success(Decoded(IntToString(n + 1), FallbackName, ""))
  }

  /** The part of a title after `"{tnum}. "`: the name, with the unit in brackets when there is one. */
  function TitleTail(d: Decoded): string
  {
    if d.unit != "" then d.name + " [" + d.unit + "]" else d.name
  }

  /** `'{}. {} [{}]'.format(tnum, tname, tunit)` when the unit is non-empty, else `'{}. {}'.format(tnum, tname)`. */
  function Title(d: Decoded): string
  {
    d.num + ". " + TitleTail(d)
  }

  /** A name part that the split will not cut early: no `__` inside and no trailing `_`. */
  ghost predicate CleanName(name: string)
  {
    !Contains(name, Delimiter) && (|name| == 0 || name[|name| - 1] != '_')
  }

  /** After a clean name, the first `__` of `name + "__" + rest` is the one right after the name. */
  lemma FirstDelimiterAfter(name: string, rest: string)
    requires CleanName(name)
    ensures forall j: nat :: j < |name| ==> !OccursAt(name + Delimiter + rest, Delimiter, j)
  {
    var s := name + Delimiter + rest;
    forall j: nat | j < |name|
      ensures !OccursAt(s, Delimiter, j)
    {
      if j + 2 <= |name| {
        assert name[j..j + 2] == s[j..j + 2];
        assert !OccursAt(name, Delimiter, j);
      } else {
        assert s[j] == name[|name| - 1] != '_';
        assert s[j..j + 2][0] == s[j];
      }
    }
  }

  /**
   * A key `name__num` decodes to that name and number, whatever came before, and its title is
   * `"num. name"` with an empty or missing unit, `"num. name [unit]"` otherwise.
   */
  lemma TwoPartKeyTitle(name: string, num: string, unit: Option<string>, prev: Option<string>, fb: Fallback)
    requires CleanName(name) && !Contains(num, Delimiter)
    ensures DecodeColumn(Column(name + Delimiter + num, unit), prev, fb) == Success(Decoded(num, name, UnitText(unit)))
    ensures Title(Decoded(num, name, UnitText(unit))) ==
      if UnitText(unit) == "" then num + ". " + name else num + ". " + name + " [" + UnitText(unit) + "]"
  {
    FirstDelimiterAfter(name, num);
    SplitInTwo(name, num, Delimiter);
  }

  /** A column without TUNITn gets a title without a bracketed unit. */
  lemma MissingUnitNoBracket(key: string, prev: Option<string>, fb: Fallback)
    requires DecodeColumn(Column(key, None), prev, fb).Success?
    ensures var d := DecodeColumn(Column(key, None), prev, fb).value;
      d.unit == "" && Title(d) == d.num + ". " + d.name
  {
  }

  /** A key with no `__` at all does not unpack into two names. */
  lemma NoDelimiterFallsBack(key: string)
    requires !Contains(key, Delimiter)
    ensures !SplitsInTwo(key)
  {
    SplitWithout(key, Delimiter);
  }

  /** A three-part key `name__tag__num` does not unpack into two names either: it falls back too. */
  lemma ThreePartKeyFallsBack(name: string, tag: string, num: string)
    requires CleanName(name) && CleanName(tag)
    ensures |Split(name + Delimiter + tag + Delimiter + num, Delimiter)| >= 3
    ensures !SplitsInTwo(name + Delimiter + tag + Delimiter + num)
  {
    var rest := tag + Delimiter + num;
    assert name + Delimiter + tag + Delimiter + num == name + Delimiter + rest;
    FirstDelimiterAfter(name, rest);
    SplitAtFirst(name, rest, Delimiter);
    FirstDelimiterAfter(tag, num);
    SplitAtFirst(tag, num, Delimiter);
  }

  /**
   * In tkXspecCorner.py a fallback column follows the previous index plus one: two fallback
   * columns in a row get consecutive indices, so their titles differ.
   */
  lemma ConsecutiveFallbacksIncrement(c1: Column, c2: Column, t: string, n: int)
    requires !SplitsInTwo(c1.key) && !SplitsInTwo(c2.key)
    requires ParseInt(t) == Some(n)
    ensures DecodeColumn(c1, Some(t), Increment) == Success(Decoded(IntToString(n + 1), FallbackName, ""))
    ensures DecodeColumn(c2, Some(IntToString(n + 1)), Increment) == Success(Decoded(IntToString(n + 2), FallbackName, ""))
    ensures Title(Decoded(IntToString(n + 1), FallbackName, "")) != Title(Decoded(IntToString(n + 2), FallbackName, ""))
  {
    ParseIntOfIntToString(n + 1);
    IntToStringInjective(n + 1, n + 2);
    AppendCancel(IntToString(n + 1), IntToString(n + 2), ". " + FallbackName);
    assert forall t :: Title(Decoded(t, FallbackName, "")) == t + (". " + FallbackName);
  }

  /** Different prefixes stay different after the same suffix. */
  lemma AppendCancel(a: string, b: string, x: string)
    requires a != b
    ensures a + x != b + x
  {
    if |a| == |b| {
      var i :| 0 <= i < |a| && a[i] != b[i];
      assert (a + x)[i] != (b + x)[i];
    }
  }

  /** In tkXspecCorner.py a fallback with no earlier index, or with one int() cannot read, raises. */
  lemma IncrementFallbackErrors(c: Column, prev: Option<string>)
    requires !SplitsInTwo(c.key)
    ensures prev.None? ==> DecodeColumn(c, prev, Increment) == Failure(UndefinedIndex)
    ensures prev.Some? && ParseInt(prev.value).None? ==>
      DecodeColumn(c, prev, Increment) == Failure(IndexNotInteger(prev.value))
  {
  }

  /**
   * In pyXspecCorner.py a fallback column reuses the previous index unchanged, so two fallback
   * columns in a row get the same title; with no previous index it raises.
   */
  lemma ReuseFallbackRepeats(c1: Column, c2: Column, prev: Option<string>)
    requires !SplitsInTwo(c1.key) && !SplitsInTwo(c2.key)
    ensures prev.None? ==> DecodeColumn(c1, prev, Reuse) == Failure(UndefinedIndex)
    ensures prev.Some? ==>
      && DecodeColumn(c1, prev, Reuse) == Success(Decoded(prev.value, FallbackName, ""))
      && DecodeColumn(c2, prev, Reuse) == DecodeColumn(c1, prev, Reuse)
  {
  }

  /** A fallback title is `"{tnum}. Chi-Squared"`: it never ends in a bracketed unit. */
  lemma FallbackTitleHasNoUnit(c: Column, prev: Option<string>, fb: Fallback)
    requires !SplitsInTwo(c.key) && DecodeColumn(c, prev, fb).Success?
    ensures var d := DecodeColumn(c, prev, fb).value;
      Title(d) == d.num + ". " + FallbackName && Title(d)[|Title(d)| - 1] != ']'
  {
  }

  // ---------------------------------------------------------------------
  // the loop over all fields

  /** The whole loop: each column decoded with the `tnum` the previous one left behind. */
  function DecodeAll(cols: seq<Column>, prev: Option<string>, fb: Fallback): (r: Result<seq<Decoded>, DecodeError>)
    ensures r.Success? ==> |r.value| == |cols|
    decreases |cols|
  {
    if cols == [] then Success([])
    else
      match DecodeColumn(cols[0], prev, fb)
      case Failure(e) => Failure(e)
      case Success(d) =>
        match DecodeAll(cols[1..], Some(d.num), fb)
        case Failure(e) => Failure(e)
        case Success(ds) => Success([d] + ds)
  }

  /**
   * Column by column, the loop's result keeps each two-part key's name, number and unit,
   * and gives every other column the Chi-Squared name with no unit.
   */
  lemma {:induction false} DecodeAllColumns(cols: seq<Column>, prev: Option<string>, fb: Fallback, k: nat)
    requires DecodeAll(cols, prev, fb).Success? && k < |cols|
    ensures var d := DecodeAll(cols, prev, fb).value[k];
      if SplitsInTwo(cols[k].key) then cols[k].key == d.name + Delimiter + d.num && d.unit == UnitText(cols[k].unit)
      else d.name == FallbackName && d.unit == ""
    decreases |cols|
  {
    var d0 := DecodeColumn(cols[0], prev, fb).value;
    var rest := DecodeAll(cols[1..], Some(d0.num), fb);
    assert DecodeAll(cols, prev, fb).value == [d0] + rest.value;
    if k > 0 {
      assert cols[1..][k - 1] == cols[k];
      DecodeAllColumns(cols[1..], Some(d0.num), fb, k - 1);
    }
  }

  /** The titles of decoded columns, in order. */
  function TitlesOf(ds: seq<Decoded>): seq<string>
  {
    seq(|ds|, k requires 0 <= k < |ds| => Title(ds[k]))
  }

  /** The `titles` list the loop leaves, or the exception it raises. */
  function FieldTitles(cols: seq<Column>, fb: Fallback): Result<seq<string>, DecodeError>
  {
    match DecodeAll(cols, None, fb)
    case Success(ds) => Success(TitlesOf(ds))
    case Failure(e) => Failure(e)
  }

  function Prepend(done: seq<Decoded>, r: Result<seq<Decoded>, DecodeError>): Result<seq<Decoded>, DecodeError>
  {
    match r
    case Success(ds) => Success(done + ds)
    case Failure(e) => Failure(e)
  }

  /** One more pass of the loop moves one decoded column from the rest onto `done`. */
  lemma DecodeAllStep(cols: seq<Column>, i: nat, tnum: Option<string>, done: seq<Decoded>, fb: Fallback)
    requires i < |cols|
    ensures DecodeColumn(cols[i], tnum, fb).Failure? ==>
      Prepend(done, DecodeAll(cols[i..], tnum, fb)) == Failure(DecodeColumn(cols[i], tnum, fb).error)
    ensures DecodeColumn(cols[i], tnum, fb).Success? ==>
      var d := DecodeColumn(cols[i], tnum, fb).value;
      Prepend(done, DecodeAll(cols[i..], tnum, fb)) == Prepend(done + [d], DecodeAll(cols[i + 1..], Some(d.num), fb))
  {
    assert cols[i..][0] == cols[i] && cols[i..][1..] == cols[i + 1..];
    match DecodeColumn(cols[i], tnum, fb)
    case Failure(e) =>
    case Success(d) =>
      match DecodeAll(cols[i + 1..], Some(d.num), fb)
      case Failure(e) =>
      case Success(ds) => assert done + ([d] + ds) == (done + [d]) + ds;
  }

  lemma PrependNothing(r: Result<seq<Decoded>, DecodeError>)
    ensures Prepend([], r) == r
  {
    match r
    case Success(ds) => assert [] + ds == ds;
    case Failure(e) =>
  }

  lemma TitlesOfAppend(ds: seq<Decoded>, d: Decoded)
    ensures TitlesOf(ds + [d]) == TitlesOf(ds) + [Title(d)]
  {
  }

  /** The field loop: for each column in order, decode it, carry `tnum` on, append the title. */
  method BuildTitles(cols: seq<Column>, fb: Fallback) returns (r: Result<seq<string>, DecodeError>)
    ensures r == FieldTitles(cols, fb)
  {
    var titles: seq<string> := [];
    ghost var done: seq<Decoded> := [];
    var tnum: Option<string> := None;
    var i := 0;
    assert cols[i..] == cols;
    PrependNothing(DecodeAll(cols, None, fb));
    while i < |cols|
      invariant 0 <= i <= |cols|
      invariant titles == TitlesOf(done)
      invariant DecodeAll(cols, None, fb) == Prepend(done, DecodeAll(cols[i..], tnum, fb))
    {
      DecodeAllStep(cols, i, tnum, done, fb);
      var d := DecodeColumn(cols[i], tnum, fb);
      if d.Failure? {
        return Failure(d.error);
      }
      TitlesOfAppend(done, d.value);
      titles := titles + [Title(d.value)];
      done := done + [d.value];
      tnum := Some(d.value.num);
      i := i + 1;
    }
    assert cols[i..] == [] && done + [] == done;
    r := Success(titles);
  }

  /** The loop raises on a first column that falls back, whichever script runs it. */
  lemma LeadingFallbackRaises(cols: seq<Column>, fb: Fallback)
    requires |cols| > 0 && !SplitsInTwo(cols[0].key)
    ensures DecodeAll(cols, None, fb) == Failure(UndefinedIndex)
  {
  }

  /** In pyXspecCorner.py, once an index is set, every later column decodes. */
  lemma {:induction false} ReuseNeverFailsAfterIndex(cols: seq<Column>, t: string)
    ensures DecodeAll(cols, Some(t), Reuse).Success?
    decreases |cols|
  {
    if cols != [] {
      var d := DecodeColumn(cols[0], Some(t), Reuse);
      ReuseNeverFailsAfterIndex(cols[1..], d.value.num);
    }
  }

  /** In pyXspecCorner.py the loop raises exactly when the first column falls back. */
  lemma ReuseFailsOnlyOnLeadingFallback(cols: seq<Column>)
    ensures DecodeAll(cols, None, Reuse).Failure? <==> |cols| > 0 && !SplitsInTwo(cols[0].key)
  {
    if cols != [] && SplitsInTwo(cols[0].key) {
      var d := DecodeColumn(cols[0], None, Reuse);
      ReuseNeverFailsAfterIndex(cols[1..], d.value.num);
    }
  }

  /** A name without any underscore cannot hold the delimiter. */
  lemma NoUnderscoreClean(s: string)
    requires forall i :: 0 <= i < |s| ==> s[i] != '_'
    ensures CleanName(s) && !Contains(s, Delimiter)
  {
    forall j: nat
      ensures !OccursAt(s, Delimiter, j)
    {
      if j + 2 <= |s| {
        assert s[j..j + 2][0] == s[j];
      }
    }
  }

  /** The parameter column `nH__1` in cm-2 decodes to number "1", name "nH", unit "cm-2" in both scripts. */
  lemma ParameterColumnExample(fb: Fallback)
    ensures DecodeColumn(Column("nH__1", Some("cm-2")), None, fb) == Success(Decoded("1", "nH", "cm-2"))
  {
    NoUnderscoreClean("nH");
    NoUnderscoreClean("1");
    assert "nH" + Delimiter + "1" == "nH__1";
    TwoPartKeyTitle("nH", "1", Some("cm-2"), None, fb);
  }

  /** ... and is titled "1. nH [cm-2]". */
  lemma ParameterTitleExample()
    ensures Title(Decoded("1", "nH", "cm-2")) == "1. nH [cm-2]"
  {
  }

  /** The loop over two columns: the second is decoded with the index the first one left. */
  lemma DecodeTwoColumns(c1: Column, c2: Column, d1: Decoded, d2: Decoded, fb: Fallback)
    requires DecodeColumn(c1, None, fb) == Success(d1)
    requires DecodeColumn(c2, Some(d1.num), fb) == Success(d2)
    ensures FieldTitles([c1, c2], fb) == Success([Title(d1), Title(d2)])
  {
    var cols := [c1, c2];
    var rest := cols[1..];
    assert rest == [c2] && rest[0] == c2 && rest[1..] == [];
    assert DecodeAll(rest[1..], Some(d2.num), fb) == Success([]);
    assert [d2] + [] == [d2];
    assert DecodeAll(rest, Some(d1.num), fb) == Success([d2]);
    assert cols[0] == c1 && [d1] + [d2] == [d1, d2];
    assert DecodeAll(cols, None, fb) == Success([d1, d2]);
    assert TitlesOf([d1, d2]) == [Title(d1), Title(d2)];
  }

  /** The statistic column `chisq` falls back: "2. Chi-Squared" after index "1" in tkXspecCorner.py, "1. Chi-Squared" in pyXspecCorner.py. */
  lemma StatisticColumnExample(fb: Fallback)
    ensures DecodeColumn(Column("chisq", None), Some("1"), fb)
      == Success(Decoded(if fb == Increment then "2" else "1", FallbackName, ""))
  {
    NoUnderscoreClean("chisq");
    NoDelimiterFallsBack("chisq");
    ParseIntOfIntToString(1);
    assert IntToString(1) == "1";
    assert IntToString(2) == "2";
  }
}
