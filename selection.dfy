/**
 * What both scripts share about the selection state: the title list with its three trailing
 * plotting options, the initial selection, filtering by the `selected` mask, the three flags
 * read from the end of the mask, and the shape of the `corner.corner` call.
 */
module Selection {
  import opened Wrappers

  /** The three options appended after the field titles, in this order. */
  const OptionItems: seq<string> := ["Draw Contours", "Show Titles", "Show XY Labels"]

  /** `titles` once the options are appended: every field title in order, then the options. */
  function Items(fieldTitles: seq<string>): seq<string>
  {
    fieldTitles + OptionItems
  }

  /**
   * `selected = [False for Title in Titles]; selected[-4] = True; selected[-2] = True`
   * for a list of `n` titles; `None` where the negative index raises IndexError.
   */
  function InitialSelection(n: nat): (sel: Option<seq<bool>>)
    ensures sel.Some? <==> n >= 4
    ensures sel.Some? ==> |sel.value| == n
    ensures sel.Some? ==> forall i :: 0 <= i < n ==> (sel.value[i] <==> i == n - 4 || i == n - 2)
  {
    if n < 4 then None
    else Some(seq(n, _ => false)[n - 4 := true][n - 2 := true])
  }

  /** The plotting options, read from the last three entries of `selected`. */
  datatype Flags = Flags(contours: bool, showTitles: bool, showXYlabels: bool)

  /** `contours = selected[-3]; showTitles = selected[-2]; showXYlabels = selected[-1]`. */
  function FlagsOf(sel: seq<bool>): Flags
    requires |sel| >= 3
  {
    Flags(sel[|sel| - 3], sel[|sel| - 2], sel[|sel| - 1])
  }

  /**
   * The initial selection has the last field and "Show Titles" on: the constants both scripts
   * pass to the first plot (no contours, titles shown, no XY labels) are the flags it encodes,
   * and the selected titles are the last field's title and "Show Titles".
   */
  lemma InitialView(fieldTitles: seq<string>)
    requires |fieldTitles| >= 1
    ensures InitialSelection(|Items(fieldTitles)|).Some?
    ensures FlagsOf(InitialSelection(|Items(fieldTitles)|).value) == Flags(false, true, false)
    ensures Mask(Items(fieldTitles), InitialSelection(|Items(fieldTitles)|).value) ==
      [fieldTitles[|fieldTitles| - 1], "Show Titles"]
  {
    var f := |fieldTitles|;
    var sel := InitialSelection(f + 3).value;
    var init := fieldTitles[..f - 1];
    var off := seq(f - 1, _ => false);
    assert sel == off + [true] + [false, true, false];
    assert Items(fieldTitles) == init + [fieldTitles[f - 1]] + OptionItems;
    MaskAppend(init + [fieldTitles[f - 1]], OptionItems, off + [true], [false, true, false]);
    MaskAppend(init, [fieldTitles[f - 1]], off, [true]);
    MaskNone(init, off);
  }

  // ---------------------------------------------------------------------
  // boolean-mask indexing: `Titles[selected]`, `AltNames[selected]`

  /** `xs[m]` for a boolean mask of the same length: the entries whose flag is set, in order. */
  function Mask<T>(xs: seq<T>, m: seq<bool>): seq<T>
    requires |xs| == |m|
  {
    if xs == [] then []
    else (if m[0] then [xs[0]] else []) + Mask(xs[1..], m[1..])
  }

  /** The positions at or after `from` whose flag is set, in increasing order. */
  function PositionsFrom(m: seq<bool>, from: nat): (p: seq<nat>)
    requires from <= |m|
    ensures forall k :: 0 <= k < |p| ==> from <= p[k] < |m| && m[p[k]]
    ensures forall k, l :: 0 <= k < l < |p| ==> p[k] < p[l]
    ensures forall i :: from <= i < |m| && m[i] ==> i in p
    decreases |m| - from
  {
    if from == |m| then []
    else (if m[from] then [from] else []) + PositionsFrom(m, from + 1)
  }

  /** The selected positions of a mask, in increasing order. */
  function Positions(m: seq<bool>): seq<nat>
  {
    PositionsFrom(m, 0)
  }

  /** The entries of `xs` at the positions `p`, in that order. */
  function Pick<T>(xs: seq<T>, p: seq<nat>): (r: seq<T>)
    requires forall k :: 0 <= k < |p| ==> p[k] < |xs|
  {
    seq(|p|, k requires 0 <= k < |p| => xs[p[k]])
  }

  lemma PickCons<T>(xs: seq<T>, a: nat, q: seq<nat>)
    requires a < |xs| && forall k :: 0 <= k < |q| ==> q[k] < |xs|
    ensures Pick(xs, [a] + q) == [xs[a]] + Pick(xs, q)
  {
  }

  lemma MaskUnfold<T>(xs: seq<T>, m: seq<bool>, from: nat)
    requires |xs| == |m| && from < |m|
    ensures Mask(xs[from..], m[from..]) == (if m[from] then [xs[from]] else []) + Mask(xs[from + 1..], m[from + 1..])
  {
    assert xs[from..][1..] == xs[from + 1..] && m[from..][1..] == m[from + 1..];
  }

  lemma {:induction false} MaskFromIsPick<T>(xs: seq<T>, m: seq<bool>, from: nat)
    requires |xs| == |m| && from <= |m|
    ensures Mask(xs[from..], m[from..]) == Pick(xs, PositionsFrom(m, from))
    decreases |m| - from
  {
    if from < |m| {
      MaskFromIsPick(xs, m, from + 1);
      MaskUnfold(xs, m, from);
      var rest := PositionsFrom(m, from + 1);
      if m[from] {
        PickCons(xs, from, rest);
      } else {
        assert PositionsFrom(m, from) == rest;
      }
    }
  }

  /**
   * Masking keeps exactly the entries whose flag is set, in their original order:
   * the k-th entry of the result is the entry at the k-th selected position.
   */
  lemma MaskIsPick<T>(xs: seq<T>, m: seq<bool>)
    requires |xs| == |m|
    ensures Mask(xs, m) == Pick(xs, Positions(m))
    ensures |Mask(xs, m)| == |Positions(m)|
  {
    assert xs[0..] == xs && m[0..] == m;
    MaskFromIsPick(xs, m, 0);
  }

  /** Masking two lists by one mask lines them up entry by entry. */
  lemma MaskAligned<S, T>(xs: seq<S>, ys: seq<T>, m: seq<bool>)
    requires |xs| == |m| && |ys| == |m|
    ensures |Mask(xs, m)| == |Mask(ys, m)| == |Positions(m)|
    ensures forall k :: 0 <= k < |Positions(m)| ==>
      Mask(xs, m)[k] == xs[Positions(m)[k]] && Mask(ys, m)[k] == ys[Positions(m)[k]]
  {
    MaskIsPick(xs, m);
    MaskIsPick(ys, m);
  }

  lemma {:induction false} MaskAppend<T>(xs: seq<T>, ys: seq<T>, m: seq<bool>, n: seq<bool>)
    requires |xs| == |m| && |ys| == |n|
    ensures Mask(xs + ys, m + n) == Mask(xs, m) + Mask(ys, n)
    decreases |xs|
  {
    if xs == [] {
      assert xs + ys == ys && m + n == n;
    } else {
      var head := if m[0] then [xs[0]] else [];
      assert (xs + ys)[0] == xs[0] && (m + n)[0] == m[0];
      assert (xs + ys)[1..] == xs[1..] + ys && (m + n)[1..] == m[1..] + n;
      assert Mask(xs + ys, m + n) == head + Mask(xs[1..] + ys, m[1..] + n);
      MaskAppend(xs[1..], ys, m[1..], n);
      assert Mask(xs, m) == head + Mask(xs[1..], m[1..]);
      assert head + (Mask(xs[1..], m[1..]) + Mask(ys, n)) == (head + Mask(xs[1..], m[1..])) + Mask(ys, n);
    }
  }

  lemma {:induction false} MaskNone<T>(xs: seq<T>, m: seq<bool>)
    requires |xs| == |m|
    requires forall i :: 0 <= i < |m| ==> !m[i]
    ensures Mask(xs, m) == []
    decreases |xs|
  {
    if xs != [] {
      MaskNone(xs[1..], m[1..]);
    }
  }

  // ---------------------------------------------------------------------
  // the call to corner.corner

  /**
   * The arguments of `corner.corner` that depend on the state: `var_names`, `labels`
   * (None for "no label"), `titles`, `show_titles`, `plot_contours`, and the `bins` and
   * `title_fmt` that only tkXspecCorner.py passes.
   */
  datatype CornerCall = CornerCall(
    varNames: seq<string>,
    labels: seq<Option<string>>,
    titles: seq<string>,
    showTitles: bool,
    contours: bool,
    bins: Option<int>,
    titleFormat: Option<string>)

  /** `[None for val in selectedTitles.values]`. */
  function NoLabels(n: nat): (labels: seq<Option<string>>)
    ensures |labels| == n && forall k :: 0 <= k < n ==> labels[k].None?
  {
    seq(n, _ => None)
  }
}
