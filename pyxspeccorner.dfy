/**
 * pyXspecCorner.py: the matplotlib front end. One check box per title; a click toggles the
 * clicked title's entry of `selected` and replots.
 */
module PyXspecCorner {
  import opened Wrappers
  import opened PyString
  import opened Columns
  import opened Selection

  /** The arguments `chButtonsFunc` passes to `UpdateCornerPlot`. */
  datatype View = View(titles: seq<string>, flags: Flags)

  /** `Titles[selected]` and the three flags. */
  function DeriveView(titles: seq<string>, sel: seq<bool>): (v: View)
    requires |titles| == |sel| && |sel| >= 3
    ensures |v.titles| == |Positions(sel)|
    ensures forall k :: 0 <= k < |v.titles| ==> v.titles[k] == titles[Positions(sel)[k]]
    ensures v.flags == Flags(sel[|sel| - 3], sel[|sel| - 2], sel[|sel| - 1])
  {
    MaskIsPick(titles, sel);
    View(Mask(titles, sel), FlagsOf(sel))
  }

  const LabelSeparator: string := ". "

  /** The axis label for a title: `''.join(title.split('. ')[1:])`. */
  function XYLabel(title: string): string
  {
    Join(Split(title, LabelSeparator)[1..], "")
  }

  /** In `num + ". " + rest`, with no `". "` inside `num`, the first `". "` is the one after `num`. */
  lemma FirstSeparatorAfter(num: string, rest: string)
    requires !Contains(num, LabelSeparator)
    ensures forall j: nat :: j < |num| ==> !OccursAt(num + LabelSeparator + rest, LabelSeparator, j)
  {
    var s := num + LabelSeparator + rest;
    forall j: nat | j < |num|
      ensures !OccursAt(s, LabelSeparator, j)
    {
      if j + 2 <= |num| {
        assert num[j..j + 2] == s[j..j + 2];
        assert !OccursAt(num, LabelSeparator, j);
      } else {
        assert s[j + 1] == '.';
        assert s[j..j + 2][1] == s[j + 1];
      }
    }
  }

  /** The label of `"N. rest"` is `rest` when neither part holds `". "`: the index is dropped. */
  lemma XYLabelDropsIndex(num: string, rest: string)
    requires !Contains(num, LabelSeparator) && !Contains(rest, LabelSeparator)
    ensures XYLabel(num + LabelSeparator + rest) == rest
  {
    FirstSeparatorAfter(num, rest);
    SplitInTwo(num, rest, LabelSeparator);
    assert Split(num + LabelSeparator + rest, LabelSeparator)[1..] == [rest];
  }

  /**
   * For a decoded column whose index and tail hold no `". "`, the axis label is the title
   * without its `"{tnum}. "` prefix: the name, with its bracketed unit if any.
   */
  lemma XYLabelOfFieldTitle(d: Decoded)
    requires !Contains(d.num, LabelSeparator) && !Contains(TitleTail(d), LabelSeparator)
    ensures XYLabel(Title(d)) == TitleTail(d)
  {
    XYLabelDropsIndex(d.num, TitleTail(d));
  }

  /** Every field title holds `". "`, right after its index. */
  lemma TitleHasSeparator(d: Decoded)
    ensures Contains(Title(d), LabelSeparator)
  {
    var t := Title(d);
    assert t[|d.num|..|d.num| + 2] == LabelSeparator;
    assert OccursAt(t, LabelSeparator, |d.num|);
  }

  /**
   * The call `UpdateCornerPlot` makes: the selected titles pick the data and are the panel
   * titles; the axis labels are their stripped forms only when "Show XY Labels" is on.
   */
  function UpdateCornerPlot(v: View): (call: CornerCall)
    ensures |call.labels| == |call.varNames| == |call.titles|
    ensures forall k :: 0 <= k < |call.labels| ==>
      call.labels[k] == if v.flags.showXYlabels then Some(XYLabel(call.varNames[k])) else None
    ensures call.varNames == v.titles && call.titles == v.titles
    ensures call.showTitles == v.flags.showTitles && call.contours == v.flags.contours
    ensures call.bins.None? && call.titleFormat.None?
  {
    var labels :=
      if v.flags.showXYlabels then seq(|v.titles|, k requires 0 <= k < |v.titles| => Some(XYLabel(v.titles[k])))
      else NoLabels(|v.titles|);
    CornerCall(v.titles, labels, v.titles, v.flags.showTitles, v.flags.contours, None, None)
  }

  // ---------------------------------------------------------------------
  // chButtonsFunc

  /** The first position at or after `from` whose title equals `clicked`. */
  function FirstIndex(titles: seq<string>, clicked: string, from: nat): (r: Option<nat>)
    ensures r.Some? ==> from <= r.value < |titles| && titles[r.value] == clicked
    ensures r.Some? ==> forall j :: from <= j < r.value ==> titles[j] != clicked
    ensures r.None? ==> forall j :: from <= j < |titles| ==> titles[j] != clicked
    decreases |titles| - from
  {
    if from >= |titles| then None
    else if titles[from] == clicked then Some(from)
    else FirstIndex(titles, clicked, from + 1)
  }

  /**
   * `selected` after a click on `clicked`: the first entry whose title is `clicked` flips,
   * nothing else changes, and a label matching no title changes nothing.
   */
  function Clicked(titles: seq<string>, sel: seq<bool>, clicked: string): (r: seq<bool>)
    requires |sel| == |titles|
    ensures |r| == |sel|
    ensures clicked !in titles ==> r == sel
    ensures forall j :: 0 <= j < |sel| ==>
      (r[j] != sel[j] <==> titles[j] == clicked && forall i :: 0 <= i < j ==> titles[i] != clicked)
  {
    match FirstIndex(titles, clicked, 0)
    case None => sel
    case Some(i) => sel[i := !sel[i]]
  }

  /** Clicking the same label twice restores `selected`. */
  lemma ClickTwice(titles: seq<string>, sel: seq<bool>, clicked: string)
    requires |sel| == |titles|
    ensures Clicked(titles, Clicked(titles, sel, clicked), clicked) == sel
  {
  }

  /**
   * Field titles all hold `". "` and no option does, so clicking an option's box flips exactly
   * that option's flag: "Draw Contours", "Show Titles" or "Show XY Labels".
   */
  lemma ClickOptionFlipsItsFlag(fieldTitles: seq<string>, sel: seq<bool>, k: nat)
    requires forall i :: 0 <= i < |fieldTitles| ==> Contains(fieldTitles[i], LabelSeparator)
    requires |sel| == |fieldTitles| + 3 && k < 3
    ensures Clicked(Items(fieldTitles), sel, OptionItems[k]) == sel[|fieldTitles| + k := !sel[|fieldTitles| + k]]
    ensures FlagsOf(Clicked(Items(fieldTitles), sel, OptionItems[k])) ==
      if k == 0 then Flags(!sel[|sel| - 3], sel[|sel| - 2], sel[|sel| - 1])
      else if k == 1 then Flags(sel[|sel| - 3], !sel[|sel| - 2], sel[|sel| - 1])
      else Flags(sel[|sel| - 3], sel[|sel| - 2], !sel[|sel| - 1])
  {
    var items := Items(fieldTitles);
    var f := |fieldTitles|;
    forall o | o in OptionItems
      ensures !Contains(o, LabelSeparator)
    {
      forall j: nat
        ensures !OccursAt(o, LabelSeparator, j)
      {
        if j + 2 <= |o| {
          assert o[j..j + 2][0] == o[j];
          assert o[j] != '.';
        }
      }
    }
    assert items[f + k] == OptionItems[k];
    assert forall i :: 0 <= i < f ==> items[i] != OptionItems[k];
    assert forall i :: f <= i < f + k ==> items[i] != OptionItems[k];
    var r := Clicked(items, sel, OptionItems[k]);
    assert r == sel[f + k := !sel[f + k]];
  }

  /** The state the script keeps in globals: `Titles` and `selected`. */
  class State {
    const fieldCount: nat
    const titles: seq<string>
    const selected: array<bool>

    /** One entry of `selected` per title, and the titles end in the three options. */
    ghost predicate Valid()
      reads this
    {
      && fieldCount >= 1
      && |titles| == fieldCount + 3
      && titles[fieldCount..] == OptionItems
      && selected.Length == |titles|
    }

    /**
     * The set-up after the field loop: append the options and select the last field and
     * "Show Titles". With no fields the seeding raises.
     */
    constructor (fieldTitles: seq<string>)
      requires |fieldTitles| >= 1
      ensures Valid()
      ensures fresh(selected)
      ensures fieldCount == |fieldTitles| && titles == Items(fieldTitles)
      ensures Some(selected[..]) == InitialSelection(|titles|)
    {
      var items := Items(fieldTitles);
      var n := |items|;
      var sel := new bool[n](_ => false);
      sel[n - 4] := true;
      sel[n - 2] := true;
      assert sel[..] == seq(n, _ => false)[n - 4 := true][n - 2 := true];
      fieldCount := |fieldTitles|;
      titles := items;
      selected := sel;
    }

    /**
     * `chButtonsFunc`: scan the titles for the clicked label, flip the first match and stop;
     * then derive the view that is plotted.
     */
    method ChButtonsFunc(clicked: string) returns (v: View)
      requires Valid()
      modifies selected
      ensures selected[..] == Clicked(titles, old(selected[..]), clicked)
      ensures v == DeriveView(titles, selected[..])
    {
      var i := 0;
      while i < |titles|
        invariant 0 <= i <= |titles|
        invariant forall j :: 0 <= j < i ==> titles[j] != clicked
        invariant selected[..] == old(selected[..])
      {
        if clicked == titles[i] {
          selected[i] := !selected[i];
          break;
        }
        i := i + 1;
      }
      v := DeriveView(titles, selected[..]);
    }
  }
}
