/**
 * tkXspecCorner.py: the Tk front end. A checkbox and a text field per title; the update
 * button copies every widget value into `selected` and `AltNames` and replots.
 */
module TkXspecCorner {
  import opened Wrappers
  import opened Selection

  /** The arguments `UpdateAll` passes to `UpdateCornerPlot`. */
  datatype View = View(titles: seq<string>, altNames: seq<string>, flags: Flags)

  /**
   * `Titles[selected]`, `AltNames[selected]` and the three flags. Both lists are filtered by the
   * same mask, so the k-th alias belongs to the k-th selected title.
   */
  function DeriveView(titles: seq<string>, altNames: seq<string>, sel: seq<bool>): (v: View)
    requires |titles| == |sel| && |altNames| == |sel| && |sel| >= 3
    ensures |v.titles| == |v.altNames| == |Positions(sel)|
    ensures forall k :: 0 <= k < |v.titles| ==>
      v.titles[k] == titles[Positions(sel)[k]] && v.altNames[k] == altNames[Positions(sel)[k]]
    ensures v.flags == Flags(sel[|sel| - 3], sel[|sel| - 2], sel[|sel| - 1])
  {
    MaskAligned(titles, altNames, sel);
    View(Mask(titles, sel), Mask(altNames, sel), FlagsOf(sel))
  }

  /**
   * The call `UpdateCornerPlot` makes: the selected titles pick the data, the aliases are the
   * panel titles, and they are the axis labels only when "Show XY Labels" is on.
   */
  function UpdateCornerPlot(v: View, bins: int, titleFormat: string): (call: CornerCall)
    requires |v.altNames| == |v.titles|
    ensures |call.labels| == |call.varNames| == |call.titles|
    ensures forall k :: 0 <= k < |call.labels| ==>
      call.labels[k] == if v.flags.showXYlabels then Some(call.titles[k]) else None
    ensures call.varNames == v.titles && call.titles == v.altNames
    ensures call.showTitles == v.flags.showTitles && call.contours == v.flags.contours
    ensures call.bins == Some(bins) && call.titleFormat == Some(titleFormat)
  {
    var labels :=
      if v.flags.showXYlabels then seq(|v.altNames|, k requires 0 <= k < |v.altNames| => Some(v.altNames[k]))
      else NoLabels(|v.titles|);
    CornerCall(v.titles, labels, v.altNames, v.flags.showTitles, v.flags.contours, Some(bins), Some(titleFormat))
  }

  /**
   * After an update, entry k of `var_names` is the title at the k-th checked box, and the
   * panel title (and axis label, when shown) passed with it is the text typed in that same
   * item's field.
   */
  lemma UpdatePlotsCheckedItems(titles: seq<string>, texts: seq<string>, checks: seq<bool>, bins: int, fmt: string)
    requires |titles| == |checks| && |texts| == |checks| && |checks| >= 3
    ensures var call := UpdateCornerPlot(DeriveView(titles, texts, checks), bins, fmt);
      && |call.varNames| == |Positions(checks)|
      && forall k :: 0 <= k < |call.varNames| ==>
        && checks[Positions(checks)[k]]
        && call.varNames[k] == titles[Positions(checks)[k]]
        && call.titles[k] == texts[Positions(checks)[k]]
        && (checks[|checks| - 1] ==> call.labels[k] == Some(texts[Positions(checks)[k]]))
  {
  }

  /** The state the script keeps in globals: `Titles`, `selected` and `AltNames`. */
  class State {
    const fieldCount: nat
    const titles: seq<string>
    const selected: array<bool>
    const altNames: array<string>

    /** One entry per title in each array, and the titles end in the three options. */
    ghost predicate Valid()
      reads this
    {
      && fieldCount >= 1
      && |titles| == fieldCount + 3
      && titles[fieldCount..] == OptionItems
      && selected.Length == |titles|
      && altNames.Length == |titles|
    }

    /**
     * The set-up after the field loop: append the options, select the last field and
     * "Show Titles", and start every alias as its title. With no fields the seeding raises.
     */
    constructor (fieldTitles: seq<string>)
      requires |fieldTitles| >= 1
      ensures Valid()
      ensures fresh(selected) && fresh(altNames)
      ensures fieldCount == |fieldTitles| && titles == Items(fieldTitles)
      ensures Some(selected[..]) == InitialSelection(|titles|)
      ensures altNames[..] == titles
    {
      var items := Items(fieldTitles);
      var n := |items|;
      var sel := new bool[n](_ => false);
      sel[n - 4] := true;
      sel[n - 2] := true;
      assert sel[..] == seq(n, _ => false)[n - 4 := true][n - 2 := true];
      fieldCount := |fieldTitles|;
      titles := items;
      selected := sel;
      altNames := new string[n](i requires 0 <= i < n => items[i]);
    }

    /**
     * `UpdateAll`: copy each checkbox into `selected` and each text field into `AltNames`,
     * then derive the view that is plotted.
     */
    method UpdateAll(checks: seq<bool>, texts: seq<string>) returns (v: View)
      requires Valid()
      requires |checks| == |titles| && |texts| == |titles|
      modifies selected, altNames
      ensures selected[..] == checks && altNames[..] == texts
      ensures v == DeriveView(titles, texts, checks)
    {
      var i := 0;
      while i < |checks|
        invariant 0 <= i <= |checks|
        invariant selected[..i] == checks[..i]
        invariant altNames[..] == old(altNames[..])
      {
        selected[i] := checks[i];
        i := i + 1;
      }
      i := 0;
      while i < |texts|
        invariant 0 <= i <= |texts|
        invariant altNames[..i] == texts[..i]
        invariant selected[..] == checks
      {
        altNames[i] := texts[i];
        i := i + 1;
      }
      v := DeriveView(titles, altNames[..], selected[..]);
    }
  }
}
