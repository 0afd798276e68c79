# pyXspecCorner, modelled in Dafny

pyXspecCorner draws interactive corner plots of the posterior samples in an XSPEC MCMC chain
stored as a FITS table. Two scripts do it: `pyXspecCorner.py` (matplotlib check boxes) and
`tkXspecCorner.py` (a Tk window with a check box and an alias text field per title). This
project models the logic the two scripts share or differ on:

- **Column decoding and titles** (`columns.dfy`, on `pystring.dfy`). Each column name
  TTYPEn is split on `"__"` with Python's left-to-right `str.split`. A key that unpacks into
  exactly two parts `name__num` becomes the title `"num. name"`, or `"num. name [unit]"` when
  TUNITn is present and non-empty. Any other key falls back to the name `Chi-Squared` with no
  unit. Its index is then the previous column's index plus one in tkXspecCorner.py
  (`str(int(tnum)+1)`), or the previous index unchanged in pyXspecCorner.py. A fallback
  with no earlier index, or (tk) with an index `int()` cannot read, raises. The model
  returns that as a `Failure` result. The field loop is the method `BuildTitles`, proved
  against the function `FieldTitles`.
- **Selection state** (`selection.dfy`, `tkxspeccorner.dfy`, `pyxspeccorner.dfy`). The title
  list is the field titles followed by `Draw Contours`, `Show Titles` and `Show XY Labels`.
  `selected` starts true only at positions len-4 (the last field) and len-2 (Show Titles).
  In tk, `UpdateAll` overwrites `selected` and `AltNames` element by element from the
  widgets. In py, `chButtonsFunc` flips the first entry whose title equals the clicked
  label. Both then plot `Titles[selected]` (and in tk `AltNames[selected]`), with the flags
  read from positions len-3, len-2 and len-1.
- **Sample bounds** (`sampling.dfy`). `randint(low=min(BurnIn, ChainLength//2), high=ChainLength,
  size=min(Samples, ChainLength))`, and what a draw from those bounds satisfies.
- **Plot arguments**: which labels and titles go to `corner.corner`. In py the axis label is
  `''.join(title.split('. ')[1:])`.

FITS header values, widget values, the clicked label and the command-line options are plain
parameters of the model.

Behaviour of the code worth knowing when reading the model:
- A key `name__tag__num` splits into three parts and falls back (`ThreePartKeyFallsBack`).
- A fallback on the first column raises NameError, as no earlier `tnum` exists (`LeadingFallbackRaises`).
- In pyXspecCorner.py a fallback reuses the previous `tnum`, so consecutive fallbacks get the same index (`ReuseFallbackRepeats`).
- The initial selection `selected[-4]` is the last field column (`InitialView`).

## Model

| member | source | states |
|---|---|---|
| PyString.Split | tkXspecCorner.py:95 | `ttype.split('__')`: at least one part, the parts joined with the separator give back the key, and no part contains the separator |
| PyString.Join | pyXspecCorner.py:22 | `sep.join(parts)`; `Split` states that joining its parts with the separator gives back the string, and `XYLabelDropsIndex` what `''.join` of the tail gives |
| PyString.Find | tkXspecCorner.py:95 | the split cuts at the leftmost occurrence at or after the scan position, and there is no occurrence before it |
| PyString.SplitAtFirst | tkXspecCorner.py:95 | when the first separator follows `a`, splitting `a + sep + b` gives `a` and then the split of `b`, so cuts are left to right and do not overlap |
| PyString.SplitInTwo | tkXspecCorner.py:95 | `a + "__" + b` unpacks to exactly `(a, b)` when `a` has no earlier separator and `b` has none |
| PyString.SplitTwoParts | tkXspecCorner.py:95 | a key that splits in two is `part0 + "__" + part1`, and neither part holds the separator |
| PyString.SplitWithout | tkXspecCorner.py:95 | a string without the separator splits into itself alone |
| PyString.NatToString | tkXspecCorner.py:97 | `str(n)` for n >= 0 is a non-empty run of digits with no leading zero |
| PyString.ParseIntOfIntToString | tkXspecCorner.py:97 | `int(str(n)) == n` for every integer, so a fallback index written by `str` can always be read back |
| PyString.ParseInt | tkXspecCorner.py:97 | `int(tnum)`, None where Python raises ValueError; `ParseIntOfIntToString` states that it reads back every `str(n)` |
| PyString.IntToString | tkXspecCorner.py:97 | `str(n)`; `NatToString` states its digits, and `ParseIntOfIntToString`/`IntToStringInjective` that it reads back and is injective |
| PyString.IntToStringInjective | tkXspecCorner.py:97 | different integers print as different strings |
| Columns.DecodeColumn | tkXspecCorner.py:89-99 | one column succeeds iff its key splits in two, or an earlier index exists and (tk) `int()` reads it. A two-part success has `key == name + "__" + num` and the TUNIT value (missing reads as ""). A fallback success has name Chi-Squared and no unit |
| Columns.UnitText | tkXspecCorner.py:89-92 | a TUNITn value, or "" when the key is missing; `MissingUnitNoBracket` states the bracket-free title that follows |
| Columns.Title | tkXspecCorner.py:102-105 | `"{tnum}. {tname} [{tunit}]"`, or `"{tnum}. {tname}"` for an empty unit; `TwoPartKeyTitle`, `FallbackTitleHasNoUnit` and `TitleHasSeparator` state the two formats |
| Columns.TwoPartKeyTitle | tkXspecCorner.py:94-105 | `name__num` decodes to that name and number whatever came before. Its title is `"num. name"` for an empty or missing unit, else `"num. name [unit]"` |
| Columns.MissingUnitNoBracket | tkXspecCorner.py:89-92 | a column without TUNITn has an empty unit, so its title is `"num. name"` with no bracket |
| Columns.NoDelimiterFallsBack | tkXspecCorner.py:94-96 | a key with no `"__"` fails to unpack and takes the fallback branch |
| Columns.ThreePartKeyFallsBack | tkXspecCorner.py:94-96 | a key `name__tag__num` splits into three or more parts and takes the fallback branch |
| Columns.ConsecutiveFallbacksIncrement | tkXspecCorner.py:96-99 | after a readable index n, fallbacks get indices n+1, then n+2, so their titles differ |
| Columns.IncrementFallbackErrors | tkXspecCorner.py:96-97 | a tk fallback raises NameError when no index was set, and ValueError when `int()` cannot read the previous index |
| Columns.FallbackTitleHasNoUnit | tkXspecCorner.py:96-105 | a fallback title is `"{tnum}. Chi-Squared"` and never ends in a bracketed unit |
| Columns.DecodeAll | tkXspecCorner.py:86-107 | when the loop completes, it yields one decoded column per field |
| Columns.DecodeAllColumns | tkXspecCorner.py:86-107 | entry k of the loop's result keeps column k's name, number and unit when its key splits in two. Otherwise the entry is Chi-Squared with no unit |
| Columns.DecodeAllStep | tkXspecCorner.py:86-107 | one pass of the loop either raises the column's error or moves the decoded column onto the processed prefix and carries its index on |
| Columns.BuildTitles | tkXspecCorner.py:86-107 | the imperative field loop returns exactly the titles `FieldTitles` defines, or the error the loop raises |
| Columns.FieldTitles | tkXspecCorner.py:86-107 | the `titles` list of the field loop, or the exception it raises; `BuildTitles` implements it, `DecodeAllColumns` gives each entry, `ReuseFailsOnlyOnLeadingFallback` when it raises |
| Columns.LeadingFallbackRaises | tkXspecCorner.py:94-97 | in either script, a first column that falls back raises (no earlier `tnum`) |
| Columns.DecodeTwoColumns | tkXspecCorner.py:86-107 | over two columns, the second is decoded with the index the first left behind |
| Columns.ParameterColumnExample | tkXspecCorner.py:89-95 | `nH__1` with unit cm-2 decodes to number 1, name nH, unit cm-2 in both scripts |
| Columns.ParameterTitleExample | tkXspecCorner.py:102-105 | that column is titled `"1. nH [cm-2]"` |
| Columns.StatisticColumnExample | tkXspecCorner.py:94-99 | `chisq` after index "1" becomes `"2"`/Chi-Squared in tk and `"1"`/Chi-Squared in py |
| Columns.ReuseFallbackRepeats | pyXspecCorner.py:89-93 | a py fallback keeps the previous index, so consecutive fallbacks decode identically. With no previous index it raises |
| Columns.ReuseNeverFailsAfterIndex | pyXspecCorner.py:81-101 | in py, once an index has been set, every later column decodes |
| Columns.ReuseFailsOnlyOnLeadingFallback | pyXspecCorner.py:81-101 | the py loop raises exactly when the first column falls back |
| Selection.InitialSelection | tkXspecCorner.py:121-123 | `selected` is true exactly at len-4 and len-2. It raises IndexError iff there are fewer than four titles |
| Selection.InitialView | tkXspecCorner.py:111-125 | with at least one field, the initial flags are (no contours, titles, no XY labels), the constants the scripts pass, and the selected titles are the last field's and "Show Titles" |
| Selection.Items | tkXspecCorner.py:110-115 | the field titles followed by the three option items; `InitialView` and `ClickOptionFlipsItsFlag` state what the trailing items select |
| Selection.FlagsOf | tkXspecCorner.py:46-48 | `selected[-3]`, `[-2]`, `[-1]` as contours, titles, XY labels; `InitialView` and `ClickOptionFlipsItsFlag` state their values |
| Selection.PositionsFrom | tkXspecCorner.py:44 | the selected positions of a mask are strictly increasing, all selected, and include every selected position |
| Selection.MaskIsPick | tkXspecCorner.py:44 | `Titles[selected]` is the entries at the selected positions, in list order |
| Selection.Mask | tkXspecCorner.py:44-45 | boolean indexing `Titles[selected]`; `MaskIsPick`, `MaskAligned`, `MaskAppend` and `MaskNone` state its meaning |
| Selection.MaskAligned | tkXspecCorner.py:44-45 | `Titles[selected]` and `AltNames[selected]` have equal length, and entry k of both comes from the same position |
| Selection.MaskAppend | tkXspecCorner.py:44 | masking a concatenation masks each part |
| Selection.MaskNone | tkXspecCorner.py:44 | an all-false mask selects nothing |
| Selection.NoLabels | tkXspecCorner.py:30 | `[None for val in selectedTitles.values]` has one None per selected title |
| Sampling.SampleBounds | tkXspecCorner.py:80 | high is the chain length. The size is at most the chain length and the request, and equals the request when it fits and the chain length when it does not, i.e. `min(Samples, ChainLength)`. The burn-in is kept up to half the chain and clamped there beyond it. The range is non-empty for a non-empty chain, and low >= 0 for a non-negative burn-in |
| Sampling.Drawable | tkXspecCorner.py:80 | the bounds on which `randint` does not raise: size 0 with any range, or a positive size with `low < high`; `SampleWithinChain`, `EmptyChainDrawsNothing` and `NegativeSamplesNotDrawable` state when they hold |
| Sampling.ValidSample | tkXspecCorner.py:80 | what `randint` may return: `size` integers in `[low, high)`; `SampleWithinChain` states that they are rows of the chain after the clamped burn-in |
| Sampling.SampleWithinChain | pyXspecCorner.py:75 | for a non-empty chain and non-negative options the draw succeeds, has at most ChainLength indices, and every index is in [min(BurnIn, ChainLength//2), ChainLength) |
| Sampling.EmptyChainDrawsNothing | tkXspecCorner.py:80 | on an empty chain the draw succeeds iff the sample count is non-negative, and then the size is 0, so nothing is drawn |
| Sampling.NegativeSamplesNotDrawable | tkXspecCorner.py:80 | a negative sample count gives a negative size, on which `randint` raises |
| TkXspecCorner.DeriveView | tkXspecCorner.py:44-48 | selected titles and aliases are filtered by the same mask, line up entry by entry, and the flags are `selected[-3]`, `[-2]`, `[-1]` |
| TkXspecCorner.UpdateCornerPlot | tkXspecCorner.py:18-33 | the aliases are the panel titles. They are also the axis labels when showXYlabels is on, else every label is None, one per selected title. bins and title_fmt are passed through |
| TkXspecCorner.UpdatePlotsCheckedItems | tkXspecCorner.py:39-50 | after an update, entry k of `var_names` is the title at the k-th checked box. The panel title, and the axis label when shown, passed with it is the text typed for that same item |
| TkXspecCorner.State.constructor | tkXspecCorner.py:111-125 | titles are the field titles and then the three options. `selected` is the initial selection and `AltNames` starts as a copy of the titles |
| TkXspecCorner.State.UpdateAll | tkXspecCorner.py:39-51 | `selected` and `AltNames` become the widget values element by element, and the view passed on is derived from them |
| PyXspecCorner.DeriveView | pyXspecCorner.py:44-47 | `Titles[selected]` in list order, which may include option items, and the flags at len-3, len-2, len-1 |
| PyXspecCorner.XYLabelDropsIndex | pyXspecCorner.py:22 | the label of `"N. rest"` is `rest` when neither part contains `". "` |
| PyXspecCorner.XYLabel | pyXspecCorner.py:22 | `''.join(title.split('. ')[1:])`; `XYLabelDropsIndex` and `XYLabelOfFieldTitle` state that it is the title without its `"{tnum}. "` prefix |
| PyXspecCorner.XYLabelOfFieldTitle | pyXspecCorner.py:22 | a decoded column's axis label is its title without the `"{tnum}. "` prefix: the name, with the bracketed unit if any |
| PyXspecCorner.TitleHasSeparator | pyXspecCorner.py:97-99 | every field title contains `". "` right after its index |
| PyXspecCorner.UpdateCornerPlot | pyXspecCorner.py:20-31 | the selected titles are both data and panel titles. The labels are their stripped forms when showXYlabels is on, else a list of None of the same length |
| PyXspecCorner.FirstIndex | pyXspecCorner.py:40-43 | the search stops at the first title equal to the clicked label; no match means no title equals it |
| PyXspecCorner.Clicked | pyXspecCorner.py:40-43 | entry j changes iff title j is the first equal to the label. Length is kept, and an unmatched label changes nothing |
| PyXspecCorner.ClickTwice | pyXspecCorner.py:40-43 | clicking the same label twice restores `selected` |
| PyXspecCorner.ClickOptionFlipsItsFlag | pyXspecCorner.py:40-46 | field titles contain `". "` and option labels do not. So clicking an option flips exactly that option's entry, and that one flag |
| PyXspecCorner.State.constructor | pyXspecCorner.py:105-117 | titles are the field titles then the three options, and `selected` is the initial selection |
| PyXspecCorner.State.ChButtonsFunc | pyXspecCorner.py:37-50 | the search loop with `break` leaves `selected` equal to `Clicked` of the old value, and the view passed on is derived from it |

## Left out

- Reading the FITS file (`fits.open`, header lookups, `chain[1].data[...]`): header values (TTYPEn, TUNITn, NAXIS2) are parameters. TFORMn is read but unused, and the `ttypes` list is built and never read; neither is modelled.
- The pandas DataFrame and `df[title] = ...`. With two identical titles (two fallback columns in pyXspecCorner.py) the second column would overwrite the first; that overwrite is not modelled, only the equal titles.
- `corner.corner`, matplotlib figures, `canvas.draw`, `plt.rc`, and the `filter_vars="like"` matching of `var_names` against the DataFrame columns. That matching is by substring: a checked title that is a substring of another column's title (`"1. nH [cm-2]"` in `"11. nH [cm-2]"`) also selects that column, and the labels and titles lists then no longer line up with the plotted columns. The model states what is passed as `var_names`, not which columns corner plots. `CornerCall` records only the arguments that depend on the state. The fixed ones are not modelled: `quantiles=(0.14, 0.84)`, `plot_datapoints=False`, `plot_density=True`, `smooth=True`, `use_math_text=True` and the font sizes.
- The Tk and matplotlib widgets, `BooleanVar`/`StringVar`, event wiring and `mainloop`: widget values and the clicked label are parameters.
- argparse: BurnIn, Samples, bins and the title format are parameters.
- The random draw of `np.random.randint`: only its bounds and what a valid draw satisfies. A negative BurnIn gives negative indices, which numpy reads from the end of the column. `ValidSample` admits them, but the model does not map them to rows.
- PyString.ParseInt: models `int()` on ASCII text (whitespace, one sign, digits with single underscores); non-ASCII digits and whitespace, which Python also accepts, read as not an integer here.
- TkXspecCorner.State.UpdateAll: requires one checkbox value and one text value per title, as the script creates exactly one widget of each per title. A mismatched count, which the script cannot produce, is not modelled.
- TkXspecCorner.State.constructor and PyXspecCorner.State.constructor: require at least one field. With none, `selected[-4]` raises IndexError; `Selection.InitialSelection` models that error as None.
- A separate single-alias edit and the "use all samples" negative sample count do not occur in these two scripts.
