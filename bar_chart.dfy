/** The feature bar chart: labels and heights from the bars it is given,
    the palette colours with every other bar dimmed while one feature is
    selected, and the click that reports the bar under the pointer. */
module BarChartView {
  import opened Seqs
  import opened Store
  import opened Aggregate
  import opened Projections
  import opened Text

  const Palette: seq<string> := [
    "rgba(99, 102, 241, 0.85)",
    "rgba(139, 92, 246, 0.85)",
    "rgba(236, 72, 153, 0.85)",
    "rgba(14, 165, 233, 0.85)",
    "rgba(34, 197, 94, 0.85)",
    "rgba(249, 115, 22, 0.85)",
    "rgba(168, 85, 247, 0.85)",
    "rgba(20, 184, 166, 0.85)",
    "rgba(245, 158, 11, 0.85)",
    "rgba(239, 68, 68, 0.85)"]

  /** `c.replace('0.85)', '1)')`, written as a rewrite of the last five
      characters. `replace` with a string pattern rewrites the first
      occurrence only, so the two agree on the palette because every entry
      ends in `0.85)` and holds it nowhere else (`PaletteAlpha`); on other
      strings they may differ. */
  function HoverOf(c: string): string
    requires |c| >= 5
  {
    c[..|c| - 5] + "1)"
  }

  const Dim: string := "rgba(148, 163, 184, 0.3)"
  const DimHover: string := "rgba(148, 163, 184, 0.5)"

  lemma PaletteAlpha(i: int)
    requires 0 <= i < |Palette|
    ensures |Palette[i]| >= 5 && Palette[i][|Palette[i]| - 5..] == "0.85)"
    ensures forall k :: 0 <= k < |Palette[i]| - 5 ==> !OccursAt(Palette[i], "0.85)", k)
    ensures Palette[i] != Dim && HoverOf(Palette[i]) != DimHover
  {
    var c := Palette[i];
    PaletteCloses(i);
    forall k | 0 <= k < |c| - 5
      ensures !OccursAt(c, "0.85)", k)
    {
      assert c[k + 4] in c[..|c| - 1];
      assert c[k..k + 5][4] == c[k + 4];
    }
  }

  lemma PaletteCloses(i: int)
    requires 0 <= i < |Palette|
    ensures |Palette[i]| >= 1 && ')' !in Palette[i][..|Palette[i]| - 1]
  {
  }

  /** `selectedFeature && d.feature_name !== selectedFeature`. */
  predicate Dimmed(g: Group<string>, selected: Option<string>)
  {
    selected.Some? && selected.value != "" && g.key != selected.value
  }

  function ColorAt(data: seq<Group<string>>, selected: Option<string>, i: int): string
    requires 0 <= i < |data|
  {
    if Dimmed(data[i], selected) then Dim else Palette[i % |Palette|]
  }

  function HoverColorAt(data: seq<Group<string>>, selected: Option<string>, i: int): string
    requires 0 <= i < |data|
  {
    if Dimmed(data[i], selected) then DimHover else HoverOf(Palette[i % |Palette|])
  }

  datatype Chart = NoBars | Bars(labels: seq<string>, values: seq<int>, colors: seq<string>, hoverColors: seq<string>)

  /** The empty state for no bars; otherwise four parallel lists, entry `i`
      describing bar `i`. */
  function ChartData(data: seq<Group<string>>, selected: Option<string>): (c: Chart)
    ensures c.NoBars? <==> data == []
    ensures c.Bars? ==> |c.labels| == |c.values| == |c.colors| == |c.hoverColors| == |data|
    ensures c.Bars? ==> forall i :: 0 <= i < |data| ==>
      c.labels[i] == data[i].key && c.values[i] == data[i].rows
      && c.colors[i] == ColorAt(data, selected, i) && c.hoverColors[i] == HoverColorAt(data, selected, i)
  {
    if data == [] then NoBars
    else Bars(
      seq(|data|, i requires 0 <= i < |data| => data[i].key),
      seq(|data|, i requires 0 <= i < |data| => data[i].rows),
      seq(|data|, i requires 0 <= i < |data| => ColorAt(data, selected, i)),
      seq(|data|, i requires 0 <= i < |data| => HoverColorAt(data, selected, i)))
  }

  /** `onClick`: the label of the first element under the pointer, if any.
      Chart.js reports indices of existing bars. */
  function OnClick(labels: seq<string>, elements: seq<nat>): (r: Option<string>)
    requires elements != [] ==> elements[0] < |labels|
    ensures r.Some? <==> elements != []
    ensures r.Some? ==> r.value == labels[elements[0]]
  {
    if elements == [] then None else Some(labels[elements[0]])
  }

  /** Without a selection the colours cycle through the palette, ten
      apart. */
  lemma ColorsCycle(data: seq<Group<string>>, i: int)
    requires 0 <= i < |data|
    ensures ColorAt(data, None, i) == Palette[i % 10]
    ensures i + 10 < |data| ==> ColorAt(data, None, i + 10) == ColorAt(data, None, i)
  {
    assert (i + 10) % 10 == i % 10;
  }

  /** Among bars with distinct names, selecting bar `k` dims exactly the
      others, on screen and under the pointer. */
  lemma SelectionDimsOthers(data: seq<Group<string>>, k: int, i: int)
    requires DistinctKeys(data)
    requires 0 <= k < |data| && 0 <= i < |data|
    requires data[k].key != ""
    ensures ColorAt(data, Some(data[k].key), i) == Dim <==> i != k
    ensures HoverColorAt(data, Some(data[k].key), i) == DimHover <==> i != k
  {
    PaletteAlpha(i % |Palette|);
  }

  /** The chart's bars have distinct names. */
  lemma BarChartDistinct(rows: seq<ClickRow>)
    ensures DistinctKeys(BarChart(rows))
  {
    var r := BarChart(rows);
    BarChartSpec(rows);
    if i, j :| 0 <= i < j < |r| && r[i].key == r[j].key {
      KeysWithRepeat(r, i, j);
      KeysAtMostLength(r);
    }
  }
}
