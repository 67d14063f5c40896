/** The chart option builder `getChartOption` of the diet analytics component:
    per-day nutrient records become six stacked bar series, one per nutrient,
    over a category axis of the days. */
module DietAnalytics {

  datatype Macros = Macros(protein: int, carbs: int, fats: int)
  datatype Micros = Micros(vitamins: int, minerals: int, fiber: int)

  /** One day of the raw data. */
  datatype DayRecord = DayRecord(date: string, macros: Macros, micros: Micros)

  /** One entry of the option's `series`: its name, `type`, `stack` group,
      `emphasis.focus`, `itemStyle.color` and data. */
  datatype Series = Series(name: string, kind: string, stack: string, emphasisFocus: string, color: string, data: seq<int>)

  /** The parts of the ECharts option the data determines: the legend entries,
      the categories of the x axis and the series. */
  datatype ChartOption = ChartOption(legend: seq<string>, categories: seq<string>, series: seq<Series>)

  const NutrientLabels: seq<string> := ["Protein", "Carbs", "Fats", "Vitamins", "Minerals", "Fiber"]

  /** Tailwind's blue, green, yellow, purple, pink and orange 500 shades. */
  const NutrientColors: seq<string> := ["#3b82f6", "#22c55e", "#eab308", "#a855f7", "#ec4899", "#f97316"]

  /** The `switch` on the series index: the index-th nutrient of a day, in label
      order, and 0 for any other index. */
  function NutrientAt(d: DayRecord, index: int): (v: int)
    ensures index == 0 ==> v == d.macros.protein
    ensures index == 1 ==> v == d.macros.carbs
    ensures index == 2 ==> v == d.macros.fats
    ensures index == 3 ==> v == d.micros.vitamins
    ensures index == 4 ==> v == d.micros.minerals
    ensures index == 5 ==> v == d.micros.fiber
    ensures !(0 <= index < 6) ==> v == 0
  {
    if index == 0 then d.macros.protein
    else if index == 1 then d.macros.carbs
    else if index == 2 then d.macros.fats
    else if index == 3 then d.micros.vitamins
    else if index == 4 then d.micros.minerals
    else if index == 5 then d.micros.fiber
    else 0
  }

  /** `getChartOption(rawData)`. */
  function GetChartOption(rawData: seq<DayRecord>): (o: ChartOption)
    ensures o.legend == ["Protein", "Carbs", "Fats", "Vitamins", "Minerals", "Fiber"]
    ensures |o.categories| == |rawData| && forall i :: 0 <= i < |rawData| ==> o.categories[i] == rawData[i].date
    ensures |o.series| == 6
    ensures forall k :: 0 <= k < 6 ==>
      && o.series[k].name == o.legend[k]
      && o.series[k].kind == "bar" && o.series[k].stack == "total" && o.series[k].emphasisFocus == "series"
      && o.series[k].color == NutrientColors[k]
      && |o.series[k].data| == |rawData|
    ensures forall i :: 0 <= i < |rawData| ==>
      && o.series[0].data[i] == rawData[i].macros.protein
      && o.series[1].data[i] == rawData[i].macros.carbs
      && o.series[2].data[i] == rawData[i].macros.fats
      && o.series[3].data[i] == rawData[i].micros.vitamins
      && o.series[4].data[i] == rawData[i].micros.minerals
      && o.series[5].data[i] == rawData[i].micros.fiber
  {
    var dates := seq(|rawData|, i requires 0 <= i < |rawData| => rawData[i].date);
    var seriesData := seq(|NutrientLabels|, k requires 0 <= k < |NutrientLabels| =>
      Series(NutrientLabels[k], "bar", "total", "series", NutrientColors[k],
             seq(|rawData|, i requires 0 <= i < |rawData| => NutrientAt(rawData[i], k))));
    ChartOption(NutrientLabels, dates, seriesData)
  }

  /** The height of the stacked bar of category `i`: the sum of the `i`-th
      entries of the series, all of which share one stack. */
  function StackHeight(series: seq<Series>, i: nat): int
    requires forall k :: 0 <= k < |series| ==> i < |series[k].data|
  {
    if series == [] then 0 else StackHeight(series[..|series| - 1], i) + series[|series| - 1].data[i]
  }

  /** The sum of everything recorded for a day. */
  function DayTotal(d: DayRecord): int {
    d.macros.protein + d.macros.carbs + d.macros.fats + d.micros.vitamins + d.micros.minerals + d.micros.fiber
  }

  /** The six series' entries for a day add up to the sum of that day's six nutrients. */
  lemma StackedBarIsDayTotal(rawData: seq<DayRecord>, i: nat)
    requires i < |rawData|
    ensures StackHeight(GetChartOption(rawData).series, i) == DayTotal(rawData[i])
  {
    var s := GetChartOption(rawData).series;
    var d := rawData[i];
    assert s[..1][..0] == [];
    assert StackHeight(s[..1], i) == d.macros.protein;
    assert s[..2][..1] == s[..1];
    assert StackHeight(s[..2], i) == d.macros.protein + d.macros.carbs;
    assert s[..3][..2] == s[..2];
    assert StackHeight(s[..3], i) == d.macros.protein + d.macros.carbs + d.macros.fats;
    assert s[..4][..3] == s[..3];
    assert StackHeight(s[..4], i) == StackHeight(s[..3], i) + d.micros.vitamins;
    assert s[..5][..4] == s[..4];
    assert StackHeight(s[..5], i) == StackHeight(s[..4], i) + d.micros.minerals;
    assert s[..6][..5] == s[..5] && s[..6] == s;
    assert StackHeight(s, i) == StackHeight(s[..5], i) + d.micros.fiber;
  }
}
