/**
 * The data shaping behind the genotype distribution bar chart: one row per
 * year holding the year (`name`), the number of genomes that year (`count`)
 * and one column per genotype with that genotype's genome count. The chart
 * shows these counts as they are, or as percentages of each year's total,
 * and its tooltip lists the genotypes of the hovered year.
 */
module DistributionGraph {
  import opened Base
  import opened Sorting

  /** One genotype column of a year row. */
  datatype Column<V> = Column(key: string, value: V)

  /** A year row: `{ name, count, [genotype]: value, ... }`. */
  datatype Row<V> = Row(name: string, count: int, columns: seq<Column<V>>)

  /**
   * The share of `part` in `whole` as a percentage rounded to two decimals,
   * kept as a term: two shares are equal here only when they were computed
   * from the same figures, although rounding can make distinct ones equal.
   */
  datatype Share = Share(part: int, whole: int)

  /** The rows handed to the chart, in one of the two views. */
  datatype ChartData = Counts(counts: seq<Row<int>>) | Percentages(shares: seq<Row<Share>>)

  /** The y-axis domain: chosen by the chart, or fixed. */
  datatype Domain = Auto | Fixed(low: int, high: int)

  /** The view whose rows are plotted unchanged. */
  const NumberView: string := "number"

  /** The keys of a row, in order, as `Object.keys` lists them. */
  function RowKeys<V>(r: Row<V>): (keys: seq<string>)
    ensures |keys| == |r.columns| + 2
    ensures keys[0] == "name" && keys[1] == "count"
    ensures forall i :: 0 <= i < |r.columns| ==> keys[i + 2] == r.columns[i].key
  {
    ["name", "count"] + seq(|r.columns|, i requires 0 <= i < |r.columns| => r.columns[i].key)
  }

  /** `getDomain`: no fixed domain for counts, 0 to 100 for percentages. */
  function YDomain(view: string): (d: Domain)
    ensures d == Auto <==> view == NumberView
    ensures d.Fixed? ==> d.low == 0 && d.high == 100
  {
    if view == NumberView then Auto else Fixed(0, 100)
  }

  /** Each genotype column of a row, as a share of the row's `count`. */
  function PercentRow(r: Row<int>): (p: Row<Share>)
    ensures p.name == r.name && p.count == r.count
    ensures RowKeys(p) == RowKeys(r)
    ensures |p.columns| == |r.columns|
    ensures forall i :: 0 <= i < |r.columns| ==> p.columns[i].value == Share(r.columns[i].value, r.count)
  {
    var p := Row(r.name, r.count,
                 seq(|r.columns|, i requires 0 <= i < |r.columns| => Column(r.columns[i].key, Share(r.columns[i].value, r.count))));
    assert RowKeys(p) == RowKeys(r);
    p
  }

  /** The percentage rows, one per year row, in the same order. */
  function PercentRows(rows: seq<Row<int>>): (ps: seq<Row<Share>>)
    ensures |ps| == |rows|
    ensures forall i :: 0 <= i < |rows| ==> ps[i] == PercentRow(rows[i])
  {
    if |rows| == 0 then []
    else [PercentRow(rows[0])] + PercentRows(rows[1..])
  }

  /** `getData`: the rows as counts in the number view, as shares otherwise. */
  function GetData(view: string, rows: seq<Row<int>>): (data: ChartData)
    ensures data.Counts? <==> view == NumberView
    ensures data.Counts? ==> data.counts == rows
    ensures data.Percentages? ==> |data.shares| == |rows|
    ensures data.Percentages? ==> forall i :: 0 <= i < |rows| ==>
      data.shares[i].name == rows[i].name && RowKeys(data.shares[i]) == RowKeys(rows[i])
  {
    if view == NumberView then Counts(rows) else Percentages(PercentRows(rows))
  }

  /** The number view plots the year rows unchanged on an axis of the chart's choosing. */
  lemma NumberViewUnchanged(rows: seq<Row<int>>)
    ensures GetData(NumberView, rows) == Counts(rows)
    ensures YDomain(NumberView) == Auto
  {
  }

  /**
   * Any other view plots one row per year, in order, each with the same
   * year, total and keys, every genotype column replaced by its share of
   * the total, on a fixed 0 to 100 axis.
   */
  lemma PercentageViewShape(view: string, rows: seq<Row<int>>)
    requires view != NumberView
    ensures GetData(view, rows).Percentages?
    ensures var ps := GetData(view, rows).shares;
      && |ps| == |rows|
      && (forall i :: 0 <= i < |rows| ==>
            && ps[i].name == rows[i].name
            && ps[i].count == rows[i].count
            && RowKeys(ps[i]) == RowKeys(rows[i])
            && (forall k :: 0 <= k < |rows[i].columns| ==>
                  ps[i].columns[k].value == Share(rows[i].columns[k].value, rows[i].count)))
    ensures YDomain(view) == Fixed(0, 100)
  {
  }

  /** The axis is left to the chart exactly when the rows are plotted as counts. */
  lemma DomainFollowsView(view: string, rows: seq<Row<int>>)
    ensures YDomain(view) == Auto <==> GetData(view, rows).Counts?
  {
  }

  /** One bar of the hovered year, as the chart reports it to the tooltip. */
  datatype PayloadEntry = PayloadEntry(name: string, color: string, value: real)

  /**
   * One tooltip line: the genotype, its colour, its count in the year row
   * and its share of the year's total. Both are `None` when the row has no
   * column of that name (`undefined` and `NaN` in the browser).
   */
  datatype TooltipItem = TooltipItem(name: string, color: string, count: Option<int>, percentage: Option<Share>)

  function ItemName(t: TooltipItem): string
  {
    t.name
  }

  /** `row[key]` for a genotype column. */
  function ColumnValue(r: Row<int>, key: string): (v: Option<int>)
    ensures v.None? <==> forall i :: 0 <= i < |r.columns| ==> r.columns[i].key != key
    ensures v.Some? ==> Column(key, v.value) in r.columns
  {
    match Find(r.columns, (c: Column<int>) => c.key == key)
    case None => None
    case Some(c) => Some(c.value)
  }

  /** The tooltip line for one bar, with its figures taken from the year row. */
  function ItemFor(e: PayloadEntry, r: Row<int>): (t: TooltipItem)
    ensures t.name == e.name && t.color == e.color
    ensures t.count == ColumnValue(r, e.name)
    ensures t.count.Some? <==> t.percentage.Some?
    ensures t.count.Some? ==> t.percentage.value == Share(t.count.value, r.count)
  {
    var count := ColumnValue(r, e.name);
    TooltipItem(e.name, e.color, count, if count.Some? then Some(Share(count.value, r.count)) else None)
  }

  /**
   * The positions, from `from` on, of the bars whose value is not zero, in
   * increasing order: every such position once, and no other.
   */
  function NonZeroBars(payload: seq<PayloadEntry>, from: nat): (ps: seq<nat>)
    requires from <= |payload|
    ensures |ps| <= |payload| - from
    ensures forall j :: 0 <= j < |ps| ==> from <= ps[j] < |payload| && payload[ps[j]].value != 0.0
    ensures forall j, k :: 0 <= j < k < |ps| ==> ps[j] < ps[k]
    ensures forall i :: from <= i < |payload| && payload[i].value != 0.0 ==> i in ps
    decreases |payload| - from
  {
    if from == |payload| then []
    else if payload[from].value != 0.0 then [from] + NonZeroBars(payload, from + 1)
    else NonZeroBars(payload, from + 1)
  }

  /** The lines of the bars from `from` on: one per non-zero bar, in payload order. */
  function ItemsFrom(payload: seq<PayloadEntry>, r: Row<int>, from: nat): (items: seq<TooltipItem>)
    requires from <= |payload|
    ensures |items| == |NonZeroBars(payload, from)|
    ensures forall j :: 0 <= j < |items| ==> items[j] == ItemFor(payload[NonZeroBars(payload, from)[j]], r)
    decreases |payload| - from
  {
    if from == |payload| then []
    else if payload[from].value != 0.0 then [ItemFor(payload[from], r)] + ItemsFrom(payload, r, from + 1)
    else ItemsFrom(payload, r, from + 1)
  }

  /**
   * The loop over the bars: the j-th line belongs to the j-th bar whose
   * value is not zero, so the lines follow the payload's order and each
   * such bar has exactly one.
   */
  function Items(payload: seq<PayloadEntry>, r: Row<int>): (items: seq<TooltipItem>)
    ensures |items| == |NonZeroBars(payload, 0)|
    ensures forall j :: 0 <= j < |items| ==> items[j] == ItemFor(payload[NonZeroBars(payload, 0)[j]], r)
    ensures forall t :: t in items ==> exists i :: 0 <= i < |payload| && payload[i].value != 0.0 && t == ItemFor(payload[i], r)
    ensures forall i :: 0 <= i < |payload| && payload[i].value != 0.0 ==> ItemFor(payload[i], r) in items
  {
    var items := ItemsFrom(payload, r, 0);
    var ps := NonZeroBars(payload, 0);
    forall t | t in items
      ensures exists i :: 0 <= i < |payload| && payload[i].value != 0.0 && t == ItemFor(payload[i], r)
    {
      var j :| 0 <= j < |items| && items[j] == t;
      assert payload[ps[j]].value != 0.0;
    }
    forall i | 0 <= i < |payload| && payload[i].value != 0.0
      ensures ItemFor(payload[i], r) in items
    {
      var j :| 0 <= j < |ps| && ps[j] == i;
      assert items[j] == ItemFor(payload[i], r);
    }
    items
  }

  /** `getTooltipData`: nothing for a year without a row, else its lines by descending name. */
  function TooltipData(year: string, payload: seq<PayloadEntry>, rows: seq<Row<int>>): (r: Option<seq<TooltipItem>>)
    ensures r.None? <==> forall i :: 0 <= i < |rows| ==> rows[i].name != year
  {
    match Find(rows, (row: Row<int>) => row.name == year)
    case None => None
    case Some(row) => Some(SortBy(Items(payload, row), ItemName, true))
  }

  /**
   * For a hovered year with a row, the tooltip has a line for every bar with
   * a non-zero value and no other line, each line's count and share read
   * from that year's row, in descending order of genotype name.
   */
  lemma TooltipLines(year: string, payload: seq<PayloadEntry>, rows: seq<Row<int>>, k: nat)
    requires k < |rows| && rows[k].name == year
    requires forall j :: 0 <= j < k ==> rows[j].name != year
    ensures TooltipData(year, payload, rows).Some?
    ensures var lines := TooltipData(year, payload, rows).value;
      && multiset(lines) == multiset(Items(payload, rows[k]))
      && |lines| == |NonZeroBars(payload, 0)|
      && |lines| <= |payload|
      && SortedBy(lines, ItemName, true)
      && (forall t :: t in lines ==>
            exists i :: 0 <= i < |payload| && payload[i].value != 0.0 && t == ItemFor(payload[i], rows[k]))
      && (forall i :: 0 <= i < |payload| && payload[i].value != 0.0 ==> ItemFor(payload[i], rows[k]) in lines)
  {
    var p := (row: Row<int>) => row.name == year;
    var idx := FindIndex(rows, p);
    assert p(rows[k]);
    assert idx == Some(k);
    var items := Items(payload, rows[k]);
    var lines := TooltipData(year, payload, rows).value;
    assert lines == SortBy(items, ItemName, true);
    SortBySorted(items, ItemName, true);
    forall t | t in lines
      ensures t in items
    {
      assert t in multiset(lines);
    }
    forall t | t in items
      ensures t in lines
    {
      assert t in multiset(items);
    }
  }
}
