/**
 * The choropleth world map: how each country is filled for the selected
 * map view, which flags its cell carries, the tooltip assembled when the
 * mouse enters it, and the tooltip body that is displayed.
 *
 * Colour scales and genotype colours are not computed here: a fill is a
 * tag naming the branch that chose it (a fixed colour, or a scale and the
 * value it is applied to). Distinct tags may stand for the same colour.
 */
module WorldMap {
  import opened Base

  /** Below this many samples a country's resistance statistics are not shown. */
  const MinSamples: int := 20

  /** The resistance statistics a map view can colour by. */
  datatype Marker = H58 | MDR | XDR | AzithR | CipNS | CipR | Susceptible

  /** The map view selected in the store. */
  datatype View =
    | Samples                       // 'No. Samples'
    | DominantGenotype              // 'Dominant Genotype'
    | Resistance(marker: Marker)    // one of the seven resistance views
    | Unlisted(text: string)       // any other label: the `default` branches

  /** The labels of the views the map distinguishes. */
  const ListedLabels: seq<string> := [
    "No. Samples", "Dominant Genotype", "H58 / Non-H58", "MDR",
    "Susceptible to all drugs", "XDR", "AzithR", "CipR", "CipNS"
  ]

  function MarkerLabel(m: Marker): string
  {
    match m
    case H58 => "H58 / Non-H58"
    case MDR => "MDR"
    case XDR => "XDR"
    case AzithR => "AzithR"
    case CipNS => "CipNS"
    case CipR => "CipR"
    case Susceptible => "Susceptible to all drugs"
  }

  /** The label the store holds for a view. */
  function LabelOf(v: View): string
  {
    match v
    case Samples => "No. Samples"
    case DominantGenotype => "Dominant Genotype"
    case Resistance(m) => MarkerLabel(m)
    case Unlisted(text) => text
  }

  /** How the map's `switch` statements read the label held in the store. */
  function ViewOf(s: string): (v: View)
    ensures LabelOf(v) == s
    ensures v.Unlisted? <==> s !in ListedLabels
  {
    if s == "No. Samples" then Samples
    else if s == "Dominant Genotype" then DominantGenotype
    else if s == "H58 / Non-H58" then Resistance(H58)
    else if s == "MDR" then Resistance(MDR)
    else if s == "Susceptible to all drugs" then Resistance(Susceptible)
    else if s == "XDR" then Resistance(XDR)
    else if s == "AzithR" then Resistance(AzithR)
    else if s == "CipR" then Resistance(CipR)
    else if s == "CipNS" then Resistance(CipNS)
    else Unlisted(s)
  }

  /** `statKey`: the key of a resistance view's statistic in a country's stats. */
  function StatKey(m: Marker): (key: string)
    ensures key in SamplesTooltipKeys
  {
    match m
    case H58 => "H58"
    case MDR => "MDR"
    case XDR => "XDR"
    case AzithR => "AzithR"
    case CipNS => "CipNS"
    case CipR => "CipR"
    case Susceptible => "Susceptible"
  }

  /** A count of samples and the rounded percentage it represents. */
  datatype Stat = Stat(count: int, percentage: real)

  datatype GenotypeCount = GenotypeCount(name: string, count: int)

  /**
   * A country's statistics: its `GENOTYPE.count`, the genotypes ranked by
   * count (`GENOTYPE.items`), and the marker statistics by key.
   */
  datatype CountryStats = CountryStats(genotypeCount: int, genotypes: seq<GenotypeCount>, markers: map<string, Stat>)

  /** One entry of the map data: a country, its sample count and statistics. */
  datatype CountryData = CountryData(name: string, count: int, stats: CountryStats)

  /** The fill of a country: a fixed colour, or a scale applied to a value. */
  datatype Fill =
    | LightGrey
    | DarkGrey
    | ZeroCountColor
    | ZeroPercentColor
    | SamplesScale(samples: int)
    | RedScale(percentage: real)
    | SensitiveScale(percentage: real)
    | GenotypeColor(genotype: string)

  /** What the map computes for one country before rendering it. */
  datatype Cell = Cell(fill: Fill, smallerThan20: bool, showTooltip: bool)

  /** The cell of a country that has no data or whose data is not shown. */
  const Blank: Cell := Cell(LightGrey, false, false)

  /** The country's entry in the map data: the first one carrying its name. */
  function FindCountry(mapData: seq<CountryData>, name: string): (r: Option<CountryData>)
    ensures r.None? <==> forall i :: 0 <= i < |mapData| ==> mapData[i].name != name
    ensures r.Some? ==> r.value in mapData && r.value.name == name
    ensures r.Some? ==> exists k :: 0 <= k < |mapData| && mapData[k] == r.value && forall j :: 0 <= j < k ==> mapData[j].name != name
  {
    Find(mapData, (d: CountryData) => d.name == name)
  }

  /** The statistic is present with a positive count; a missing statistic has none. */
  predicate PositiveCount(stats: CountryStats, key: string)
  {
    key in stats.markers && stats.markers[key].count > 0
  }

  /**
   * The fill and flags of one country (the callback of `geographies.map`).
   * In the dominant-genotype view a country whose genotype list is empty
   * makes the read of `genotypes[0].name` fail.
   */
  function CellFor(view: View, country: Option<CountryData>): (r: Result<Cell>)
    ensures r.TypeError? <==> view.DominantGenotype? && country.Some? && |country.value.stats.genotypes| == 0
    ensures r.Ok? ==> !(r.value.smallerThan20 && r.value.showTooltip)
  {
    match country
    case None => Ok(Blank)
    case Some(d) =>
      match view
      case Samples =>
        Ok(Cell(if d.count > 0 then SamplesScale(d.count) else ZeroCountColor, false, false))
      case DominantGenotype =>
        if |d.stats.genotypes| == 0 then TypeError("name")
        else Ok(Cell(GenotypeColor(d.stats.genotypes[0].name), false, false))
      case Resistance(m) =>
        var key := StatKey(m);
        if d.count >= MinSamples && PositiveCount(d.stats, key) then
          var percentage := d.stats.markers[key].percentage;
          var fill := if m == Susceptible then SensitiveScale(percentage) else RedScale(percentage);
          Ok(Cell(fill, false, true))
        else if d.count >= MinSamples then
          Ok(Cell(if m == Susceptible then ZeroPercentColor else DarkGrey, true, false))
        else
          Ok(Blank)
      case Unlisted(_) => Ok(Blank)
  }

  /** A tooltip value: a number, a percentage shown as `p%`, or both. */
  datatype Entry = Count(n: int) | Percent(p: real) | CountAndPercent(count: int, percentage: real)

  /** One key of the tooltip content, in the order it was added. */
  datatype Field = Field(key: string, value: Entry)

  datatype Tooltip = Tooltip(name: string, content: seq<Field>, smallerThan20: bool)

  function Keys(content: seq<Field>): (r: seq<string>)
    ensures |r| == |content|
    ensures forall i :: 0 <= i < |content| ==> r[i] == content[i].key
  {
    seq(|content|, i requires 0 <= i < |content| => content[i].key)
  }

  /** `content[key] = value`: overwrite an existing key in place, or append it. */
  function Put(content: seq<Field>, key: string, value: Entry): (r: seq<Field>)
    ensures key in Keys(content) ==> Keys(r) == Keys(content)
    ensures key !in Keys(content) ==> r == content + [Field(key, value)]
    ensures forall i :: 0 <= i < |r| && r[i].key != key ==> r[i] == content[i]
    ensures forall i :: 0 <= i < |r| ==> r[i] == Field(key, value) || (i < |content| && r[i] == content[i])
    ensures Field(key, value) in r
  {
    if |content| == 0 then [Field(key, value)]
    else if content[0].key == key then [Field(key, value)] + content[1..]
    else
      assert Keys(content) == [content[0].key] + Keys(content[1..]);
      [content[0]] + Put(content[1..], key, value)
  }

  /** Each genotype's count written under its name, one genotype after another. */
  function PutGenotypes(content: seq<Field>, genotypes: seq<GenotypeCount>): seq<Field>
    decreases |genotypes|
  {
    if |genotypes| == 0 then content
    else PutGenotypes(Put(content, genotypes[0].name, Count(genotypes[0].count)), genotypes[1..])
  }

  /** The marker percentages listed in the tooltip of the samples view. */
  const SamplesTooltipKeys: seq<string> := ["H58", "MDR", "XDR", "AzithR", "CipI", "CipR", "CipNS", "Susceptible"]

  /**
   * Each key with its statistic's percentage, shown with a percent sign, in
   * turn; the first missing statistic makes the read of `percentage` fail.
   */
  function PercentFields(markers: map<string, Stat>, keys: seq<string>): (r: Result<seq<Field>>)
    ensures r.Ok? <==> forall i :: 0 <= i < |keys| ==> keys[i] in markers
    ensures r.Ok? ==> |r.value| == |keys|
    ensures r.Ok? ==> forall i :: 0 <= i < |keys| ==> r.value[i] == Field(keys[i], Percent(markers[keys[i]].percentage))
  {
    if |keys| == 0 then Ok([])
    else if keys[0] !in markers then TypeError("percentage")
    else
      match PercentFields(markers, keys[1..])
      case TypeError(p) => TypeError(p)
      case Ok(rest) => Ok([Field(keys[0], Percent(markers[keys[0]].percentage))] + rest)
  }

  /**
   * `handleOnMouseEnter`: the tooltip of the country `geoName`, given its
   * data (if any) and the flags its cell was drawn with.
   */
  function HoverTooltip(view: View, geoName: string, country: Option<CountryData>, cell: Cell): (r: Result<Tooltip>)
    ensures r.Ok? ==> r.value.name == geoName && r.value.smallerThan20 == cell.smallerThan20
    ensures country.None? || view.Unlisted? ==> r == Ok(Tooltip(geoName, [], cell.smallerThan20))
    ensures r.TypeError? ==> country.Some? && (view.Samples? || (view.Resistance? && cell.showTooltip))
  {
    var blank := Tooltip(geoName, [], cell.smallerThan20);
    match country
    case None => Ok(blank)
    case Some(d) =>
      match view
      case Samples =>
        var head := [Field("Samples", Count(d.count)), Field("Genotypes", Count(d.stats.genotypeCount))];
        (match PercentFields(d.stats.markers, SamplesTooltipKeys)
         case TypeError(p) => TypeError(p)
         case Ok(fields) => Ok(blank.(content := head + fields)))
      case DominantGenotype =>
        var top := d.stats.genotypes[..if |d.stats.genotypes| < 5 then |d.stats.genotypes| else 5];
        Ok(blank.(content := PutGenotypes([], top)))
      case Resistance(m) =>
        var key := StatKey(m);
        if !cell.showTooltip then Ok(blank)
        else if key !in d.stats.markers then TypeError("count")
        else
          var stat := d.stats.markers[key];
          Ok(blank.(content := [Field(key, CountAndPercent(stat.count, stat.percentage))]))
      case Unlisted(_) => Ok(blank)
  }

  /** `showPercentage`: whether tooltip values are shown as `count (percentage)`. */
  predicate ShowPercentage(view: View)
  {
    !(view.DominantGenotype? || view.Samples?)
  }

  /** One displayed key, and whether its value is shown as `count (percentage)`. */
  datatype Line = Line(key: string, value: Entry, countAndPercentage: bool)

  /** What the tooltip displays below the country name. */
  datatype Body = Lines(lines: seq<Line>) | Notice(text: string)

  /** The tooltip body: one line per content key, or a notice when there are none. */
  function TooltipBody(view: View, t: Tooltip): (b: Body)
    ensures |t.content| == 0 <==> b.Notice?
    ensures b.Notice? ==> b.text == (if t.smallerThan20 then "0%" else "Insufficient data")
    ensures b.Lines? ==> |b.lines| == |t.content|
    ensures b.Lines? ==> forall i :: 0 <= i < |b.lines| ==>
      b.lines[i].key == t.content[i].key && b.lines[i].value == t.content[i].value
      && (b.lines[i].countAndPercentage <==> ShowPercentage(view))
  {
    if |t.content| == 0 then Notice(if t.smallerThan20 then "0%" else "Insufficient data")
    else Lines(seq(|t.content|, i requires 0 <= i < |t.content| =>
      Line(t.content[i].key, t.content[i].value, ShowPercentage(view))))
  }

  /** Reading back a view's label gives the view, for every view the map knows. */
  lemma ViewRoundTrip(v: View)
    requires v.Unlisted? ==> v.text !in ListedLabels
    ensures ViewOf(LabelOf(v)) == v
  {
  }

  /** The view the reset button selects is the ciprofloxacin non-susceptibility view. */
  lemma ResetViewIsResistance()
    ensures ViewOf("CipNS") == Resistance(CipNS)
    ensures StatKey(ViewOf("CipNS").marker) == "CipNS"
    ensures ShowPercentage(ViewOf("CipNS"))
  {
  }

  /** Distinct resistance views read distinct statistics. */
  lemma StatKeysDistinct(m: Marker, n: Marker)
    requires m != n
    ensures StatKey(m) != StatKey(n)
  {
  }

  /**
   * A country missing from the map data is drawn light grey with both flags
   * off in every view, and its tooltip reads "Insufficient data".
   */
  lemma MissingCountryIsBlank(view: View, mapData: seq<CountryData>, name: string)
    requires forall i :: 0 <= i < |mapData| ==> mapData[i].name != name
    ensures CellFor(view, FindCountry(mapData, name)) == Ok(Blank)
    ensures HoverTooltip(view, name, FindCountry(mapData, name), Blank) == Ok(Tooltip(name, [], false))
    ensures TooltipBody(view, Tooltip(name, [], false)) == Notice("Insufficient data")
  {
  }

  /** In the samples view a country is coloured by its sample count, or as empty. */
  lemma SamplesCell(d: CountryData)
    ensures CellFor(Samples, Some(d)).Ok?
    ensures var c := CellFor(Samples, Some(d)).value;
      && !c.smallerThan20 && !c.showTooltip
      && (d.count > 0 ==> c.fill == SamplesScale(d.count))
      && (d.count <= 0 ==> c.fill == ZeroCountColor)
  {
  }

  /** In the dominant-genotype view a country takes the colour of its top genotype. */
  lemma DominantGenotypeCell(d: CountryData)
    requires |d.stats.genotypes| > 0
    ensures CellFor(DominantGenotype, Some(d)) == Ok(Cell(GenotypeColor(d.stats.genotypes[0].name), false, false))
  {
  }

  /**
   * The decision table of a resistance view. The tooltip is enabled exactly
   * when the country has at least 20 samples and a positive count for the
   * view's statistic; `smallerThan20` is set exactly when it has at least 20
   * samples but no positive count; with fewer samples the cell stays blank.
   */
  lemma ResistanceCell(m: Marker, d: CountryData)
    ensures CellFor(Resistance(m), Some(d)).Ok?
    ensures var c := CellFor(Resistance(m), Some(d)).value;
      var key := StatKey(m);
      && (c.showTooltip <==> d.count >= MinSamples && PositiveCount(d.stats, key))
      && (c.smallerThan20 <==> d.count >= MinSamples && !PositiveCount(d.stats, key))
      && (c.showTooltip ==> c.fill == (if m == Susceptible then SensitiveScale(d.stats.markers[key].percentage)
                                       else RedScale(d.stats.markers[key].percentage)))
      && (c.smallerThan20 ==> c.fill == (if m == Susceptible then ZeroPercentColor else DarkGrey))
      && (d.count < MinSamples ==> c == Blank)
  {
  }

  /**
   * A country is left light grey exactly when it has no data, the view is
   * not one the map distinguishes, or a resistance view hides it for having
   * fewer than 20 samples.
   */
  lemma LightGreyExactly(view: View, country: Option<CountryData>)
    requires CellFor(view, country).Ok?
    ensures CellFor(view, country).value.fill == LightGrey <==>
      country.None? || view.Unlisted? || (view.Resistance? && country.value.count < MinSamples)
  {
  }

  /** A resistance view's tooltip holds its statistic exactly when the cell enables it. */
  lemma ResistanceTooltip(m: Marker, geoName: string, country: Option<CountryData>)
    ensures CellFor(Resistance(m), country).Ok?
    ensures var c := CellFor(Resistance(m), country).value;
      var t := HoverTooltip(Resistance(m), geoName, country, c);
      && t.Ok?
      && t.value.name == geoName
      && t.value.smallerThan20 == c.smallerThan20
      && (c.showTooltip ==>
            var stat := country.value.stats.markers[StatKey(m)];
            t.value.content == [Field(StatKey(m), CountAndPercent(stat.count, stat.percentage))])
      && (!c.showTooltip ==> t.value.content == [])
  {
  }

  /**
   * End to end, for a resistance view: the country's tooltip reads
   * "Insufficient data" exactly when the country has no data or fewer than
   * 20 samples, "0%" exactly when it has enough samples but no positive
   * count, and otherwise shows one `count (percentage)` line for the view's
   * statistic.
   */
  lemma ResistanceTooltipText(m: Marker, mapData: seq<CountryData>, geoName: string)
    ensures var country := FindCountry(mapData, geoName);
      var c := CellFor(Resistance(m), country).value;
      var body := TooltipBody(Resistance(m), HoverTooltip(Resistance(m), geoName, country, c).value);
      && (body == Notice("Insufficient data") <==> country.None? || country.value.count < MinSamples)
      && (body == Notice("0%") <==>
            country.Some? && country.value.count >= MinSamples && !PositiveCount(country.value.stats, StatKey(m)))
      && (body.Lines? ==>
            var stat := country.value.stats.markers[StatKey(m)];
            body.lines == [Line(StatKey(m), CountAndPercent(stat.count, stat.percentage), true)])
  {
    var country := FindCountry(mapData, geoName);
    ResistanceTooltip(m, geoName, country);
    if country.Some? {
      ResistanceCell(m, country.value);
    }
  }

  /** Count-and-percentage lines are used in every view but the samples and genotype views. */
  lemma PercentageViews(view: View)
    ensures ShowPercentage(view) <==> view.Resistance? || view.Unlisted?
  {
  }

  /** One `name: count` entry per genotype, in order. */
  function CountFields(genotypes: seq<GenotypeCount>): (r: seq<Field>)
    ensures |r| == |genotypes|
    ensures forall i :: 0 <= i < |genotypes| ==> r[i] == Field(genotypes[i].name, Count(genotypes[i].count))
  {
    if |genotypes| == 0 then []
    else [Field(genotypes[0].name, Count(genotypes[0].count))] + CountFields(genotypes[1..])
  }

  /** The keys still to be written stay clear of the keys written so far. */
  predicate FreshNames(content: seq<Field>, genotypes: seq<GenotypeCount>)
  {
    && (forall i, k :: 0 <= i < |genotypes| && 0 <= k < |content| ==> genotypes[i].name != content[k].key)
    && (forall i, j :: 0 <= i < j < |genotypes| ==> genotypes[i].name != genotypes[j].name)
  }

  lemma FreshNamesStep(content: seq<Field>, genotypes: seq<GenotypeCount>)
    requires |genotypes| > 0 && FreshNames(content, genotypes)
    ensures FreshNames(content + [Field(genotypes[0].name, Count(genotypes[0].count))], genotypes[1..])
  {
    var next := content + [Field(genotypes[0].name, Count(genotypes[0].count))];
    var rest := genotypes[1..];
    forall i, k | 0 <= i < |rest| && 0 <= k < |next|
      ensures rest[i].name != next[k].key
    {
      assert rest[i] == genotypes[i + 1];
      if k < |content| {
        assert next[k] == content[k];
      }
    }
    forall i, j | 0 <= i < j < |rest|
      ensures rest[i].name != rest[j].name
    {
      assert rest[i] == genotypes[i + 1] && rest[j] == genotypes[j + 1];
    }
  }

  lemma AppendCons<T>(a: seq<T>, x: T, b: seq<T>)
    ensures a + [x] + b == a + ([x] + b)
  {
  }

  /** Writing distinct new keys appends them in order. */
  lemma {:induction false} PutDistinctGenotypes(content: seq<Field>, genotypes: seq<GenotypeCount>)
    requires FreshNames(content, genotypes)
    ensures PutGenotypes(content, genotypes) == content + CountFields(genotypes)
    decreases |genotypes|
  {
    if |genotypes| > 0 {
      var g := genotypes[0];
      var f := Field(g.name, Count(g.count));
      var next := Put(content, g.name, Count(g.count));
      assert next == content + [f] by {
        assert g.name !in Keys(content);
      }
      FreshNamesStep(content, genotypes);
      PutDistinctGenotypes(next, genotypes[1..]);
      assert PutGenotypes(content, genotypes) == PutGenotypes(next, genotypes[1..]);
      assert CountFields(genotypes) == [f] + CountFields(genotypes[1..]);
      AppendCons(content, f, CountFields(genotypes[1..]));
    }
  }

  /** Writing keys never yields more entries than were written. */
  lemma {:induction false} PutGenotypesBound(content: seq<Field>, genotypes: seq<GenotypeCount>)
    ensures |PutGenotypes(content, genotypes)| <= |content| + |genotypes|
    decreases |genotypes|
  {
    if |genotypes| > 0 {
      var g := genotypes[0];
      var next := Put(content, g.name, Count(g.count));
      assert |Keys(next)| == |next|;
      PutGenotypesBound(next, genotypes[1..]);
    }
  }

  /**
   * In the dominant-genotype view the tooltip lists at most five genotypes;
   * when their names are distinct, it lists the first five (or all, if
   * fewer) with their counts, in ranking order.
   */
  lemma DominantGenotypeTooltip(geoName: string, d: CountryData, c: Cell)
    ensures HoverTooltip(DominantGenotype, geoName, Some(d), c).Ok?
    ensures |HoverTooltip(DominantGenotype, geoName, Some(d), c).value.content| <= 5
    ensures var g := d.stats.genotypes;
      var n := if |g| < 5 then |g| else 5;
      var content := HoverTooltip(DominantGenotype, geoName, Some(d), c).value.content;
      (forall i, j :: 0 <= i < j < n ==> g[i].name != g[j].name) ==>
        |content| == n && forall i :: 0 <= i < n ==> content[i] == Field(g[i].name, Count(g[i].count))
  {
    var g := d.stats.genotypes;
    var n := if |g| < 5 then |g| else 5;
    var top := g[..n];
    DominantContent(geoName, d, c);
    TopGenotypes(top);
    var content := PutGenotypes([], top);
    if forall i, j :: 0 <= i < j < n ==> g[i].name != g[j].name {
      forall i, j | 0 <= i < j < |top|
        ensures top[i].name != top[j].name
      {
        assert top[i] == g[i] && top[j] == g[j];
      }
      assert content == CountFields(top);
      forall i | 0 <= i < n
        ensures content[i] == Field(g[i].name, Count(g[i].count))
      {
        assert top[i] == g[i];
      }
    }
  }

  /** The dominant-genotype tooltip writes the first five genotypes into empty content. */
  lemma DominantContent(geoName: string, d: CountryData, c: Cell)
    ensures var g := d.stats.genotypes;
      HoverTooltip(DominantGenotype, geoName, Some(d), c)
        == Ok(Tooltip(geoName, PutGenotypes([], g[..if |g| < 5 then |g| else 5]), c.smallerThan20))
  {
  }

  /** Written into empty content, genotypes give one entry each when their names are distinct. */
  lemma TopGenotypes(top: seq<GenotypeCount>)
    ensures |PutGenotypes([], top)| <= |top|
    ensures (forall i, j :: 0 <= i < j < |top| ==> top[i].name != top[j].name) ==>
      PutGenotypes([], top) == CountFields(top)
  {
    PutGenotypesBound([], top);
    if forall i, j :: 0 <= i < j < |top| ==> top[i].name != top[j].name {
      PutDistinctGenotypes([], top);
      assert [] + CountFields(top) == CountFields(top);
    }
  }

  /**
   * The samples view's tooltip lists the sample and genotype counts and then
   * eight marker percentages, and fails when any of those statistics is
   * missing.
   */
  lemma SamplesTooltip(geoName: string, d: CountryData, c: Cell)
    ensures var t := HoverTooltip(Samples, geoName, Some(d), c);
      && (t.Ok? <==> forall i :: 0 <= i < |SamplesTooltipKeys| ==> SamplesTooltipKeys[i] in d.stats.markers)
      && (t.Ok? ==> Keys(t.value.content) == ["Samples", "Genotypes"] + SamplesTooltipKeys)
      && (t.Ok? ==> t.value.content[0] == Field("Samples", Count(d.count)))
      && (t.Ok? ==> t.value.content[1] == Field("Genotypes", Count(d.stats.genotypeCount)))
      && (t.Ok? ==> forall i :: 0 <= i < |SamplesTooltipKeys| ==>
            t.value.content[i + 2] == Field(SamplesTooltipKeys[i], Percent(d.stats.markers[SamplesTooltipKeys[i]].percentage)))
  {
  }

  /** Every value of the content is a plain count. */
  predicate OnlyCounts(content: seq<Field>)
  {
    forall i :: 0 <= i < |content| ==> content[i].value.Count?
  }

  /** Writing genotype counts into plain counts leaves plain counts. */
  lemma {:induction false} PutGenotypesCounts(content: seq<Field>, genotypes: seq<GenotypeCount>)
    requires OnlyCounts(content)
    ensures OnlyCounts(PutGenotypes(content, genotypes))
    decreases |genotypes|
  {
    if |genotypes| > 0 {
      var next := Put(content, genotypes[0].name, Count(genotypes[0].count));
      assert OnlyCounts(next);
      PutGenotypesCounts(next, genotypes[1..]);
    }
  }

  /**
   * The tooltip stores a `count (percentage)` pair exactly in the views that
   * display one, so every displayed line reads the fields its value has.
   */
  lemma FormatMatchesContent(view: View, geoName: string, country: Option<CountryData>, cell: Cell)
    requires HoverTooltip(view, geoName, country, cell).Ok?
    ensures var content := HoverTooltip(view, geoName, country, cell).value.content;
      forall i :: 0 <= i < |content| ==> (content[i].value.CountAndPercent? <==> ShowPercentage(view))
    ensures var body := TooltipBody(view, HoverTooltip(view, geoName, country, cell).value);
      body.Lines? ==> forall i :: 0 <= i < |body.lines| ==>
        (body.lines[i].countAndPercentage <==> body.lines[i].value.CountAndPercent?)
  {
    if country.Some? && view.DominantGenotype? {
      var g := country.value.stats.genotypes;
      DominantContent(geoName, country.value, cell);
      PutGenotypesCounts([], g[..if |g| < 5 then |g| else 5]);
    }
  }
}
