# TyphiNET dashboard: decision logic of the map, the distribution graph and the genotype selector

This project models, in Dafny, the pure decision logic of the TyphiNET
dashboard's client. The logic lives inside React components. The model covers:

- **World map** (`world_map.dfy`, module `WorldMap`):
  - how a country is filled for the selected map view;
  - the `smallerThan20` and `showTooltip` flags its cell carries;
  - the tooltip content built when the mouse enters it (`handleOnMouseEnter`);
  - the tooltip body that is displayed, including the `'0%'` and `'Insufficient data'` notices.

  Map views form an enumerated type. The seven resistance views share one constructor, `Resistance(marker)`. Labels the switches do not list fall into `Unlisted`.
- **Genotype distribution graph** (`distribution_graph.dfy`, module `DistributionGraph`):
  - the y-axis domain;
  - the year rows plotted as counts, or as percentages of each year's total;
  - the tooltip lines of a hovered year, sorted by descending genotype name.
- **Genotype selector** (`genotype_selector.dfy`, module `GenotypeSelector`):
  - the multi-select capped at ten genotypes;
  - the reset of the stored selection when the genotype-drug table changes;
  - the panel switch and its label;
  - the total count shown next to each option;
  - the filter over the genotype table (whose text is never updated, so it always keeps the whole table) and the placeholder text.
- **Drug vocabulary** (`drugs.dfy`, module `Drugs`):
  - the alphabetically sorted drug list;
  - the list offered by the drug-resistance and frequency graphs;
  - the default drug selection and the drug classes;
  - the constants the reset button applies.

Shared modules:

- `base.dfy` (`Base`) holds `Option` and a `Result` whose error case is the TypeError the browser raises when a property of `undefined` is read. It also holds `Array.prototype.find`.
- `text.dfy` (`Text`) holds string comparison, ASCII case mapping and `includes`.
- `sorting.dfy` (`Sorting`) models the stable `Array.prototype.sort` with a key comparator, in both directions, as an insertion sort. It proves that the result is a sorted permutation and that it is determined by its contents when keys are distinct.

Modelling choices:

- `localeCompare` is modelled as a character-by-character comparison of Unicode scalar values. The drug names sort the same way under both orders. Genotype names are data and may not (see "## Left out").
- Colour scales and genotype colours are not computed. A fill is a tag for the branch that chose it: a fixed colour, or a scale together with its argument (`SamplesScale(count)`, `RedScale(percentage)`, …). Tags are distinct from one another, but two distinct tags may stand for the same colour on screen. For example, a genotype's colour could be light grey.
- A percentage rounded with `toFixed(2)` is kept as the term `Share(part, whole)`.
- JavaScript objects used as ordered dictionaries, such as tooltip content and year rows, are sequences of key/value pairs in insertion order.
- React state and the Redux store become plain values: a `Selector` record, and functions from old state to new state.

## Model

| member | source | states |
|---|---|---|
| WorldMap.ViewOf | client/src/components/Elements/Map/Map.js:151-189 | The stored label is read as the view it names. Only labels outside the nine listed ones fall into the `default` branch, and the view's label is the label read. |
| WorldMap.ViewRoundTrip | client/src/components/Elements/Map/Map.js:58-97 | Every view the map distinguishes is recovered from its own label. |
| WorldMap.StatKey | client/src/components/Elements/Map/Map.js:17-26 | Every resistance view reads a statistic that the samples tooltip also lists. Distinct views read distinct statistics; see `StatKeysDistinct`. |
| WorldMap.StatKeysDistinct | client/src/components/Elements/Map/Map.js:17-26 | `statKey` sends distinct resistance views to distinct statistics. |
| WorldMap.ResetViewIsResistance | client/src/components/Elements/ResetButton/ResetButton.js:39 | `'CipNS'`, the view the reset button sets, is a resistance view. It reads the `CipNS` statistic, and its tooltip shows count and percentage. |
| WorldMap.FindCountry | client/src/components/Elements/Map/Map.js:142 | The country lookup finds nothing exactly when no entry carries the name. Otherwise it returns the first entry of the data with that name. |
| WorldMap.CellFor | client/src/components/Elements/Map/Map.js:141-190 | Classifying a country fails exactly in the dominant-genotype view for a country whose genotype list is empty. `smallerThan20` and `showTooltip` are never both set. |
| WorldMap.MissingCountryIsBlank | client/src/components/Elements/Map/Map.js:142-148 | A country absent from the map data gets a light grey fill and both flags false, in every view. Its tooltip is empty and reads "Insufficient data". |
| WorldMap.SamplesCell | client/src/components/Elements/Map/Map.js:152-158 | In the samples view the fill is the samples scale of the count when the count is positive, and the zero-count colour otherwise. No flag is set. |
| WorldMap.DominantGenotypeCell | client/src/components/Elements/Map/Map.js:159-161 | In the dominant-genotype view the fill is the colour of the first listed genotype. |
| WorldMap.ResistanceCell | client/src/components/Elements/Map/Map.js:163-185 | `showTooltip` holds iff the country has at least 20 samples and a positive count for the view's statistic. The fill is then the sensitive scale (susceptible view) or the red scale of the percentage. `smallerThan20` holds iff there are at least 20 samples but no positive count, with the zero-percent colour or dark grey. Below 20 samples the cell is blank. |
| WorldMap.LightGreyExactly | client/src/components/Elements/Map/Map.js:144-189 | The fill stays light grey exactly when any of these holds: the country has no data; the view is unlisted; or the view is a resistance view and the country has fewer than 20 samples. |
| WorldMap.Put | client/src/components/Elements/Map/Map.js:78 | Assigning a key overwrites it in place when present, leaving the key order unchanged. Otherwise it appends the key. No other entry changes. |
| WorldMap.PercentFields | client/src/components/Elements/Map/Map.js:64-71 | The percentage entries succeed exactly when every statistic is present. They then list each key with its percentage, in order. |
| WorldMap.HoverTooltip | client/src/components/Elements/Map/Map.js:49-101 | The tooltip carries the country's name and the cell's `smallerThan20`. It is empty for a country without data or an unlisted view. It can fail only in the samples view, or in a resistance view whose tooltip is enabled. |
| WorldMap.SamplesTooltip | client/src/components/Elements/Map/Map.js:59-73 | The samples tooltip lists `Samples` with the country's count, `Genotypes` with the country's `GENOTYPE.count`, and then each of the eight markers with its percentage, in that order. It fails exactly when one of those statistics is missing. |
| WorldMap.PutGenotypes | client/src/components/Elements/Map/Map.js:76-79 | Writes each genotype's count under its name, in ranking order. What this yields is stated by `PutGenotypesBound`, `PutDistinctGenotypes` and `DominantGenotypeTooltip`. |
| WorldMap.PutGenotypesBound | client/src/components/Elements/Map/Map.js:77-79 | Writing n genotype entries adds at most n keys. |
| WorldMap.PutDistinctGenotypes | client/src/components/Elements/Map/Map.js:77-79 | Writing genotypes with fresh, distinct names appends one `name: count` entry per genotype, in order. |
| WorldMap.DominantGenotypeTooltip | client/src/components/Elements/Map/Map.js:75-79 | The dominant-genotype tooltip has at most five entries. When the first five names are distinct, it lists exactly the first min(5, n) genotypes with their counts, in ranking order. |
| WorldMap.ResistanceTooltip | client/src/components/Elements/Map/Map.js:81-94 | A resistance view's tooltip holds exactly one entry, keyed by `statKey`, with the statistic's count and percentage, when the cell enables it. It is empty otherwise. |
| WorldMap.TooltipBody | client/src/components/Elements/Map/Map.js:265-276 | The body is a notice exactly when the content is empty: `'0%'` if `smallerThan20` holds, else `'Insufficient data'`. Otherwise it has one line per key, in order, and uses the count-and-percentage form exactly when `showPercentage` holds. |
| WorldMap.ShowPercentage | client/src/components/Elements/Map/Map.js:107-109 | The test is characterised by `PercentageViews`. Its agreement with the stored tooltip values is stated by `FormatMatchesContent`. |
| WorldMap.PercentageViews | client/src/components/Elements/Map/Map.js:107-109 | Count-and-percentage formatting is used for every view except the dominant-genotype and samples views. |
| WorldMap.FormatMatchesContent | client/src/components/Elements/Map/Map.js:57-109 | Every tooltip value the mouse-enter handler stores is a count-and-percentage pair exactly when `showPercentage` holds for the view. So each displayed line reads `.count` and `.percentage` only from a value that has them, and shows a plain value otherwise. |
| WorldMap.ResistanceTooltipText | client/src/components/Elements/Map/Map.js:274-276 | In a resistance view, end to end, the tooltip reads "Insufficient data" iff the country has no data or fewer than 20 samples. It reads "0%" iff the country has enough samples but no positive count. Otherwise it shows the single statistic line. |
| DistributionGraph.PercentRow | client/src/components/Elements/Graphs/DistributionGraph/DistributionGraph.js:47-55 | A percentage row keeps the year, the total and the key list. Each genotype value becomes its share of the row's `count`. |
| DistributionGraph.PercentRows | client/src/components/Elements/Graphs/DistributionGraph/DistributionGraph.js:45-57 | The percentage view has one row per year row, in the same order. |
| DistributionGraph.YDomain | client/src/components/Elements/Graphs/DistributionGraph/DistributionGraph.js:36-38 | The domain is left to the chart exactly in the `'number'` view. Otherwise it is fixed at 0 to 100. |
| DistributionGraph.GetData | client/src/components/Elements/Graphs/DistributionGraph/DistributionGraph.js:40-58 | The rows are plotted as counts exactly in the `'number'` view, and then unchanged. Otherwise there is one percentage row per year row, in order, with the same year and the same keys. |
| DistributionGraph.NumberViewUnchanged | client/src/components/Elements/Graphs/DistributionGraph/DistributionGraph.js:36-43 | The `'number'` view plots the year rows unchanged, with no fixed y-domain. |
| DistributionGraph.PercentageViewShape | client/src/components/Elements/Graphs/DistributionGraph/DistributionGraph.js:45-57 | Any other view plots the same number of rows, in order. Each row has the same year, total and keys, every genotype value is replaced by its share of the total, and the y-domain is [0, 100]. |
| DistributionGraph.DomainFollowsView | client/src/components/Elements/Graphs/DistributionGraph/DistributionGraph.js:36-38 | The y-domain is left unset exactly when the data are plotted as counts. |
| DistributionGraph.ColumnValue | client/src/components/Elements/Graphs/DistributionGraph/DistributionGraph.js:71 | Reading a genotype from a row finds nothing exactly when the row has no such column. Otherwise the value read is that column's. |
| DistributionGraph.ItemFor | client/src/components/Elements/Graphs/DistributionGraph/DistributionGraph.js:71-77 | A tooltip line keeps the bar's name and colour. Its count is read from the raw year row, not the bar, and its percentage is that count's share of the row's `count`. |
| DistributionGraph.NonZeroBars | client/src/components/Elements/Graphs/DistributionGraph/DistributionGraph.js:66-69 | The positions of the bars with a non-zero value, in increasing order. Each such position appears once, and no other position appears. |
| DistributionGraph.Items | client/src/components/Elements/Graphs/DistributionGraph/DistributionGraph.js:66-78 | The j-th line belongs to the j-th bar with a non-zero value. So the lines follow the payload's order, each non-zero bar has exactly one line, and bars with value 0 have none. |
| DistributionGraph.TooltipData | client/src/components/Elements/Graphs/DistributionGraph/DistributionGraph.js:60-83 | The tooltip data are absent exactly when no year row has the hovered name. |
| DistributionGraph.TooltipLines | client/src/components/Elements/Graphs/DistributionGraph/DistributionGraph.js:60-82 | For a year with a row, the lines are read from the first row with that name. They are the lines of the non-zero bars, each as often as the loop produces it, and sorted by descending name. |
| GenotypeSelector.Change | client/src/components/Elements/Map/TopRightControls2/TopRightControls2.js:30-37 | A full selection of ten offered more than ten is left unchanged. Any other proposal replaces both the stored and the displayed selection verbatim. |
| GenotypeSelector.Step | client/src/components/Elements/Map/TopRightControls2/TopRightControls2.js:30-45 | One event: an edit, a toggle of the switch, or a data change handled by the chosen reset. Its effect on the cap is stated by `StepKeepsCap`. |
| GenotypeSelector.Run | client/src/components/Elements/Map/TopRightControls2/TopRightControls2.js:30-45 | A sequence of events, one after another. Its effect on the cap is stated by `RunKeepsCap` and `DataChangeBreaksCap`. |
| GenotypeSelector.StepKeepsCap | client/src/components/Elements/Map/TopRightControls2/TopRightControls2.js:30-45 | Suppose the input displays what the store holds. Then an edit adding at most one genotype to the displayed selection, or a toggle, keeps the selection at ten or fewer, with input and store still agreeing. So does a data change handled by the intended reset. |
| GenotypeSelector.RunKeepsCap | client/src/components/Elements/Map/TopRightControls2/TopRightControls2.js:30-45 | Start from a state whose input agrees with the store. A run whose edits each add one genotype to the displayed selection never stores more than ten genotypes, in two cases: the data do not change during the run, or data changes use the intended reset. |
| GenotypeSelector.DataChangeBreaksCap | client/src/components/Elements/Map/TopRightControls2/TopRightControls2.js:32-45 | As written, the following run stores eleven genotypes. Ten genotypes are selected, the data change, and the user then picks one more option. Every edit in the run adds one genotype. |
| GenotypeSelector.JumpPastCap | client/src/components/Elements/Map/TopRightControls2/TopRightControls2.js:32-36 | The guard does not stop a jump from nine selected genotypes to eleven. |
| GenotypeSelector.Flip | client/src/components/Elements/Map/TopRightControls2/TopRightControls2.js:39-41 | The switch flips `open` and changes nothing else. |
| GenotypeSelector.FlipTwice | client/src/components/Elements/Map/TopRightControls2/TopRightControls2.js:39-41 | Flipping twice restores the selector. |
| GenotypeSelector.ResetForData | client/src/components/Elements/Map/TopRightControls2/TopRightControls2.js:43-45 | When the genotype-drug table changes, the stored selection becomes the first genotype's name, or empty if there is none. The displayed selection and the panel are left alone. |
| GenotypeSelector.ResetBoth | client/src/components/Elements/Map/TopRightControls2/TopRightControls2.js:43-45 | The intended reset stores the same selection and also displays it, so input and store agree afterwards. |
| GenotypeSelector.CapClosesInput | client/src/components/Elements/Map/TopRightControls2/TopRightControls2.js:74-75 | With ten or more genotypes selected every option is disabled and free text is off. Below ten, options are enabled and free text is on. |
| GenotypeSelector.Placeholder | client/src/components/Elements/Map/TopRightControls2/TopRightControls2.js:93 | The placeholder reads "0 genotype selected" iff nothing is selected, and "Type to search..." iff something is. |
| GenotypeSelector.SwitchLabel | client/src/components/Elements/Map/TopRightControls2/TopRightControls2.js:105-118 | The label is "Close" when open and "Open" when closed, followed by "lineage" for `shige`, `decoli` and `sentericaints` (and "genotype" for any other organism), then " selector". |
| GenotypeSelector.FlipChangesLabel | client/src/components/Elements/Map/TopRightControls2/TopRightControls2.js:105-118 | Flipping the switch always changes its label. |
| GenotypeSelector.TotalCount | client/src/components/Elements/Map/TopRightControls2/TopRightControls2.js:47-49 | A genotype absent from the table shows a total of 0. |
| GenotypeSelector.TotalCountOfFirstMatch | client/src/components/Elements/Map/TopRightControls2/TopRightControls2.js:47-49 | A genotype present in the table shows the total of its first row, or 0 when that row has none. |
| GenotypeSelector.Filtered | client/src/components/Elements/Map/TopRightControls2/TopRightControls2.js:54-57 | The filter expression applied to a text. The result is an order-preserving sub-list of the table. It keeps every occurrence of each row whose name contains the text lowered or raised, and nothing else. |
| GenotypeSelector.Matches | client/src/components/Elements/Map/TopRightControls2/TopRightControls2.js:56 | A name passes when it contains the text lowered or raised. `FilteredExactly` and `MixedCaseNameMissed` state what this admits. |
| GenotypeSelector.FilteredExactly | client/src/components/Elements/Map/TopRightControls2/TopRightControls2.js:54-57 | A genotype is kept iff it is in the table and its name passes the test. |
| GenotypeSelector.EmptySearchKeepsAll | client/src/components/Elements/Map/TopRightControls2/TopRightControls2.js:20-57 | The empty text keeps the whole table. The empty text is the only one the component supplies: its search state is set to `''` and never updated. |
| GenotypeSelector.MixedCaseNameMissed | client/src/components/Elements/Map/TopRightControls2/TopRightControls2.js:56 | The expression does not ignore case. For the name "Ab" it keeps no row, whether given "ab" or "AB". The component never supplies such text. |
| GenotypeSelector.Options | client/src/components/Elements/Map/TopRightControls2/TopRightControls2.js:73 | The options offered are the names of the filtered genotypes, in order. |
| GenotypeSelector.OfferedOptions | client/src/components/Elements/Map/TopRightControls2/TopRightControls2.js:20-73 | Because the filter's text is always empty, the input is offered every genotype name of the table, in table order. |
| Drugs.DrugsAreSortedListing | client/src/util/drugs.js:2-17 | Sorting the listed drugs by name gives `drugs` as written in the model. |
| Drugs.DrugsSortedWithoutDuplicates | client/src/util/drugs.js:2-17 | `drugs` is in strictly ascending order of name and no name appears in it twice. |
| Drugs.NameRoundTrip | client/src/util/drugs.js:2-19 | Each drug is recovered from its displayed name. So the lists' distinct entries are distinct strings, as the source's string lists are. |
| Drugs.GraphDrugsExtendDrugs | client/src/util/drugs.js:19 | The graph list is `drugs` followed by Pan-Susceptible, MDR and XDR, and no name appears in it twice. |
| Drugs.DefaultsAreOffered | client/src/util/drugs.js:19-30 | Every default drug of the drug-resistance graph, which the reset button applies, is in the graph list. |
| Drugs.DrugClassesFromListing | client/src/util/drugs.js:33-50 | `drugClasses` is the listing without Ciprofloxacin R, followed by the three composite markers. Its members are exactly the drugs other than Ciprofloxacin R plus the composites, and it contains "Ciprofloxacin NS", the class the reset button selects. |
| Text.Less | client/src/util/drugs.js:17 | Ordinal comparison, standing in for `localeCompare`. `LessIrreflexive`, `LessTransitive` and `LessTrichotomy` make it a strict total order. |
| Text.LessIrreflexive | client/src/util/drugs.js:17 | No name sorts strictly before itself. |
| Text.LessTransitive | client/src/util/drugs.js:17 | The comparison is transitive. |
| Text.LessTrichotomy | client/src/util/drugs.js:17 | Any two names are equal, or one sorts strictly before the other. |
| Text.Lower | client/src/components/Elements/Map/TopRightControls2/TopRightControls2.js:56 | Lowering maps each character to itself or its small letter. No capital ASCII letter remains, and text without one is unchanged. |
| Text.Upper | client/src/components/Elements/Map/TopRightControls2/TopRightControls2.js:56 | Raising maps each character to itself or its capital. No small ASCII letter remains, and text without one is unchanged. |
| Text.Contains | client/src/components/Elements/Map/TopRightControls2/TopRightControls2.js:56 | `includes` is characterised by `ContainsIffBlock`. |
| Text.ContainsIffBlock | client/src/components/Elements/Map/TopRightControls2/TopRightControls2.js:56 | `includes` holds exactly when the search text occurs as a contiguous block at some position of the name. |
| Sorting.SortBy | client/src/util/drugs.js:17 | Sorting with a key comparator returns a permutation of its input. |
| Sorting.SortBySorted | client/src/components/Elements/Graphs/DistributionGraph/DistributionGraph.js:80 | The sort's result is ordered by key, in the requested direction. |
| Sorting.SortedArrangementUnique | client/src/util/drugs.js:17 | Two sorted permutations of the same elements with distinct keys are equal, so a sort's result depends only on its input's contents. |
| Base.Find | client/src/components/Elements/Map/Map.js:142 | `find` returns nothing exactly when no element satisfies the test. Otherwise it returns the first element of the array that does. |

## Left out

- Rendering is not modelled: JSX, recharts, react-simple-maps, MUI components, media queries, tooltip positioning, the legend and the brush. These are presentation only.
- React and Redux scheduling (`useState`, `useEffect` timing, `dispatch`) becomes plain state transitions. An edit is the input's new value, which the autocomplete builds from the selection it displays. The initial `selectedValues` (`[customDropdownMapView[0]]`) is not modelled; it depends on the store's contents at mount time.
- The colour functions (`samplesColorScale`, `redColorScale`, `sensitiveColorScale`, `getColorForGenotype`) are modules that are not part of this model. Fills name the scale and its argument instead.
- Floating-point arithmetic is not modelled: the division, `* 100` and `toFixed(2)` of a percentage are the symbolic `Share(part, whole)`. The consequence that a tiny share rounds to 0 is therefore not modelled.
- Equality of `Share` values is equality of terms, not of numbers. Rounding makes distinct shares equal in the browser, for example 1 and 2 out of 100000. So the model claims nothing about recovering counts from the percentage view.
- DistributionGraph.Items: payload values are taken as given reals. They are not linked to the plotted row values, because the chart library computes them.
- The `Pansusceptible` percentage of `getSelectGenotypeLabel` (line 50) is not modelled, nor its `|| 0` guard against `NaN`. It is floating-point formatting; only the total count is modelled.
- `localeCompare` locale rules are not modelled: comparison is ordinal. This agrees with the browser for the drug names. It need not for the genotype names sorted in the distribution graph's tooltip (line 80). Those are data, and a locale order can differ from character order, for example on "a" against "B".
- Unicode case mapping is not modelled; `toLowerCase` and `toUpperCase` map ASCII letters only. This has no effect on the component, because the only text it lowers and raises is the empty one.
- The autocomplete's own option filtering is not modelled. No `filterOptions` is passed (lines 68-96), so the library's default filter narrows the options as the user types. That filter ignores case, and it is library code that is not part of this model.
- Sorting.SortBy: it is a stable insertion sort. The browser's sort algorithm is not modelled beyond the stability and comparator the standard prescribes.
- A tooltip payload or genotype named `name` or `count` is not modelled. A year row's `name` and `count` are fields of their own rather than keys that could collide with a genotype column.
- JavaScript orders integer-like object keys numerically before other keys. That ordering is not modelled: tooltip content keeps insertion order.
- The deep copy (`structuredClone`) is implicit: values are immutable, so the stored rows cannot change.
- The per-country and per-genotype aggregation that produces map data, year rows and the genotype-drug table (`Dashboard/filters`) is not part of this model.
- ResetButton.js as a whole is not modelled, because it dispatches store actions and calls the aggregation. Only its constants are used: the map view `'CipNS'`, the default drugs and the drug class `'Ciprofloxacin NS'`.
- Build tooling (gulpfile.js) is not modelled.
- The component's filter state `searchValue2` is never updated (line 20 declares its setter, and nothing calls it). So the expression at lines 54-57 always runs on `''` and keeps the whole table (`GenotypeSelector.OfferedOptions`). With other text it would not ignore case for mixed-case names (`GenotypeSelector.MixedCaseNameMissed`).
- Applying the percentage transform to rows that are already percentages is not modelled. Shares are terms, so a second application has no numeric meaning here.
- Despite its name, `smallerThan20` is set for a country with at least 20 samples and no positive count, and such a country then shows "0%". A country with fewer than 20 samples is left light grey with both flags false, and its tooltip reads "Insufficient data". The model follows the code.

## Findings

| source | as written | input that shows it | evidently intended | confidence | as-written member | corrected member |
|---|---|---|---|---|---|---|
| client/src/components/Elements/Map/TopRightControls2/TopRightControls2.js:43-45 | When the data change, the reset writes only the store. The input keeps displaying its old selection, and it builds the next value from that selection. | Ten genotypes are selected, the genotype-drug table changes, and the user picks one more option. The guard sees a stored selection of one, so it accepts the eleven proposed genotypes. | The reset also replaces the displayed selection, so the guard's count matches what the input extends, and the ten-genotype cap holds over every run of single picks. | medium, not executed | GenotypeSelector.DataChangeBreaksCap | GenotypeSelector.RunKeepsCap |
