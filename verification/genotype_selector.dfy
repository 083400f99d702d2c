/**
 * The genotype selector in the map's top-right corner: a multi-select of up
 * to ten genotypes with a text input, shown or hidden by a switch. Its
 * state is the selection held in the application store, the selection the
 * input displays, and whether the panel is open.
 */
module GenotypeSelector {
  import opened Base
  import opened Text

  /** The most genotypes the selector lets a user pick. */
  const MaxGenotypes: nat := 10

  /** One genotype of the genotype-drug table; `totalCount` may be missing. */
  datatype GenotypeRow = GenotypeRow(name: string, totalCount: Option<int>)

  /**
   * `store` is the selection in the application store, `shown` the value
   * the input displays, `open` whether the panel is expanded.
   */
  datatype Selector = Selector(store: seq<string>, shown: seq<string>, open: bool)

  /** What can happen to the selector. */
  datatype Event =
    | Edit(proposed: seq<string>)
    | Toggle
    | DataChanged(data: seq<GenotypeRow>)

  /** The guard of `handleAutocompleteChange`: a full selection may not grow past the cap. */
  predicate Refused(s: Selector, proposed: seq<string>)
  {
    |s.store| == MaxGenotypes && |proposed| > MaxGenotypes
  }

  /** `handleAutocompleteChange`: take the proposed selection unless the guard refuses it. */
  function Change(s: Selector, proposed: seq<string>): (r: Selector)
    ensures r.open == s.open
    ensures Refused(s, proposed) ==> r == s
    ensures !Refused(s, proposed) ==> r.store == proposed && r.shown == proposed
  {
    if |s.store| == MaxGenotypes && |proposed| > MaxGenotypes then s
    else s.(store := proposed, shown := proposed)
  }

  /** `handleClick`: open a closed panel, close an open one. */
  function Flip(s: Selector): (r: Selector)
    ensures r.open != s.open
    ensures r.store == s.store && r.shown == s.shown
  {
    s.(open := !s.open)
  }

  /**
   * The effect run when the genotype-drug table changes: the stored
   * selection becomes the first genotype's name, or empty. The displayed
   * selection is left as it was.
   */
  function ResetForData(s: Selector, data: seq<GenotypeRow>): (r: Selector)
    ensures |data| == 0 ==> r.store == []
    ensures |data| > 0 ==> r.store == [data[0].name]
    ensures r.shown == s.shown && r.open == s.open
  {
    s.(store := seq(if |data| == 0 then 0 else 1, i requires 0 <= i < |data| => data[i].name))
  }

  /**
   * The reset as evidently intended: the displayed selection is replaced
   * too, so that the input and the store agree again.
   */
  function ResetBoth(s: Selector, data: seq<GenotypeRow>): (r: Selector)
    ensures |data| == 0 ==> r.store == []
    ensures |data| > 0 ==> r.store == [data[0].name]
    ensures r.shown == r.store && r.open == s.open
  {
    var store := ResetForData(s, data).store;
    s.(store := store, shown := store)
  }

  /** Which reset a data change performs: the one the code has, or the intended one. */
  datatype Reset = StoreOnly | StoreAndShown

  function Step(reset: Reset, s: Selector, e: Event): Selector
  {
    match e
    case Edit(proposed) => Change(s, proposed)
    case Toggle => Flip(s)
    case DataChanged(data) => if reset == StoreOnly then ResetForData(s, data) else ResetBoth(s, data)
  }

  function Run(reset: Reset, s: Selector, events: seq<Event>): Selector
    decreases |events|
  {
    if |events| == 0 then s else Run(reset, Step(reset, s, events[0]), events[1..])
  }

  /**
   * An edit that adds at most one genotype, as picking a single option does.
   * The input builds its new value from the selection it displays, so that
   * is what the edit is measured against.
   */
  predicate OneAtATime(s: Selector, e: Event)
  {
    e.Edit? ==> |e.proposed| <= |s.shown| + 1
  }

  /** Every edit in the run, taken in the state it meets, adds at most one genotype. */
  predicate Gradual(reset: Reset, s: Selector, events: seq<Event>)
    decreases |events|
  {
    |events| == 0 || (OneAtATime(s, events[0]) && Gradual(reset, Step(reset, s, events[0]), events[1..]))
  }

  predicate WithinCap(s: Selector)
  {
    |s.store| <= MaxGenotypes
  }

  /** The input displays the selection the store holds. */
  predicate Synced(s: Selector)
  {
    s.store == s.shown
  }

  /**
   * From a state whose input agrees with the store, a single-genotype edit
   * or a toggle keeps the selection within the cap and the two in
   * agreement; so does a data change, when the reset is the intended one.
   */
  lemma StepKeepsCap(reset: Reset, s: Selector, e: Event)
    requires WithinCap(s) && Synced(s) && OneAtATime(s, e)
    requires e.DataChanged? ==> reset == StoreAndShown
    ensures WithinCap(Step(reset, s, e)) && Synced(Step(reset, s, e))
  {
  }

  /**
   * Picking genotypes one at a time never selects more than ten, provided
   * the data does not change during the run or the reset is the intended one.
   */
  lemma {:induction false} RunKeepsCap(reset: Reset, s: Selector, events: seq<Event>)
    requires WithinCap(s) && Synced(s) && Gradual(reset, s, events)
    requires reset == StoreOnly ==> forall i :: 0 <= i < |events| ==> !events[i].DataChanged?
    ensures WithinCap(Run(reset, s, events))
    decreases |events|
  {
    if |events| > 0 {
      StepKeepsCap(reset, s, events[0]);
      RunKeepsCap(reset, Step(reset, s, events[0]), events[1..]);
    }
  }

  /**
   * As written, a data change after ten genotypes were picked leaves the
   * input showing all ten while the store holds one, so the guard no longer
   * recognises a full selection: picking one more option stores eleven.
   */
  lemma DataChangeBreaksCap(s: Selector, data: seq<GenotypeRow>, pick: string)
    requires Synced(s) && |s.store| == MaxGenotypes
    ensures Gradual(StoreOnly, s, [DataChanged(data), Edit(s.shown + [pick])])
    ensures |Run(StoreOnly, s, [DataChanged(data), Edit(s.shown + [pick])]).store| == MaxGenotypes + 1
  {
    var events := [DataChanged(data), Edit(s.shown + [pick])];
    var s1 := Step(StoreOnly, s, events[0]);
    assert s1.shown == s.shown && |s1.store| <= 1;
    var s2 := Step(StoreOnly, s1, events[1]);
    assert s2.store == s.shown + [pick] by {
      assert !Refused(s1, s.shown + [pick]);
    }
    assert events[1..] == [Edit(s.shown + [pick])];
    assert events[1..][1..] == [];
    assert Run(StoreOnly, s1, events[1..]) == Run(StoreOnly, s2, []);
    assert Gradual(StoreOnly, s2, []);
  }

  /** The guard only looks at a selection of exactly ten: a jump from nine to eleven goes through. */
  lemma JumpPastCap(s: Selector, proposed: seq<string>)
    requires |s.store| == MaxGenotypes - 1 && |proposed| == MaxGenotypes + 1
    ensures Change(s, proposed).store == proposed
    ensures !WithinCap(Change(s, proposed))
  {
  }

  /** Toggling twice restores the panel. */
  lemma FlipTwice(s: Selector)
    ensures Flip(Flip(s)) == s
  {
  }

  /** `getOptionDisabled`: every option is disabled once ten genotypes are selected. */
  predicate OptionsDisabled(store: seq<string>)
  {
    |store| >= MaxGenotypes
  }

  /** `freeSolo`: free text is accepted while fewer than ten genotypes are selected. */
  predicate FreeText(store: seq<string>)
  {
    |store| < MaxGenotypes
  }

  /** At the cap the input offers nothing more to pick; below it, everything. */
  lemma CapClosesInput(store: seq<string>)
    ensures OptionsDisabled(store) <==> !FreeText(store)
    ensures OptionsDisabled(store) <==> |store| >= MaxGenotypes
  {
  }

  /** The input's placeholder text. */
  function Placeholder(store: seq<string>): (text: string)
    ensures text == "0 genotype selected" <==> |store| == 0
    ensures text == "Type to search..." <==> |store| > 0
  {
    if |store| > 0 then "Type to search..." else "0 genotype selected"
  }

  /** The organisms whose types are called lineages rather than genotypes. */
  predicate CallsLineages(organism: string)
  {
    organism == "shige" || organism == "decoli" || organism == "sentericaints"
  }

  /** What the organism calls its types. */
  function TypeNoun(organism: string): string
  {
    if CallsLineages(organism) then "lineage" else "genotype"
  }

  /** The switch label: "Close …" while the panel is open, "Open …" while it is closed. */
  function SwitchLabel(organism: string, open: bool): (text: string)
    ensures open ==> text == "Close " + TypeNoun(organism) + " selector"
    ensures !open ==> text == "Open " + TypeNoun(organism) + " selector"
  {
    if organism == "shige" || organism == "decoli" || organism == "sentericaints" then
      if open then
        assert "Close lineage selector" == "Close " + "lineage" + " selector";
        "Close lineage selector"
      else
        assert "Open lineage selector" == "Open " + "lineage" + " selector";
        "Open lineage selector"
    else if open then
      assert "Close genotype selector" == "Close " + "genotype" + " selector";
      "Close genotype selector"
    else
      assert "Open genotype selector" == "Open " + "genotype" + " selector";
      "Open genotype selector"
  }

  /** Flipping the switch changes its label. */
  lemma FlipChangesLabel(organism: string, s: Selector)
    ensures SwitchLabel(organism, Flip(s).open) != SwitchLabel(organism, s.open)
  {
    var a := SwitchLabel(organism, true);
    var b := SwitchLabel(organism, false);
    assert a[0] == 'C' && b[0] == 'O';
  }

  /**
   * The total count shown next to a genotype: that of the first row with
   * its name, or 0 when there is no such row or it has no total.
   */
  function TotalCount(data: seq<GenotypeRow>, genotype: string): (n: int)
    ensures (forall i :: 0 <= i < |data| ==> data[i].name != genotype) ==> n == 0
  {
    match Find(data, (g: GenotypeRow) => g.name == genotype)
    case None => 0
    case Some(g) => if g.totalCount.Some? then g.totalCount.value else 0
  }

  /** The count shown is that of the first row carrying the genotype's name. */
  lemma TotalCountOfFirstMatch(data: seq<GenotypeRow>, genotype: string, k: nat)
    requires k < |data| && data[k].name == genotype
    requires forall j :: 0 <= j < k ==> data[j].name != genotype
    ensures data[k].totalCount.Some? ==> TotalCount(data, genotype) == data[k].totalCount.value
    ensures data[k].totalCount.None? ==> TotalCount(data, genotype) == 0
  {
    var p := (g: GenotypeRow) => g.name == genotype;
    assert p(data[k]);
    assert FindIndex(data, p) == Some(k);
  }

  /** The search test: the name contains the search text in lower or in upper case. */
  predicate Matches(name: string, search: string)
  {
    Contains(name, Lower(search)) || Contains(name, Upper(search))
  }

  /** `filteredData`: the genotypes whose names pass the search, in table order. */
  function Filtered(data: seq<GenotypeRow>, search: string): (r: seq<GenotypeRow>)
    ensures |r| <= |data|
    ensures IsSubsequence(r, data)
    ensures forall g :: g in r ==> g in data && Matches(g.name, search)
    ensures forall i :: 0 <= i < |data| && Matches(data[i].name, search) ==> data[i] in r
    ensures forall g :: multiset(r)[g] == (if Matches(g.name, search) then multiset(data)[g] else 0)
  {
    if |data| == 0 then []
    else
      var rest := Filtered(data[1..], search);
      FilteredMembers(data, search, rest);
      FilteredCounts(data, search, rest);
      if Matches(data[0].name, search) then
        assert ([data[0]] + rest)[1..] == rest;
        [data[0]] + rest
      else
        SubsequenceOfTail(rest, data);
        rest
  }

  /** The members of a filtered table, one row at a time. */
  lemma FilteredMembers(data: seq<GenotypeRow>, search: string, rest: seq<GenotypeRow>)
    requires |data| > 0
    requires forall g :: g in rest ==> g in data[1..] && Matches(g.name, search)
    requires forall i :: 0 <= i < |data[1..]| && Matches(data[1..][i].name, search) ==> data[1..][i] in rest
    ensures var r := if Matches(data[0].name, search) then [data[0]] + rest else rest;
      && (forall g :: g in r ==> g in data && Matches(g.name, search))
      && (forall i :: 0 <= i < |data| && Matches(data[i].name, search) ==> data[i] in r)
  {
    assert forall i :: 1 <= i < |data| ==> data[i] == data[1..][i - 1];
  }

  /** The multiplicities of a filtered table, one row at a time. */
  lemma FilteredCounts(data: seq<GenotypeRow>, search: string, rest: seq<GenotypeRow>)
    requires |data| > 0
    requires forall g :: multiset(rest)[g] == (if Matches(g.name, search) then multiset(data[1..])[g] else 0)
    ensures var r := if Matches(data[0].name, search) then [data[0]] + rest else rest;
      forall g :: multiset(r)[g] == (if Matches(g.name, search) then multiset(data)[g] else 0)
  {
    assert data == [data[0]] + data[1..];
    assert multiset(data) == multiset{data[0]} + multiset(data[1..]);
    assert multiset([data[0]] + rest) == multiset{data[0]} + multiset(rest);
  }

  /** Dropping a leading element keeps a subsequence a subsequence. */
  lemma {:induction false} SubsequenceOfTail<T>(a: seq<T>, b: seq<T>)
    requires |b| > 0 && IsSubsequence(a, b[1..])
    ensures IsSubsequence(a, b)
    decreases |b|, |a|
  {
    if |a| > 0 && a[0] == b[0] {
      SubsequenceDropHead(a, b[1..]);
    }
  }

  /** A subsequence whose head has been dropped is still a subsequence. */
  lemma {:induction false} SubsequenceDropHead<T>(a: seq<T>, b: seq<T>)
    requires |a| > 0 && IsSubsequence(a, b)
    ensures IsSubsequence(a[1..], b)
    decreases |b|, |a|
  {
    if |a[1..]| > 0 && |b| > 0 {
      if a[0] == b[0] {
        SubsequenceOfTail(a[1..], b);
      } else {
        SubsequenceDropHead(a, b[1..]);
        SubsequenceOfTail(a[1..], b);
      }
    }
  }

  /** The options the input lists. */
  function Options(data: seq<GenotypeRow>, search: string): (names: seq<string>)
    ensures |names| == |Filtered(data, search)|
    ensures forall i :: 0 <= i < |names| ==> names[i] == Filtered(data, search)[i].name
  {
    var rows := Filtered(data, search);
    seq(|rows|, i requires 0 <= i < |rows| => rows[i].name)
  }

  /** Every name contains the empty text. */
  lemma ContainsEmpty(s: string)
    ensures Contains(s, "")
  {
    assert s[..0] == "";
  }

  /**
   * The filter's text is a state that starts empty and is never updated,
   * so the component always filters with the empty text.
   */
  const SearchText: string := ""

  /** An empty search keeps every genotype. */
  lemma {:induction false} EmptySearchKeepsAll(data: seq<GenotypeRow>)
    ensures Filtered(data, "") == data
    decreases |data|
  {
    if |data| > 0 {
      assert Lower("") == "";
      ContainsEmpty(data[0].name);
      EmptySearchKeepsAll(data[1..]);
      assert data == [data[0]] + data[1..];
    }
  }

  /** The component offers every genotype of the table, in table order. */
  lemma OfferedOptions(data: seq<GenotypeRow>)
    ensures |Options(data, SearchText)| == |data|
    ensures forall i :: 0 <= i < |data| ==> Options(data, SearchText)[i] == data[i].name
  {
    EmptySearchKeepsAll(data);
  }

  /** A genotype is listed exactly when its name passes the search. */
  lemma FilteredExactly(data: seq<GenotypeRow>, search: string, g: GenotypeRow)
    ensures g in Filtered(data, search) <==> g in data && Matches(g.name, search)
  {
    if g in data && Matches(g.name, search) {
      var i :| 0 <= i < |data| && data[i] == g;
    }
  }

  /**
   * The filter expression, were it given text, would not ignore case: a
   * mixed-case name passes neither with the lower-case nor with the
   * upper-case spelling of itself.
   */
  lemma MixedCaseNameMissed()
    ensures Filtered([GenotypeRow("Ab", None)], "ab") == []
    ensures Filtered([GenotypeRow("Ab", None)], "AB") == []
  {
    assert Lower("ab") == "ab" && Upper("ab") == "AB";
    assert Lower("AB") == "ab" && Upper("AB") == "AB";
    assert !Contains("Ab", "ab") by {
      assert "Ab"[..2][0] != "ab"[0];
      assert !Contains("b", "ab");
    }
    assert !Contains("Ab", "AB") by {
      assert "Ab"[..2][1] != "AB"[1];
      assert !Contains("b", "AB");
    }
  }
}
