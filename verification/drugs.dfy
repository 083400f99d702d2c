/**
 * The drug vocabulary of the dashboard: the Salmonella drugs in
 * alphabetical order, the list offered by the drug-resistance and frequency
 * graphs, the default selection of the drug-resistance graph, and the drug
 * classes of the determinants graph. Each entry is an enumerated value
 * displayed under its `Name`.
 */
module Drugs {
  import opened Text
  import opened Sorting
  import opened Base

  /** The drugs, followed by the three composite resistance markers. */
  datatype Drug =
    | AmpicillinAmoxicillin | Azithromycin | Chloramphenicol
    | TrimethoprimSulfamethoxazole | Ceftriaxone | CiprofloxacinNS
    | CiprofloxacinR | Sulphonamides | Tetracyclines | Trimethoprim
    | PanSusceptible | MDR | XDR

  function Name(d: Drug): string
  {
    match d
    case AmpicillinAmoxicillin => "Ampicillin/Amoxicillin"
    case Azithromycin => "Azithromycin"
    case Chloramphenicol => "Chloramphenicol"
    case TrimethoprimSulfamethoxazole => "Trimethoprim-sulfamethoxazole"
    case Ceftriaxone => "Ceftriaxone"
    case CiprofloxacinNS => "Ciprofloxacin NS"
    case CiprofloxacinR => "Ciprofloxacin R"
    case Sulphonamides => "Sulphonamides"
    case Tetracyclines => "Tetracyclines"
    case Trimethoprim => "Trimethoprim"
    case PanSusceptible => "Pan-Susceptible"
    case MDR => "MDR"
    case XDR => "XDR"
  }

  /** The drug displayed under a name, if any. */
  function DrugNamed(name: string): (d: Option<Drug>)
  {
    if name == "Ampicillin/Amoxicillin" then Some(AmpicillinAmoxicillin)
    else if name == "Azithromycin" then Some(Azithromycin)
    else if name == "Chloramphenicol" then Some(Chloramphenicol)
    else if name == "Trimethoprim-sulfamethoxazole" then Some(TrimethoprimSulfamethoxazole)
    else if name == "Ceftriaxone" then Some(Ceftriaxone)
    else if name == "Ciprofloxacin NS" then Some(CiprofloxacinNS)
    else if name == "Ciprofloxacin R" then Some(CiprofloxacinR)
    else if name == "Sulphonamides" then Some(Sulphonamides)
    else if name == "Tetracyclines" then Some(Tetracyclines)
    else if name == "Trimethoprim" then Some(Trimethoprim)
    else if name == "Pan-Susceptible" then Some(PanSusceptible)
    else if name == "MDR" then Some(MDR)
    else if name == "XDR" then Some(XDR)
    else None
  }

  /** Every drug is recovered from its name, so distinct drugs have distinct names. */
  lemma NameRoundTrip(d: Drug)
    ensures DrugNamed(Name(d)) == Some(d)
  {
  }

  /** The drugs in the order the source lists them, before sorting. */
  const Listed: seq<Drug> := [
    AmpicillinAmoxicillin, Azithromycin, Chloramphenicol,
    TrimethoprimSulfamethoxazole, Ceftriaxone, CiprofloxacinNS,
    CiprofloxacinR, Sulphonamides, Tetracyclines, Trimethoprim
  ]

  /**
   * `drugs`: the listed drugs sorted by name with `localeCompare`, written
   * out (`DrugsAreSortedListing` shows the sort produces this order).
   */
  const Drugs: seq<Drug> := [
    AmpicillinAmoxicillin, Azithromycin, Ceftriaxone, Chloramphenicol,
    CiprofloxacinNS, CiprofloxacinR, Sulphonamides, Tetracyclines,
    Trimethoprim, TrimethoprimSulfamethoxazole
  ]

  /** The composite markers that follow the drugs in graph selections. */
  const Composites: seq<Drug> := [PanSusceptible, MDR, XDR]

  /** `drugsForDrugResistanceAndFrequencyGraph`. */
  const GraphDrugs: seq<Drug> := Drugs + Composites

  /** `defaultDrugsForDrugResistanceGraph`, the reset button's selection. */
  const DefaultGraphDrugs: seq<Drug> := [
    Azithromycin, Ceftriaxone, CiprofloxacinNS, CiprofloxacinR,
    TrimethoprimSulfamethoxazole, PanSusceptible, MDR, XDR
  ]

  /** `drugClasses`, in the order the source lists them. */
  const DrugClasses: seq<Drug> := [
    AmpicillinAmoxicillin, Azithromycin, Chloramphenicol,
    TrimethoprimSulfamethoxazole, Ceftriaxone, CiprofloxacinNS,
    Sulphonamides, Tetracyclines, Trimethoprim,
    PanSusceptible, MDR, XDR
  ]

  /** The drug class the reset button selects for the determinants graph. */
  const ResetDrugClass: string := "Ciprofloxacin NS"

  /** Every entry's name sorts strictly before the names of later entries. */
  predicate StrictlyAscending(s: seq<Drug>)
  {
    forall i, j :: 0 <= i < j < |s| ==> Less(Name(s[i]), Name(s[j]))
  }

  /** No name is displayed twice. */
  predicate NoDuplicates(s: seq<Drug>)
  {
    forall i, j :: 0 <= i < j < |s| ==> Name(s[i]) != Name(s[j])
  }

  /** Prepending an entry that sorts before the head keeps the order strict. */
  lemma AscendingCons(x: Drug, s: seq<Drug>)
    requires StrictlyAscending(s) && |s| > 0 && Less(Name(x), Name(s[0]))
    ensures StrictlyAscending([x] + s)
  {
    var r := [x] + s;
    forall i, j | 0 <= i < j < |r|
      ensures Less(Name(r[i]), Name(r[j]))
    {
      if i == 0 && j > 1 {
        LessTransitive(Name(x), Name(s[0]), Name(s[j - 1]));
      }
    }
  }

  lemma AscendingHasNoDuplicates(s: seq<Drug>)
    requires StrictlyAscending(s)
    ensures NoDuplicates(s)
  {
    forall i, j | 0 <= i < j < |s|
      ensures Name(s[i]) != Name(s[j])
    {
      if Name(s[i]) == Name(s[j]) {
        LessIrreflexive(Name(s[i]));
      }
    }
  }

  /**
   * Where each drug lands when the listing is sorted: the comparisons the
   * insertion performs, for arbitrary entries whose keys compare as the
   * drug names do.
   */
  lemma SortListing<T>(amp: T, azi: T, chl: T, tms: T, cef: T, cns: T, cr: T, sul: T, tet: T, tri: T, key: T -> string)
    requires InOrder(key(amp), key(azi), false) && InOrder(key(azi), key(cef), false)
    requires !InOrder(key(chl), key(cef), false) && InOrder(key(chl), key(cns), false)
    requires !InOrder(key(tms), key(cef), false) && !InOrder(key(tms), key(cns), false)
    requires !InOrder(key(tms), key(cr), false) && !InOrder(key(tms), key(sul), false)
    requires !InOrder(key(tms), key(tet), false) && !InOrder(key(tms), key(tri), false)
    requires InOrder(key(cef), key(cns), false) && InOrder(key(cns), key(cr), false)
    requires InOrder(key(cr), key(sul), false) && InOrder(key(sul), key(tet), false)
    requires InOrder(key(tet), key(tri), false)
    ensures SortBy([amp] + ([azi] + ([chl] + ([tms] + ([cef] + ([cns] + ([cr] + ([sul] + ([tet] + [tri])))))))), key, false)
         == [amp] + ([azi] + ([cef] + ([chl] + ([cns] + ([cr] + ([sul] + ([tet] + ([tri] + [tms]))))))))
  {
    var k := key;
    var e: seq<T> := [];
    // the six drugs after the combination drug are already in order
    SortCons(tri, e, k, false);
    assert [tri] + e == [tri];
    SortCons(tet, [tri], k, false);
    InsertHere(tet, tri, e, k, false);
    SortCons(sul, [tet] + [tri], k, false);
    InsertHere(sul, tet, [tri], k, false);
    SortCons(cr, [sul] + ([tet] + [tri]), k, false);
    InsertHere(cr, sul, [tet] + [tri], k, false);
    SortCons(cns, [cr] + ([sul] + ([tet] + [tri])), k, false);
    InsertHere(cns, cr, [sul] + ([tet] + [tri]), k, false);
    var t4 := [cef] + ([cns] + ([cr] + ([sul] + ([tet] + [tri]))));
    SortCons(cef, [cns] + ([cr] + ([sul] + ([tet] + [tri]))), k, false);
    InsertHere(cef, cns, [cr] + ([sul] + ([tet] + [tri])), k, false);
    assert SortBy(t4, k, false) == t4;
    // the combination drug sorts after all of them
    assert Insert(tms, [tri], k, false) == [tri] + [tms];
    InsertLater(tms, tet, [tri], k, false);
    InsertLater(tms, sul, [tet] + [tri], k, false);
    InsertLater(tms, cr, [sul] + ([tet] + [tri]), k, false);
    InsertLater(tms, cns, [cr] + ([sul] + ([tet] + [tri])), k, false);
    InsertLater(tms, cef, [cns] + ([cr] + ([sul] + ([tet] + [tri]))), k, false);
    var tail := [cns] + ([cr] + ([sul] + ([tet] + ([tri] + [tms]))));
    SortCons(tms, t4, k, false);
    assert SortBy([tms] + t4, k, false) == [cef] + tail;
    // chloramphenicol goes between ceftriaxone and the ciprofloxacins
    SortCons(chl, [tms] + t4, k, false);
    InsertLater(chl, cef, tail, k, false);
    InsertHere(chl, cns, [cr] + ([sul] + ([tet] + ([tri] + [tms]))), k, false);
    var u2 := [cef] + ([chl] + tail);
    assert SortBy([chl] + ([tms] + t4), k, false) == u2;
    // the first two stay in front
    SortCons(azi, [chl] + ([tms] + t4), k, false);
    InsertHere(azi, cef, [chl] + tail, k, false);
    SortCons(amp, [azi] + ([chl] + ([tms] + t4)), k, false);
    InsertHere(amp, azi, u2, k, false);
  }

  lemma NameComparisons()
    ensures Less(Name(AmpicillinAmoxicillin), Name(Azithromycin))
    ensures Less(Name(Azithromycin), Name(Ceftriaxone))
    ensures Less(Name(Ceftriaxone), Name(Chloramphenicol))
    ensures Less(Name(Chloramphenicol), Name(CiprofloxacinNS))
    ensures Less(Name(CiprofloxacinNS), Name(CiprofloxacinR))
    ensures Less(Name(CiprofloxacinR), Name(Sulphonamides))
    ensures Less(Name(Sulphonamides), Name(Tetracyclines))
    ensures Less(Name(Tetracyclines), Name(Trimethoprim))
    ensures Less(Name(Trimethoprim), Name(TrimethoprimSulfamethoxazole))
  {
    PrefixLess(Name(Trimethoprim), Name(TrimethoprimSulfamethoxazole));
  }

  /** The comparisons that move entries past others during the sort. */
  lemma NameInversions()
    ensures !InOrder(Name(Chloramphenicol), Name(Ceftriaxone), false)
    ensures !InOrder(Name(TrimethoprimSulfamethoxazole), Name(Ceftriaxone), false)
    ensures !InOrder(Name(TrimethoprimSulfamethoxazole), Name(CiprofloxacinNS), false)
    ensures !InOrder(Name(TrimethoprimSulfamethoxazole), Name(CiprofloxacinR), false)
    ensures !InOrder(Name(TrimethoprimSulfamethoxazole), Name(Sulphonamides), false)
    ensures !InOrder(Name(TrimethoprimSulfamethoxazole), Name(Tetracyclines), false)
    ensures !InOrder(Name(TrimethoprimSulfamethoxazole), Name(Trimethoprim), false)
  {
    assert !InOrder(Name(Chloramphenicol), Name(Ceftriaxone), false);
    assert !InOrder(Name(TrimethoprimSulfamethoxazole), Name(Ceftriaxone), false);
    assert !InOrder(Name(TrimethoprimSulfamethoxazole), Name(CiprofloxacinNS), false);
    assert !InOrder(Name(TrimethoprimSulfamethoxazole), Name(CiprofloxacinR), false);
    assert !InOrder(Name(TrimethoprimSulfamethoxazole), Name(Sulphonamides), false);
    CombinationAfterTetracyclines();
    CombinationAfterTrimethoprim();
  }

  lemma CombinationAfterTetracyclines()
    ensures !InOrder(Name(TrimethoprimSulfamethoxazole), Name(Tetracyclines), false)
  {
    assert Name(TrimethoprimSulfamethoxazole)[1] > Name(Tetracyclines)[1];
  }

  lemma CombinationAfterTrimethoprim()
    ensures !InOrder(Name(TrimethoprimSulfamethoxazole), Name(Trimethoprim), false)
  {
    NotLessThanPrefix(Name(TrimethoprimSulfamethoxazole), Name(Trimethoprim));
    assert |Name(TrimethoprimSulfamethoxazole)| != |Name(Trimethoprim)|;
  }

  /** Both listings, one entry at a time, in the form the sort consumes. */
  lemma ListingsAsConsLists()
    ensures Listed == [AmpicillinAmoxicillin] + ([Azithromycin] + ([Chloramphenicol] + ([TrimethoprimSulfamethoxazole]
      + ([Ceftriaxone] + ([CiprofloxacinNS] + ([CiprofloxacinR] + ([Sulphonamides] + ([Tetracyclines] + [Trimethoprim]))))))))
    ensures Drugs == [AmpicillinAmoxicillin] + ([Azithromycin] + ([Ceftriaxone] + ([Chloramphenicol] + ([CiprofloxacinNS]
      + ([CiprofloxacinR] + ([Sulphonamides] + ([Tetracyclines] + ([Trimethoprim] + [TrimethoprimSulfamethoxazole]))))))))
  {
  }

  /** Sorting the listing by name yields `drugs`. */
  lemma DrugsAreSortedListing()
    ensures SortBy(Listed, Name, false) == Drugs
  {
    NameComparisons();
    NameInversions();
    SortListing(AmpicillinAmoxicillin, Azithromycin, Chloramphenicol,
      TrimethoprimSulfamethoxazole, Ceftriaxone, CiprofloxacinNS,
      CiprofloxacinR, Sulphonamides, Tetracyclines, Trimethoprim, Name);
    ListingsAsConsLists();
  }

  /** `drugs` is in ascending order of name, and so lists no drug twice. */
  lemma DrugsSortedWithoutDuplicates()
    ensures StrictlyAscending(Drugs)
    ensures NoDuplicates(Drugs)
  {
    ListingsAsConsLists();
    NameComparisons();
    var s9: seq<Drug> := [TrimethoprimSulfamethoxazole];
    var s8 := [Trimethoprim] + s9;
    AscendingCons(Trimethoprim, s9);
    var s7 := [Tetracyclines] + s8;
    AscendingCons(Tetracyclines, s8);
    var s6 := [Sulphonamides] + s7;
    AscendingCons(Sulphonamides, s7);
    var s5 := [CiprofloxacinR] + s6;
    AscendingCons(CiprofloxacinR, s6);
    var s4 := [CiprofloxacinNS] + s5;
    AscendingCons(CiprofloxacinNS, s5);
    var s3 := [Chloramphenicol] + s4;
    AscendingCons(Chloramphenicol, s4);
    var s2 := [Ceftriaxone] + s3;
    AscendingCons(Ceftriaxone, s3);
    var s1 := [Azithromycin] + s2;
    AscendingCons(Azithromycin, s2);
    AscendingCons(AmpicillinAmoxicillin, s1);
    AscendingHasNoDuplicates(Drugs);
  }

  /** The graph list is `drugs` followed by the three composite markers, each once. */
  lemma GraphDrugsExtendDrugs()
    ensures |GraphDrugs| == |Drugs| + 3
    ensures GraphDrugs[..|Drugs|] == Drugs
    ensures GraphDrugs[|Drugs|..] == [PanSusceptible, MDR, XDR]
    ensures NoDuplicates(GraphDrugs)
  {
    DrugsSortedWithoutDuplicates();
    forall i, j | 0 <= i < j < |GraphDrugs|
      ensures Name(GraphDrugs[i]) != Name(GraphDrugs[j])
    {
      if j >= |Drugs| && i < |Drugs| {
        assert GraphDrugs[i] == Drugs[i];
        assert GraphDrugs[j] in Composites;
      }
      NameRoundTrip(GraphDrugs[i]);
      NameRoundTrip(GraphDrugs[j]);
    }
  }

  /** Every drug the reset button selects is offered by the graph list. */
  lemma DefaultsAreOffered()
    ensures forall d :: d in DefaultGraphDrugs ==> d in GraphDrugs
  {
  }

  /**
   * `drugClasses` is the unsorted listing of the drugs without
   * ciprofloxacin resistance, followed by the composite markers; it
   * includes the class the reset button selects.
   */
  lemma DrugClassesFromListing()
    ensures Listed[6] == CiprofloxacinR
    ensures DrugClasses == Listed[..6] + Listed[7..] + Composites
    ensures forall d :: d in DrugClasses <==> (d in Drugs && d != CiprofloxacinR) || d in Composites
    ensures exists d :: d in DrugClasses && Name(d) == ResetDrugClass
  {
    assert Name(CiprofloxacinNS) == ResetDrugClass;
  }
}
