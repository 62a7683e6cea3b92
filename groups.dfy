/** The connection-group directory page: an in-memory list of group records
    that the visitor narrows by region (filter buttons) and by a free-text
    search, and resets with "clear filters". */
module Groups {
  import opened Wrappers
  import opened Strings
  import opened Sequences

  /** One group record. Field names translate the record's keys:
      titulo, local, dia, hora, regiao, imagem, whatsapp, descricao. */
  datatype Group = Group(
    id: string,
    title: string,
    place: string,
    day: string,
    hour: string,
    region: string,
    image: string,
    whatsapp: string,
    description: string)

  /** The region filter value that stands for "every region". */
  const All := "all"

  /** The static data the page loads its groups from. */
  const StaticGroups: seq<Group> := [
    Group("gc-huios", "GC Huios", "Lisboa - Odivelas", "Sexta-feira", "20:00", "lisboa",
          "img/gc_huios.png", "351912345678", "Grupo de estudo bíblico e comunhão"),
    Group("gc-bemfica", "GC Bemfica", "Lisboa - Bemfica", "Sexta-feira", "19:30", "lisboa",
          "img/gc_huios.png", "351912345679", "Grupo de jovens e adultos"),
    Group("gc-sintra-centro", "GC Sintra Centro", "Sintra - Centro", "Quinta-feira", "19:30", "sintra",
          "img/gc_huios.png", "351912345679", "Grupo de jovens e adultos")
  ]

  /** A dynamic filter button: its `data-filter` value and its caption. */
  datatype FilterButton = FilterButton(filter: string, caption: string)

  /** `grupos.map(grupo => grupo.regiao)`. */
  function Regions(gs: seq<Group>): (rs: seq<string>)
    ensures |rs| == |gs|
    ensures forall i :: 0 <= i < |gs| ==> rs[i] == gs[i].region
  {
    seq(|gs|, i requires 0 <= i < |gs| => gs[i].region)
  }

  /** The display name of a region key: a fixed name for the three known
      keys, the key itself for any other. */
  function RegionName(region: string): (name: string)
    ensures region == "lisboa" ==> name == "Lisboa"
    ensures region == "sintra" ==> name == "Sintra"
    ensures region == "margem-sul" ==> name == "Margem Sul"
    ensures region != "lisboa" && region != "sintra" && region != "margem-sul" ==> name == region
    ensures name == "" <==> region == ""
  {
    if region == "lisboa" then "Lisboa"
    else if region == "sintra" then "Sintra"
    else if region == "margem-sul" then "Margem Sul"
    else region
  }

  function ButtonsFor(regions: seq<string>): (b: seq<FilterButton>)
    ensures |b| == |regions|
    ensures forall i :: 0 <= i < |b| ==> b[i] == FilterButton(regions[i], RegionName(regions[i]))
  {
    seq(|regions|, i requires 0 <= i < |regions| => FilterButton(regions[i], RegionName(regions[i])))
  }

  /** The dynamic filter buttons for a group list: one per distinct region. */
  function FilterButtons(gs: seq<Group>): seq<FilterButton> {
    ButtonsFor(Distinct(Regions(gs)))
  }

  /** No two buttons filter on the same region, and each is captioned with
      its region's display name. */
  lemma FilterButtonsUnique(gs: seq<Group>)
    ensures var b := FilterButtons(gs);
      && (forall i :: 0 <= i < |b| ==> b[i].caption == RegionName(b[i].filter))
      && (forall i, j :: 0 <= i < j < |b| ==> b[i].filter != b[j].filter)
  {
    var d := Distinct(Regions(gs));
    var b := FilterButtons(gs);
    forall i, j | 0 <= i < j < |b| ensures b[i].filter != b[j].filter {
      assert b[i].filter == d[i] && b[j].filter == d[j];
    }
  }

  /** Every group's region has a button, and every button's region is some
      group's region. */
  lemma FilterButtonsCoverRegions(gs: seq<Group>)
    ensures var b := FilterButtons(gs);
      && (forall g :: g in gs ==> exists i :: 0 <= i < |b| && b[i].filter == g.region)
      && (forall i :: 0 <= i < |b| ==> exists g :: g in gs && g.region == b[i].filter)
  {
    var rs := Regions(gs);
    var d := Distinct(rs);
    var b := FilterButtons(gs);
    forall g | g in gs
      ensures exists i :: 0 <= i < |b| && b[i].filter == g.region
    {
      var k :| 0 <= k < |gs| && gs[k] == g;
      assert rs[k] == g.region;
      assert g.region in d;
      var i :| 0 <= i < |d| && d[i] == g.region;
      assert b[i].filter == g.region;
    }
    forall i | 0 <= i < |b|
      ensures exists g :: g in gs && g.region == b[i].filter
    {
      assert d[i] in rs;
      var k :| 0 <= k < |rs| && rs[k] == d[i];
      assert gs[k] in gs;
    }
  }

  /** The buttons come in the order in which their regions first occur. */
  lemma FilterButtonsInFirstOccurrenceOrder(gs: seq<Group>)
    ensures var b := FilterButtons(gs);
      forall i, j :: 0 <= i < j < |b| ==>
        b[i].filter in Regions(gs) && b[j].filter in Regions(gs) &&
        FirstIndex(Regions(gs), b[i].filter) < FirstIndex(Regions(gs), b[j].filter)
  {
    var rs := Regions(gs);
    var d := Distinct(rs);
    var b := FilterButtons(gs);
    DistinctInFirstOccurrenceOrder(rs);
    forall i, j | 0 <= i < j < |b|
      ensures b[i].filter in rs && b[j].filter in rs
      ensures FirstIndex(rs, b[i].filter) < FirstIndex(rs, b[j].filter)
    {
      assert b[i].filter == d[i] && b[j].filter == d[j];
      assert d[i] in d && d[j] in d;
    }
  }

  /** The regions of the static data, in order. */
  lemma StaticRegions()
    ensures Regions(StaticGroups) == ["lisboa", "lisboa", "sintra"]
  {
  }

  /** `[...new Set(["lisboa", "lisboa", "sintra"])]`. */
  lemma DistinctStaticRegions()
    ensures Distinct(["lisboa", "lisboa", "sintra"]) == ["lisboa", "sintra"]
  {
    var rs := ["lisboa", "lisboa", "sintra"];
    assert rs[..|rs| - 1] == ["lisboa", "lisboa"];
    var two := ["lisboa", "lisboa"];
    assert two[..|two| - 1] == ["lisboa"];
    var one := ["lisboa"];
    assert one[..|one| - 1] == [];
    assert Distinct(one) == ["lisboa"];
    assert Distinct(two) == ["lisboa"];
  }

  /** The buttons the static data produces. */
  lemma StaticFilterButtons()
    ensures FilterButtons(StaticGroups) ==
      [FilterButton("lisboa", "Lisboa"), FilterButton("sintra", "Sintra")]
  {
    StaticRegions();
    DistinctStaticRegions();
    var b := ButtonsFor(["lisboa", "sintra"]);
    assert b[0] == FilterButton("lisboa", "Lisboa");
    assert b[1] == FilterButton("sintra", "Sintra");
  }

  /** Some dynamic button filters on `region`. */
  predicate HasButton(buttons: seq<FilterButton>, region: string) {
    exists i :: 0 <= i < |buttons| && buttons[i].filter == region
  }

  /** The region test of the search: every group is in scope under "all". */
  predicate InScope(g: Group, filter: string) {
    filter == All || g.region == filter
  }

  /** The list the region filter buttons select: a copy of the whole list for
      "all", otherwise the groups of that region. */
  function RegionFilter(gs: seq<Group>, region: string): (r: seq<Group>)
    ensures forall g :: g in r <==> g in gs && InScope(g, region)
    ensures IsSubsequence(r, gs)
    ensures forall g :: multiset(r)[g] == if InScope(g, region) then multiset(gs)[g] else 0
    ensures region == All ==> r == gs
  {
    if region == All then
      SubsequenceReflexive(gs);
      gs
    else
      InRegion(gs, region)
  }

  /** `grupos.filter(grupo => grupo.regiao === region)`. */
  function InRegion(gs: seq<Group>, region: string): (r: seq<Group>)
    ensures forall g :: g in r <==> g in gs && g.region == region
    ensures IsSubsequence(r, gs)
    ensures forall g :: multiset(r)[g] == if g.region == region then multiset(gs)[g] else 0
  {
    Filter(gs, (g: Group) => g.region == region)
  }

  /** Both branches of the region filter are the one filter "in scope", so the
      region filter and the region test inside the search agree. */
  lemma RegionFilterIsScopeFilter(gs: seq<Group>, region: string)
    ensures RegionFilter(gs, region) == Filter(gs, (g: Group) => InScope(g, region))
  {
    if region == All {
      FilterAll(gs, (g: Group) => InScope(g, region));
    } else {
      FilterCongruent(gs, (g: Group) => g.region == region, (g: Group) => InScope(g, region));
    }
  }

  /** The text test of the search: the lower-cased term occurs in the
      lower-cased title, place, day, hour or description. */
  predicate Matches(g: Group, term: string) {
    var t := ToLower(term);
    Contains(ToLower(g.title), t) ||
    Contains(ToLower(g.place), t) ||
    Contains(ToLower(g.day), t) ||
    Contains(ToLower(g.hour), t) ||
    Contains(ToLower(g.description), t)
  }

  /** The search result: the groups in scope of the region filter that match
      the term, in list order. */
  function Search(gs: seq<Group>, filter: string, term: string): (r: seq<Group>)
    ensures forall g :: g in r <==> g in gs && InScope(g, filter) && Matches(g, term)
    ensures IsSubsequence(r, gs)
    ensures forall g :: multiset(r)[g] == if InScope(g, filter) && Matches(g, term) then multiset(gs)[g] else 0
  {
    Filter(gs, (g: Group) => InScope(g, filter) && Matches(g, term))
  }

  /** A search only ever narrows the region filter's list. */
  lemma SearchNarrowsRegionFilter(gs: seq<Group>, filter: string, term: string)
    ensures IsSubsequence(Search(gs, filter, term), RegionFilter(gs, filter))
  {
    RegionFilterIsScopeFilter(gs, filter);
    FilterConjunction(gs, (g: Group) => InScope(g, filter), (g: Group) => Matches(g, term),
                      (g: Group) => InScope(g, filter) && Matches(g, term));
  }

  /** The empty term matches everything, so searching for it is the plain
      region filter. */
  lemma SearchEmptyTerm(gs: seq<Group>, filter: string)
    ensures Search(gs, filter, "") == RegionFilter(gs, filter)
  {
    forall g | g in gs ensures Matches(g, "") {
      assert ToLower("") == "";
      assert "" <= ToLower(g.title);
    }
    FilterCongruent(gs, (g: Group) => InScope(g, filter) && Matches(g, ""), (g: Group) => InScope(g, filter));
    RegionFilterIsScopeFilter(gs, filter);
  }

  /** The search is case-insensitive in the term. */
  lemma SearchIgnoresCase(gs: seq<Group>, filter: string, term: string)
    ensures Search(gs, filter, term) == Search(gs, filter, ToLower(term))
  {
    ToLowerIdempotent(term);
    FilterCongruent(gs, (g: Group) => InScope(g, filter) && Matches(g, term),
                    (g: Group) => InScope(g, filter) && Matches(g, ToLower(term)));
  }

  /** The page's state: the module variables `todosGrupos`, `gruposFiltrados`
      and `filtroAtual`, the value of the search box, the dynamic filter
      buttons, and the `data-filter` value of the one highlighted filter
      button (the static "all" button or a dynamic one), if any. */
  class Directory {
    var allGroups: seq<Group>
    var filtered: seq<Group>
    var currentFilter: string
    var searchValue: string
    var buttons: seq<FilterButton>
    var highlighted: Option<string>

    /** The list on screen is always an ordered selection of the directory. */
    ghost predicate Valid()
      reads this
    {
      IsSubsequence(filtered, allGroups)
    }

    /** The state before the page's DOMContentLoaded handler runs; the
        markup may or may not mark the "all" button as highlighted. */
    constructor (allHighlighted: bool)
      ensures Valid()
      ensures allGroups == [] && filtered == [] && currentFilter == All
      ensures searchValue == "" && buttons == []
      ensures highlighted == if allHighlighted then Some(All) else None
    {
      allGroups := [];
      filtered := [];
      currentFilter := All;
      searchValue := "";
      buttons := [];
      highlighted := if allHighlighted then Some(All) else None;
    }

    /** `carregarGrupos`: take the static list, show all of it, and build the
        region buttons. */
    method Load()
      modifies this
      ensures Valid()
      ensures allGroups == StaticGroups && filtered == StaticGroups
      ensures buttons == FilterButtons(StaticGroups)
      ensures currentFilter == old(currentFilter) && searchValue == old(searchValue)
      ensures highlighted == if old(highlighted) == Some(All) then Some(All) else None
    {
      allGroups := StaticGroups;
      filtered := allGroups;
      SubsequenceReflexive(allGroups);
      CreateFilters();
    }

    /** `criarFiltrosDinamicos`: drop the old dynamic buttons and append one
        per distinct region. */
    method CreateFilters()
      modifies this`buttons, this`highlighted
      ensures buttons == FilterButtons(allGroups)
      ensures highlighted == if old(highlighted) == Some(All) then Some(All) else None
    {
      buttons := [];
      if highlighted != Some(All) {
        highlighted := None;
      }
      var regions := Distinct(Regions(allGroups));
      var i := 0;
      while i < |regions|
        invariant 0 <= i <= |regions|
        invariant |buttons| == i
        invariant highlighted == if old(highlighted) == Some(All) then Some(All) else None
        invariant forall k :: 0 <= k < i ==> buttons[k] == FilterButton(regions[k], RegionName(regions[k]))
      {
        buttons := buttons + [FilterButton(regions[i], RegionName(regions[i]))];
        i := i + 1;
      }
    }

    /** `aplicarFiltro(region)`: select the region, highlight its button
        alone, then re-apply the search box's trimmed text if there is
        any. */
    method ApplyFilter(region: string)
      modifies this`filtered, this`currentFilter, this`highlighted
      ensures Valid()
      ensures currentFilter == region
      ensures highlighted == if region == All || HasButton(buttons, region) then Some(region) else None
      ensures Trim(searchValue) == "" ==> filtered == RegionFilter(allGroups, region)
      ensures Trim(searchValue) != "" ==> filtered == Search(allGroups, region, Trim(searchValue))
    {
      currentFilter := region;
      highlighted := if region == All || HasButton(buttons, region) then Some(region) else None;
      if region == All {
        filtered := allGroups;
        SubsequenceReflexive(allGroups);
      } else {
        filtered := InRegion(allGroups, region);
      }
      var term := Trim(searchValue);
      if term != "" {
        ApplySearch(term);
      }
    }

    /** `aplicarBusca(term)`: recompute the list from the whole directory, so
        the result depends only on the current region and the term. */
    method ApplySearch(term: string)
      modifies this`filtered
      ensures Valid()
      ensures filtered == Search(allGroups, currentFilter, term)
    {
      filtered := Search(allGroups, currentFilter, term);
    }

    /** `limparFiltros`: back to "all", the whole list, an empty search box
        and the "all" button highlighted. */
    method ClearFilters()
      modifies this`filtered, this`currentFilter, this`searchValue, this`highlighted
      ensures Valid()
      ensures currentFilter == All && filtered == allGroups && searchValue == ""
      ensures highlighted == Some(All)
    {
      highlighted := Some(All);
      currentFilter := All;
      filtered := allGroups;
      SubsequenceReflexive(allGroups);
      searchValue := "";
    }

    /** The search box's input handler once its debounce delay has passed: a
        non-empty trimmed value searches, an empty one re-applies the region
        filter alone. */
    method OnSearchInput(value: string)
      modifies this`filtered, this`currentFilter, this`searchValue, this`highlighted
      ensures Valid()
      ensures searchValue == value && currentFilter == old(currentFilter)
      ensures Trim(value) != "" ==> filtered == Search(allGroups, currentFilter, Trim(value))
      ensures Trim(value) == "" ==> filtered == RegionFilter(allGroups, currentFilter)
      ensures Trim(value) != "" ==> highlighted == old(highlighted)
      ensures Trim(value) == "" ==>
        highlighted == if currentFilter == All || HasButton(buttons, currentFilter) then Some(currentFilter) else None
    {
      searchValue := value;
      var term := Trim(value);
      if term != "" {
        ApplySearch(term);
      } else {
        ApplyFilter(currentFilter);
      }
    }
  }
}
