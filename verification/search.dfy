/** The search page: type pills, filter selects, the active-filter summary and result count. */
module Search {
  import opened Wrappers
  import opened Seqs

  /* ---------------- type pills ---------------- */

  const SoftwareCatalog: string := "software-catalog"
  const TechDocs: string := "techdocs"

  /** The value of each type pill, in display order. */
  const TypeOptions: seq<string> := [SoftwareCatalog, TechDocs]

  /** `toggle`: drop every copy of an active value, or append an inactive one at the end. */
  function Toggle(active: seq<string>, value: string): (r: seq<string>)
    ensures value in active ==> value !in r && |r| < |active|
    ensures value in active ==> forall x :: x != value ==> (x in r <==> x in active)
    ensures value !in active ==> r == active + [value]
  {
    if value in active then
      var r := Filter(active, t => t != value);
      FilterShrinks(active, t => t != value, value);
      r
    else active + [value]
  }

  /** Filtering out an element that is present makes the list strictly shorter. */
  lemma {:induction false} FilterShrinks(xs: seq<string>, p: string -> bool, v: string)
    requires v in xs && !p(v)
    ensures |Filter(xs, p)| < |xs|
  {
    if xs[0] != v {
      assert v in xs[1..];
      FilterShrinks(xs[1..], p, v);
    }
  }

  /** A pill is highlighted when no type is chosen (all are searched) or when it is chosen. */
  predicate IsActive(active: seq<string>, value: string) {
    |active| == 0 || value in active
  }

  /** Toggling an absent value twice restores the list. */
  lemma ToggleTwiceRestores(active: seq<string>, value: string)
    requires value !in active
    ensures Toggle(Toggle(active, value), value) == active
  {
    var once := active + [value];
    assert Toggle(active, value) == once;
    FilterDropsLast(active, value);
  }

  /** Removing a value appended to a list without it gives the list back. */
  lemma {:induction false} FilterDropsLast(xs: seq<string>, v: string)
    requires v !in xs
    ensures Filter(xs + [v], t => t != v) == xs
  {
    if |xs| == 0 {
      assert [v][1..] == [];
    } else {
      assert (xs + [v])[1..] == xs[1..] + [v];
      FilterDropsLast(xs[1..], v);
      assert xs == [xs[0]] + xs[1..];
    }
  }

  /** From no selection, clicking a pill narrows the search to that type alone. */
  lemma FirstToggleSelectsOnly(value: string, other: string)
    ensures Toggle([], value) == [value]
    ensures IsActive(Toggle([], value), other) <==> other == value
  {
  }

  /** Turning off the last chosen type shows every pill active again. */
  lemma LastToggleActivatesAll(value: string, other: string)
    ensures Toggle([value], value) == []
    ensures IsActive(Toggle([value], value), other)
  {
    assert Filter([value], t => t != value) == Filter([value][1..], t => t != value);
  }

  /* ---------------- filter selects ---------------- */

  /** `e.target.value || undefined`: the All option (value `''`) means no filter. */
  function SelectChoice(v: string): (r: Option<string>)
    ensures r.None? <==> v == ""
    ensures r.Some? ==> r.value == v
  {
    if v == "" then None else Some(v)
  }

  /** `handleFilterChange`: undefined removes the key, a value sets it. */
  function FilterChange(filters: map<string, string>, name: string, value: Option<string>): (r: map<string, string>)
    ensures name in r <==> value.Some?
    ensures value.Some? ==> r[name] == value.value
    ensures forall k :: k != name ==> (k in r <==> k in filters)
    ensures forall k :: k != name && k in r ==> r[k] == filters[k]
  {
    if value.None? then filters - {name} else filters[name := value.value]
  }

  /** What a select displays: `filters[name] ?? ''`. */
  function Shown(filters: map<string, string>, name: string): string {
    if name in filters then filters[name] else ""
  }

  /** Whatever the select is set to, it then displays exactly that option. */
  lemma SelectRoundTrip(filters: map<string, string>, name: string, v: string)
    ensures Shown(FilterChange(filters, name, SelectChoice(v)), name) == v
  {
  }

  /** Setting a new key and then removing it leaves the filters as they were. */
  lemma SetThenRemove(filters: map<string, string>, name: string, v: string)
    requires name !in filters
    ensures FilterChange(FilterChange(filters, name, Some(v)), name, None) == filters
  {
    var r := FilterChange(FilterChange(filters, name, Some(v)), name, None);
    assert r.Keys == filters.Keys;
  }

  /* ---------------- page state ---------------- */

  datatype SearchState = SearchState(term: string, types: seq<string>, filters: map<string, string>)

  /** The summary bar with "Clear all" appears when any type or filter is chosen. */
  predicate SummaryShown(s: SearchState) {
    |s.types| > 0 || |s.filters| > 0
  }

  /** `clearSearch`: empty term, no types, no filters. */
  function ClearSearch(s: SearchState): (t: SearchState)
    ensures t.term == "" && t.types == [] && t.filters == map[]
  {
    SearchState("", [], map[])
  }

  /** After "Clear all" the summary is gone and every type pill is active. */
  lemma ClearSearchResets(s: SearchState, value: string)
    ensures !SummaryShown(ClearSearch(s))
    ensures IsActive(ClearSearch(s).types, value)
  {
  }

  /* ---------------- results ---------------- */

  /** The badge naming a result's type. */
  function TypeLabel(t: string): (badge: string)
    ensures t != SoftwareCatalog && t != TechDocs ==> badge == t
  {
    if t == SoftwareCatalog then "Catalog" else if t == TechDocs then "Docs" else t
  }

  /** Labels are not one-to-one: a type literally named Catalog shares the catalog's badge. */
  lemma TypeLabelCollides()
    ensures TypeLabel(SoftwareCatalog) == TypeLabel("Catalog")
    ensures TypeLabel(TechDocs) == TypeLabel("Docs")
  {
  }

  /** Only the two known types are relabelled. */
  lemma TypeLabelChanges(t: string)
    ensures TypeLabel(t) != t <==> t in TypeOptions
  {
  }

  /** The count shown: the server's `numberOfResults` whenever it is not null, else the page length. */
  function ResultCount<R>(numberOfResults: Option<nat>, results: seq<R>): (n: nat)
    ensures numberOfResults.Some? ==> n == numberOfResults.value
    ensures numberOfResults.None? ==> n == |results|
  {
    numberOfResults.GetOr(|results|)
  }

  /** A reported total of zero is shown as zero even when results are listed. */
  lemma ZeroTotalIsShown<R>(results: seq<R>)
    ensures ResultCount(Some(0), results) == 0
  {
  }
}
