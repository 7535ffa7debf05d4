/**
 * The entity queries the catalog, API explorer, template picker and docs index send, and the
 * filter pills that choose them.
 */
module ListQueries {
  import opened Wrappers
  import opened Pagination

  /** A catalog filter value: equal to a string, or merely present. */
  datatype FilterValue = Equals(value: string) | Exists

  /** One query: filter entries in insertion order, page window, optional full text, sort. */
  datatype Query = Query(
    filter: seq<(string, FilterValue)>,
    limit: nat,
    offset: nat,
    fullText: Option<string>,
    orderField: string,
    ascending: bool)

  const SortField: string := "metadata.name"
  const TechDocsAnnotation: string := "metadata.annotations.backstage.io/techdocs-ref"

  /** The value stored under `key`, if any. */
  function Lookup(filter: seq<(string, FilterValue)>, key: string): (r: Option<FilterValue>)
    ensures r.None? <==> forall i :: 0 <= i < |filter| ==> filter[i].0 != key
    ensures r.Some? ==> exists i :: 0 <= i < |filter| && filter[i] == (key, r.value)
  {
    if |filter| == 0 then None
    else if filter[0].0 == key then Some(filter[0].1)
    else
      var r := Lookup(filter[1..], key);
      assert forall i :: 1 <= i < |filter| ==> filter[i] == filter[1..][i - 1];
      r
  }

  /** The term's full-text filter: present only for a non-empty (debounced) term. */
  function FullText(term: string): (r: Option<string>)
    ensures r.Some? <==> term != ""
    ensures r.Some? ==> r.value == term
  {
    if term != "" then Some(term) else None
  }

  /** The search term a query carries, `""` when it has no full-text filter. */
  function TermOf(q: Query): string {
    q.fullText.GetOr("")
  }

  /** Every list query pages by `size`, starts at `offset` and sorts by name ascending. */
  function PagedQuery(filter: seq<(string, FilterValue)>, term: string, offset: nat, size: nat): (q: Query)
    ensures q.filter == filter && q.limit == size && q.offset == offset
    ensures q.orderField == SortField && q.ascending
    ensures TermOf(q) == term
  {
    Query(filter, size, offset, FullText(term), SortField, true)
  }

  /** A required filter entry, followed by an optional one added only for a non-empty choice. */
  function OptionalEntry(key: string, choice: string): (entries: seq<(string, FilterValue)>)
    ensures |entries| <= 1
    ensures Lookup(entries, key) == if choice == "" then None else Some(Equals(choice))
  {
    if choice != "" then [(key, Equals(choice))] else []
  }

  /** The catalog index: always `kind = <selected kind>`. */
  function CatalogQuery(kind: string, term: string, offset: nat): (q: Query)
    ensures |q.filter| == 1 && Lookup(q.filter, "kind") == Some(Equals(kind))
    ensures q.limit == ListPageSize && q.offset == offset && TermOf(q) == term
    ensures q.orderField == SortField && q.ascending
  {
    PagedQuery([("kind", Equals(kind))], term, offset, ListPageSize)
  }

  /** The API explorer: `kind = API`, plus `spec.type` for a chosen type pill. */
  function ApiQuery(apiType: string, term: string, offset: nat): (q: Query)
    ensures 1 <= |q.filter| <= 2 && Lookup(q.filter, "kind") == Some(Equals("API"))
    ensures Lookup(q.filter, "spec.type") == if apiType == "" then None else Some(Equals(apiType))
    ensures q.limit == ListPageSize && q.offset == offset && TermOf(q) == term
    ensures q.orderField == SortField && q.ascending
  {
    LookupRequiredThenOptional(("kind", Equals("API")), "spec.type", apiType);
    PagedQuery([("kind", Equals("API"))] + OptionalEntry("spec.type", apiType), term, offset, ListPageSize)
  }

  /** The template picker: `kind = Template`, plus `spec.type` for a chosen type pill. */
  function TemplateQuery(templateType: string, term: string, offset: nat): (q: Query)
    ensures 1 <= |q.filter| <= 2 && Lookup(q.filter, "kind") == Some(Equals("Template"))
    ensures Lookup(q.filter, "spec.type") == if templateType == "" then None else Some(Equals(templateType))
    ensures q.limit == TemplatePageSize && q.offset == offset && TermOf(q) == term
    ensures q.orderField == SortField && q.ascending
  {
    LookupRequiredThenOptional(("kind", Equals("Template")), "spec.type", templateType);
    PagedQuery([("kind", Equals("Template"))] + OptionalEntry("spec.type", templateType), term, offset, TemplatePageSize)
  }

  /** The docs index: the techdocs annotation must exist, plus `kind` for a chosen kind pill. */
  function DocsQuery(kindFilter: string, term: string, offset: nat): (q: Query)
    ensures 1 <= |q.filter| <= 2 && Lookup(q.filter, TechDocsAnnotation) == Some(Exists)
    ensures Lookup(q.filter, "kind") == if kindFilter == "" then None else Some(Equals(kindFilter))
    ensures q.limit == ListPageSize && q.offset == offset && TermOf(q) == term
    ensures q.orderField == SortField && q.ascending
  {
    LookupRequiredThenOptional((TechDocsAnnotation, Exists), "kind", kindFilter);
    PagedQuery([(TechDocsAnnotation, Exists)] + OptionalEntry("kind", kindFilter), term, offset, ListPageSize)
  }

  /** The pill a query was built for: the `key` entry's value, or `""` (All) without one. */
  function ChoiceOf(q: Query, key: string): string {
    match Lookup(q.filter, key)
    case Some(Equals(v)) => v
    case _ => ""
  }

  /** A required entry followed by an optional one under a different key. */
  lemma LookupRequiredThenOptional(first: (string, FilterValue), key: string, choice: string)
    requires first.0 != key
    ensures Lookup([first] + OptionalEntry(key, choice), first.0) == Some(first.1)
    ensures Lookup([first] + OptionalEntry(key, choice), key) == Lookup(OptionalEntry(key, choice), key)
  {
    assert ([first] + OptionalEntry(key, choice))[1..] == OptionalEntry(key, choice);
  }

  /** The catalog query always filters by the kind and can be read back into its inputs. */
  lemma CatalogQueryInverse(kind: string, term: string, offset: nat)
    ensures var q := CatalogQuery(kind, term, offset);
            ChoiceOf(q, "kind") == kind && TermOf(q) == term && q.offset == offset && q.limit == 20
  {
  }

  /** The API query always has `kind = API`, `spec.type` exactly for a non-empty type, and reads back. */
  lemma ApiQueryInverse(apiType: string, term: string, offset: nat)
    ensures var q := ApiQuery(apiType, term, offset);
            Lookup(q.filter, "kind") == Some(Equals("API")) &&
            (Lookup(q.filter, "spec.type").Some? <==> apiType != "") &&
            ChoiceOf(q, "spec.type") == apiType && TermOf(q) == term && q.limit == 20
  {
    LookupRequiredThenOptional(("kind", Equals("API")), "spec.type", apiType);
  }

  /** The template query always has `kind = Template`, pages by 24 and reads back. */
  lemma TemplateQueryInverse(templateType: string, term: string, offset: nat)
    ensures var q := TemplateQuery(templateType, term, offset);
            Lookup(q.filter, "kind") == Some(Equals("Template")) &&
            (Lookup(q.filter, "spec.type").Some? <==> templateType != "") &&
            ChoiceOf(q, "spec.type") == templateType && TermOf(q) == term && q.limit == 24
  {
    LookupRequiredThenOptional(("kind", Equals("Template")), "spec.type", templateType);
  }

  /** The docs query always requires the annotation, has `kind` exactly for a chosen kind, and reads back. */
  lemma DocsQueryInverse(kindFilter: string, term: string, offset: nat)
    ensures var q := DocsQuery(kindFilter, term, offset);
            Lookup(q.filter, TechDocsAnnotation) == Some(Exists) &&
            (Lookup(q.filter, "kind").Some? <==> kindFilter != "") &&
            ChoiceOf(q, "kind") == kindFilter && TermOf(q) == term && q.limit == 20
  {
    LookupRequiredThenOptional((TechDocsAnnotation, Exists), "kind", kindFilter);
  }

  /** Different pills, terms or offsets never produce the same API query. */
  lemma ApiQueryInjective(t1: string, s1: string, o1: nat, t2: string, s2: string, o2: nat)
    requires ApiQuery(t1, s1, o1) == ApiQuery(t2, s2, o2)
    ensures t1 == t2 && s1 == s2 && o1 == o2
  {
    ApiQueryInverse(t1, s1, o1);
    ApiQueryInverse(t2, s2, o2);
  }

  /** The docs kind pills, `''` first. */
  const DocsKinds: seq<string> := ["", "Component", "API", "System"]

  /** `k || 'All'`: the empty pill reads All, the others their kind. */
  function PillLabel(k: string): (text: string)
    ensures text != ""
    ensures k != "" ==> text == k
  {
    OrElse(if k == "" then None else Some(k), "All")
  }

  /** Pill labels tell pills apart as long as no real kind is called All. */
  lemma PillLabelInjective(a: string, b: string)
    requires a != "All" && b != "All"
    requires PillLabel(a) == PillLabel(b)
    ensures a == b
  {
  }

  /** The docs pills read All, Component, API, System. */
  lemma DocsPillLabels()
    ensures seq(|DocsKinds|, i requires 0 <= i < |DocsKinds| => PillLabel(DocsKinds[i]))
            == ["All", "Component", "API", "System"]
  {
  }

  /** Selecting a pill both sets the filter and returns to the first page. */
  lemma PillClickQuery(s: ListState<string>, pill: string, term: string)
    ensures var t := Step(s, SelectFilter(pill), ListPageSize);
            DocsQuery(t.filter, term, t.offset) == DocsQuery(pill, term, 0)
  {
  }
}
