/** The breadcrumb label shown in the page header for the current pathname. */
module Breadcrumbs {
  import opened Wrappers
  import opened Text

  datatype Entry = Entry(route: string, caption: string)

  /** The route-to-label table, in declaration order. */
  function RouteLabels(): seq<Entry> {
    [ Entry("/catalog", "Home"),
      Entry("/api-docs", "APIs"),
      Entry("/docs", "Docs"),
      Entry("/create", "Create"),
      Entry("/search", "Search"),
      Entry("/settings", "Settings"),
      Entry("/notifications", "Notifications"),
      Entry("/catalog-import", "Import"),
      Entry("/catalog-graph", "Graph") ]
  }

  const DefaultLabel: string := "Backstage"

  predicate UniqueRoutes(table: seq<Entry>) {
    forall i, j :: 0 <= i < j < |table| ==> table[i].route != table[j].route
  }

  /** The entry whose route is exactly `pathname`, if any. */
  function ExactIndex(table: seq<Entry>, pathname: string): (r: Option<nat>)
    ensures r.None? <==> forall i :: 0 <= i < |table| ==> table[i].route != pathname
    ensures r.Some? ==> r.value < |table| && table[r.value].route == pathname
  {
    if |table| == 0 then None
    else if table[0].route == pathname then Some(0)
    else
      match ExactIndex(table[1..], pathname)
      case None =>
        assert forall i :: 1 <= i < |table| ==> table[i] == table[1..][i - 1];
        None
      case Some(k) => Some(k + 1)
  }

  /** The first entry, in declaration order, whose route is a plain string prefix of `pathname`. */
  function FirstPrefixIndex(table: seq<Entry>, pathname: string): (r: Option<nat>)
    ensures r.None? <==> forall i :: 0 <= i < |table| ==> !StartsWith(pathname, table[i].route)
    ensures r.Some? ==> r.value < |table| && StartsWith(pathname, table[r.value].route)
    ensures r.Some? ==> forall j :: 0 <= j < r.value ==> !StartsWith(pathname, table[j].route)
  {
    if |table| == 0 then None
    else if StartsWith(pathname, table[0].route) then Some(0)
    else
      assert forall i :: 1 <= i < |table| ==> table[i] == table[1..][i - 1];
      match FirstPrefixIndex(table[1..], pathname)
      case None => None
      case Some(k) => Some(k + 1)
  }

  /** Exact lookup first, then the first prefix in declaration order, then the default label. */
  function LabelIn(table: seq<Entry>, pathname: string): (caption: string)
    ensures caption == DefaultLabel || exists i :: 0 <= i < |table| && table[i].caption == caption
  {
    match ExactIndex(table, pathname)
    case Some(i) => table[i].caption
    case None =>
      match FirstPrefixIndex(table, pathname)
      case Some(i) => table[i].caption
      case None => DefaultLabel
  }

  /** `getPageLabel`: the header label of `pathname`. */
  function PageLabel(pathname: string): (caption: string)
    ensures caption == DefaultLabel || exists i :: 0 <= i < |RouteLabels()| && RouteLabels()[i].caption == caption
  {
    LabelIn(RouteLabels(), pathname)
  }

  /** An exact key wins, whatever earlier key is also a prefix of it. */
  lemma ExactKeyWins(table: seq<Entry>, pathname: string, i: nat)
    requires UniqueRoutes(table)
    requires i < |table| && table[i].route == pathname
    ensures LabelIn(table, pathname) == table[i].caption
  {
  }

  /** Without an exact key, the first key that prefixes the pathname wins. */
  lemma FirstPrefixWins(table: seq<Entry>, pathname: string, i: nat)
    requires forall k :: 0 <= k < |table| ==> table[k].route != pathname
    requires i < |table| && StartsWith(pathname, table[i].route)
    requires forall j :: 0 <= j < i ==> !StartsWith(pathname, table[j].route)
    ensures LabelIn(table, pathname) == table[i].caption
  {
    assert FirstPrefixIndex(table, pathname).Some?;
  }

  /** With neither an exact key nor a prefix key, the label is the default. */
  lemma NoKeyGivesDefault(table: seq<Entry>, pathname: string)
    requires forall k :: 0 <= k < |table| ==> !StartsWith(pathname, table[k].route)
    ensures LabelIn(table, pathname) == DefaultLabel
  {
    forall k | 0 <= k < |table|
      ensures table[k].route != pathname
    {
      assert !StartsWith(pathname, table[k].route);
    }
  }

  /** The header always shows one of the nine table labels or the default. */
  lemma PageLabelRange(pathname: string)
    ensures PageLabel(pathname) in {"Home", "APIs", "Docs", "Create", "Search", "Settings",
                                   "Notifications", "Import", "Graph", DefaultLabel}
  {
    var t := RouteLabels();
    var l := PageLabel(pathname);
    if l != DefaultLabel {
      var i :| 0 <= i < |t| && t[i].caption == l;
    }
  }

  /** `/catalog` is declared first, so it shadows the graph route for deeper paths. */
  lemma CatalogShadowsGraph()
    ensures PageLabel("/catalog-graph/x") == "Home"
    ensures PageLabel("/catalog-graph") == "Graph"
  {
    DeepGraphIsHome();
    ExactGraphIsGraph();
  }

  lemma DeepGraphIsHome()
    ensures PageLabel("/catalog-graph/x") == "Home"
  {
    var t := RouteLabels();
    assert StartsWith("/catalog-graph/x", "/catalog");
    assert forall k :: 0 <= k < |t| ==> |t[k].route| != |"/catalog-graph/x"|;
    FirstPrefixWins(t, "/catalog-graph/x", 0);
  }

  lemma ExactGraphIsGraph()
    ensures PageLabel("/catalog-graph") == "Graph"
  {
    var t := RouteLabels();
    var p := "/catalog-graph";
    assert forall k :: 0 <= k < 8 ==> t[k].route != p by {
      assert forall k :: 0 <= k < 8 && |t[k].route| == |p| ==> t[k].route[1] != p[1];
    }
    assert t[8].route == p;
    var r := ExactIndex(t, p);
    assert r.Some? && r.value == 8;
  }

  /** Prefixing ignores segment boundaries: `/docsfoo` is labelled Docs. */
  lemma PrefixIsNotSegmentAware()
    ensures PageLabel("/docsfoo") == "Docs"
  {
    var t := RouteLabels();
    var p := "/docsfoo";
    assert forall k :: 0 <= k < |t| ==> t[k].route != p by {
      assert forall k :: 0 <= k < |t| && |t[k].route| == |p| ==> t[k].route[1] != p[1];
    }
    assert StartsWith(p, "/docs");
    assert !StartsWith(p, t[0].route) by { assert p[1] != t[0].route[1]; }
    assert !StartsWith(p, t[1].route) by { assert p[1] != t[1].route[1]; }
    FirstPrefixWins(t, p, 2);
  }
}
