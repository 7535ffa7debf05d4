/**
 * The entity-page tab router: the declared sub-routes of an entity page become a tab strip,
 * the current sub-path selects a tab, and clicking a tab navigates to a new sub-path.
 */
module EntityLayout {
  import opened Wrappers
  import opened Text
  import opened Seqs

  /**
   * One declared `<EntityLayout.Route>` child: its path, title, content, and the optional
   * `if` predicate evaluated against the entity being viewed.
   */
  datatype RouteDecl<-E, C> = RouteDecl(path: string, title: string, content: C, visibleIf: Option<E -> bool>)

  /** An extracted route, as the tab strip and the sub-route renderer see it. */
  datatype Route<C> = Route(path: string, title: string, content: C)

  function ToRoute<E, C>(d: RouteDecl<E, C>): Route<C> {
    Route(d.path, d.title, d.content)
  }

  /** A declaration survives extraction unless it has an `if` predicate that rejects the entity. */
  predicate Kept<E, C>(d: RouteDecl<E, C>, entity: E) {
    d.visibleIf.None? || d.visibleIf.value(entity)
  }

  /* ---------------------------------------------------------------- */
  /*  Route extraction                                                 */
  /* ---------------------------------------------------------------- */

  /** The route table: the kept declarations, in declaration order. */
  function ExtractRoutes<E, C(==)>(decls: seq<RouteDecl<E, C>>, entity: E): (r: seq<Route<C>>)
    ensures |r| <= |decls|
  {
    if |decls| == 0 then [] else ExtractOne(decls[0], entity) + ExtractRoutes(decls[1..], entity)
  }

  /** `flatMap` body: the route of one declaration, or nothing when its `if` rejects the entity. */
  function ExtractOne<E, C>(d: RouteDecl<E, C>, entity: E): (r: seq<Route<C>>)
    ensures Kept(d, entity) ==> r == [ToRoute(d)]
    ensures !Kept(d, entity) ==> r == []
  {
    if d.visibleIf.Some? && !d.visibleIf.value(entity) then [] else [ToRoute(d)]
  }

  /** Every kept declaration is extracted; in particular every declaration without `if` is. */
  lemma {:induction false} ExtractKeepsKept<E, C>(decls: seq<RouteDecl<E, C>>, entity: E, i: nat)
    requires i < |decls| && Kept(decls[i], entity)
    ensures ToRoute(decls[i]) in ExtractRoutes(decls, entity)
  {
    if i > 0 {
      assert decls[1..][i - 1] == decls[i];
      ExtractKeepsKept(decls[1..], entity, i - 1);
    }
  }

  /** Every extracted route comes from a declaration that was kept. */
  lemma {:induction false} ExtractOnlyKept<E, C>(decls: seq<RouteDecl<E, C>>, entity: E, k: nat)
    requires k < |ExtractRoutes(decls, entity)|
    ensures exists i :: 0 <= i < |decls| && Kept(decls[i], entity) && ExtractRoutes(decls, entity)[k] == ToRoute(decls[i])
  {
    var head := if Kept(decls[0], entity) then [ToRoute(decls[0])] else [];
    if k < |head| {
      assert ExtractRoutes(decls, entity)[k] == ToRoute(decls[0]);
    } else {
      ExtractOnlyKept(decls[1..], entity, k - |head|);
      var i :| 0 <= i < |decls[1..]| && Kept(decls[1..][i], entity)
               && ExtractRoutes(decls[1..], entity)[k - |head|] == ToRoute(decls[1..][i]);
      assert decls[1..][i] == decls[i + 1];
    }
  }

  /** Extraction of a single declaration keeps it exactly when its predicate allows it. */
  lemma ExtractSingle<E, C>(d: RouteDecl<E, C>, entity: E)
    ensures Kept(d, entity) ==> ExtractRoutes([d], entity) == [ToRoute(d)]
    ensures !Kept(d, entity) ==> ExtractRoutes([d], entity) == []
    ensures d.visibleIf.None? ==> ExtractRoutes([d], entity) == [ToRoute(d)]
  {
    assert [d][1..] == [];
  }

  /** Extraction distributes over concatenation: it never reorders declarations. */
  lemma {:induction false} ExtractConcat<E, C>(a: seq<RouteDecl<E, C>>, b: seq<RouteDecl<E, C>>, entity: E)
    ensures ExtractRoutes(a + b, entity) == ExtractRoutes(a, entity) + ExtractRoutes(b, entity)
  {
    if |a| == 0 {
      assert a + b == b;
    } else {
      calc {
        ExtractRoutes(a + b, entity);
        { assert (a + b)[0] == a[0]; assert (a + b)[1..] == a[1..] + b; }
        ExtractOne(a[0], entity) + ExtractRoutes(a[1..] + b, entity);
        { ExtractConcat(a[1..], b, entity); }
        ExtractOne(a[0], entity) + (ExtractRoutes(a[1..], entity) + ExtractRoutes(b, entity));
        ExtractRoutes(a, entity) + ExtractRoutes(b, entity);
      }
    }
  }

  /** Two entities on which every predicate agrees produce the same route table. */
  lemma {:induction false} ExtractAgree<E, C>(decls: seq<RouteDecl<E, C>>, e1: E, e2: E)
    requires forall j :: 0 <= j < |decls| ==> (Kept(decls[j], e1) <==> Kept(decls[j], e2))
    ensures ExtractRoutes(decls, e1) == ExtractRoutes(decls, e2)
  {
    if |decls| > 0 {
      assert forall j :: 0 <= j < |decls| - 1 ==> decls[1..][j] == decls[j + 1];
      ExtractAgree(decls[1..], e1, e2);
    }
  }

  /**
   * Changing the entity so that only declaration `i`'s predicate may change its answer changes
   * the membership of that one route and leaves the presence and order of all others alone.
   */
  lemma ToggleVisibility<E, C>(decls: seq<RouteDecl<E, C>>, i: nat, e1: E, e2: E)
    requires i < |decls|
    requires forall j :: 0 <= j < |decls| && j != i ==> (Kept(decls[j], e1) <==> Kept(decls[j], e2))
    ensures ExtractRoutes(decls, e2)
         == ExtractRoutes(decls[..i], e1)
          + (if Kept(decls[i], e2) then [ToRoute(decls[i])] else [])
          + ExtractRoutes(decls[i + 1..], e1)
  {
    ExtractAround(decls, i, e2);
    AgreeAround(decls, i, e1, e2);
  }

  /** The route table splits around any one declaration. */
  lemma ExtractAround<E, C>(decls: seq<RouteDecl<E, C>>, i: nat, e: E)
    requires i < |decls|
    ensures ExtractRoutes(decls, e)
         == ExtractRoutes(decls[..i], e) + ExtractOne(decls[i], e) + ExtractRoutes(decls[i + 1..], e)
  {
    SplitAt(decls, i);
    ExtractThree(decls[..i], decls[i], decls[i + 1..], e);
  }

  lemma SplitAt<T>(xs: seq<T>, i: nat)
    requires i < |xs|
    ensures xs == xs[..i] + [xs[i]] + xs[i + 1..]
  {
  }

  lemma ExtractThree<E, C>(a: seq<RouteDecl<E, C>>, x: RouteDecl<E, C>, b: seq<RouteDecl<E, C>>, e: E)
    ensures ExtractRoutes(a + [x] + b, e) == ExtractRoutes(a, e) + ExtractOne(x, e) + ExtractRoutes(b, e)
  {
    ExtractConcat(a + [x], b, e);
    ExtractConcat(a, [x], e);
    assert ExtractRoutes([x], e) == ExtractOne(x, e) by {
      assert [x][1..] == [];
    }
  }

  /** Agreement everywhere except at `i` gives equal route tables before and after `i`. */
  lemma AgreeAround<E, C>(decls: seq<RouteDecl<E, C>>, i: nat, e1: E, e2: E)
    requires i < |decls|
    requires forall j :: 0 <= j < |decls| && j != i ==> (Kept(decls[j], e1) <==> Kept(decls[j], e2))
    ensures ExtractRoutes(decls[..i], e1) == ExtractRoutes(decls[..i], e2)
    ensures ExtractRoutes(decls[i + 1..], e1) == ExtractRoutes(decls[i + 1..], e2)
  {
    AgreeOnSlice(decls, 0, i, e1, e2);
    AgreeOnSlice(decls, i + 1, |decls|, e1, e2);
    assert decls[i + 1..|decls|] == decls[i + 1..];
    assert decls[0..i] == decls[..i];
  }

  /** Agreement of the predicates on a slice gives agreement of the extracted slice. */
  lemma AgreeOnSlice<E, C>(decls: seq<RouteDecl<E, C>>, lo: nat, hi: nat, e1: E, e2: E)
    requires lo <= hi <= |decls|
    requires forall j :: lo <= j < hi ==> (Kept(decls[j], e1) <==> Kept(decls[j], e2))
    ensures ExtractRoutes(decls[lo..hi], e1) == ExtractRoutes(decls[lo..hi], e2)
  {
    var part := decls[lo..hi];
    assert forall j :: 0 <= j < |part| ==> part[j] == decls[lo + j];
    ExtractAgree(part, e1, e2);
  }

  /* ---------------------------------------------------------------- */
  /*  Pattern normalisation and matching                               */
  /* ---------------------------------------------------------------- */

  // The router pattern of a route path: `/` becomes `*`; any other path loses one leading `/`
  // and gains the suffix `/*`.
  function PatternOf(path: string): (pat: string)
    ensures pat == "*" <==> path == "/"
    ensures path != "/" ==> EndsWith(pat, "/*")
    ensures path != "/" ==> var p := pat[..|pat| - 2]; path == p || path == "/" + p
    ensures path != "/" && |path| > 0 && path[0] == '/' ==> pat[..|pat| - 2] == path[1..]
    ensures path != "/" && (|path| == 0 || path[0] != '/') ==> pat[..|pat| - 2] == path
  {
    if path == "/" then "*" else StripLeadingSlash(path) + "/*"
  }

  /** The pattern list, one pattern per route and in the same order. */
  function Patterns<C>(routes: seq<Route<C>>): (pats: seq<string>)
    ensures |pats| == |routes|
    ensures forall i :: 0 <= i < |routes| ==> pats[i] == PatternOf(routes[i].path)
  {
    seq(|routes|, i requires 0 <= i < |routes| => PatternOf(routes[i].path))
  }

  // The simplified router match of sub-path `sub` (the location is `/` + `sub`):
  // `*` matches everything; `p/*` matches `sub == p` and everything under `p/`.
  predicate Matches(pat: string, sub: string) {
    if pat == "*" then true
    else if EndsWith(pat, "/*") then
      var p := pat[..|pat| - 2];
      sub == p || StartsWith(sub, p + "/")
    else sub == pat
  }

  /** Specificity of a pattern: `*` ranks lowest, and a longer static prefix ranks higher. */
  function Rank(pat: string): nat {
    if pat == "*" then 0 else |pat|
  }

  /**
   * `k` is the router's choice: a matching pattern with the highest rank, and the earliest
   * among the patterns of that rank.
   */
  predicate IsBestMatch(pats: seq<string>, sub: string, k: int) {
    && 0 <= k < |pats|
    && Matches(pats[k], sub)
    && (forall j :: 0 <= j < |pats| && Matches(pats[j], sub) ==> Rank(pats[j]) <= Rank(pats[k]))
    && (forall j :: 0 <= j < k && Matches(pats[j], sub) ==> Rank(pats[j]) < Rank(pats[k]))
  }

  /** At most one index is the best match. */
  lemma BestMatchUnique(pats: seq<string>, sub: string, k1: int, k2: int)
    requires IsBestMatch(pats, sub, k1) && IsBestMatch(pats, sub, k2)
    ensures k1 == k2
  {
  }

  /** The index of the pattern the router picks for `sub`, or `None` when nothing matches. */
  function BestMatch(pats: seq<string>, sub: string): (r: Option<nat>)
    ensures r.None? <==> forall j :: 0 <= j < |pats| ==> !Matches(pats[j], sub)
    ensures r.Some? ==> IsBestMatch(pats, sub, r.value)
  {
    if |pats| == 0 then None
    else
      var front := pats[..|pats| - 1];
      var last := |pats| - 1;
      var b := BestMatch(front, sub);
      assert forall j :: 0 <= j < |front| ==> front[j] == pats[j];
      var takeLast := Matches(pats[last], sub) && (b.None? || Rank(pats[last]) > Rank(pats[b.value]));
      BestMatchExtend(pats, sub, b, takeLast);
      if takeLast then Some(last) else b
  }

  /** One step of the scan: the last pattern wins only by matching with a strictly higher rank. */
  lemma BestMatchExtend(pats: seq<string>, sub: string, b: Option<nat>, takeLast: bool)
    requires |pats| > 0
    requires b.None? <==> forall j :: 0 <= j < |pats| - 1 ==> !Matches(pats[j], sub)
    requires b.Some? ==> IsBestMatch(pats[..|pats| - 1], sub, b.value)
    requires takeLast == (Matches(pats[|pats| - 1], sub) && (b.None? || Rank(pats[|pats| - 1]) > Rank(pats[b.value])))
    ensures takeLast ==> IsBestMatch(pats, sub, |pats| - 1)
    ensures !takeLast ==> (b.None? <==> forall j :: 0 <= j < |pats| ==> !Matches(pats[j], sub))
    ensures !takeLast && b.Some? ==> IsBestMatch(pats, sub, b.value)
  {
    var front := pats[..|pats| - 1];
    assert forall j :: 0 <= j < |front| ==> front[j] == pats[j];
  }

  /* ---------------------------------------------------------------- */
  /*  Active tab                                                       */
  /* ---------------------------------------------------------------- */

  /**
   * The selected tab: the first route whose pattern equals the matched pattern, or 0 when
   * nothing matches (and also 0 for an empty table).
   */
  function SelectedIndex<C>(routes: seq<Route<C>>, sub: string): (r: nat)
    ensures |routes| > 0 ==> r < |routes|
    ensures BestMatch(Patterns(routes), sub).None? ==> r == 0
    ensures BestMatch(Patterns(routes), sub).Some? ==> r == BestMatch(Patterns(routes), sub).value
  {
    var pats := Patterns(routes);
    match BestMatch(pats, sub)
    case None => 0
    case Some(k) =>
      BestMatchFirstOccurrence(pats, sub, k);
      NonNegativeOr(IndexOf(pats, pats[k]), 0)
  }

  /** The best match is the first occurrence of its pattern: an equal pattern earlier would tie it. */
  lemma BestMatchFirstOccurrence(pats: seq<string>, sub: string, k: nat)
    requires IsBestMatch(pats, sub, k)
    ensures IndexOf(pats, pats[k]) == k
  {
    assert forall j :: 0 <= j < k ==> pats[j] != pats[k];
    IndexOfFirst(pats, pats[k], k);
  }

  /** `if (idx >= 0) selected = idx`: a found index, or the fallback. */
  function NonNegativeOr(idx: int, fallback: nat): (r: nat)
    ensures idx >= 0 ==> r == idx
    ensures idx < 0 ==> r == fallback
  {
    if idx >= 0 then idx else fallback
  }

  /** The `value` bound to the tab strip: the selected route's path, `/` when there is none. */
  function TabValue<C>(routes: seq<Route<C>>, sub: string): (v: string)
    ensures |routes| == 0 ==> v == "/"
    ensures |routes| > 0 ==> var p := routes[SelectedIndex(routes, sub)].path; v == (if p == "" then "/" else p)
    ensures v != ""
  {
    var i := SelectedIndex(routes, sub);
    if i < |routes| && routes[i].path != "" then routes[i].path else "/"
  }

  /* ---------------------------------------------------------------- */
  /*  Base path and navigation                                         */
  /* ---------------------------------------------------------------- */

  /** `params['*'] || ''`: the unmatched remainder of the location. */
  function SubPath(splat: Option<string>): string {
    OrElse(splat, "")
  }

  /**
   * The entity's base path. With a sub-path it is the pathname cut at the last occurrence of
   * that sub-path (JavaScript's `slice(0, -1)` drops the last character when it does not occur);
   * without one it is the pathname with a `/` appended unless it already ends in one.
   */
  function BasePath(pathname: string, sub: string): (base: string)
    ensures sub == "" ==> EndsWith(base, "/")
    ensures sub == "" && EndsWith(pathname, "/") ==> base == pathname
    ensures sub == "" && !EndsWith(pathname, "/") ==> base == pathname + "/"
    ensures base <= pathname || base == pathname + "/"
  {
    if sub != "" then
      var idx := LastIndexOf(pathname, sub);
      if idx >= 0 then pathname[..idx]
      else if |pathname| > 0 then pathname[..|pathname| - 1]
      else ""
    else if EndsWith(pathname, "/") then pathname
    else pathname + "/"
  }

  /**
   * The base path from the router's splat: without a sub-path (absent or empty) it ends in `/`;
   * with one that ends the pathname, base path and sub-path give the pathname back.
   */
  lemma SplatBasePath(pathname: string, splat: Option<string>)
    ensures !Truthy(splat) ==> EndsWith(BasePath(pathname, SubPath(splat)), "/")
    ensures Truthy(splat) && EndsWith(pathname, splat.value) ==>
              BasePath(pathname, SubPath(splat)) + splat.value == pathname
  {
    if Truthy(splat) && EndsWith(pathname, splat.value) {
      BasePathRoundTrip(pathname, splat.value);
    }
  }

  /** When the sub-path is the end of the pathname, base path and sub-path put it back together. */
  lemma BasePathRoundTrip(pathname: string, sub: string)
    requires sub != "" && EndsWith(pathname, sub)
    ensures BasePath(pathname, sub) + sub == pathname
  {
    LastIndexOfSuffix(pathname, sub);
  }

  /** When the sub-path does not occur in the pathname, the base path is the pathname minus one character. */
  lemma BasePathMissingSubPath(pathname: string, sub: string)
    requires sub != "" && |pathname| > 0
    requires !exists i :: OccursAt(pathname, sub, i)
    ensures BasePath(pathname, sub) == pathname[..|pathname| - 1]
  {
  }

  /** The sub-path a tab's path contributes: empty for `/`, otherwise the path minus one leading `/`. */
  function TabSuffix(value: string): (s: string)
    ensures value == "/" ==> s == ""
    ensures value != "/" && |value| > 0 && value[0] == '/' ==> value == "/" + s
    ensures |value| == 0 || value[0] != '/' ==> s == value
  {
    if value == "/" then "" else StripLeadingSlash(value)
  }

  /** The location a click on the tab with value `value` navigates to. */
  function TabTarget(base: string, value: string): (target: string)
    ensures StartsWith(target, base)
    ensures target == base + TabSuffix(value)
  {
    base + TabSuffix(value)
  }

  /* ---------------------------------------------------------------- */
  /*  Round trip: clicking a tab selects that tab                      */
  /* ---------------------------------------------------------------- */

  /** Every path is `/` or starts with `/`, and no two routes share a path. */
  predicate WellFormedPaths<C>(routes: seq<Route<C>>) {
    && (forall i :: 0 <= i < |routes| ==> |routes[i].path| > 0 && routes[i].path[0] == '/')
    && (forall i, j :: 0 <= i < j < |routes| ==> routes[i].path != routes[j].path)
  }

  /** The sub-path of tab `i` is matched by route `i` more specifically than by any other route. */
  lemma TabSuffixBestMatch<C>(routes: seq<Route<C>>, i: nat)
    requires WellFormedPaths(routes) && i < |routes|
    ensures IsBestMatch(Patterns(routes), TabSuffix(routes[i].path), i)
  {
    var pats := Patterns(routes);
    var s := TabSuffix(routes[i].path);
    forall j | 0 <= j < |pats| && j != i && Matches(pats[j], s)
      ensures Rank(pats[j]) < Rank(pats[i])
    {
      var pj := routes[j].path;
      if pj != "/" {
        var p := pats[j][..|pats[j]| - 2];
        assert pj == "/" + p;
      }
    }
  }

  /**
   * Navigating to tab `i` and reading the location back selects tab `i` again and reports its
   * path as the tab-strip value.
   */
  lemma TabClickSelectsTab<C>(routes: seq<Route<C>>, i: nat)
    requires WellFormedPaths(routes) && i < |routes|
    ensures SelectedIndex(routes, TabSuffix(routes[i].path)) == i
    ensures TabValue(routes, TabSuffix(routes[i].path)) == routes[i].path
  {
    TabSuffixBestMatch(routes, i);
    var b := BestMatch(Patterns(routes), TabSuffix(routes[i].path));
    assert b.Some?;
    BestMatchUnique(Patterns(routes), TabSuffix(routes[i].path), b.value, i);
  }

  /**
   * From any location under the base path `base`, a click on tab `i` leads to a location whose
   * base path is again `base`.
   */
  lemma TabClickKeepsBase<C>(routes: seq<Route<C>>, i: nat, base: string)
    requires WellFormedPaths(routes) && i < |routes|
    requires EndsWith(base, "/")
    ensures var target := TabTarget(base, routes[i].path);
            BasePath(target, TabSuffix(routes[i].path)) == base
  {
    var s := TabSuffix(routes[i].path);
    var target := TabTarget(base, routes[i].path);
    if s == "" {
      assert target == base;
    } else {
      assert EndsWith(target, s);
      BasePathRoundTrip(target, s);
      assert target[..|target| - |s|] == base;
    }
  }

  /* ---------------------------------------------------------------- */
  /*  The worked scenario: Overview at `/`, Docs at `/docs`            */
  /* ---------------------------------------------------------------- */

  function OverviewAndDocs(): seq<Route<nat>> {
    [Route("/", "Overview", 0), Route("/docs", "Docs", 1)]
  }

  lemma DocsPattern()
    ensures PatternOf("/docs") == "docs/*"
    ensures !Matches("docs/*", "unknown/thing")
  {
    assert "/docs"[1..] == "docs";
    assert "docs/*"[..4] == "docs";
    assert "unknown/thing"[0] == 'u';
  }

  /** The scenario's patterns: the catch-all for Overview, then the Docs pattern. */
  lemma OverviewAndDocsPatterns()
    ensures Patterns(OverviewAndDocs()) == ["*", "docs/*"]
  {
    DocsPattern();
  }

  /** `docs` selects Docs and reports `/docs` as the tab-strip value. */
  lemma ScenarioDocs()
    ensures SelectedIndex(OverviewAndDocs(), "docs") == 1
    ensures TabValue(OverviewAndDocs(), "docs") == "/docs"
  {
    assert WellFormedPaths(OverviewAndDocs());
    assert TabSuffix("/docs") == "docs";
    TabClickSelectsTab(OverviewAndDocs(), 1);
  }

  /** The root sub-path selects Overview. */
  lemma ScenarioRoot()
    ensures SelectedIndex(OverviewAndDocs(), "") == 0
  {
    assert WellFormedPaths(OverviewAndDocs());
    TabClickSelectsTab(OverviewAndDocs(), 0);
  }

  /** An unknown sub-path falls back to Overview, here through the catch-all pattern. */
  lemma ScenarioUnknown()
    ensures SelectedIndex(OverviewAndDocs(), "unknown/thing") == 0
  {
    var pats := Patterns(OverviewAndDocs());
    OverviewAndDocsPatterns();
    DocsPattern();
    assert IsBestMatch(pats, "unknown/thing", 0);
    BestMatchUnique(pats, "unknown/thing", BestMatch(pats, "unknown/thing").value, 0);
  }

  /** Clicking Docs at `/catalog/default/component/foo/` goes to `.../foo/docs`. */
  lemma ScenarioClickDocs()
    ensures TabTarget("/catalog/default/component/foo/", "/docs") == "/catalog/default/component/foo/docs"
  {
    assert TabSuffix("/docs") == "docs";
  }

  /** Without a catch-all route, a sub-path no pattern matches falls back to the first tab. */
  lemma NoMatchFallsBackToFirst()
    ensures SelectedIndex([Route("/docs", "Docs", 0), Route("/api", "API", 1)], "unknown") == 0
    ensures TabValue([Route("/docs", "Docs", 0), Route("/api", "API", 1)], "unknown") == "/docs"
  {
    var routes := [Route("/docs", "Docs", 0), Route("/api", "API", 1)];
    var pats := Patterns(routes);
    DocsPattern();
    ApiPattern();
    assert pats[0] == "docs/*" && pats[1] == "api/*";
    UnknownMatchesNeither();
    assert BestMatch(pats, "unknown").None?;
  }

  lemma ApiPattern()
    ensures PatternOf("/api") == "api/*"
  {
    assert "/api"[1..] == "api";
  }

  lemma UnknownMatchesNeither()
    ensures !Matches("docs/*", "unknown") && !Matches("api/*", "unknown")
  {
    assert "docs/*"[..4] == "docs" && "api/*"[..3] == "api";
    assert "unknown"[0] == 'u';
  }
}
