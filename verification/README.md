# Backstage front-end shell: decision logic in Dafny

This project models the pure decision logic inside the pages and cards of a Backstage front-end app and proves properties of it. The app is a React shell over Backstage's catalog, search, notification, feature-flag, identity and theme client APIs. The logic itself is small, and each piece is modelled as a pure function on immutable data:

- the entity-page tab router. It extracts the route table, turns paths into match patterns, and computes the base path, the selected tab and the click target;
- the breadcrumb label resolver;
- the catalog-style list pages (catalog, API explorer, template picker, docs index, notifications):
  - entity hrefs and refs;
  - query filters;
  - page arithmetic and the events that reset the offset;
  - tag truncation;
  - the relative "time ago" text;
  - the severity icon and badge;
  - "mark all as read" and "toggle saved";
- the cards and settings panels:
  - the search type toggle and filter map;
  - related-entity ref de-duplication;
  - feature-flag search, the active-first sort and toggling;
  - ownership grouping by kind;
  - member lists;
  - profile initials;
  - the About card rows;
  - auth-provider filtering;
  - theme options;
  - the processing-errors panel.

Module layout:

- `Wrappers`: `Option`, plus the two JavaScript fallbacks. `??` is `GetOr`, which keeps an empty string. `||` is `OrElse`, which treats `""` as missing.
- `Text`: ASCII case mapping, prefix/suffix/substring tests, `lastIndexOf`, decimal rendering and parsing, and splitting at a character.
- `Seqs`: de-duplication in first-occurrence order, order-preserving `Filter`, `Somes` and `Found` (running a lookup over a list of keys and dropping the failures), and truncation to a limit.
- `Arith`: small nonlinear-arithmetic facts the page lemmas use.
- One module per component:
  - `EntityLayout`, `Breadcrumbs`, `EntityLinks`, `Pagination`, `ListQueries`, `Notifications`;
  - `Search`, `Relations`, `FeatureFlags`, `OrgCards`, `UserProfile`;
  - `AboutCard`, `AuthProviders`, `ThemeToggle`, `WarningCards`.

Framework calls are not modelled; their results are parameters:

- `parseEntityRef` → `parse: string -> Option<string>`;
- `catalogApi.getEntityByRef` → `lookup: string -> Option<E>`;
- the session state, the profile, whether an API is registered, and the installed themes are plain values;
- the clock enters only as the millisecond difference given to `TimeAgo`.

## Model

| member | source | states |
|---|---|---|
| EntityLayout.ExtractOne | packages/app/src/components/catalog/CustomEntityLayout.tsx:51-59 | a declared route yields exactly one route (its path, title and content) when it has no `if` or its `if` holds for the entity, and nothing otherwise |
| EntityLayout.ExtractRoutes | packages/app/src/components/catalog/CustomEntityLayout.tsx:45-62 | the route table never has more entries than there are declarations |
| EntityLayout.ExtractKeepsKept | packages/app/src/components/catalog/CustomEntityLayout.tsx:45-62 | every declaration that passes its visibility test appears in the table |
| EntityLayout.ExtractOnlyKept | packages/app/src/components/catalog/CustomEntityLayout.tsx:45-62 | every entry of the table comes from a declaration that passed its visibility test |
| EntityLayout.ExtractSingle | packages/app/src/components/catalog/CustomEntityLayout.tsx:52 | a route without an `if` predicate is always kept; with one, it is kept exactly when the predicate holds |
| EntityLayout.ExtractConcat | packages/app/src/components/catalog/CustomEntityLayout.tsx:45-62 | extraction distributes over concatenation of the declarations, so the table keeps declaration order |
| EntityLayout.ExtractAgree | packages/app/src/components/catalog/CustomEntityLayout.tsx:45-62 | two entities on which every predicate agrees get the same route table |
| EntityLayout.ToggleVisibility | packages/app/src/components/catalog/CustomEntityLayout.tsx:52 | when only one route's predicate changes between two entities, the tables differ only in that route's presence, at its declared position |
| EntityLayout.PatternOf | packages/app/src/components/catalog/CustomEntityLayout.tsx:68 | the pattern is `*` exactly for the path `/`; any other path gives a pattern ending in `/*` whose stem is exactly the path without its leading `/` when it has one, and the path itself otherwise |
| EntityLayout.Patterns | packages/app/src/components/catalog/CustomEntityLayout.tsx:65-72 | there is one pattern per route, in route order |
| EntityLayout.BestMatchUnique | packages/app/src/components/catalog/CustomEntityLayout.tsx:86-89 | at most one index satisfies the best-match rule: matches, highest rank, earliest among equals |
| EntityLayout.BestMatch | packages/app/src/components/catalog/CustomEntityLayout.tsx:86-89 | there is no match exactly when no pattern matches the sub-path; otherwise the result is the best match |
| EntityLayout.Matches | packages/app/src/components/catalog/CustomEntityLayout.tsx:86-89 | the route match used for tabs; its behaviour is stated by `DocsPattern` and the `Scenario` lemmas |
| EntityLayout.Rank | packages/app/src/components/catalog/CustomEntityLayout.tsx:86-89 | how specific a pattern is; the best match is unique under it (`BestMatchUnique`) |
| EntityLayout.SelectedIndex | packages/app/src/components/catalog/CustomEntityLayout.tsx:86-94 | the selected index is valid whenever there are routes; it is 0 when nothing matches and the best match's index otherwise |
| EntityLayout.BestMatchFirstOccurrence | packages/app/src/components/catalog/CustomEntityLayout.tsx:87-90 | the router's pick is the first route with its pattern, so looking the matched pattern up again by `findIndex` returns the same tab |
| EntityLayout.NonNegativeOr | packages/app/src/components/catalog/CustomEntityLayout.tsx:90-91 | a `findIndex` result is used when it is non-negative, and the fallback is used otherwise |
| EntityLayout.TabValue | packages/app/src/components/catalog/CustomEntityLayout.tsx:94-104 | the tab value is the selected route's path, or `/` when there are no routes or the path is empty; it is never empty |
| EntityLayout.BasePath | packages/app/src/components/catalog/CustomEntityLayout.tsx:78-83 | with no sub-path, the base is the pathname with a trailing `/` added only if it is missing, so it ends in `/`; in every case the base is a prefix of the pathname or the pathname plus `/` |
| EntityLayout.BasePathRoundTrip | packages/app/src/components/catalog/CustomEntityLayout.tsx:79-80 | when the sub-path is a non-empty suffix of the pathname, base + sub-path reconstructs the pathname |
| EntityLayout.SubPath | packages/app/src/components/catalog/CustomEntityLayout.tsx:78 | `params['*'] || ''`: the splat, or empty when it is absent or empty; `SplatBasePath` connects it to the base path |
| EntityLayout.SplatBasePath | packages/app/src/components/catalog/CustomEntityLayout.tsx:78-83 | without a splat the base path ends in `/`; with a splat that ends the pathname, base path plus splat is the pathname |
| EntityLayout.BasePathMissingSubPath | packages/app/src/components/catalog/CustomEntityLayout.tsx:80 | when the sub-path does not occur, `lastIndexOf` is -1 and the base is the pathname minus its last character |
| EntityLayout.TabSuffix | packages/app/src/components/catalog/CustomEntityLayout.tsx:97 | `/` maps to the empty suffix, any other value starting with `/` is `/` followed by its suffix, and a value without a leading `/` is its own suffix |
| EntityLayout.TabTarget | packages/app/src/components/catalog/CustomEntityLayout.tsx:96-99 | a tab click navigates to the base path followed by the tab's suffix |
| EntityLayout.TabSuffixBestMatch | packages/app/src/components/catalog/CustomEntityLayout.tsx:86-92 | for well-formed distinct tab paths, a tab's own suffix is best matched by that tab's pattern |
| EntityLayout.TabClickSelectsTab | packages/app/src/components/catalog/CustomEntityLayout.tsx:86-104 | after clicking tab i, tab i is selected and the tab value is its path |
| EntityLayout.TabClickKeepsBase | packages/app/src/components/catalog/CustomEntityLayout.tsx:78-98 | the base path recomputed from a click target equals the base path that built it |
| EntityLayout.DocsPattern | packages/app/src/components/catalog/CustomEntityLayout.tsx:68 | `/docs` becomes `docs/*`, which does not match an unrelated sub-path |
| EntityLayout.ScenarioDocs | packages/app/src/components/catalog/CustomEntityLayout.tsx:86-104 | with Overview `/` and Docs `/docs`, the sub-path `docs` selects Docs and the tab value is `/docs` |
| EntityLayout.ScenarioRoot | packages/app/src/components/catalog/CustomEntityLayout.tsx:86-94 | an empty sub-path selects the Overview tab |
| EntityLayout.ScenarioUnknown | packages/app/src/components/catalog/CustomEntityLayout.tsx:86-94 | an unknown sub-path is caught by the `*` route and selects Overview |
| EntityLayout.ScenarioClickDocs | packages/app/src/components/catalog/CustomEntityLayout.tsx:96-99 | clicking `/docs` at base `/catalog/default/component/foo/` goes to `/catalog/default/component/foo/docs` |
| EntityLayout.NoMatchFallsBackToFirst | packages/app/src/components/catalog/CustomEntityLayout.tsx:87-94 | with no `/` route and an unknown sub-path, the first tab is selected |
| Breadcrumbs.ExactIndex | packages/app/src/components/Root/Root.tsx:31 | finds a table key equal to the pathname, or reports that there is none |
| Breadcrumbs.FirstPrefixIndex | packages/app/src/components/Root/Root.tsx:33-35 | finds the first key, in declaration order, that is a string prefix of the pathname, or reports that none is |
| Breadcrumbs.PageLabel | packages/app/src/components/Root/Root.tsx:29-37 | the crumb is the default `Backstage` or the label of one of the route table's entries |
| Breadcrumbs.LabelIn | packages/app/src/components/Root/Root.tsx:29-37 | the label is always a table label or the default |
| Breadcrumbs.ExactKeyWins | packages/app/src/components/Root/Root.tsx:31 | an exact key match returns that key's label |
| Breadcrumbs.FirstPrefixWins | packages/app/src/components/Root/Root.tsx:33-35 | without an exact match, the first prefix key in declaration order wins |
| Breadcrumbs.NoKeyGivesDefault | packages/app/src/components/Root/Root.tsx:36 | with no prefix key at all, the label is `Backstage` |
| Breadcrumbs.PageLabelRange | packages/app/src/components/Root/Root.tsx:17-36 | the page label is one of the nine labels or `Backstage` |
| Breadcrumbs.CatalogShadowsGraph | packages/app/src/components/Root/Root.tsx:17-34 | `/catalog-graph/x` resolves to `Home` because `/catalog` is declared first, while exact `/catalog-graph` resolves to `Graph` |
| Breadcrumbs.PrefixIsNotSegmentAware | packages/app/src/components/Root/Root.tsx:34 | `/docsfoo` resolves to `Docs` |
| EntityLinks.EntityPath | packages/app/src/components/catalog/CatalogIndexPage.tsx:56-61 | an entity href starts with its root and ends with the entity name, whose case is kept; its length accounts for exactly the namespace, kind, name and two separators |
| EntityLinks.NamespaceOf | packages/app/src/components/catalog/CatalogIndexPage.tsx:58 | `namespace ?? 'default'`: only a missing namespace becomes `default`; `MissingNamespaceIsDefault` and `LinkNamespaceVersusNullish` state its behaviour |
| EntityLinks.EntityHref | packages/app/src/components/catalog/CatalogIndexPage.tsx:56-61 | the link starts with `/catalog/` and ends with the entity's name as written |
| EntityLinks.DocsHref | packages/app/src/components/techdocs/TechDocsIndexPage.tsx:39-44 | the link starts with `/docs/` and ends with the entity's name as written |
| EntityLinks.ParsePath | packages/app/src/components/catalog/CatalogIndexPage.tsx:56-61 | the inverse reading of an href: when it succeeds, the parts rebuild the href exactly |
| EntityLinks.EntityPathRoundTrip | packages/app/src/components/techdocs/TechDocsIndexPage.tsx:39-44 | parsing a catalog or docs href gives back the lowercased namespace (`default` when missing), the lowercased kind and the name as written |
| EntityLinks.EntityRef | packages/app/src/components/catalog/CatalogIndexPage.tsx:63-65 | an entity ref has no upper-case letters; its length is kind + namespace + name + 2 |
| EntityLinks.ParseRef | packages/app/src/components/catalog/CatalogIndexPage.tsx:63-65 | the inverse reading of a ref: when it succeeds, `kind:namespace/name` rebuilds it |
| EntityLinks.EntityRefRoundTrip | packages/app/src/components/catalog/ApiExplorerPage.tsx:61-63 | parsing a ref gives back the lowercased kind, namespace (`default` when missing) and name |
| EntityLinks.HrefAgreesWithRef | packages/app/src/components/catalog/CatalogIndexPage.tsx:56-65 | an entity's href and ref name the same namespace and kind; their names agree up to case |
| EntityLinks.MissingNamespaceIsDefault | packages/app/src/components/catalog/ApiExplorerPage.tsx:54-63 | a missing namespace builds the same href and ref as the namespace `default` |
| EntityLinks.TemplateLink | packages/app/src/components/scaffolder/ScaffolderPage.tsx:292 | the Choose link starts with `/create/templates/` and ends with the template name |
| EntityLinks.TemplateLinkKeepsCase | packages/app/src/components/scaffolder/ScaffolderPage.tsx:292 | the template link keeps namespace and name case, unlike the catalog href |
| EntityLinks.TemplateLinkRoundTrip | packages/app/src/components/scaffolder/ScaffolderPage.tsx:292 | splitting the template link after its prefix at the first `/` recovers the namespace (`default` when missing) and the name |
| EntityLinks.LinkNamespace | packages/app/src/components/catalog/entity-cards/RelationsCard.tsx:185 | a relation-row link namespace is never empty and keeps a non-empty namespace as written |
| EntityLinks.LinkNamespaceVersusNullish | packages/app/src/components/catalog/entity-cards/OrgCards.tsx:232 | the `||` fallback of the member and ownership links differs from the list pages' `??` fallback exactly on an empty namespace |
| EntityLinks.ShownTags | packages/app/src/components/catalog/CatalogIndexPage.tsx:305-318 | the shown tags are a prefix of the tags, of length min(len, limit) |
| EntityLinks.OverflowBadge | packages/app/src/components/catalog/CatalogIndexPage.tsx:305-318 | a `+N` badge exists exactly when there are more tags than the limit |
| EntityLinks.OverflowBadgeCounts | packages/app/src/components/catalog/CatalogIndexPage.tsx:305-318 | the badge's digits read back as N, and shown + N equals the number of tags |
| EntityLinks.PlaceTags | packages/app/src/components/scaffolder/ScaffolderPage.tsx:272-286 | catalog rows and docs cards show the first 3 tags and template cards the first 4; only catalog rows add the `+N` badge, exactly when tags are hidden |
| EntityLinks.PlaceTagsComplete | packages/app/src/components/techdocs/TechDocsIndexPage.tsx:258-272 | all tags are on screen exactly when the place's limit is not exceeded, and a catalog badge's N counts the hidden tags |
| Pagination.TotalPages | packages/app/src/components/catalog/CatalogIndexPage.tsx:123 | the page count is the least number of full pages that covers every item (ceiling division) |
| Pagination.CurrentPage | packages/app/src/components/catalog/CatalogIndexPage.tsx:124 | the current page is the 1-based page whose item range contains the offset |
| Pagination.Prev | packages/app/src/components/catalog/CatalogIndexPage.tsx:337-338 | Previous never increases the offset and never goes negative; it moves back exactly one page when a full page is behind, else to 0 |
| Pagination.Next | packages/app/src/components/catalog/CatalogIndexPage.tsx:347-348 | Next moves the offset forward by exactly one page |
| Pagination.PrevDisabled | packages/app/src/components/catalog/CatalogIndexPage.tsx:338 | Previous is off on the first offset; `PrevDisabledIff` states that this is exactly when it would not move |
| Pagination.PrevDisabledIff | packages/app/src/components/catalog/CatalogIndexPage.tsx:337-338 | with a positive page size, Previous is disabled exactly when clicking it would leave the offset unchanged |
| Pagination.NextDisabled | packages/app/src/components/catalog/CatalogIndexPage.tsx:348 | Next is off once the next page would start at or after the total |
| Pagination.NextDisabledOnLastPage | packages/app/src/components/catalog/CatalogIndexPage.tsx:123-124 | on a page-aligned offset, Next is disabled exactly when the page shown is the last of `TotalPages` |
| Pagination.PagerShown | packages/app/src/components/catalog/CatalogIndexPage.tsx:328 | the pager is drawn for more than one page; `PagerShownIff` states it as more items than fit on a page |
| Pagination.PagerShownIff | packages/app/src/components/catalog/CatalogIndexPage.tsx:328 | the pager shows exactly when the items exceed one page |
| Pagination.NextEnabledStaysInRange | packages/app/src/components/catalog/CatalogIndexPage.tsx:347-348 | an enabled Next always lands on an offset below the total |
| Pagination.PrevUndoesNext | packages/app/src/components/catalog/CatalogIndexPage.tsx:337-348 | Previous after Next returns to the original offset |
| Pagination.CurrentPageWithinTotal | packages/app/src/components/catalog/CatalogIndexPage.tsx:123-124 | for an offset inside the results, the current page never exceeds the page count |
| Pagination.Step | packages/app/src/components/catalog/CatalogIndexPage.tsx:118-176 | choosing a filter, editing the search or clearing it keeps the rest and sets the offset to 0; Previous and Next move only the offset, and Next does nothing when it is disabled |
| Pagination.StepKeepsAligned | packages/app/src/components/catalog/CatalogIndexPage.tsx:337-348 | every event keeps the offset a multiple of the page size |
| Pagination.RunKeepsAligned | packages/app/src/components/catalog/CatalogIndexPage.tsx:118-348 | any sequence of events from an aligned state keeps the offset aligned |
| Pagination.ResetEventsGoToFirstPage | packages/app/src/components/catalog/CatalogIndexPage.tsx:165-176 | after a filter, search or clear event the list shows page 1 |
| ListQueries.FullText | packages/app/src/components/catalog/CatalogIndexPage.tsx:97-99 | a full-text filter is present exactly for a non-empty term, and carries it unchanged |
| ListQueries.PagedQuery | packages/app/src/components/catalog/CatalogIndexPage.tsx:93-101 | a query carries the given filter, limit and offset and orders by `metadata.name` ascending; its term reads back as the search term |
| ListQueries.OptionalEntry | packages/app/src/components/catalog/ApiExplorerPage.tsx:90-91 | an optional filter entry is present exactly when the choice is non-empty, and then holds it |
| ListQueries.LookupRequiredThenOptional | packages/app/src/components/catalog/ApiExplorerPage.tsx:90-91 | adding the optional entry leaves the required entry readable and adds nothing else |
| ListQueries.CatalogQuery | packages/app/src/components/catalog/CatalogIndexPage.tsx:93-101 | one filter entry, the selected kind; a page of 20 at the given offset, the search term as the full-text term, ordered ascending by name |
| ListQueries.ApiQuery | packages/app/src/components/catalog/ApiExplorerPage.tsx:90-99 | the kind is always `API`; the type entry is present exactly when a type is chosen and then holds it; page size, offset, term and order as on the catalog page |
| ListQueries.TemplateQuery | packages/app/src/components/scaffolder/ScaffolderPage.tsx:77-86 | the kind is always `Template`; the type entry is present exactly when a type is chosen; pages of 24 |
| ListQueries.DocsQuery | packages/app/src/components/techdocs/TechDocsIndexPage.tsx:72-84 | only documented entities are asked for; the kind entry is present exactly when a kind is chosen; pages of 20 |
| ListQueries.CatalogQueryInverse | packages/app/src/components/catalog/CatalogIndexPage.tsx:93-101 | the kind, term, offset and page size can be read back from the catalog query |
| ListQueries.ApiQueryInverse | packages/app/src/components/catalog/ApiExplorerPage.tsx:90-99 | the API query always has kind `API`; `spec.type` is present exactly for a non-empty type and reads back as it; the term and limit 20 read back |
| ListQueries.ApiQueryInjective | packages/app/src/components/catalog/ApiExplorerPage.tsx:90-99 | different type, term or offset choices build different API queries |
| ListQueries.TemplateQueryInverse | packages/app/src/components/scaffolder/ScaffolderPage.tsx:77-86 | the template query always has kind `Template`; `spec.type` is present exactly for a non-empty type (the `''` pill means All); limit 24 |
| ListQueries.DocsQueryInverse | packages/app/src/components/techdocs/TechDocsIndexPage.tsx:72-84 | the docs query always requires the techdocs-ref annotation; kind is present exactly for a non-empty kind filter; limit 20 |
| ListQueries.PillLabel | packages/app/src/components/techdocs/TechDocsIndexPage.tsx:139 | a pill label is never empty; a non-empty kind labels itself |
| ListQueries.PillLabelInjective | packages/app/src/components/techdocs/TechDocsIndexPage.tsx:139 | apart from a kind literally named `All`, different pills have different labels |
| ListQueries.DocsPillLabels | packages/app/src/components/techdocs/TechDocsIndexPage.tsx:63 | the docs pills read All, Component, API, System |
| ListQueries.PillClickQuery | packages/app/src/components/techdocs/TechDocsIndexPage.tsx:128-131 | clicking a pill queries that kind from offset 0, whatever the previous state |
| Notifications.TimeAgo | packages/app/src/components/notifications/NotificationsPage.tsx:95-106 | `just now` exactly for a difference under one minute, including a future date; the minute, hour and day counts stay within their bucket bounds |
| Notifications.AgoText | packages/app/src/components/notifications/NotificationsPage.tsx:99-105 | `just now`, the locale date for older items, or a decimal count followed by `m`, `h` or `d` and ` ago` whose digits read back as the bucket's count |
| Notifications.CountText | packages/app/src/components/notifications/NotificationsPage.tsx:100-104 | the count text is digits, the unit letter and ` ago`, and the digits read back as the count |
| Notifications.TimeAgoBuckets | packages/app/src/components/notifications/NotificationsPage.tsx:95-106 | each bucket covers exactly its millisecond range, and its count is the floor of the difference in that unit |
| Notifications.TimeAgoMonotone | packages/app/src/components/notifications/NotificationsPage.tsx:98-104 | a larger difference never shows a smaller age |
| Notifications.MinutesTextInjective | packages/app/src/components/notifications/NotificationsPage.tsx:100 | different minute counts give different texts |
| Notifications.SeverityIcon | packages/app/src/components/notifications/NotificationsPage.tsx:65-76 | the severity icon is never the bell fallback |
| Notifications.SeverityIconInjective | packages/app/src/components/notifications/NotificationsPage.tsx:65-76 | critical, high and low get three different icons: equal icons mean equal severities |
| Notifications.SeverityBadge | packages/app/src/components/notifications/NotificationsPage.tsx:78-93 | a badge exists only for a present severity, and names it |
| Notifications.IconIffBadge | packages/app/src/components/notifications/NotificationsPage.tsx:65-93 | the icon and the badge are both absent exactly for a missing or `normal` severity, and the row shows the bell exactly then |
| Notifications.RowIcon | packages/app/src/components/notifications/NotificationsPage.tsx:305-307 | the row's icon, with the bell as fallback; `IconIffBadge` states that the bell shows exactly when no badge does |
| Notifications.SeverityNameInjective | packages/app/src/components/notifications/NotificationsPage.tsx:78-93 | different severities get different badge texts |
| Notifications.TabOptions | packages/app/src/components/notifications/NotificationsPage.tsx:129-136 | the options always use limit 20, the current offset and `created` descending; `unread` adds read=false, `saved` adds saved=true, `all` adds neither |
| Notifications.TabOptionsInverse | packages/app/src/components/notifications/NotificationsPage.tsx:129-136 | the tab and offset can be read back from the options |
| Notifications.TabOf | packages/app/src/components/notifications/NotificationsPage.tsx:129-136 | recovers the tab from its options; `TabOptionsInverse` states the round trip |
| Notifications.EmptyMessage | packages/app/src/components/notifications/NotificationsPage.tsx:277 | every tab has a non-empty message for an empty list |
| Notifications.EmptyMessageDistinct | packages/app/src/components/notifications/NotificationsPage.tsx:277 | no two tabs share their empty-list message |
| Notifications.MarkAllShown | packages/app/src/components/notifications/NotificationsPage.tsx:214 | the button's condition: the unread tab with a non-empty list |
| Notifications.MarkAllShownSendsRequest | packages/app/src/components/notifications/NotificationsPage.tsx:177-188 | where every listed item is unread, the button is shown exactly on the unread tab when pressing it sends a request |
| Notifications.TabSwitchFirstPage | packages/app/src/components/notifications/NotificationsPage.tsx:236-238 | switching tab fetches that tab's first page |
| Notifications.MarkAllAsRead | packages/app/src/components/notifications/NotificationsPage.tsx:177-188 | no request when nothing listed is unread; otherwise the ids sent are exactly those of the unread notifications listed |
| Notifications.IsUnread | packages/app/src/components/notifications/NotificationsPage.tsx:179 | an item is unread exactly when it has no read date; `MarkAllAsRead` and `ApplyRead` state their behaviour through it |
| Notifications.ApplyRead | packages/app/src/components/notifications/NotificationsPage.tsx:177-188 | assumed server effect: the list keeps its length and each item's id, saved flag and severity; an item is unread afterwards exactly when it was unread and its id was not sent; a read date already set is kept and a newly read item gets the given time |
| Notifications.MarkAllLeavesNoneUnread | packages/app/src/components/notifications/NotificationsPage.tsx:177-188 | after "mark all as read" takes effect, no listed notification is unread; ids and saved flags are unchanged |
| Notifications.ToggleSaved | packages/app/src/components/notifications/NotificationsPage.tsx:166-175 | the request names that single id and sets saved to the opposite of its current value |
| Notifications.ApplySaved | packages/app/src/components/notifications/NotificationsPage.tsx:166-175 | assumed server effect: each item keeps its id, read date and severity; its saved flag becomes the requested value when its id was sent and stays as it was otherwise |
| Notifications.ToggleSavedTwice | packages/app/src/components/notifications/NotificationsPage.tsx:166-175 | toggling saved twice restores the list |
| Search.Toggle | packages/app/src/components/search/SearchPage.tsx:39-45 | toggling a present type removes it and keeps every other type; toggling an absent type appends it at the end |
| Search.IsActive | packages/app/src/components/search/SearchPage.tsx:51 | a pill is lit when no type is chosen or it is chosen; `FirstToggleSelectsOnly`, `LastToggleActivatesAll` and `ClearSearchResets` state its behaviour |
| Search.ToggleTwiceRestores | packages/app/src/components/search/SearchPage.tsx:39-45 | toggling an absent type twice restores the list |
| Search.FirstToggleSelectsOnly | packages/app/src/components/search/SearchPage.tsx:39-51 | from "all types", the first toggle makes only that pill active |
| Search.LastToggleActivatesAll | packages/app/src/components/search/SearchPage.tsx:39-51 | untoggling the only active type makes every pill active again |
| Search.SelectChoice | packages/app/src/components/search/SearchPage.tsx:96 | the select maps the empty string to no value and anything else to itself |
| Search.Shown | packages/app/src/components/search/SearchPage.tsx:95 | what a select displays; `SelectRoundTrip` states that it displays whatever was chosen |
| Search.FilterChange | packages/app/src/components/search/SearchPage.tsx:215-228 | no value deletes the key, a value sets it, and every other key is unchanged |
| Search.SelectRoundTrip | packages/app/src/components/search/SearchPage.tsx:95-96 | the select shows the option just chosen; choosing All removes the filter |
| Search.SetThenRemove | packages/app/src/components/search/SearchPage.tsx:215-228 | setting a new filter and then removing it restores the filters |
| Search.ClearSearch | packages/app/src/components/search/SearchPage.tsx:230-234 | clearing resets the term, the types and the filters to empty |
| Search.SummaryShown | packages/app/src/components/search/SearchPage.tsx:300 | the summary bar's condition; `ClearSearchResets` states that clearing hides it |
| Search.ClearSearchResets | packages/app/src/components/search/SearchPage.tsx:230-234 | after clearing, no summary is shown and every type pill is active |
| Search.TypeLabel | packages/app/src/components/search/SearchPage.tsx:138-143 | any type other than the two known ones is shown as itself |
| Search.TypeLabelChanges | packages/app/src/components/search/SearchPage.tsx:138-143 | the label differs from the type exactly for `software-catalog` and `techdocs` |
| Search.TypeLabelCollides | packages/app/src/components/search/SearchPage.tsx:138-143 | `software-catalog` is shown like a type literally named `Catalog`, and `techdocs` like `Docs` |
| Search.ResultCount | packages/app/src/components/search/SearchPage.tsx:372-374 | the count is numberOfResults when present (even 0), else the number of results listed |
| Search.ZeroTotalIsShown | packages/app/src/components/search/SearchPage.tsx:372-374 | a reported total of 0 is shown as 0, not replaced by the list length |
| Relations.RelatedRefs | packages/app/src/components/catalog/entity-cards/RelationsCard.tsx:75-90 | the seen-set loop computes exactly the distinct targets in first-occurrence order, kept by the kind filter |
| Relations.ExpectedMembers | packages/app/src/components/catalog/entity-cards/RelationsCard.tsx:75-88 | the refs are distinct, and a ref is listed exactly when it is a target that passes the kind filter |
| Relations.KeepRef | packages/app/src/components/catalog/entity-cards/RelationsCard.tsx:82-88 | the kind filter: kept without a filter, kept when the ref does not parse, else kept when the kinds agree ignoring case; `KindFilterIgnoresCase` and `ExpectedMembers` state its behaviour |
| Relations.NoKindFilterKeepsAll | packages/app/src/components/catalog/entity-cards/RelationsCard.tsx:82 | without a kind filter, every distinct target is kept |
| Relations.KindFilterIgnoresCase | packages/app/src/components/catalog/entity-cards/RelationsCard.tsx:82-88 | the kind filter compares case-insensitively |
| Relations.Resolve | packages/app/src/components/catalog/entity-cards/RelationsCard.tsx:92-116 | no refs resolve at once to no entities, with no lookup; otherwise every ref is looked up, and failures only shorten the list |
| Relations.ResolveKeepsOrder | packages/app/src/components/catalog/entity-cards/RelationsCard.tsx:100-106 | when every lookup succeeds, the list has one entity per ref, and the entity at each index is the one looked up for the ref at that index |
| Relations.ResolvedFromLookups | packages/app/src/components/catalog/entity-cards/RelationsCard.tsx:100-106 | every entity shown came from a successful lookup of one of the refs |
| Relations.ResolveSingle | packages/app/src/components/catalog/entity-cards/RelationsCard.tsx:100-106 | one ref gives the one looked-up entity when the lookup succeeds and nothing when it fails |
| Relations.ResolveConcat | packages/app/src/components/catalog/entity-cards/RelationsCard.tsx:100-106 | resolving two ref lists one after the other gives the same entities as resolving them joined: the failures drop out and the order of the refs is kept |
| Relations.ResolveCompleteIff | packages/app/src/components/catalog/entity-cards/RelationsCard.tsx:100-106 | the list has one entity per ref exactly when every lookup succeeds |
| Relations.ExpectedFirstSeenOrder | packages/app/src/components/catalog/entity-cards/RelationsCard.tsx:75-90 | the expected refs come in the order in which each is first met among the relation targets |
| Relations.Source | packages/app/src/components/catalog/entity-cards/RelationsCard.tsx:137-143 | a relation type selects the filtered source, and its absence selects the all-relations source |
| FeatureFlags.SearchFilter | packages/app/src/components/settings/FeatureFlagsCard.tsx:31-35 | a flag is kept exactly when the lowercased search occurs in its lowercased name or description |
| FeatureFlags.MatchesSearch | packages/app/src/components/settings/FeatureFlagsCard.tsx:31-35 | a flag matches when the search occurs, ignoring case, in its name or in its description when it has one; `EmptySearchKeepsAll` and `SearchIgnoresCase` state its behaviour |
| FeatureFlags.EmptySearchKeepsAll | packages/app/src/components/settings/FeatureFlagsCard.tsx:31-35 | an empty search keeps every flag, in order |
| FeatureFlags.SearchBoxShown | packages/app/src/components/settings/FeatureFlagsCard.tsx:78 | the search box exists from ten flags on; below that the search stays empty, and `EmptySearchKeepsAll` states that every flag is then listed |
| FeatureFlags.SearchIgnoresCase | packages/app/src/components/settings/FeatureFlagsCard.tsx:31-35 | searches differing only in letter case select the same flags |
| FeatureFlags.SortActiveFirst | packages/app/src/components/settings/FeatureFlagsCard.tsx:38-42 | the stable sort on the active/inactive key gives the active flags in original order, then the inactive ones in original order |
| FeatureFlags.PartitionPermutes | packages/app/src/components/settings/FeatureFlagsCard.tsx:38-42 | the sorted list is a permutation of the filtered list |
| FeatureFlags.PartitionActiveFirst | packages/app/src/components/settings/FeatureFlagsCard.tsx:38-42 | no active flag comes after an inactive one |
| FeatureFlags.PartitionStable | packages/app/src/components/settings/FeatureFlagsCard.tsx:38-42 | within each group the original order is kept |
| FeatureFlags.Toggle | packages/app/src/components/settings/FeatureFlagsCard.tsx:44-55 | a toggle saves, with merge, one state for that flag only: Active when it was inactive, None when it was active |
| FeatureFlags.ApplySave | packages/app/src/components/settings/FeatureFlagsCard.tsx:44-55 | a merged save changes only the named flags |
| FeatureFlags.ToggleFlipsOne | packages/app/src/components/settings/FeatureFlagsCard.tsx:44-55 | a toggle flips that flag and leaves every other flag as it was |
| FeatureFlags.ToggleTwiceRestores | packages/app/src/components/settings/FeatureFlagsCard.tsx:44-55 | toggling a flag twice restores the active set |
| FeatureFlags.DescriptionLine | packages/app/src/components/settings/FeatureFlagsCard.tsx:106-109 | the line is never empty: the description if truthy, else `Registered in application` for an empty plugin id, else the plugin text quoting the id |
| FeatureFlags.PluginLine | packages/app/src/components/settings/FeatureFlagsCard.tsx:106-109 | the text is `Registered in plugin "`, the plugin id, and a closing quote, and nothing else: prefix, suffix and length are pinned |
| OrgCards.DisplayName | packages/app/src/components/catalog/entity-cards/OrgCards.tsx:223-224 | the profile display name when truthy, else the entity name |
| OrgCards.AvatarText | packages/app/src/components/catalog/entity-cards/OrgCards.tsx:242 | the avatar text has min(2, length) characters, none of them lower-case |
| OrgCards.AvatarIsUpperPrefix | packages/app/src/components/catalog/entity-cards/OrgCards.tsx:242 | the avatar text is a prefix of the upper-cased name |
| OrgCards.LoadMembers | packages/app/src/components/catalog/entity-cards/OrgCards.tsx:186-201 | no member refs finish without a lookup; otherwise every ref is requested, and every member shown came from a successful lookup of one of the refs |
| OrgCards.MembersSingle | packages/app/src/components/catalog/entity-cards/OrgCards.tsx:191-198 | one member ref gives its entity when the lookup succeeds and no member when it fails |
| OrgCards.MembersConcat | packages/app/src/components/catalog/entity-cards/OrgCards.tsx:191-198 | loading two ref lists one after the other gives the members of loading them joined, in ref order |
| OrgCards.TitleCountsRefs | packages/app/src/components/catalog/entity-cards/OrgCards.tsx:207 | the member count never exceeds the number of refs and equals it exactly when every lookup succeeds; then the member at each index is the one looked up for the ref at that index |
| OrgCards.AddOwned | packages/app/src/components/catalog/entity-cards/OrgCards.tsx:297-305 | adding an entity keeps the kinds when its kind has a group, and appends its kind otherwise |
| OrgCards.GroupByKind | packages/app/src/components/catalog/entity-cards/OrgCards.tsx:297-305 | there are never more groups than owned entities, and there are none exactly when nothing is owned |
| OrgCards.GroupKindsFirstSeen | packages/app/src/components/catalog/entity-cards/OrgCards.tsx:297-305 | the group kinds are the owned kinds, de-duplicated in first-seen order |
| OrgCards.GroupsAreFilters | packages/app/src/components/catalog/entity-cards/OrgCards.tsx:297-305 | each group holds exactly the owned entities of its kind, in their original order |
| OrgCards.GroupSizesSum | packages/app/src/components/catalog/entity-cards/OrgCards.tsx:297-305 | the group sizes sum to the number of owned entities |
| OrgCards.GroupView | packages/app/src/components/catalog/entity-cards/OrgCards.tsx:329-346 | a group shows its first min(size, 10) entities; `and N more` appears exactly when there are more, and N is the size minus the shown count |
| OrgCards.GroupViewsAccountForOwned | packages/app/src/components/catalog/entity-cards/OrgCards.tsx:297-346 | over all headings, the listed entities plus the `and N more` counts equal the number of owned entities |
| UserProfile.DisplayName | packages/app/src/components/settings/UserProfileCard.tsx:33-34 | the display name is the profile name if present (even empty), else the user entity ref if present, else `Guest` |
| UserProfile.Split | packages/app/src/components/settings/UserProfileCard.tsx:36 | splitting gives at least one piece, and no piece contains whitespace or `@`; `SplitJoin` and `SplitUnique` pin which pieces |
| UserProfile.SplitJoin | packages/app/src/components/settings/UserProfileCard.tsx:36 | joining the pieces with the separator runs cut out between them gives the name back; the runs are non-empty and all separators, the pieces hold no separator, and only the first and last piece may be empty |
| UserProfile.SplitUnique | packages/app/src/components/settings/UserProfileCard.tsx:36 | any pieces and runs with those properties are exactly the split and its runs, so the split is determined by the name |
| UserProfile.SplitKeepsLetters | packages/app/src/components/settings/UserProfileCard.tsx:36 | joining the pieces gives the name with all separators removed |
| UserProfile.InnerPiecesNonEmpty | packages/app/src/components/settings/UserProfileCard.tsx:36 | only the first and last pieces can be empty, because a run of separators splits once |
| UserProfile.InitialOf | packages/app/src/components/settings/UserProfileCard.tsx:38 | a piece contributes its upper-cased first character, and an empty piece contributes nothing |
| UserProfile.Initials | packages/app/src/components/settings/UserProfileCard.tsx:35-39 | the initials have at most 2 characters, none lower-case and none a separator; `InitialsOfTwoWords` states which letters |
| UserProfile.InitialsOfTwoWords | packages/app/src/components/settings/UserProfileCard.tsx:35-39 | for any name that starts with two words separated by a separator run, the initials are the two words' first letters, upper-cased |
| UserProfile.InitialsEmptyIff | packages/app/src/components/settings/UserProfileCard.tsx:35-39 | the initials are empty exactly when the first two pieces are empty |
| UserProfile.FallbackIcon | packages/app/src/components/settings/UserProfileCard.tsx:67-68 | the avatar falls back to the icon when the initials are empty; `EmptyProfileNameShowsIcon` states when |
| UserProfile.EmptyProfileNameShowsIcon | packages/app/src/components/settings/UserProfileCard.tsx:33-34 | an empty profile name is kept by `??`, so the fallback icon shows |
| UserProfile.InitialsOfFullName | packages/app/src/components/settings/UserProfileCard.tsx:35-39 | `Jane Doe` gives `JD` |
| UserProfile.InitialsOfEmail | packages/app/src/components/settings/UserProfileCard.tsx:35-39 | `ann@corp` gives `AC` |
| UserProfile.RefSectionShown | packages/app/src/components/settings/UserProfileCard.tsx:83 | the entity-ref block is shown only for a signed-in identity with a non-empty ref |
| UserProfile.OwnershipShown | packages/app/src/components/settings/UserProfileCard.tsx:95 | the ownership line's condition; `OwnershipNeedsRef` states it never appears without the ref block |
| UserProfile.OwnershipNeedsRef | packages/app/src/components/settings/UserProfileCard.tsx:83-96 | the ownership list appears only inside the entity-ref section, and neither appears without an identity |
| AboutCard.RelationsOf | packages/app/src/components/catalog/entity-cards/AboutCard.tsx:25-31 | a relation is listed exactly when it has the requested type and, when a kind is given, its target kind matches case-insensitively |
| AboutCard.DescriptionText | packages/app/src/components/catalog/entity-cards/AboutCard.tsx:19 | the description text is never empty |
| AboutCard.Pushed | packages/app/src/components/catalog/entity-cards/AboutCard.tsx:33-132 | the conditional pushes produce exactly the rows whose condition holds |
| AboutCard.PushedAscending | packages/app/src/components/catalog/entity-cards/AboutCard.tsx:33-132 | pushing a subset of candidates in a fixed order keeps that order |
| AboutCard.Candidates | packages/app/src/components/catalog/entity-cards/AboutCard.tsx:33-132 | the eight candidate rows come in the order Description, Owner, System, Domain, Type, Lifecycle, Labels, Tags |
| AboutCard.Rows | packages/app/src/components/catalog/entity-cards/AboutCard.tsx:33-132 | between one and eight rows, always starting with the Description row showing the description or its placeholder |
| AboutCard.RowsInFixedOrder | packages/app/src/components/catalog/entity-cards/AboutCard.tsx:33-132 | the rows follow that fixed order, and no row heading repeats |
| AboutCard.RowPresentIff | packages/app/src/components/catalog/entity-cards/AboutCard.tsx:35-119 | each row appears exactly when its condition holds (non-empty relations, truthy type or lifecycle, some label or tag); Description always does, and it comes first |
| AboutCard.SystemRowsArePartOf | packages/app/src/components/catalog/entity-cards/AboutCard.tsx:26-31 | the System and Domain rows list exactly the entity's part-of relations to systems and to domains |
| AuthProviders.ProviderOf | packages/app/src/components/settings/AuthProvidersCard.tsx:33-86 | exactly the nine known keys have a provider, each with a non-empty title |
| AuthProviders.Configured | packages/app/src/components/settings/AuthProvidersCard.tsx:202-208 | a missing or unreadable `auth.providers` section yields no keys |
| AuthProviders.ListedAsWritten | packages/app/src/components/settings/AuthProvidersCard.tsx:211 | the written filter keeps a configured key exactly when it is a provider key or a name inherited from the object prototype |
| AuthProviders.InheritedNameIsListed | packages/app/src/components/settings/AuthProvidersCard.tsx:211 | a config naming only `toString` lists `toString`, which has no provider |
| AuthProviders.Listed | packages/app/src/components/settings/AuthProvidersCard.tsx:211 | the listed keys are exactly the configured keys that name a known provider, in config order |
| AuthProviders.EmptyStateIff | packages/app/src/components/settings/AuthProvidersCard.tsx:222 | the empty state shows exactly when no configured key names a known provider |
| AuthProviders.ListedDistinct | packages/app/src/components/settings/AuthProvidersCard.tsx:236-240 | distinct config keys give distinct row keys |
| AuthProviders.AsWrittenAgreesOffPrototype | packages/app/src/components/settings/AuthProvidersCard.tsx:211 | the two filters agree on every config without prototype names |
| AuthProviders.SecondaryText | packages/app/src/components/settings/AuthProvidersCard.tsx:160-164 | unless the user is signed in with a display name, the second line is the provider's description |
| AuthProviders.SecondaryShowsProfile | packages/app/src/components/settings/AuthProvidersCard.tsx:160-164 | signed in with a display name, the second line is the name, followed by ` · email` only when there is an email |
| AuthProviders.Row | packages/app/src/components/settings/AuthProvidersCard.tsx:101-190 | a row exists exactly when the provider's API is registered; `Connected` and the Sign out button show exactly when the session state is `SignedIn`; an avatar shows only when signed in |
| ThemeToggle.IconOf | packages/app/src/components/settings/ThemeToggle.tsx:20-29 | Sun exactly for `light`, Moon exactly for `dark`, Monitor otherwise |
| ThemeToggle.Choices | packages/app/src/components/settings/ThemeToggle.tsx:32-43 | one option per installed theme, in order, then `auto` last |
| ThemeToggle.Selected | packages/app/src/components/settings/ThemeToggle.tsx:45 | the selected id is the active theme id, or `auto` when there is none |
| ThemeToggle.OnClick | packages/app/src/components/settings/ThemeToggle.tsx:52-55 | clicking `auto` clears the active theme; clicking any other option sets its id |
| ThemeToggle.Highlighted | packages/app/src/components/settings/ThemeToggle.tsx:59 | a button is lit when its id is the selected one; `AtMostOneHighlighted` and `SomeHighlighted` state its behaviour |
| ThemeToggle.ClickSelects | packages/app/src/components/settings/ThemeToggle.tsx:45-59 | after a click the clicked option is the selected one |
| ThemeToggle.AtMostOneHighlighted | packages/app/src/components/settings/ThemeToggle.tsx:59 | with distinct theme ids, none of them `auto`, no two options are highlighted together |
| ThemeToggle.SomeHighlighted | packages/app/src/components/settings/ThemeToggle.tsx:45-59 | some option is highlighted exactly when the selected id is `auto` or an installed theme's id |
| WarningCards.Errors | packages/app/src/components/catalog/entity-cards/WarningCards.tsx:26-30 | the errors are the status items with level or type `error`; a missing status or item list gives none |
| WarningCards.IsError | packages/app/src/components/catalog/entity-cards/WarningCards.tsx:26-30 | which status items count as errors; `PanelShownIff` states the panel shows exactly when one does |
| WarningCards.ErrorText | packages/app/src/components/catalog/entity-cards/WarningCards.tsx:44 | the message is never empty: the item's message if truthy, else the nested error's message if truthy, else `Unknown error` |
| WarningCards.Panel | packages/app/src/components/catalog/entity-cards/WarningCards.tsx:32-46 | no panel exactly when there are no errors; otherwise one line per error, in order |
| WarningCards.PanelShownIff | packages/app/src/components/catalog/entity-cards/WarningCards.tsx:26-32 | the panel shows exactly when some status item is an error |

## Left out

- Notifications.ApplyRead: an assumed model of the notification server's read update; the page only sends the ids and re-fetches, so nothing in the source states this effect.
- Notifications.ApplySaved: an assumed model of the notification server's saved update; the page only sends the request and re-fetches.
- FeatureFlags.ApplySave: an assumed model of the flag store's merged save; the card only calls `save` and reads the flags back.
- JSX structure, CSS classes, icons as components, loading skeletons and the static theme configuration: presentation only.
- Asynchronous fetching, `cancelled` flags, error state and `Promise.all`: lookups are the function parameter `lookup`, which makes them all-or-nothing per ref. Only the pre- and post-processing around the calls is modelled.
- `useDebouncedValue`: timers are not modelled; the debounced term is the `input` of a list state.
- React Router's `matchRoutes`/`useRoutes` are not modelled.
  - They are replaced by an explicit matcher: `*` matches anything at rank 0, and `p/*` matches `s` exactly when `s == p` or `s` starts with `p/`, at rank |p| + 2, the pattern's length.
  - The highest rank wins, and the earliest index breaks ties.
- `parseEntityRef`, `getEntityRelations`, `catalogApi`, `identityApi`, `configApi`, `appThemeApi` and the session observable: these are framework calls. They are parameters, or pre-parsed values such as `AboutCard.Relation`.
- AboutCard.RelationsOf stands in for `getEntityRelations`, as a type match with a case-insensitive kind match on an already parsed target.
- Notifications.TimeAgo: takes the millisecond difference; `new Date()` and `toLocaleDateString` are outside the model, so the oldest bucket is the abstract `Older`, rendered from a caller-supplied date string.
- Unicode case mapping: `Text.Lower`/`Text.Upper` map ASCII letters only; other characters are unchanged.
- Unicode whitespace: `UserProfile.IsSep` treats the six ASCII whitespace characters and `@` as separators. Other Unicode spaces that `\s` matches are not modelled.
- OrgCards.GroupByKind: the `reduce` into a plain object is a fold into an ordered list of (kind, group). Integer-like kinds, which JavaScript enumerates first, are not modelled, and neither is the prototype lookup of a kind named like an `Object.prototype` member.
- EntityLinks.ShownTags: a missing `metadata.tags` is taken as the empty list.
- AboutCard.Candidates: missing `metadata.tags` and `metadata.labels` are the empty list and the empty label list; label pairs are in object key order.
- WarningCards.Errors: status fields are strings or missing; non-string values, which JavaScript would compare or coerce, are not modelled.
- Static pages and cards whose logic is a fixed lookup (orphan and relation warnings, links, API definition, empty states, sidebar, settings page, entity page declarations): no decision logic worth stating.

## Findings

| source | as written | input that shows it | evidently intended | confidence | as-written member | corrected member |
|---|---|---|---|---|---|---|
| packages/app/src/components/settings/AuthProvidersCard.tsx:211 | `key in PROVIDER_MAP` is also true for names the object literal inherits from its prototype | `auth.providers` with the single key `toString`: the key is listed, so the empty state is not shown, yet `PROVIDER_MAP["toString"]` is not a provider | keep only the map's own keys (`Object.hasOwn`) | medium, not executed | AuthProviders.ListedAsWritten, AuthProviders.InheritedNameIsListed | AuthProviders.Listed, AuthProviders.EmptyStateIff |
