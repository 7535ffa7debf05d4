/**
 * Links and references built from catalog entities by the list pages: the entity page
 * href, the docs href, the lowercased entity reference used as the starring key, the
 * template link, and the truncated tag badges.
 */
module EntityLinks {
  import opened Wrappers
  import opened Text
  import opened Seqs

  /** The fields of a catalog entity the list pages read. A missing `tags` list is `[]`. */
  datatype Entity = Entity(kind: string, namespace: Option<string>, name: string, tags: seq<string>)

  const DefaultNamespace: string := "default"

  /** `metadata.namespace ?? 'default'`. */
  function NamespaceOf(e: Entity): string {
    e.namespace.GetOr(DefaultNamespace)
  }

  /**
   * `metadata.namespace || 'default'`, used by the relation rows and the member and ownership
   * links: unlike the list pages, an empty namespace also becomes `default`.
   */
  function LinkNamespace(namespace: Option<string>): (ns: string)
    ensures ns != ""
    ensures Truthy(namespace) ==> ns == namespace.value
  {
    OrElse(namespace, DefaultNamespace)
  }

  /** The two fallbacks disagree only on an empty namespace. */
  lemma LinkNamespaceVersusNullish(namespace: Option<string>)
    ensures LinkNamespace(namespace) != namespace.GetOr(DefaultNamespace) <==> namespace == Some("")
  {
  }

  /** The three parts of an entity path or reference, in the order they were read. */
  datatype Parts = Parts(namespace: string, kind: string, name: string)

  /** `${root}${lower(ns)}/${lower(kind)}/${name}`, shared by the catalog and docs hrefs. */
  function EntityPath(root: string, e: Entity): (href: string)
    ensures StartsWith(href, root)
    ensures |href| == |root| + |NamespaceOf(e)| + |e.kind| + |e.name| + 2
    ensures EndsWith(href, e.name)
  {
    root + Lower(NamespaceOf(e)) + "/" + Lower(e.kind) + "/" + e.name
  }

  /** `entityHref`: the entity page. */
  function EntityHref(e: Entity): (href: string)
    ensures StartsWith(href, "/catalog/") && EndsWith(href, e.name)
  {
    EntityPath("/catalog/", e)
  }

  /** `docsHref`: the documentation page. */
  function DocsHref(e: Entity): (href: string)
    ensures StartsWith(href, "/docs/") && EndsWith(href, e.name)
  {
    EntityPath("/docs/", e)
  }

  /** `entityRef`: `kind:namespace/name`, all lowercased. */
  function EntityRef(e: Entity): (ref: string)
    ensures NoUpper(ref)
    ensures |ref| == |e.kind| + |NamespaceOf(e)| + |e.name| + 2
  {
    LowerIdempotent(e.kind + ":" + NamespaceOf(e) + "/" + e.name);
    Lower(e.kind + ":" + NamespaceOf(e) + "/" + e.name)
  }

  /** The template's Choose link: namespace and name are kept as written. */
  function TemplateLink(e: Entity): (link: string)
    ensures StartsWith(link, "/create/templates/")
    ensures EndsWith(link, e.name)
  {
    "/create/templates/" + NamespaceOf(e) + "/" + e.name
  }

  /** Reads `${root}ns/kind/name` back: namespace up to the first `/`, kind up to the next. */
  function ParsePath(root: string, href: string): (r: Option<Parts>)
    ensures r.Some? ==> href == root + r.value.namespace + "/" + r.value.kind + "/" + r.value.name
  {
    if !StartsWith(href, root) then None
    else
      match SplitFirst(href[|root|..], '/')
      case None => None
      case Some((ns, rest)) =>
        match SplitFirst(rest, '/')
        case None => None
        case Some((kind, name)) =>
          JoinPath(root, href, ns, rest, kind, name);
          Some(Parts(ns, kind, name))
  }

  lemma JoinPath(root: string, href: string, ns: string, rest: string, kind: string, name: string)
    requires StartsWith(href, root)
    requires href[|root|..] == ns + ['/'] + rest
    requires rest == kind + ['/'] + name
    ensures href == root + ns + "/" + kind + "/" + name
  {
    assert href == root + href[|root|..];
    assert ns + ['/'] + (kind + ['/'] + name) == ns + "/" + kind + "/" + name;
  }

  /** Reads `kind:ns/name` back: kind up to the first `:`, namespace up to the next `/`. */
  function ParseRef(ref: string): (r: Option<Parts>)
    ensures r.Some? ==> ref == r.value.kind + ":" + r.value.namespace + "/" + r.value.name
  {
    match SplitFirst(ref, ':')
    case None => None
    case Some((kind, rest)) =>
      match SplitFirst(rest, '/')
      case None => None
      case Some((ns, name)) => Some(Parts(ns, kind, name))
  }

  /** Entity paths read back as the lowercased namespace and kind and the name as written. */
  lemma EntityPathRoundTrip(root: string, e: Entity)
    requires '/' !in NamespaceOf(e) && '/' !in e.kind
    ensures ParsePath(root, EntityPath(root, e)) == Some(Parts(Lower(NamespaceOf(e)), Lower(e.kind), e.name))
  {
    var ns, kind := Lower(NamespaceOf(e)), Lower(e.kind);
    LowerKeepsSeparator(NamespaceOf(e), '/');
    LowerKeepsSeparator(e.kind, '/');
    var href := EntityPath(root, e);
    assert href[|root|..] == ns + ['/'] + (kind + "/" + e.name);
    SplitFirstJoin(ns, '/', kind + "/" + e.name);
    assert kind + "/" + e.name == kind + ['/'] + e.name;
    SplitFirstJoin(kind, '/', e.name);
  }

  /** Entity references read back as the lowercased kind, namespace and name. */
  lemma EntityRefRoundTrip(e: Entity)
    requires ':' !in e.kind && '/' !in NamespaceOf(e)
    ensures ParseRef(EntityRef(e)) == Some(Parts(Lower(NamespaceOf(e)), Lower(e.kind), Lower(e.name)))
  {
    var ns, kind, name := Lower(NamespaceOf(e)), Lower(e.kind), Lower(e.name);
    LowerKeepsSeparator(e.kind, ':');
    LowerKeepsSeparator(NamespaceOf(e), '/');
    LowerConcat(e.kind + ":" + NamespaceOf(e) + "/", e.name);
    LowerConcat(e.kind + ":" + NamespaceOf(e), "/");
    LowerConcat(e.kind + ":", NamespaceOf(e));
    LowerConcat(e.kind, ":");
    assert EntityRef(e) == kind + [':'] + (ns + ['/'] + name);
    SplitFirstJoin(kind, ':', ns + ['/'] + name);
    SplitFirstJoin(ns, '/', name);
  }

  /**
   * The page link and the starring key name the same entity: they agree on namespace and
   * kind, and differ only in that the key also lowercases the name.
   */
  lemma HrefAgreesWithRef(e: Entity)
    requires '/' !in NamespaceOf(e) && '/' !in e.kind && ':' !in e.kind
    ensures ParsePath("/catalog/", EntityHref(e)).Some? && ParseRef(EntityRef(e)).Some?
    ensures ParsePath("/catalog/", EntityHref(e)).value.namespace == ParseRef(EntityRef(e)).value.namespace
    ensures ParsePath("/catalog/", EntityHref(e)).value.kind == ParseRef(EntityRef(e)).value.kind
    ensures Lower(ParsePath("/catalog/", EntityHref(e)).value.name) == ParseRef(EntityRef(e)).value.name
  {
    EntityPathRoundTrip("/catalog/", e);
    EntityRefRoundTrip(e);
  }

  /** An entity without a namespace links exactly like one in the `default` namespace. */
  lemma MissingNamespaceIsDefault(e: Entity)
    requires e.namespace.None?
    ensures EntityHref(e) == EntityHref(e.(namespace := Some(DefaultNamespace)))
    ensures EntityRef(e) == EntityRef(e.(namespace := Some(DefaultNamespace)))
    ensures TemplateLink(e) == "/create/templates/default/" + e.name
  {
  }

  /** The template link keeps the namespace's case, unlike the entity href. */
  lemma TemplateLinkKeepsCase()
    ensures TemplateLink(Entity("Template", Some("Team"), "Svc", [])) == "/create/templates/Team/Svc"
    ensures EntityHref(Entity("Template", Some("Team"), "Svc", [])) == "/catalog/team/template/Svc"
  {
    TeamTemplateHref();
  }

  lemma TeamTemplateHref()
    ensures EntityHref(Entity("Template", Some("Team"), "Svc", [])) == "/catalog/team/template/Svc"
  {
    LowerTeam();
    LowerTemplate();
  }

  lemma LowerTeam()
    ensures Lower("Team") == "team"
  {
    assert forall i :: 0 <= i < 4 ==> Lower("Team")[i] == "team"[i];
  }

  lemma LowerTemplate()
    ensures Lower("Template") == "template"
  {
    assert forall i :: 0 <= i < 8 ==> Lower("Template")[i] == "template"[i];
  }

  /** The template link reads back as the namespace and name exactly as written. */
  lemma TemplateLinkRoundTrip(e: Entity)
    requires '/' !in NamespaceOf(e)
    ensures StartsWith(TemplateLink(e), "/create/templates/")
    ensures SplitFirst(TemplateLink(e)[|"/create/templates/"|..], '/') == Some((NamespaceOf(e), e.name))
  {
    assert TemplateLink(e)[|"/create/templates/"|..] == NamespaceOf(e) + ['/'] + e.name;
    SplitFirstJoin(NamespaceOf(e), '/', e.name);
  }

  /** Catalog table rows: at most 3 tags. */
  const CatalogTagLimit: nat := 3
  /** Template cards: at most 4 tags. */
  const TemplateTagLimit: nat := 4
  /** Docs cards: at most 3 tags. */
  const DocsTagLimit: nat := 3

  /** The tags a row or card shows: `tags.slice(0, limit)`. */
  function ShownTags(tags: seq<string>, limit: nat): (shown: seq<string>)
    ensures shown <= tags
    ensures |shown| == if |tags| <= limit then |tags| else limit
  {
    Truncate(tags, limit).shown
  }

  /** The catalog's `+N` badge: present only when tags are hidden, naming how many. */
  function OverflowBadge(tags: seq<string>, limit: nat): (badge: Option<string>)
    ensures badge.Some? <==> |tags| > limit
    ensures badge.Some? ==> |badge.value| >= 2 && badge.value[0] == '+'
  {
    var t := Truncate(tags, limit);
    if t.more > 0 then Some("+" + NatToString(t.more)) else None
  }

  /** The badge's number plus the shown tags account for every tag. */
  lemma OverflowBadgeCounts(tags: seq<string>, limit: nat)
    requires |tags| > limit
    ensures var b := OverflowBadge(tags, limit).value;
            (forall i :: 1 <= i < |b| ==> IsDigit(b[i])) &&
            |ShownTags(tags, limit)| + ParseDigits(b[1..]) == |tags|
  {
    var n := |tags| - limit;
    var b := OverflowBadge(tags, limit).value;
    assert b == "+" + NatToString(n);
    assert b[1..] == NatToString(n);
    ParseNatToString(n);
  }
  /** The three places that list an entity's tags. */
  datatype TagPlace = CatalogRow | TemplateCard | DocsCard

  function TagLimit(place: TagPlace): nat {
    match place
    case CatalogRow => CatalogTagLimit
    case TemplateCard => TemplateTagLimit
    case DocsCard => DocsTagLimit
  }

  /** The tag badges drawn for an entity, and the `+N` badge after them when there is one. */
  datatype TagStrip = TagStrip(shown: seq<string>, badge: Option<string>)

  /** Each place shows the first tags up to its limit; only catalog rows mark the hidden ones with `+N`. */
  function PlaceTags(place: TagPlace, tags: seq<string>): (t: TagStrip)
    ensures t.shown <= tags
    ensures |t.shown| == if |tags| <= TagLimit(place) then |tags| else TagLimit(place)
    ensures t.badge.Some? <==> place == CatalogRow && |tags| > CatalogTagLimit
  {
    TagStrip(ShownTags(tags, TagLimit(place)),
             if place == CatalogRow then OverflowBadge(tags, CatalogTagLimit) else None)
  }

  /** Every tag is on screen exactly when the place's limit is not exceeded; otherwise only the catalog says how many are missing. */
  lemma {:induction false} PlaceTagsComplete(place: TagPlace, tags: seq<string>)
    ensures PlaceTags(place, tags).shown == tags <==> |tags| <= TagLimit(place)
    ensures PlaceTags(place, tags).badge.Some? ==>
              var b := PlaceTags(place, tags).badge.value;
              b[0] == '+' && |PlaceTags(place, tags).shown| + ParseDigits(b[1..]) == |tags|
  {
    if place == CatalogRow && |tags| > CatalogTagLimit {
      OverflowBadgeCounts(tags, CatalogTagLimit);
    }
  }
}
