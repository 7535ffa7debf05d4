/**
 * The relations card: which related entity refs it resolves, which lookups survive, which
 * data source it shows, and the namespace its row links use.
 */
module Relations {
  import opened Wrappers
  import opened Text
  import opened Seqs

  /**
   * Whether a distinct ref passes the optional kind filter. `parse` stands for the catalog's
   * ref parser: the kind it reads, or None where it throws; a ref it cannot parse is kept.
   */
  predicate KeepRef(kindFilter: Option<string>, parse: string -> Option<string>, ref: string) {
    !Truthy(kindFilter) || parse(ref).None? || Lower(parse(ref).value) == Lower(kindFilter.value)
  }

  /** The kind filter as a predicate over refs. */
  function Keeper(kindFilter: Option<string>, parse: string -> Option<string>): string -> bool {
    r => KeepRef(kindFilter, parse, r)
  }

  /** The reference definition: first occurrences in order, then the kind filter. */
  function Expected(targets: seq<string>, kindFilter: Option<string>, parse: string -> Option<string>): seq<string> {
    Filter(Dedup(targets), Keeper(kindFilter, parse))
  }

  /**
   * The card's scan over the relation target refs: a ref already in `seen` is dropped, every
   * other ref is added to `seen` before the kind filter decides whether to keep it.
   */
  method RelatedRefs(targets: seq<string>, kindFilter: Option<string>, parse: string -> Option<string>)
    returns (refs: seq<string>)
    ensures refs == Expected(targets, kindFilter, parse)
  {
    var keep := Keeper(kindFilter, parse);
    var seen: set<string> := {};
    refs := [];
    var i := 0;
    while i < |targets|
      invariant 0 <= i <= |targets|
      invariant seen == Elements(targets[..i])
      invariant refs == Filter(Dedup(targets[..i]), keep)
    {
      var ref := targets[i];
      ScanStep(targets, i, keep);
      SeenStep(targets, i);
      if ref !in seen {
        seen := seen + {ref};
        if keep(ref) {
          refs := refs + [ref];
        }
      }
      i := i + 1;
    }
    assert targets[..i] == targets;
  }

  /** The refs of a list, as a set. */
  function Elements(xs: seq<string>): set<string> {
    set x | x in xs
  }

  /** One step of the scan keeps `seen` equal to the set of refs scanned so far. */
  lemma SeenStep(targets: seq<string>, i: nat)
    requires i < |targets|
    ensures targets[i] in Elements(targets[..i]) <==> targets[i] in targets[..i]
    ensures Elements(targets[..i + 1]) == Elements(targets[..i]) + {targets[i]}
  {
    assert targets[..i + 1] == targets[..i] + [targets[i]];
  }

  /** One step of the scan: the next ref is kept iff it is new and passes the filter. */
  lemma ScanStep(targets: seq<string>, i: nat, keep: string -> bool)
    requires i < |targets|
    ensures Filter(Dedup(targets[..i + 1]), keep) ==
            Filter(Dedup(targets[..i]), keep) +
            (if targets[i] !in targets[..i] && keep(targets[i]) then [targets[i]] else [])
  {
    var ref := targets[i];
    var front := targets[..i];
    assert targets[..i + 1] == front + [ref];
    assert targets[..i + 1][..i] == front;
    if ref !in front {
      assert Dedup(targets[..i + 1]) == Dedup(front) + [ref];
      FilterConcat(Dedup(front), [ref], keep);
      assert [ref][1..] == [];
    }
  }

  /** Every target that passes the filter is resolved exactly once, and nothing else is. */
  lemma ExpectedMembers(targets: seq<string>, kindFilter: Option<string>, parse: string -> Option<string>)
    ensures NoDups(Expected(targets, kindFilter, parse))
    ensures forall r :: r in Expected(targets, kindFilter, parse) <==> r in targets && KeepRef(kindFilter, parse, r)
  {
    FilterNoDups(Dedup(targets), Keeper(kindFilter, parse));
  }

  /** The resolved refs appear in the order of their first occurrence among the targets. */
  lemma ExpectedFirstSeenOrder(targets: seq<string>, kindFilter: Option<string>, parse: string -> Option<string>,
                               i: int, j: int)
    requires 0 <= i < j < |Expected(targets, kindFilter, parse)|
    ensures var e := Expected(targets, kindFilter, parse);
            0 <= IndexOf(targets, e[i]) < IndexOf(targets, e[j])
  {
    var d := Dedup(targets);
    var e := Expected(targets, kindFilter, parse);
    FilterOrder(d, Keeper(kindFilter, parse), i, j);
    var i', j' :| 0 <= i' < j' < |d| && d[i'] == e[i] && d[j'] == e[j];
    DedupFirstOccurrenceOrder(targets, i', j');
  }

  /** Without a kind filter (absent or empty), every distinct ref is kept, in first-seen order. */
  lemma NoKindFilterKeepsAll(targets: seq<string>, kindFilter: Option<string>, parse: string -> Option<string>)
    requires !Truthy(kindFilter)
    ensures Expected(targets, kindFilter, parse) == Dedup(targets)
  {
    FilterAll(Dedup(targets), Keeper(kindFilter, parse));
  }

  /** The kind comparison ignores case on both sides. */
  lemma KindFilterIgnoresCase(parse: string -> Option<string>, ref: string)
    requires parse(ref) == Some("component")
    ensures KeepRef(Some("Component"), parse, ref)
    ensures KeepRef(Some("COMPONENT"), parse, ref)
    ensures !KeepRef(Some("API"), parse, ref)
  {
    assert Lower("component") == "component";
    assert Lower("Component") == "component";
    assert Lower("COMPONENT") == "component";
    assert Lower("API") == "api";
  }

  /** What the hook reports for a ref list: at once for no refs, or after one lookup per ref. */
  datatype Loaded<E> = Immediate(entities: seq<E>) | AfterLookups(requested: seq<string>, entities: seq<E>)

  /** `lookup` stands for the catalog fetch; None is a failed (caught) lookup. */
  function Resolve<E(!new)>(refs: seq<string>, lookup: string -> Option<E>): (r: Loaded<E>)
    ensures r.Immediate? <==> |refs| == 0
    ensures r.Immediate? ==> r.entities == []
    ensures r.AfterLookups? ==> r.requested == refs
    ensures |r.entities| <= |refs|
  {
    if |refs| == 0 then Immediate([]) else AfterLookups(refs, Found(refs, lookup))
  }

  /** A single ref shows its entity when the lookup succeeds, and nothing when it fails. */
  lemma ResolveSingle<E(!new)>(ref: string, lookup: string -> Option<E>)
    ensures Resolve([ref], lookup).entities == if lookup(ref).Some? then [lookup(ref).value] else []
  {
    FoundSingle(ref, lookup);
  }

  /** The entities of a concatenation are those of each part, in ref order. */
  lemma ResolveConcat<E(!new)>(a: seq<string>, b: seq<string>, lookup: string -> Option<E>)
    ensures Resolve(a + b, lookup).entities == Resolve(a, lookup).entities + Resolve(b, lookup).entities
  {
    FoundConcat(a, b, lookup);
    if |a| == 0 {
      assert a + b == b;
    }
    if |b| == 0 {
      assert a + b == a;
    }
  }

  /** When no lookup fails, every ref yields its entity, in ref order. */
  lemma ResolveKeepsOrder<E(!new)>(refs: seq<string>, lookup: string -> Option<E>)
    requires forall i :: 0 <= i < |refs| ==> lookup(refs[i]).Some?
    ensures |Resolve(refs, lookup).entities| == |refs|
    ensures forall i :: 0 <= i < |refs| ==> Resolve(refs, lookup).entities[i] == lookup(refs[i]).value
  {
    FoundAll(refs, lookup);
  }

  /** Every ref shows an entity exactly when no lookup fails. */
  lemma ResolveCompleteIff<E(!new)>(refs: seq<string>, lookup: string -> Option<E>)
    ensures |Resolve(refs, lookup).entities| == |refs| <==> forall i :: 0 <= i < |refs| ==> lookup(refs[i]).Some?
  {
    FoundCompleteIff(refs, lookup);
  }

  /** Each shown entity came from a successful lookup. */
  lemma ResolvedFromLookups<E(!new)>(refs: seq<string>, lookup: string -> Option<E>, e: E)
    requires e in Resolve(refs, lookup).entities
    ensures exists i :: 0 <= i < |refs| && lookup(refs[i]) == Some(e)
  {
    FoundFromLookup(refs, lookup, e);
  }

  /** With a relation type (non-empty), the framework's filtered hook is shown; else the full scan. */
  function Source<S>(relationType: Option<string>, filtered: S, all: S): (s: S)
    ensures Truthy(relationType) ==> s == filtered
    ensures !Truthy(relationType) ==> s == all
  {
    if Truthy(relationType) then filtered else all
  }
}
