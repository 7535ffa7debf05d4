/**
 * The user, group, members and ownership cards on entity pages: display-name and avatar
 * fallbacks, member lookups, and the owned-entity list grouped by kind.
 */
module OrgCards {
  import opened Wrappers
  import opened Text
  import opened Seqs

  /* ---------------- names and links ---------------- */

  /** `profile?.displayName || metadata.name`. */
  function DisplayName(profileName: Option<string>, name: string): (shown: string)
    ensures Truthy(profileName) ==> shown == profileName.value
    ensures !Truthy(profileName) ==> shown == name
  {
    OrElse(profileName, name)
  }

  /** `name.slice(0, 2).toUpperCase()`: the avatar's fallback letters. */
  function AvatarText(name: string): (text: string)
    ensures |text| == if |name| < 2 then |name| else 2
    ensures forall i :: 0 <= i < |text| ==> !IsLower(text[i])
  {
    Upper(if |name| < 2 then name else name[..2])
  }

  /** The avatar letters are the start of the upper-cased name. */
  lemma AvatarIsUpperPrefix(name: string)
    ensures StartsWith(Upper(name), AvatarText(name))
  {
  }

  /* ---------------- members ---------------- */

  /** What the members card has after its effect: nothing fetched, or the surviving lookups. */
  datatype MembersLoad<E> = NoLookup | Looked(requested: nat, members: seq<E>)

  /** One lookup per member ref; failed lookups are dropped. No refs, no lookup at all. */
  function LoadMembers<E(!new)>(memberRefs: seq<string>, lookup: string -> Option<E>): (r: MembersLoad<E>)
    ensures r.NoLookup? <==> |memberRefs| == 0
    ensures r.Looked? ==> r.requested == |memberRefs| && |r.members| <= |memberRefs|
    ensures r.Looked? ==> forall m :: m in r.members ==> exists i :: 0 <= i < |memberRefs| && lookup(memberRefs[i]) == Some(m)
  {
    if |memberRefs| == 0 then NoLookup
    else
      var found := Found(memberRefs, lookup);
      assert forall m :: m in found ==> exists i :: 0 <= i < |memberRefs| && lookup(memberRefs[i]) == Some(m) by {
        forall m | m in found ensures exists i :: 0 <= i < |memberRefs| && lookup(memberRefs[i]) == Some(m) {
          FoundFromLookup(memberRefs, lookup, m);
        }
      }
      Looked(|memberRefs|, found)
  }

  /** The shown members: none until something was looked up. */
  function Members<E>(load: MembersLoad<E>): seq<E> {
    if load.NoLookup? then [] else load.members
  }

  /** A single member ref shows its entity when the lookup succeeds, and nothing when it fails. */
  lemma MembersSingle<E(!new)>(ref: string, lookup: string -> Option<E>)
    ensures Members(LoadMembers([ref], lookup)) == if lookup(ref).Some? then [lookup(ref).value] else []
  {
    FoundSingle(ref, lookup);
  }

  /** The members shown for a concatenation of refs are those of each part, in ref order. */
  lemma MembersConcat<E(!new)>(a: seq<string>, b: seq<string>, lookup: string -> Option<E>)
    ensures Members(LoadMembers(a + b, lookup)) ==
              Members(LoadMembers(a, lookup)) + Members(LoadMembers(b, lookup))
  {
    FoundConcat(a, b, lookup);
    if |a| == 0 {
      assert a + b == b;
    }
    if |b| == 0 {
      assert a + b == a;
    }
  }

  /**
   * The title counts member refs, so it can exceed the members listed when lookups fail; when
   * none fails, every ref shows its member, in ref order.
   */
  lemma TitleCountsRefs<E(!new)>(memberRefs: seq<string>, lookup: string -> Option<E>)
    ensures |Members(LoadMembers(memberRefs, lookup))| <= |memberRefs|
    ensures (forall i :: 0 <= i < |memberRefs| ==> lookup(memberRefs[i]).Some?) ==>
              |Members(LoadMembers(memberRefs, lookup))| == |memberRefs| &&
              forall i :: 0 <= i < |memberRefs| ==>
                Members(LoadMembers(memberRefs, lookup))[i] == lookup(memberRefs[i]).value
    ensures |Members(LoadMembers(memberRefs, lookup))| == |memberRefs| <==>
              forall i :: 0 <= i < |memberRefs| ==> lookup(memberRefs[i]).Some?
  {
    FoundCompleteIff(memberRefs, lookup);
    if forall i :: 0 <= i < |memberRefs| ==> lookup(memberRefs[i]).Some? {
      FoundAll(memberRefs, lookup);
    }
  }

  /* ---------------- ownership ---------------- */

  /** An owned entity as the ownership query returns it. */
  datatype Owned = Owned(kind: string, namespace: Option<string>, name: string)

  /** One heading of the ownership card: a kind and its entities in list order. */
  datatype Group = Group(kind: string, items: seq<Owned>)

  function KindsOf(gs: seq<Group>): (ks: seq<string>)
    ensures |ks| == |gs|
    ensures forall i :: 0 <= i < |gs| ==> ks[i] == gs[i].kind
  {
    seq(|gs|, i requires 0 <= i < |gs| => gs[i].kind)
  }

  function OwnedKinds(xs: seq<Owned>): (ks: seq<string>)
    ensures |ks| == |xs|
    ensures forall i :: 0 <= i < |xs| ==> ks[i] == xs[i].kind
  {
    seq(|xs|, i requires 0 <= i < |xs| => xs[i].kind)
  }

  /** The reduce step: push onto the kind's group, opening a new last group for a new kind. */
  function AddOwned(gs: seq<Group>, e: Owned): (r: seq<Group>)
    ensures e.kind in KindsOf(gs) ==> KindsOf(r) == KindsOf(gs)
    ensures e.kind !in KindsOf(gs) ==> KindsOf(r) == KindsOf(gs) + [e.kind]
  {
    var i := IndexOf(KindsOf(gs), e.kind);
    if i < 0 then gs + [Group(e.kind, [e])]
    else
      var r := gs[i := gs[i].(items := gs[i].items + [e])];
      assert KindsOf(r) == KindsOf(gs);
      r
  }

  /** `owned.reduce(...)`, folding from the first entity to the last. */
  function GroupByKind(owned: seq<Owned>): (gs: seq<Group>)
    ensures |gs| <= |owned|
    ensures |gs| == 0 <==> |owned| == 0
  {
    if |owned| == 0 then []
    else AddOwned(GroupByKind(owned[..|owned| - 1]), owned[|owned| - 1])
  }

  function OfKind(k: string): Owned -> bool {
    (e: Owned) => e.kind == k
  }

  /** Every group holds exactly the entities of its kind, in list order. */
  predicate GroupsMatch(gs: seq<Group>, owned: seq<Owned>) {
    forall i :: 0 <= i < |gs| ==> gs[i].items == Filter(owned, OfKind(gs[i].kind))
  }

  function TotalSize(gs: seq<Group>): nat {
    if |gs| == 0 then 0 else TotalSize(gs[..|gs| - 1]) + |gs[|gs| - 1].items|
  }

  /** A filter that rejects everything yields nothing. */
  lemma {:induction false} FilterNoneOfKind(xs: seq<Owned>, k: string)
    requires k !in OwnedKinds(xs)
    ensures Filter(xs, OfKind(k)) == []
  {
    if |xs| > 0 {
      assert OwnedKinds(xs[1..]) == OwnedKinds(xs)[1..];
      FilterNoneOfKind(xs[1..], k);
    }
  }

  /** The kinds appear in first-seen order, each once. */
  lemma {:induction false} GroupKindsFirstSeen(owned: seq<Owned>)
    ensures KindsOf(GroupByKind(owned)) == Dedup(OwnedKinds(owned))
  {
    if |owned| > 0 {
      var front := owned[..|owned| - 1];
      GroupKindsFirstSeen(front);
      assert OwnedKinds(owned)[..|owned| - 1] == OwnedKinds(front);
    }
  }

  /** Each group is the filter of the list by its kind. */
  lemma {:induction false} GroupsAreFilters(owned: seq<Owned>)
    ensures GroupsMatch(GroupByKind(owned), owned)
  {
    if |owned| > 0 {
      var front := owned[..|owned| - 1];
      var e := owned[|owned| - 1];
      var gs := GroupByKind(front);
      GroupsAreFilters(front);
      assert NoDups(KindsOf(gs)) && forall k :: k in KindsOf(gs) <==> k in OwnedKinds(front) by {
        GroupKindsFirstSeen(front);
      }
      AddOwnedMatches(gs, front, e);
      assert owned == front + [e];
    }
  }

  /** The reduce step keeps every group the filter of the longer list by its kind. */
  lemma AddOwnedMatches(gs: seq<Group>, front: seq<Owned>, e: Owned)
    requires GroupsMatch(gs, front)
    requires forall k :: k in KindsOf(gs) <==> k in OwnedKinds(front)
    requires NoDups(KindsOf(gs))
    ensures GroupsMatch(AddOwned(gs, e), front + [e])
  {
    var r := AddOwned(gs, e);
    forall i | 0 <= i < |r|
      ensures r[i].items == Filter(front + [e], OfKind(r[i].kind))
    {
      AddOwnedGroup(gs, front, e, i);
    }
  }

  /** One group after the reduce step is still the filter of the longer list by its kind. */
  lemma AddOwnedGroup(gs: seq<Group>, front: seq<Owned>, e: Owned, i: nat)
    requires GroupsMatch(gs, front)
    requires forall k :: k in KindsOf(gs) <==> k in OwnedKinds(front)
    requires NoDups(KindsOf(gs))
    requires i < |AddOwned(gs, e)|
    ensures AddOwned(gs, e)[i].items == Filter(front + [e], OfKind(AddOwned(gs, e)[i].kind))
  {
    var r := AddOwned(gs, e);
    var k := r[i].kind;
    FilterConcat(front, [e], OfKind(k));
    assert [e][1..] == [];
    var j := IndexOf(KindsOf(gs), e.kind);
    if i == |gs| {
      FilterNoneOfKind(front, e.kind);
    } else if i == j {
      assert r[i].items == gs[i].items + [e];
    } else {
      assert r[i] == gs[i];
      assert KindsOf(gs)[i] != e.kind;
    }
  }

  /** Adding one entity grows the total by one. */
  lemma AddOwnedTotal(gs: seq<Group>, e: Owned)
    ensures TotalSize(AddOwned(gs, e)) == TotalSize(gs) + 1
  {
    var i := IndexOf(KindsOf(gs), e.kind);
    if i < 0 {
      assert (gs + [Group(e.kind, [e])])[..|gs|] == gs;
    } else {
      UpdateTotal(gs, i, gs[i].(items := gs[i].items + [e]));
    }
  }

  /** Replacing one group changes the total by the change in its size. */
  lemma {:induction false} UpdateTotal(gs: seq<Group>, i: nat, g: Group)
    requires i < |gs|
    ensures TotalSize(gs[i := g]) + |gs[i].items| == TotalSize(gs) + |g.items|
    decreases |gs|
  {
    var n := |gs|;
    var r := gs[i := g];
    if i == n - 1 {
      assert r[..n - 1] == gs[..n - 1];
    } else {
      assert r[..n - 1] == gs[..n - 1][i := g];
      UpdateTotal(gs[..n - 1], i, g);
    }
  }

  /** The group sizes add up to the number of owned entities. */
  lemma {:induction false} GroupSizesSum(owned: seq<Owned>)
    ensures TotalSize(GroupByKind(owned)) == |owned|
  {
    if |owned| > 0 {
      GroupSizesSum(owned[..|owned| - 1]);
      AddOwnedTotal(GroupByKind(owned[..|owned| - 1]), owned[|owned| - 1]);
    }
  }

  /** At most ten entities are listed under a heading. */
  const GroupListLimit: nat := 10

  /** The entities listed under a heading, and the count in its "and N more..." line. */
  function GroupView(g: Group): (v: Truncated<Owned>)
    ensures v.shown <= g.items && |v.shown| <= GroupListLimit
    ensures |v.shown| == if |g.items| <= GroupListLimit then |g.items| else GroupListLimit
    ensures |v.shown| + v.more == |g.items|
    ensures v.more > 0 <==> |g.items| > GroupListLimit
  {
    Truncate(g.items, GroupListLimit)
  }

  /** What the headings account for: the entities listed plus the "and N more..." counts. */
  function ViewedTotal(gs: seq<Group>): nat {
    if |gs| == 0 then 0
    else ViewedTotal(gs[..|gs| - 1]) + |GroupView(gs[|gs| - 1]).shown| + GroupView(gs[|gs| - 1]).more
  }

  /** Across all headings, the listed entities and the "more" counts add up to the owned entities. */
  lemma {:induction false} GroupViewsAccountForOwned(owned: seq<Owned>)
    ensures ViewedTotal(GroupByKind(owned)) == |owned|
  {
    ViewedTotalIsSize(GroupByKind(owned));
    GroupSizesSum(owned);
  }

  lemma {:induction false} ViewedTotalIsSize(gs: seq<Group>)
    ensures ViewedTotal(gs) == TotalSize(gs)
  {
    if |gs| > 0 {
      ViewedTotalIsSize(gs[..|gs| - 1]);
    }
  }
}
