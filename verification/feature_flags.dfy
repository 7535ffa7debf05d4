/** The feature-flags settings card: search filter, active-first ordering and toggling. */
module FeatureFlags {
  import opened Wrappers
  import opened Text
  import opened Seqs

  /** A registered flag. `pluginId` is `''` for flags registered by the app itself. */
  datatype Flag = Flag(name: string, description: Option<string>, pluginId: string)

  /* ---------------- search ---------------- */

  /** Case-insensitive substring match on the name, or on the description when there is one. */
  predicate MatchesSearch(f: Flag, search: string) {
    Contains(Lower(f.name), Lower(search)) ||
    (f.description.Some? && Contains(Lower(f.description.value), Lower(search)))
  }

  function SearchFilter(flags: seq<Flag>, search: string): (r: seq<Flag>)
    ensures forall f :: f in r <==> f in flags && MatchesSearch(f, search)
  {
    Filter(flags, f => MatchesSearch(f, search))
  }

  /** The search box exists only once ten or more flags are registered. */
  predicate SearchBoxShown(flags: seq<Flag>) {
    |flags| >= 10
  }

  /** An empty search, which is all a short list ever has, keeps every flag in order. */
  lemma EmptySearchKeepsAll(flags: seq<Flag>)
    ensures SearchFilter(flags, "") == flags
  {
    forall f: Flag ensures MatchesSearch(f, "") {
      assert OccursAt(Lower(f.name), Lower(""), 0);
    }
    FilterAll(flags, f => MatchesSearch(f, ""));
  }

  /** Searching is case-insensitive. */
  lemma SearchIgnoresCase(f: Flag, s1: string, s2: string)
    requires Lower(s1) == Lower(s2)
    ensures MatchesSearch(f, s1) <==> MatchesSearch(f, s2)
  {
  }

  /* ---------------- active-first ordering ---------------- */

  /** The comparator's key: 0 for an active flag, 1 otherwise. */
  function Key(active: set<string>, f: Flag): nat {
    if f.name in active then 0 else 1
  }

  predicate IsActive(active: set<string>, f: Flag) {
    f.name in active
  }

  /** The active flags, in list order. */
  function Actives(xs: seq<Flag>, active: set<string>): seq<Flag> {
    Filter(xs, f => IsActive(active, f))
  }

  /** The inactive flags, in list order. */
  function Inactives(xs: seq<Flag>, active: set<string>): seq<Flag> {
    Filter(xs, f => !IsActive(active, f))
  }

  /** The reference order: the active flags, then the rest, each group in list order. */
  function Partition(xs: seq<Flag>, active: set<string>): seq<Flag> {
    Actives(xs, active) + Inactives(xs, active)
  }

  /**
   * `[...filtered].sort((a, b) => key(a) - key(b))`, as the stable insertion sort the
   * language guarantees: each flag is inserted after every flag whose key is not larger.
   */
  method SortActiveFirst(xs: seq<Flag>, active: set<string>) returns (sorted: seq<Flag>)
    ensures sorted == Partition(xs, active)
  {
    sorted := [];
    var i := 0;
    while i < |xs|
      invariant 0 <= i <= |xs|
      invariant sorted == Partition(xs[..i], active)
    {
      PartitionGroups(xs[..i], active);
      var j := FindSlot(sorted, xs[i], active, |Actives(xs[..i], active)|);
      InsertKeepsPartition(xs, i, active, j);
      sorted := sorted[..j] + [xs[i]] + sorted[j..];
      i := i + 1;
    }
    assert xs[..i] == xs;
  }

  /** The partition holds the active group first and the inactive group after it. */
  lemma PartitionGroups(xs: seq<Flag>, active: set<string>)
    ensures forall k :: 0 <= k < |Actives(xs, active)| ==> IsActive(active, Partition(xs, active)[k])
    ensures forall k :: |Actives(xs, active)| <= k < |Partition(xs, active)| ==>
              !IsActive(active, Partition(xs, active)[k])
  {
    GroupsSplit(Actives(xs, active), Inactives(xs, active), active);
  }

  /** Inserting the next flag at its slot gives the partition of the longer prefix. */
  lemma InsertKeepsPartition(xs: seq<Flag>, i: nat, active: set<string>, j: nat)
    requires i < |xs|
    requires j == if IsActive(active, xs[i]) then |Actives(xs[..i], active)| else |Partition(xs[..i], active)|
    ensures var p := Partition(xs[..i], active);
            p[..j] + [xs[i]] + p[j..] == Partition(xs[..i + 1], active)
  {
    var a, b := Actives(xs[..i], active), Inactives(xs[..i], active);
    InsertStep(xs, i, active);
    SlotInsert(a, b, xs[i], j);
  }

  /** The active group is all active and the inactive group all inactive. */
  lemma GroupsSplit(a: seq<Flag>, b: seq<Flag>, active: set<string>)
    requires forall f :: f in a ==> IsActive(active, f)
    requires forall f :: f in b ==> !IsActive(active, f)
    ensures forall k :: 0 <= k < |a| ==> IsActive(active, (a + b)[k])
    ensures forall k :: |a| <= k < |a + b| ==> !IsActive(active, (a + b)[k])
  {
    forall k | 0 <= k < |a| ensures IsActive(active, (a + b)[k]) {
      assert (a + b)[k] == a[k] && a[k] in a;
    }
    forall k | |a| <= k < |a + b| ensures !IsActive(active, (a + b)[k]) {
      assert (a + b)[k] == b[k - |a|] && b[k - |a|] in b;
    }
  }

  /**
   * The insertion point: scanning back from the end past every flag whose key is larger than
   * the new flag's, which is the boundary of the groups for an active flag and the end otherwise.
   */
  method FindSlot(sorted: seq<Flag>, x: Flag, active: set<string>, na: nat) returns (j: nat)
    requires na <= |sorted|
    requires forall k :: 0 <= k < na ==> IsActive(active, sorted[k])
    requires forall k :: na <= k < |sorted| ==> !IsActive(active, sorted[k])
    ensures j == if IsActive(active, x) then na else |sorted|
  {
    j := |sorted|;
    while j > 0 && Key(active, sorted[j - 1]) > Key(active, x)
      invariant 0 <= j <= |sorted|
      invariant IsActive(active, x) ==> j >= na
      invariant !IsActive(active, x) ==> j == |sorted|
    {
      j := j - 1;
    }
  }

  /** Inserting at the slot appends the flag to its own group. */
  lemma SlotInsert(a: seq<Flag>, b: seq<Flag>, x: Flag, j: nat)
    requires j == |a| || j == |a| + |b|
    ensures j == |a| ==> (a + b)[..j] + [x] + (a + b)[j..] == a + [x] + b
    ensures j == |a| + |b| ==> (a + b)[..j] + [x] + (a + b)[j..] == a + b + [x]
  {
    if j == |a| {
      assert (a + b)[..j] == a && (a + b)[j..] == b;
    }
    if j == |a| + |b| {
      assert (a + b)[..j] == a + b && (a + b)[j..] == [];
    }
  }

  /** Appending one flag to the input adds it at the end of its group. */
  lemma InsertStep(xs: seq<Flag>, i: nat, active: set<string>)
    requires i < |xs|
    ensures Actives(xs[..i + 1], active) ==
              Actives(xs[..i], active) + (if IsActive(active, xs[i]) then [xs[i]] else [])
    ensures Inactives(xs[..i + 1], active) ==
              Inactives(xs[..i], active) + (if IsActive(active, xs[i]) then [] else [xs[i]])
  {
    assert xs[..i + 1] == xs[..i] + [xs[i]];
    FilterConcat(xs[..i], [xs[i]], f => IsActive(active, f));
    FilterConcat(xs[..i], [xs[i]], f => !IsActive(active, f));
    assert [xs[i]][1..] == [];
  }

  /** Both halves of a split together hold exactly the original elements. */
  lemma {:induction false} SplitPermutes(xs: seq<Flag>, p: Flag -> bool, q: Flag -> bool)
    requires forall x :: q(x) == !p(x)
    ensures multiset(Filter(xs, p)) + multiset(Filter(xs, q)) == multiset(xs)
  {
    if |xs| > 0 {
      SplitPermutes(xs[1..], p, q);
      assert xs == [xs[0]] + xs[1..];
    }
  }

  /** The sorted list is a permutation of the filtered list. */
  lemma PartitionPermutes(xs: seq<Flag>, active: set<string>)
    ensures multiset(Partition(xs, active)) == multiset(xs)
    ensures |Partition(xs, active)| == |xs|
  {
    SplitPermutes(xs, f => IsActive(active, f), f => !IsActive(active, f));
    assert |multiset(Partition(xs, active))| == |multiset(xs)|;
  }

  /** Every active flag precedes every inactive one. */
  lemma PartitionActiveFirst(xs: seq<Flag>, active: set<string>, i: nat, j: nat)
    requires i < j < |Partition(xs, active)|
    requires IsActive(active, Partition(xs, active)[j])
    ensures IsActive(active, Partition(xs, active)[i])
  {
    var a := Filter(xs, f => IsActive(active, f));
    var b := Filter(xs, f => !IsActive(active, f));
    var p := Partition(xs, active);
    forall k | |a| <= k < |p| ensures !IsActive(active, p[k]) {
      assert p[k] == b[k - |a|] && b[k - |a|] in b;
    }
    assert p[i] == a[i] && a[i] in a;
  }

  /** Within each group the sorted list keeps the filtered list's order. */
  lemma PartitionStable(xs: seq<Flag>, active: set<string>)
    ensures Filter(Partition(xs, active), f => IsActive(active, f)) == Filter(xs, f => IsActive(active, f))
    ensures Filter(Partition(xs, active), f => !IsActive(active, f)) == Filter(xs, f => !IsActive(active, f))
  {
    var act := f => IsActive(active, f);
    var inact := f => !IsActive(active, f);
    var a, b := Filter(xs, act), Filter(xs, inact);
    FilterConcat(a, b, act);
    FilterConcat(a, b, inact);
    FilterTwice(xs, act);
    FilterTwice(xs, inact);
    FilterNone(b, act);
    FilterNone(a, inact);
  }

  /* ---------------- toggling ---------------- */

  datatype FlagState = NoState | Active

  /** `featureFlagsApi.save({states, merge})`. */
  datatype SaveRequest = SaveRequest(states: map<string, FlagState>, merge: bool)

  /** `handleToggle`: the one flag goes to None if active, to Active otherwise, merged. */
  function Toggle(active: set<string>, name: string): (req: SaveRequest)
    ensures req.merge && req.states.Keys == {name}
    ensures req.states[name] == Active <==> name !in active
  {
    SaveRequest(map[name := if name in active then NoState else Active], true)
  }

  /** The flag store after a save: merged states override their names only. */
  function ApplySave(active: set<string>, req: SaveRequest): (r: set<string>)
    ensures req.merge ==> forall n :: n !in req.states ==> (n in r <==> n in active)
    ensures forall n :: n in req.states ==> (n in r <==> req.states[n] == Active)
  {
    var on := set n | n in req.states.Keys && req.states[n] == Active;
    var off := set n | n in req.states.Keys && req.states[n] == NoState;
    if req.merge then (active - off) + on else on
  }

  /** A toggle flips exactly the clicked flag. */
  lemma ToggleFlipsOne(active: set<string>, name: string)
    ensures var after := ApplySave(active, Toggle(active, name));
            (name in after <==> name !in active) &&
            forall n :: n != name ==> (n in after <==> n in active)
  {
  }

  /** Toggling the same switch twice restores the flag store. */
  lemma ToggleTwiceRestores(active: set<string>, name: string)
    ensures var once := ApplySave(active, Toggle(active, name));
            ApplySave(once, Toggle(once, name)) == active
  {
    var once := ApplySave(active, Toggle(active, name));
    var twice := ApplySave(once, Toggle(once, name));
    ToggleFlipsOne(active, name);
    ToggleFlipsOne(once, name);
    assert forall n :: n in twice <==> n in active;
  }

  /* ---------------- description ---------------- */

  /** The description line: the flag's own description, else where it was registered. */
  function DescriptionLine(f: Flag): (text: string)
    ensures text != ""
    ensures Truthy(f.description) ==> text == f.description.value
    ensures !Truthy(f.description) && f.pluginId == "" ==> text == "Registered in application"
    ensures !Truthy(f.description) && f.pluginId != "" ==>
              StartsWith(text, "Registered in plugin \"") && EndsWith(text, f.pluginId + "\"") &&
              |text| == 23 + |f.pluginId|
  {
    OrElse(f.description,
      if f.pluginId == "" then "Registered in application" else PluginLine(f.pluginId))
  }

  /** `Registered in plugin "<id>"`. */
  function PluginLine(pluginId: string): (text: string)
    ensures StartsWith(text, "Registered in plugin \"") && EndsWith(text, pluginId + "\"")
    ensures |text| == 23 + |pluginId|
  {
    var prefix := "Registered in plugin \"";
    var text := prefix + pluginId + "\"";
    assert text[..|prefix|] == prefix;
    assert text[|prefix|..] == pluginId + "\"";
    text
  }
}
