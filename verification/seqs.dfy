/** Sequence helpers shared by the pages: de-duplication, filtering, unwrapping and truncation. */
module Seqs {
  import opened Wrappers

  predicate NoDups<T(==)>(xs: seq<T>) {
    forall i, j :: 0 <= i < j < |xs| ==> xs[i] != xs[j]
  }

  /** `xs.findIndex(y => y === x)`: the first index holding `x`, or -1. */
  function IndexOf<T(==)>(xs: seq<T>, x: T): (r: int)
    ensures -1 <= r < |xs|
    ensures r == -1 <==> x !in xs
    ensures r >= 0 ==> xs[r] == x && x !in xs[..r]
  {
    if |xs| == 0 then -1
    else if xs[0] == x then 0
    else
      var k := IndexOf(xs[1..], x);
      if k == -1 then -1
      else
        assert xs[..k + 1] == [xs[0]] + xs[1..][..k];
        k + 1
  }

  /** An index holding `x` with no `x` before it is the one `IndexOf` finds. */
  lemma {:induction false} IndexOfFirst<T>(xs: seq<T>, x: T, k: nat)
    requires k < |xs| && xs[k] == x
    requires forall j :: 0 <= j < k ==> xs[j] != x
    ensures IndexOf(xs, x) == k
  {
    if k > 0 {
      IndexOfFirst(xs[1..], x, k - 1);
    }
  }

  /**
   * Keeps the first occurrence of every value, in order: the result of scanning `xs`
   * left to right with a `seen` set and dropping values already seen.
   */
  function Dedup<T(==,!new)>(xs: seq<T>): (r: seq<T>)
    ensures NoDups(r)
    ensures forall x :: x in r <==> x in xs
    ensures |r| <= |xs|
  {
    if |xs| == 0 then []
    else
      var front := xs[..|xs| - 1];
      var last := xs[|xs| - 1];
      assert xs == front + [last];
      if last in front then Dedup(front) else Dedup(front) + [last]
  }

  /** The de-duplicated values appear in the order of their first occurrence in `xs`. */
  lemma {:induction false} DedupFirstOccurrenceOrder<T(!new)>(xs: seq<T>, i: int, j: int)
    requires 0 <= i < j < |Dedup(xs)|
    ensures 0 <= IndexOf(xs, Dedup(xs)[i]) < IndexOf(xs, Dedup(xs)[j])
  {
    var front := xs[..|xs| - 1];
    var last := xs[|xs| - 1];
    assert xs == front + [last];
    var d := Dedup(xs);
    var df := Dedup(front);
    assert d[i] in xs && d[j] in xs;
    if last in front {
      assert d == df;
      DedupFirstOccurrenceOrder(front, i, j);
      IndexOfConcat(front, [last], d[i]);
      IndexOfConcat(front, [last], d[j]);
    } else {
      assert d == df + [last];
      if j < |df| {
        assert d[i] == df[i] && d[j] == df[j];
        DedupFirstOccurrenceOrder(front, i, j);
        IndexOfConcat(front, [last], d[i]);
        IndexOfConcat(front, [last], d[j]);
      } else {
        assert d[j] == last;
        assert d[i] == df[i] && d[i] in front;
        IndexOfConcat(front, [last], d[i]);
        IndexOfConcat(front, [last], d[j]);
      }
    }
  }

  /** The first index of `x` in `a + b` is found in `a` when `x` is there, otherwise in `b`. */
  lemma {:induction false} IndexOfConcat<T>(a: seq<T>, b: seq<T>, x: T)
    ensures x in a ==> IndexOf(a + b, x) == IndexOf(a, x)
    ensures x !in a && x in b ==> IndexOf(a + b, x) == |a| + IndexOf(b, x)
  {
    if |a| == 0 {
      assert a + b == b;
    } else {
      assert (a + b)[0] == a[0];
      assert (a + b)[1..] == a[1..] + b;
      if a[0] != x {
        IndexOfConcat(a[1..], b, x);
      }
    }
  }

  /** `xs.filter(p)`. */
  function Filter<T(!new)>(xs: seq<T>, p: T -> bool): (r: seq<T>)
    ensures |r| <= |xs|
    ensures forall x :: x in r <==> x in xs && p(x)
  {
    if |xs| == 0 then []
    else if p(xs[0]) then [xs[0]] + Filter(xs[1..], p)
    else Filter(xs[1..], p)
  }

  /** Filtering distributes over concatenation, so it keeps the relative order of what it keeps. */
  lemma {:induction false} FilterConcat<T(!new)>(a: seq<T>, b: seq<T>, p: T -> bool)
    ensures Filter(a + b, p) == Filter(a, p) + Filter(b, p)
  {
    if |a| == 0 {
      assert a + b == b;
    } else {
      var x, rest := a[0], a[1..];
      var head := if p(x) then [x] else [];
      assert a == [x] + rest;
      assert a + b == [x] + (rest + b);
      FilterCons(x, rest, p);
      FilterCons(x, rest + b, p);
      FilterConcat(rest, b, p);
      calc {
        Filter(a + b, p);
        head + Filter(rest + b, p);
        head + (Filter(rest, p) + Filter(b, p));
        { ConcatAssoc(head, Filter(rest, p), Filter(b, p)); }
        (head + Filter(rest, p)) + Filter(b, p);
        Filter(a, p) + Filter(b, p);
      }
    }
  }

  /** Concatenation is associative. */
  lemma ConcatAssoc<T>(a: seq<T>, b: seq<T>, c: seq<T>)
    ensures a + (b + c) == (a + b) + c
  {
  }

  /** Filtering a sequence with a known head. */
  lemma FilterCons<T(!new)>(x: T, xs: seq<T>, p: T -> bool)
    ensures Filter([x] + xs, p) == (if p(x) then [x] else []) + Filter(xs, p)
  {
    assert ([x] + xs)[0] == x;
    assert ([x] + xs)[1..] == xs;
  }

  /** Filtering a duplicate-free sequence leaves it duplicate-free. */
  lemma {:induction false} FilterNoDups<T(!new)>(xs: seq<T>, p: T -> bool)
    requires NoDups(xs)
    ensures NoDups(Filter(xs, p))
  {
    if |xs| > 0 {
      FilterNoDups(xs[1..], p);
    }
  }

  /** A filter that accepts everything changes nothing. */
  lemma {:induction false} FilterAll<T(!new)>(xs: seq<T>, p: T -> bool)
    requires forall x :: p(x)
    ensures Filter(xs, p) == xs
  {
    if |xs| > 0 {
      FilterAll(xs[1..], p);
      assert xs == [xs[0]] + xs[1..];
    }
  }

  /** A filter that rejects everything yields nothing. */
  lemma {:induction false} FilterNone<T(!new)>(xs: seq<T>, p: T -> bool)
    requires forall x :: x in xs ==> !p(x)
    ensures Filter(xs, p) == []
  {
    if |xs| > 0 {
      FilterNone(xs[1..], p);
    }
  }

  /** Filtering what already passed the same filter changes nothing. */
  lemma {:induction false} FilterTwice<T(!new)>(xs: seq<T>, p: T -> bool)
    ensures Filter(Filter(xs, p), p) == Filter(xs, p)
  {
    if |xs| > 0 {
      FilterTwice(xs[1..], p);
      if p(xs[0]) {
        assert ([xs[0]] + Filter(xs[1..], p))[1..] == Filter(xs[1..], p);
      }
    }
  }

  /** `results.filter(e => e !== undefined)`: the present values, in order. */
  function Somes<T(!new)>(xs: seq<Option<T>>): (r: seq<T>)
    ensures |r| <= |xs|
    ensures forall v :: v in r <==> Some(v) in xs
  {
    if |xs| == 0 then []
    else if xs[0].Some? then [xs[0].value] + Somes(xs[1..])
    else Somes(xs[1..])
  }

  /** The number of values `Somes` keeps is the number of present entries. */
  function CountSome<T>(xs: seq<Option<T>>): nat {
    if |xs| == 0 then 0 else (if xs[0].Some? then 1 else 0) + CountSome(xs[1..])
  }

  lemma {:induction false} SomesLength<T(!new)>(xs: seq<Option<T>>)
    ensures |Somes(xs)| == CountSome(xs)
    ensures CountSome(xs) == |xs| <==> forall i :: 0 <= i < |xs| ==> xs[i].Some?
  {
    if |xs| > 0 {
      SomesLength(xs[1..]);
      if CountSome(xs) == |xs| {
        assert xs[0].Some?;
        assert forall i :: 1 <= i < |xs| ==> xs[1..][i - 1] == xs[i];
      }
      if forall i :: 0 <= i < |xs| ==> xs[i].Some? {
        assert forall i :: 0 <= i < |xs[1..]| ==> xs[1..][i] == xs[i + 1];
      }
    }
  }

  /** `Somes` keeps order: it distributes over concatenation. */
  lemma {:induction false} SomesConcat<T(!new)>(a: seq<Option<T>>, b: seq<Option<T>>)
    ensures Somes(a + b) == Somes(a) + Somes(b)
  {
    if |a| == 0 {
      assert a + b == b;
    } else {
      assert (a + b)[0] == a[0];
      assert (a + b)[1..] == a[1..] + b;
      SomesConcat(a[1..], b);
    }
  }

  /** When every entry is present, `Somes` keeps every value, at its own index. */
  lemma {:induction false} SomesAllPresent<T(!new)>(xs: seq<Option<T>>)
    requires forall i :: 0 <= i < |xs| ==> xs[i].Some?
    ensures |Somes(xs)| == |xs|
    ensures forall i :: 0 <= i < |xs| ==> Somes(xs)[i] == xs[i].value
  {
    if |xs| > 0 {
      assert forall i :: 0 <= i < |xs[1..]| ==> xs[1..][i] == xs[i + 1];
      SomesAllPresent(xs[1..]);
    }
  }

  /** One lookup per key, in key order: `keys.map(lookup)`. */
  function LookupAll<K, E>(keys: seq<K>, lookup: K -> Option<E>): (r: seq<Option<E>>)
    ensures |r| == |keys|
    ensures forall i :: 0 <= i < |keys| ==> r[i] == lookup(keys[i])
  {
    seq(|keys|, i requires 0 <= i < |keys| => lookup(keys[i]))
  }

  /** Looking up a concatenation looks up each part in turn. */
  lemma LookupAllConcat<K, E>(a: seq<K>, b: seq<K>, lookup: K -> Option<E>)
    ensures LookupAll(a + b, lookup) == LookupAll(a, lookup) + LookupAll(b, lookup)
  {
    var l, r := LookupAll(a + b, lookup), LookupAll(a, lookup) + LookupAll(b, lookup);
    assert forall i :: 0 <= i < |l| ==> l[i] == r[i] by {
      forall i | 0 <= i < |l| ensures l[i] == r[i] {
        if i < |a| {
          assert (a + b)[i] == a[i];
        } else {
          assert (a + b)[i] == b[i - |a|];
        }
      }
    }
  }

  /** The present values of the lookups, in key order, with failed lookups dropped. */
  function Found<K, E(!new)>(keys: seq<K>, lookup: K -> Option<E>): seq<E> {
    Somes(LookupAll(keys, lookup))
  }

  /** A single key contributes its value when its lookup succeeds, and nothing otherwise. */
  lemma FoundSingle<K, E(!new)>(key: K, lookup: K -> Option<E>)
    ensures Found([key], lookup) == if lookup(key).Some? then [lookup(key).value] else []
  {
    assert LookupAll([key], lookup)[1..] == [];
  }

  /** The values found for a concatenation are those found for each part, in order. */
  lemma FoundConcat<K, E(!new)>(a: seq<K>, b: seq<K>, lookup: K -> Option<E>)
    ensures Found(a + b, lookup) == Found(a, lookup) + Found(b, lookup)
  {
    LookupAllConcat(a, b, lookup);
    SomesConcat(LookupAll(a, lookup), LookupAll(b, lookup));
  }

  /** When no lookup fails, every key yields its value, at its own index. */
  lemma FoundAll<K, E(!new)>(keys: seq<K>, lookup: K -> Option<E>)
    requires forall i :: 0 <= i < |keys| ==> lookup(keys[i]).Some?
    ensures |Found(keys, lookup)| == |keys|
    ensures forall i :: 0 <= i < |keys| ==> Found(keys, lookup)[i] == lookup(keys[i]).value
  {
    SomesAllPresent(LookupAll(keys, lookup));
  }

  /** Nothing is dropped exactly when no lookup fails. */
  lemma FoundCompleteIff<K, E(!new)>(keys: seq<K>, lookup: K -> Option<E>)
    ensures |Found(keys, lookup)| == |keys| <==> forall i :: 0 <= i < |keys| ==> lookup(keys[i]).Some?
  {
    SomesLength(LookupAll(keys, lookup));
  }

  /** Each value found came from a successful lookup. */
  lemma FoundFromLookup<K, E(!new)>(keys: seq<K>, lookup: K -> Option<E>, e: E)
    requires e in Found(keys, lookup)
    ensures exists i :: 0 <= i < |keys| && lookup(keys[i]) == Some(e)
  {
    var xs := LookupAll(keys, lookup);
    assert Some(e) in xs;
    var i :| 0 <= i < |xs| && xs[i] == Some(e);
  }

  /** `Filter` keeps order: two kept values sit in `xs` at positions in the same order. */
  lemma {:induction false} FilterOrder<T(!new)>(xs: seq<T>, p: T -> bool, i: int, j: int)
    requires 0 <= i < j < |Filter(xs, p)|
    ensures exists i', j' :: 0 <= i' < j' < |xs| && xs[i'] == Filter(xs, p)[i] && xs[j'] == Filter(xs, p)[j]
  {
    var f := Filter(xs, p);
    var rest := Filter(xs[1..], p);
    if p(xs[0]) {
      assert f == [xs[0]] + rest;
      if i == 0 {
        assert f[j] == rest[j - 1] && rest[j - 1] in rest;
        var j' :| 0 <= j' < |xs[1..]| && xs[1..][j'] == rest[j - 1];
        assert xs[0] == f[0] && xs[j' + 1] == f[j];
      } else {
        FilterOrder(xs[1..], p, i - 1, j - 1);
        var i', j' :| 0 <= i' < j' < |xs[1..]| && xs[1..][i'] == rest[i - 1] && xs[1..][j'] == rest[j - 1];
        assert xs[i' + 1] == f[i] && xs[j' + 1] == f[j];
      }
    } else {
      assert f == rest;
      FilterOrder(xs[1..], p, i, j);
      var i', j' :| 0 <= i' < j' < |xs[1..]| && xs[1..][i'] == rest[i] && xs[1..][j'] == rest[j];
      assert xs[i' + 1] == f[i] && xs[j' + 1] == f[j];
    }
  }

  /** The first `limit` items shown, and how many more there are. */
  datatype Truncated<T> = Truncated(shown: seq<T>, more: nat)

  /** `xs.slice(0, limit)` together with the count `xs.length - limit` of hidden items. */
  function Truncate<T>(xs: seq<T>, limit: nat): (r: Truncated<T>)
    ensures r.shown <= xs
    ensures |r.shown| <= limit
    ensures |r.shown| == if |xs| <= limit then |xs| else limit
    ensures r.shown + xs[|r.shown|..] == xs
    ensures |r.shown| + r.more == |xs|
    ensures r.more > 0 <==> |xs| > limit
  {
    if |xs| <= limit then Truncated(xs, 0) else Truncated(xs[..limit], |xs| - limit)
  }
}
