/** The settings profile card: the display-name fallback chain, initials and visible sections. */
module UserProfile {
  import opened Wrappers
  import opened Text

  /** `profile?.displayName ?? identity?.userEntityRef ?? 'Guest'`: only absent values fall through. */
  function DisplayName(profileName: Option<string>, userEntityRef: Option<string>): (name: string)
    ensures profileName.Some? ==> name == profileName.value
    ensures profileName.None? && userEntityRef.Some? ==> name == userEntityRef.value
    ensures profileName.None? && userEntityRef.None? ==> name == "Guest"
  {
    profileName.GetOr(userEntityRef.GetOr("Guest"))
  }

  /* ---------------- splitting on /[\s@]+/ ---------------- */

  /** A separator of the initials split: ASCII white space or `@`. */
  predicate IsSep(c: char) {
    c == ' ' || c == '\t' || c == '\n' || c == '\r' || c == '\U{B}' || c == '\U{C}' || c == '@'
  }

  predicate NoSep(s: string) {
    forall i :: 0 <= i < |s| ==> !IsSep(s[i])
  }

  /** The index of the first separator at or after `from`, or `|s|`. */
  function NextSep(s: string, from: nat): (r: nat)
    requires from <= |s|
    ensures from <= r <= |s|
    ensures forall k :: from <= k < r ==> !IsSep(s[k])
    ensures r < |s| ==> IsSep(s[r])
    decreases |s| - from
  {
    if from == |s| || IsSep(s[from]) then from else NextSep(s, from + 1)
  }

  /** The index just past the run of separators starting at `from`. */
  function RunEnd(s: string, from: nat): (r: nat)
    requires from <= |s|
    ensures from <= r <= |s|
    ensures forall k :: from <= k < r ==> IsSep(s[k])
    ensures r < |s| ==> !IsSep(s[r])
    decreases |s| - from
  {
    if from == |s| || !IsSep(s[from]) then from else RunEnd(s, from + 1)
  }

  /**
   * `s.split(/[\s@]+/)`: the pieces between maximal separator runs. A leading or trailing run
   * yields an empty first or last piece, and the empty string yields one empty piece.
   */
  function Split(s: string): (pieces: seq<string>)
    ensures |pieces| >= 1
    ensures forall i :: 0 <= i < |pieces| ==> NoSep(pieces[i])
    decreases |s|
  {
    var i := NextSep(s, 0);
    if i == |s| then [s]
    else
      var j := RunEnd(s, i);
      [s[..i]] + Split(s[j..])
  }

  /** The characters of `s` that are not separators. */
  function Letters(s: string): string {
    if |s| == 0 then [] else (if IsSep(s[0]) then [] else [s[0]]) + Letters(s[1..])
  }

  function Concat(pieces: seq<string>): string {
    if |pieces| == 0 then [] else pieces[0] + Concat(pieces[1..])
  }

  lemma {:induction false} LettersConcat(a: string, b: string)
    ensures Letters(a + b) == Letters(a) + Letters(b)
  {
    if |a| == 0 {
      assert a + b == b;
    } else {
      assert (a + b)[1..] == a[1..] + b;
      LettersConcat(a[1..], b);
    }
  }

  lemma {:induction false} LettersOfNoSep(s: string)
    requires NoSep(s)
    ensures Letters(s) == s
  {
    if |s| > 0 {
      LettersOfNoSep(s[1..]);
      assert s == [s[0]] + s[1..];
    }
  }

  lemma {:induction false} LettersOfSeps(s: string)
    requires forall k :: 0 <= k < |s| ==> IsSep(s[k])
    ensures Letters(s) == []
  {
    if |s| > 0 {
      LettersOfSeps(s[1..]);
    }
  }

  /** The pieces hold every non-separator character of the input, in order, and nothing else. */
  lemma {:induction false} SplitKeepsLetters(s: string)
    ensures Concat(Split(s)) == Letters(s)
    decreases |s|
  {
    var i := NextSep(s, 0);
    if i == |s| {
      WordKeepsLetters(s);
    } else {
      var j := RunEnd(s, i);
      SplitKeepsLetters(s[j..]);
      SplitStepKeepsLetters(s, i, j);
    }
  }

  lemma WordKeepsLetters(s: string)
    requires NextSep(s, 0) == |s|
    ensures Concat(Split(s)) == Letters(s)
  {
    LettersOfNoSep(s);
    assert Concat([s]) == s + Concat([]);
  }

  lemma SplitStepKeepsLetters(s: string, i: nat, j: nat)
    requires i == NextSep(s, 0) && i < |s| && j == RunEnd(s, i)
    requires Concat(Split(s[j..])) == Letters(s[j..])
    ensures Concat(Split(s)) == Letters(s)
  {
    var a, b, c := s[..i], s[i..j], s[j..];
    StepParts(s, i, j);
    WordThenRun(a, b, c, Split(c));
  }

  /** The word before the first separator run, the run itself, and the rest of `s`. */
  lemma StepParts(s: string, i: nat, j: nat)
    requires i == NextSep(s, 0) && i < |s| && j == RunEnd(s, i)
    ensures Split(s) == [s[..i]] + Split(s[j..])
    ensures NoSep(s[..i])
    ensures forall k :: 0 <= k < |s[i..j]| ==> IsSep(s[i..j][k])
    ensures s == s[..i] + s[i..j] + s[j..]
  {
    WordBeforeRun(s, i);
    RunAfterWord(s, i, j);
    assert s == s[..i] + s[i..j] + s[j..];
  }

  lemma WordBeforeRun(s: string, i: nat)
    requires i == NextSep(s, 0)
    ensures NoSep(s[..i])
  {
    assert forall k :: 0 <= k < i ==> s[..i][k] == s[k];
  }

  lemma RunAfterWord(s: string, i: nat, j: nat)
    requires i <= |s| && j == RunEnd(s, i)
    ensures forall k :: 0 <= k < |s[i..j]| ==> IsSep(s[i..j][k])
  {
    assert forall k :: 0 <= k < j - i ==> s[i..j][k] == s[i + k];
  }

  /** One split step: a word, a separator run, and the pieces of the rest. */
  lemma WordThenRun(a: string, b: string, c: string, rest: seq<string>)
    requires NoSep(a)
    requires forall k :: 0 <= k < |b| ==> IsSep(b[k])
    requires Concat(rest) == Letters(c)
    ensures Concat([a] + rest) == Letters(a + b + c)
  {
    LettersAroundRun(a, b, c);
    assert ([a] + rest)[1..] == rest;
  }

  /** A word followed by a separator run contributes just the word's letters. */
  lemma LettersAroundRun(a: string, b: string, c: string)
    requires NoSep(a)
    requires forall k :: 0 <= k < |b| ==> IsSep(b[k])
    ensures Letters(a + b + c) == a + Letters(c)
  {
    assert Letters(a + b) == a by {
      LettersConcat(a, b);
      LettersOfNoSep(a);
      LettersOfSeps(b);
    }
    LettersConcat(a + b, c);
  }

  /** Only the first and last piece can be empty. */
  lemma {:induction false} InnerPiecesNonEmpty(s: string, k: nat)
    requires 0 < k < |Split(s)| - 1
    ensures Split(s)[k] != ""
    decreases |s|
  {
    var i := NextSep(s, 0);
    var j := RunEnd(s, i);
    var rest := s[j..];
    assert Split(s)[k] == Split(rest)[k - 1];
    if k == 1 {
      var i2 := NextSep(rest, 0);
      assert i2 < |rest|;
      assert !IsSep(rest[0]);
      assert Split(rest)[0] == rest[..i2];
    } else {
      InnerPiecesNonEmpty(rest, k - 1);
    }
  }

  /* ---------------- the split as pieces joined by separator runs ---------------- */

  /** A non-empty run made only of separators. */
  predicate SepRun(r: string) {
    |r| > 0 && forall k :: 0 <= k < |r| ==> IsSep(r[k])
  }

  /** `pieces[0] + runs[0] + pieces[1] + ... + pieces[n]`. */
  function Interleave(pieces: seq<string>, runs: seq<string>): string
    requires |pieces| == |runs| + 1
  {
    if |runs| == 0 then pieces[0] else pieces[0] + runs[0] + Interleave(pieces[1..], runs[1..])
  }

  /** The separator runs `Split` cuts out, in order. */
  function Runs(s: string): seq<string>
    decreases |s|
  {
    var i := NextSep(s, 0);
    if i == |s| then [] else [s[i..RunEnd(s, i)]] + Runs(s[RunEnd(s, i)..])
  }

  /**
   * The reference description of a split: separator-free pieces with a non-empty separator run
   * between each two, no empty piece except possibly the first and the last, and the string
   * given back when pieces and runs are put together again.
   */
  predicate IsSplitOf(s: string, pieces: seq<string>, runs: seq<string>) {
    && |pieces| == |runs| + 1
    && (forall i :: 0 <= i < |pieces| ==> NoSep(pieces[i]))
    && (forall i :: 0 <= i < |runs| ==> SepRun(runs[i]))
    && (forall i :: 0 < i < |pieces| - 1 ==> pieces[i] != "")
    && s == Interleave(pieces, runs)
  }

  /** `Split` meets the reference description: joining its pieces with the runs gives `s` back. */
  lemma {:induction false} SplitJoin(s: string)
    ensures IsSplitOf(s, Split(s), Runs(s))
    decreases |s|
  {
    var i := NextSep(s, 0);
    if i < |s| {
      var j := RunEnd(s, i);
      SplitJoin(s[j..]);
      StepParts(s, i, j);
      SplitJoinStep(s, s[..i], s[i..j], s[j..]);
    }
    forall k | 0 < k < |Split(s)| - 1 ensures Split(s)[k] != "" {
      InnerPiecesNonEmpty(s, k);
    }
  }

  lemma SplitJoinStep(s: string, a: string, b: string, c: string)
    requires s == a + b + c && NoSep(a) && SepRun(b)
    requires Split(s) == [a] + Split(c) && Runs(s) == [b] + Runs(c)
    requires IsSplitOf(c, Split(c), Runs(c))
    ensures |Split(s)| == |Runs(s)| + 1
    ensures forall i :: 0 <= i < |Split(s)| ==> NoSep(Split(s)[i])
    ensures forall i :: 0 <= i < |Runs(s)| ==> SepRun(Runs(s)[i])
    ensures s == Interleave(Split(s), Runs(s))
  {
    assert Split(s)[1..] == Split(c) && Runs(s)[1..] == Runs(c);
  }

  /** The run that starts at the first separator ends where the string's next piece begins. */
  lemma RunsHead(s: string)
    requires NextSep(s, 0) < |s|
    ensures SepRun(s[NextSep(s, 0)..RunEnd(s, NextSep(s, 0))])
    ensures Runs(s) == [s[NextSep(s, 0)..RunEnd(s, NextSep(s, 0))]] + Runs(s[RunEnd(s, NextSep(s, 0))..])
  {
    var i := NextSep(s, 0);
    RunAfterWord(s, i, RunEnd(s, i));
  }

  /** The reference description has only one solution: it is the split and its runs. */
  lemma {:induction false} SplitUnique(s: string, pieces: seq<string>, runs: seq<string>)
    requires IsSplitOf(s, pieces, runs)
    ensures pieces == Split(s) && runs == Runs(s)
    decreases |runs|
  {
    if |runs| == 0 {
      assert NoSep(s);
    } else {
      var c := Interleave(pieces[1..], runs[1..]);
      SplitTail(s, pieces, runs);
      SplitUnique(c, pieces[1..], runs[1..]);
      NextPieceStart(pieces[1..], runs[1..]);
      FirstCut(s, pieces[0], runs[0], c);
      assert pieces == [pieces[0]] + pieces[1..];
      assert runs == [runs[0]] + runs[1..];
    }
  }

  /** Dropping the first piece and run of a split leaves a split of the rest of the string. */
  lemma SplitTail(s: string, pieces: seq<string>, runs: seq<string>)
    requires IsSplitOf(s, pieces, runs) && |runs| > 0
    ensures s == pieces[0] + runs[0] + Interleave(pieces[1..], runs[1..])
    ensures NoSep(pieces[0]) && SepRun(runs[0])
    ensures IsSplitOf(Interleave(pieces[1..], runs[1..]), pieces[1..], runs[1..])
    ensures pieces[1..][0] == "" ==> |runs[1..]| == 0
  {
    assert forall i :: 0 <= i < |pieces[1..]| ==> pieces[1..][i] == pieces[i + 1];
    assert forall i :: 0 <= i < |runs[1..]| ==> runs[1..][i] == runs[i + 1];
  }

  /** A joined string does not start with a separator unless its first piece is empty. */
  lemma NextPieceStart(pieces: seq<string>, runs: seq<string>)
    requires |pieces| == |runs| + 1
    requires forall i :: 0 < i < |pieces| - 1 ==> pieces[i] != ""
    requires pieces[0] == "" ==> |runs| == 0
    requires forall i :: 0 <= i < |pieces| ==> NoSep(pieces[i])
    ensures Interleave(pieces, runs) == "" || !IsSep(Interleave(pieces, runs)[0])
  {
    if pieces[0] != "" {
      assert Interleave(pieces, runs)[0] == pieces[0][0];
    }
  }

  /** Where a word, a separator run and a rest that does not start with a separator are cut. */
  lemma FirstCut(s: string, a: string, b: string, c: string)
    requires s == a + b + c && NoSep(a) && SepRun(b)
    requires c == "" || !IsSep(c[0])
    ensures NextSep(s, 0) == |a| && RunEnd(s, |a|) == |a| + |b|
    ensures Split(s) == [a] + Split(c)
    ensures Runs(s) == [b] + Runs(c)
  {
    var i := NextSep(s, 0);
    assert forall k :: 0 <= k < |a| ==> s[k] == a[k];
    assert s[|a|] == b[0];
    assert i == |a|;
    var j := RunEnd(s, i);
    assert forall k :: |a| <= k < |a| + |b| ==> s[k] == b[k - |a|];
    assert |a| + |b| < |s| ==> s[|a| + |b|] == c[0];
    assert j == |a| + |b|;
    assert s[..i] == a && s[j..] == c && s[i..j] == b;
    RunsHead(s);
  }

  /* ---------------- initials ---------------- */

  /** `s[0]?.toUpperCase() ?? ''`. */
  function InitialOf(piece: string): (r: string)
    ensures |r| <= 1
    ensures |r| == 1 <==> piece != ""
    ensures piece != "" ==> r == [UpperChar(piece[0])]
  {
    if piece == "" then "" else [UpperChar(piece[0])]
  }

  /** The avatar initials: the first letters of at most the first two pieces, upper-cased. */
  function Initials(name: string): (r: string)
    ensures |r| <= 2
    ensures forall i :: 0 <= i < |r| ==> !IsLower(r[i]) && !IsSep(r[i])
  {
    var pieces := Split(name);
    if |pieces| == 1 then InitialOf(pieces[0]) else InitialOf(pieces[0]) + InitialOf(pieces[1])
  }

  /**
   * For a name that starts with two words separated by a separator run, the initials are those
   * two words' first letters, upper-cased.
   */
  lemma InitialsOfTwoWords(name: string, a: string, gap: string, b: string, rest: string)
    requires name == a + gap + b + rest
    requires a != "" && b != "" && NoSep(a) && NoSep(b) && SepRun(gap)
    requires rest == "" || IsSep(rest[0])
    ensures Initials(name) == [UpperChar(a[0]), UpperChar(b[0])]
  {
    var t := b + rest;
    assert name == a + gap + t;
    assert t[0] == b[0];
    FirstCut(name, a, gap, t);
    FirstPiece(t, b, rest);
    InitialsOfPieces(name, a, b);
  }

  /** With at least two pieces, the initials come from the first two. */
  lemma InitialsOfPieces(name: string, a: string, b: string)
    requires |Split(name)| >= 2 && Split(name)[0] == a && Split(name)[1] == b
    requires a != "" && b != ""
    ensures Initials(name) == [UpperChar(a[0]), UpperChar(b[0])]
  {
  }

  /** A word followed by nothing or by a separator is the first piece. */
  lemma FirstPiece(t: string, b: string, rest: string)
    requires t == b + rest && NoSep(b)
    requires rest == "" || IsSep(rest[0])
    ensures Split(t)[0] == b
  {
    if rest == "" {
      assert t == b;
    } else {
      assert forall k :: 0 <= k < |b| ==> t[k] == b[k];
      assert t[|b|] == rest[0];
      assert NextSep(t, 0) == |b|;
      assert t[..|b|] == b;
    }
  }

  /** No initials, and so the fallback icon, exactly when both of the first two pieces are empty. */
  lemma InitialsEmptyIff(name: string)
    ensures Initials(name) == "" <==>
              Split(name)[0] == "" && (|Split(name)| == 1 || Split(name)[1] == "")
  {
  }

  /** The avatar shows the user icon instead of letters only when there are no initials. */
  predicate FallbackIcon(name: string) {
    Initials(name) == ""
  }

  /** A profile name set to `''` is kept by the nullish chain and leaves the avatar without letters. */
  lemma EmptyProfileNameShowsIcon(userEntityRef: Option<string>)
    ensures DisplayName(Some(""), userEntityRef) == ""
    ensures FallbackIcon(DisplayName(Some(""), userEntityRef))
  {
    assert Split("") == [""];
  }

  lemma InitialsOfFullName()
    ensures Initials("Jane Doe") == "JD"
  {
    assert "Jane Doe" == "Jane" + " " + "Doe" + "";
    InitialsOfTwoWords("Jane Doe", "Jane", " ", "Doe", "");
  }

  lemma InitialsOfEmail()
    ensures Initials("ann@corp") == "AC"
  {
    assert "ann@corp" == "ann" + "@" + "corp" + "";
    InitialsOfTwoWords("ann@corp", "ann", "@", "corp", "");
  }

  /* ---------------- sections ---------------- */

  /** The identity fields the card reads; `ownership` is `[]` when absent. */
  datatype Identity = Identity(userEntityRef: string, ownership: seq<string>)

  /** The entity-ref section: only with an identity whose ref is non-empty. */
  predicate RefSectionShown(identity: Option<Identity>) {
    identity.Some? && identity.value.userEntityRef != ""
  }

  /** The ownership list sits inside the ref section and needs at least one ref. */
  predicate OwnershipShown(identity: Option<Identity>) {
    RefSectionShown(identity) && |identity.value.ownership| > 0
  }

  /** Ownership is never shown without the entity ref it belongs to. */
  lemma OwnershipNeedsRef(identity: Option<Identity>)
    ensures OwnershipShown(identity) ==> RefSectionShown(identity)
    ensures identity.None? ==> !RefSectionShown(identity) && !OwnershipShown(identity)
  {
  }
}
