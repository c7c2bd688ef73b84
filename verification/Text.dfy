/** Searching, splitting and joining text the way the scripts do. */
module Text {

  predicate MatchAt(s: string, pat: string, i: nat) {
    i + |pat| <= |s| && s[i..i + |pat|] == pat
  }

  /** The first index at which `pat` occurs, or -1. */
  function IndexOf(s: string, pat: string): int {
    if |s| < |pat| then -1
    else if pat <= s then 0
    else
      var i := if |s| == 0 then -1 else IndexOf(s[1..], pat);
      if i < 0 then -1 else i + 1
  }

  predicate Contains(s: string, pat: string) {
    IndexOf(s, pat) >= 0
  }

  predicate StartsWith(s: string, prefix: string) {
    prefix <= s
  }

  lemma {:induction false} IndexOfIsFirst(s: string, pat: string)
    requires |pat| > 0
    ensures var i := IndexOf(s, pat);
      if i < 0 then forall j: nat :: !MatchAt(s, pat, j)
      else MatchAt(s, pat, i) && forall j: nat :: j < i ==> !MatchAt(s, pat, j)
  {
    if |s| < |pat| {
    } else {
      IndexOfIsFirst(s[1..], pat);
      forall j: nat | j > 0
        ensures MatchAt(s, pat, j) <==> MatchAt(s[1..], pat, j - 1)
      {
        if j + |pat| <= |s| {
          assert s[j..j + |pat|] == s[1..][j - 1..j - 1 + |pat|];
        }
      }
      assert MatchAt(s, pat, 0) <==> pat <= s by {
        assert s[0..|pat|] == s[..|pat|];
      }
    }
  }

  /** A first occurrence stays the first when text is appended. */
  lemma {:induction false} IndexOfAppend(a: string, b: string, pat: string)
    requires |pat| > 0 && Contains(a, pat)
    ensures IndexOf(a + b, pat) == IndexOf(a, pat)
  {
    IndexOfIsFirst(a, pat);
    IndexOfIsFirst(a + b, pat);
    var i, k := IndexOf(a, pat), IndexOf(a + b, pat);
    assert (a + b)[i..i + |pat|] == a[i..i + |pat|];
    assert MatchAt(a + b, pat, i);
    assert 0 <= k <= i;
    assert (a + b)[k..k + |pat|] == a[k..k + |pat|];
    assert MatchAt(a, pat, k);
  }

  function Split(s: string, sep: string): (parts: seq<string>)
    requires |sep| > 0
    ensures |parts| > 0
    decreases |s|
  {
    var i := IndexOf(s, sep);
    if i < 0 then [s] else (IndexOfIsFirst(s, sep); [s[..i]] + Split(s[i + |sep|..], sep))
  }

  function Join(parts: seq<string>, sep: string): string {
    if |parts| == 0 then ""
    else if |parts| == 1 then parts[0]
    else parts[0] + sep + Join(parts[1..], sep)
  }

  /** All parts but the last, which is still open. */
  function Complete(s: string, sep: string): seq<string>
    requires |sep| > 0
  {
    var parts := Split(s, sep);
    parts[..|parts| - 1]
  }

  function Remainder(s: string, sep: string): string
    requires |sep| > 0
  {
    var parts := Split(s, sep);
    parts[|parts| - 1]
  }

  lemma {:induction false} JoinSplit(s: string, sep: string)
    requires |sep| > 0
    ensures Join(Split(s, sep), sep) == s
    decreases |s|
  {
    var i := IndexOf(s, sep);
    if i < 0 {
    } else {
      IndexOfIsFirst(s, sep);
      JoinSplit(s[i + |sep|..], sep);
      assert s == s[..i] + s[i..i + |sep|] + s[i + |sep|..];
    }
  }

  /** The parts that are not empty. */
  function NonEmpty(parts: seq<string>): seq<string> {
    if |parts| == 0 then []
    else (if parts[0] == "" then [] else [parts[0]]) + NonEmpty(parts[1..])
  }

  lemma JoinPair(a: string, b: string, sep: string)
    ensures Join([a, b], sep) == a + sep + b
  {
    assert [a, b][1..] == [b];
  }

  lemma {:induction false} JoinConcat(a: seq<string>, b: seq<string>, sep: string)
    requires |a| > 0 && |b| > 0
    ensures Join(a + b, sep) == Join(a, sep) + sep + Join(b, sep)
  {
    assert (a + b)[1..] == a[1..] + b;
    if |a| == 1 {
      assert a[1..] + b == b;
    } else {
      JoinConcat(a[1..], b, sep);
      assert Join(a + b, sep) == a[0] + sep + (Join(a[1..], sep) + sep + Join(b, sep));
    }
  }

  /** Nothing is left to cut in any part. */
  lemma {:induction false} PartsAreCut(s: string, sep: string)
    requires |sep| > 0
    ensures forall k :: 0 <= k < |Split(s, sep)| ==> !Contains(Split(s, sep)[k], sep)
    decreases |s|
  {
    var i := IndexOf(s, sep);
    if i < 0 {
    } else {
      IndexOfIsFirst(s, sep);
      PartsAreCut(s[i + |sep|..], sep);
      if Contains(s[..i], sep) {
        IndexOfAppend(s[..i], s[i..], sep);
        assert s[..i] + s[i..] == s;
        IndexOfIsFirst(s[..i], sep);
      }
    }
  }

  /** Text that arrives later is split as if it followed the open part alone: splitting can be
      done piece by piece. */
  lemma {:induction false} SplitAppend(s: string, more: string, sep: string)
    requires |sep| > 0
    ensures Split(s + more, sep) == Complete(s, sep) + Split(Remainder(s, sep) + more, sep)
    decreases |s|
  {
    hide Split, IndexOf;
    if !Contains(s, sep) {
      SplitOpen(s, sep);
      assert Split(s + more, sep) == [] + Split(s + more, sep);
    } else {
      var i, rest := CutFirst(s, more, sep);
      SplitAppend(rest, more, sep);
      assert Split(s + more, sep) == [s[..i]] + (Complete(rest, sep) + Split(Remainder(rest, sep) + more, sep));
      assert Complete(s, sep) == [s[..i]] + Complete(rest, sep);
    }
  }

  lemma SplitOpen(s: string, sep: string)
    requires |sep| > 0 && !Contains(s, sep)
    ensures Split(s, sep) == [s] && Complete(s, sep) == [] && Remainder(s, sep) == s
  {
  }

  /** One cut of text that holds a separator, with or without more text behind it. */
  lemma CutFirst(s: string, more: string, sep: string) returns (i: nat, rest: string)
    requires |sep| > 0 && Contains(s, sep)
    ensures i == IndexOf(s, sep) && i + |sep| <= |s| && rest == s[i + |sep|..]
    ensures Split(s + more, sep) == [s[..i]] + Split(rest + more, sep)
    ensures Split(s, sep) == [s[..i]] + Split(rest, sep)
  {
    hide IndexOf;
    i := IndexOf(s, sep);
    IndexOfIsFirst(s, sep);
    IndexOfAppend(s, more, sep);
    rest := s[i + |sep|..];
    SplitStep(s, sep);
    SplitStep(s + more, sep);
    hide Split;
    assert (s + more)[..i] == s[..i] && (s + more)[i + |sep|..] == rest + more;
  }

  lemma SplitStep(s: string, sep: string)
    requires |sep| > 0 && Contains(s, sep)
    ensures var i := IndexOf(s, sep); i + |sep| <= |s| && Split(s, sep) == [s[..i]] + Split(s[i + |sep|..], sep)
  {
    hide IndexOf;
    IndexOfIsFirst(s, sep);
  }

  /** The separator that closes a part is not met earlier. */
  predicate Closes(part: string, sep: string) {
    IndexOf(part + sep, sep) == |part|
  }

  lemma SplitFirst(part: string, rest: string, sep: string)
    requires |sep| > 0 && Closes(part, sep)
    ensures Split(part + sep + rest, sep) == [part] + Split(rest, sep)
  {
    IndexOfAppend(part + sep, rest, sep);
    var s := part + sep + rest;
    assert s[..|part|] == part && s[|part| + |sep|..] == rest;
  }

  lemma {:induction false} SplitJoin(parts: seq<string>, sep: string)
    requires |sep| > 0 && |parts| > 0
    requires forall k :: 0 <= k < |parts| - 1 ==> Closes(parts[k], sep)
    requires !Contains(parts[|parts| - 1], sep)
    ensures Split(Join(parts, sep), sep) == parts
  {
    if |parts| == 1 {
    } else {
      SplitJoin(parts[1..], sep);
      SplitFirst(parts[0], Join(parts[1..], sep), sep);
    }
  }

  /** Every part but the last was closed where the separator stood. */
  lemma {:induction false} PartsClose(s: string, sep: string)
    requires |sep| > 0
    ensures forall k :: 0 <= k < |Split(s, sep)| - 1 ==> Closes(Split(s, sep)[k], sep)
    decreases |s|
  {
    var i := IndexOf(s, sep);
    if i < 0 {
    } else {
      IndexOfIsFirst(s, sep);
      var part, rest := s[..i], s[i + |sep|..];
      PartsClose(rest, sep);
      assert s == part + sep + rest;
      IndexOfIsFirst(part + sep, sep);
      assert (part + sep)[i..i + |sep|] == sep;
      assert MatchAt(part + sep, sep, i);
      IndexOfAppend(part + sep, rest, sep);
    }
  }

  lemma ContainsConcat(a: string, b: string, pat: string)
    requires |pat| > 0 && (Contains(a, pat) || Contains(b, pat))
    ensures Contains(a + b, pat)
  {
    IndexOfIsFirst(a + b, pat);
    if Contains(a, pat) {
      IndexOfAppend(a, b, pat);
    } else {
      IndexOfIsFirst(b, pat);
      var i := IndexOf(b, pat);
      assert (a + b)[|a| + i..|a| + i + |pat|] == b[i..i + |pat|];
      assert MatchAt(a + b, pat, |a| + i);
    }
  }

  lemma {:induction false} JoinContains(parts: seq<string>, sep: string, k: nat, pat: string)
    requires |pat| > 0 && k < |parts| && Contains(parts[k], pat)
    ensures Contains(Join(parts, sep), pat)
  {
    if |parts| == 1 {
    } else {
      if k > 0 {
        JoinContains(parts[1..], sep, k - 1, pat);
      } else {
        ContainsConcat(parts[0], sep, pat);
      }
      ContainsConcat(parts[0] + sep, Join(parts[1..], sep), pat);
    }
  }

  lemma NotYetClosed(part: string, sep: string)
    requires |sep| > 0 && Closes(part, sep)
    ensures !Contains(part, sep)
  {
    if Contains(part, sep) {
      IndexOfAppend(part, sep, sep);
      IndexOfIsFirst(part, sep);
    }
  }

  /** A separator is met only where its first character is, so text without that character closes
      cleanly. */
  lemma ClosesWithout(part: string, sep: string)
    requires |sep| > 0 && sep[0] !in part
    ensures Closes(part, sep) && !Contains(part, sep)
  {
    IndexOfIsFirst(part + sep, sep);
    assert (part + sep)[|part|..|part| + |sep|] == sep;
    assert MatchAt(part + sep, sep, |part|);
    forall j: nat | j < |part|
      ensures !MatchAt(part + sep, sep, j)
    {
      var window := (part + sep)[j..j + |sep|];
      assert window[0] == part[j];
    }
    NotYetClosed(part, sep);
  }

  /** The first character of the separator comes only once in it. */
  predicate NoOverlap(sep: string) {
    |sep| > 0 && forall i :: 0 < i < |sep| ==> sep[i] != sep[0]
  }

  /** A separator that cannot overlap itself is met early only in text that contains it. */
  lemma ClosesIff(part: string, sep: string)
    requires NoOverlap(sep)
    ensures Closes(part, sep) <==> !Contains(part, sep)
  {
    if Contains(part, sep) {
      IndexOfAppend(part, sep, sep);
      IndexOfIsFirst(part, sep);
    } else {
      var whole := part + sep;
      IndexOfIsFirst(whole, sep);
      assert whole[|part|..|part| + |sep|] == sep;
      assert MatchAt(whole, sep, |part|);
      hide IndexOf, MatchAt;
      forall j: nat | j < |part|
        ensures !MatchAt(whole, sep, j)
      {
        NoEarlyMatch(part, sep, j);
      }
    }
  }

  lemma NoEarlyMatch(part: string, sep: string, j: nat)
    requires NoOverlap(sep) && !Contains(part, sep) && j < |part|
    ensures !MatchAt(part + sep, sep, j)
  {
    IndexOfIsFirst(part, sep);
    hide IndexOf, Contains;
    var window := (part + sep)[j..j + |sep|];
    if j + |sep| <= |part| {
      assert !MatchAt(part, sep, j);
      assert window == part[j..j + |sep|];
    } else {
      assert window[|part| - j] == sep[0];
    }
  }

  /** Splitting undoes joining exactly when no part contains the separator. */
  lemma SplitJoinIff(parts: seq<string>, sep: string)
    requires NoOverlap(sep) && |parts| > 0
    ensures Split(Join(parts, sep), sep) == parts <==> forall k :: 0 <= k < |parts| ==> !Contains(parts[k], sep)
  {
    PartsAreCut(Join(parts, sep), sep);
    if forall k :: 0 <= k < |parts| ==> !Contains(parts[k], sep) {
      forall k | 0 <= k < |parts|
        ensures Closes(parts[k], sep)
      {
        ClosesIff(parts[k], sep);
      }
      SplitJoin(parts, sep);
    }
  }

  /** The two characters of a separator side by side. */
  predicate PairAt(s: string, sep: string, j: nat)
    requires |sep| == 2
  {
    j + 1 < |s| && s[j] == sep[0] && s[j + 1] == sep[1]
  }

  lemma ContainsPairIff(s: string, sep: string)
    requires |sep| == 2
    ensures Contains(s, sep) <==> exists j: nat :: PairAt(s, sep, j)
  {
    IndexOfIsFirst(s, sep);
    forall j: nat
      ensures MatchAt(s, sep, j) <==> PairAt(s, sep, j)
    {
      MatchIsPair(s, sep, j);
    }
    hide IndexOf, MatchAt, PairAt;
    if Contains(s, sep) {
      assert MatchAt(s, sep, IndexOf(s, sep));
    }
  }

  lemma MatchIsPair(s: string, sep: string, j: nat)
    requires |sep| == 2
    ensures MatchAt(s, sep, j) <==> PairAt(s, sep, j)
  {
    if j + 2 <= |s| {
      var window := s[j..j + 2];
      assert window[0] == s[j] && window[1] == s[j + 1];
      assert window == sep <==> window[0] == sep[0] && window[1] == sep[1];
    }
  }

  lemma OpenPartCloses(s: string, sep: string)
    requires |sep| == 1
    ensures Closes(Remainder(s, sep), sep)
  {
    PartsAreCut(s, sep);
    hide Split, Contains, Closes;
    var open := Remainder(s, sep);
    NotContained(open, sep);
    ClosesWithout(open, sep);
  }

  /** Splitting at a single character distributes over text joined by that character. */
  lemma SplitConcat(a: string, b: string, sep: string)
    requires |sep| == 1
    ensures Split(a + sep + b, sep) == Split(a, sep) + Split(b, sep)
  {
    hide Split, Closes, IndexOf;
    var open, done := Remainder(a, sep), Complete(a, sep);
    OpenPartCloses(a, sep);
    assert a + sep + b == a + (sep + b) && open + sep + b == open + (sep + b);
    SplitAppend(a, sep + b, sep);
    SplitFirst(open, b, sep);
    assert done + [open] == Split(a, sep);
    hide Remainder, Complete;
    assert done + ([open] + Split(b, sep)) == done + [open] + Split(b, sep);
  }

  lemma NotContained(s: string, sep: string)
    requires |sep| == 1 && !Contains(s, sep)
    ensures sep[0] !in s
  {
    IndexOfIsFirst(s, sep);
    forall j: nat | j < |s|
      ensures s[j] != sep[0]
    {
      assert !MatchAt(s, sep, j);
      assert s[j..j + 1] == [s[j]] && sep == [sep[0]];
    }
  }
}
