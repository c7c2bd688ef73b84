/** Adding the simulcast acknowledgment (section 5.1 of RFC 8853, rid lines of section 4 of RFC 8851)
    to an SDP answer that lacks it. */
module Simulcast {
  import opened Text

  const CRLF := "\r\n"
  const MARK := "a=simulcast:"

  predicate IsMedia(line: string) {
    StartsWith(line, "m=")
  }

  predicate IsVideo(line: string) {
    StartsWith(line, "m=video")
  }

  predicate IsDirection(line: string) {
    line == "a=recvonly" || line == "a=sendrecv"
  }

  /** Line i belongs to a video section: the latest media line up to it opens one. */
  ghost predicate InVideo(lines: seq<string>, i: nat) {
    exists m: nat :: m <= i && m < |lines| && IsVideo(lines[m])
      && forall k :: m < k <= i && k < |lines| ==> !IsMedia(lines[k])
  }

  ghost predicate VideoDirection(lines: seq<string>, i: nat) {
    i < |lines| && IsDirection(lines[i]) && InVideo(lines, i)
  }

  /** The place to insert: the first direction line of a video section. */
  ghost predicate Target(lines: seq<string>, p: nat) {
    VideoDirection(lines, p) && forall q: nat :: q < p ==> !VideoDirection(lines, q)
  }

  function RidLine(rid: string): string {
    "a=rid:" + rid + " recv"
  }

  function RidLines(rids: seq<string>): seq<string> {
    seq(|rids|, i requires 0 <= i < |rids| => RidLine(rids[i]))
  }

  function SimulcastLine(rids: seq<string>): string {
    "a=simulcast:recv " + Join(rids, ";")
  }

  function Block(rids: seq<string>): seq<string> {
    RidLines(rids) + [SimulcastLine(rids)]
  }

  function Inject(lines: seq<string>, p: nat, rids: seq<string>): seq<string>
    requires p < |lines|
  {
    lines[..p + 1] + Block(rids) + lines[p + 1..]
  }

  /** What the rewriting owes: an answer that already acknowledges simulcast, has no layers to
      acknowledge or offers no place is returned as it came; otherwise the block follows the target
      line and nothing else changes. */
  ghost predicate Munged(sdp: string, rids: seq<string>, out: string) {
    var lines := Split(sdp, CRLF);
    if Contains(sdp, MARK) || |rids| == 0 then out == sdp
    else
      && (forall p: nat :: Target(lines, p) ==> out == Join(Inject(lines, p, rids), CRLF))
      && ((forall p: nat :: !Target(lines, p)) ==> out == sdp)
  }

  lemma VideoFlag(lines: seq<string>, i: nat, inVideo: bool)
    requires i < |lines|
    requires i > 0 ==> (inVideo <==> InVideo(lines, i - 1))
    requires i == 0 ==> !inVideo
    ensures InVideo(lines, i) <==> IsVideo(lines[i]) || (inVideo && !IsMedia(lines[i]))
  {
    if inVideo && !IsMedia(lines[i]) {
      var m: nat :| m <= i - 1 && IsVideo(lines[m]) && forall k :: m < k <= i - 1 ==> !IsMedia(lines[k]);
      assert forall k :: m < k <= i ==> !IsMedia(lines[k]);
    }
    assert IsVideo(lines[i]) ==> IsMedia(lines[i]) by {
      assert IsVideo(lines[i]) ==> lines[i][..2] == "m=video"[..2] == "m=";
    }
  }

  lemma TargetIsUnique(lines: seq<string>, p: nat, q: nat)
    requires Target(lines, p) && Target(lines, q)
    ensures p == q
  {
  }

  /** The lines written when the first i lines have been read. */
  ghost predicate Written(lines: seq<string>, rids: seq<string>, i: nat, result: seq<string>, target: int) {
    && i <= |lines|
    && if target < 0 then
         result == lines[..i] && forall q: nat :: q < i ==> !VideoDirection(lines, q)
       else
         target < i && Target(lines, target) && result == lines[..target + 1] + Block(rids) + lines[target + 1..i]
  }

  lemma WrittenLine(lines: seq<string>, rids: seq<string>, i: nat, result: seq<string>, target: int)
    requires i < |lines| && Written(lines, rids, i, result, target)
    requires target >= 0 || !VideoDirection(lines, i)
    ensures Written(lines, rids, i + 1, result + [lines[i]], target)
  {
    hide VideoDirection, Block;
    if target >= 0 {
      assert lines[target + 1..i + 1] == lines[target + 1..i] + [lines[i]];
    }
  }

  lemma WrittenBlock(lines: seq<string>, rids: seq<string>, i: nat, result: seq<string>)
    requires i < |lines| && Written(lines, rids, i, result, -1) && VideoDirection(lines, i)
    ensures Written(lines, rids, i + 1, result + [lines[i]] + Block(rids), i)
  {
    hide VideoDirection, Block;
    assert lines[..i + 1] == lines[..i] + [lines[i]];
    assert lines[i + 1..i + 1] == [];
  }

  lemma WrittenAll(sdp: string, rids: seq<string>, result: seq<string>, target: int)
    requires !Contains(sdp, MARK) && |rids| > 0
    requires Written(Split(sdp, CRLF), rids, |Split(sdp, CRLF)|, result, target)
    ensures Munged(sdp, rids, Join(result, CRLF))
  {
    hide Split, Join, Contains;
    var lines := Split(sdp, CRLF);
    if target >= 0 {
      forall p: nat | Target(lines, p) ensures p == target {
        TargetIsUnique(lines, p, target);
      }
      hide VideoDirection, Block;
      assert result == Inject(lines, target, rids);
    } else {
      assert result == lines;
      JoinSplit(sdp, CRLF);
    }
  }

  method AppendBlock(lines: seq<string>, rids: seq<string>) returns (result: seq<string>)
    ensures result == lines + Block(rids)
  {
    result := lines;
    hide RidLine, SimulcastLine;
    for k := 0 to |rids|
      invariant result == lines + RidLines(rids[..k])
    {
      assert RidLines(rids[..k + 1]) == RidLines(rids[..k]) + [RidLine(rids[k])];
      result := result + [RidLine(rids[k])];
    }
    assert rids[..|rids|] == rids;
    result := result + [SimulcastLine(rids)];
  }

  method MungeAnswerForSimulcast(sdp: string, rids: seq<string>) returns (out: string)
    ensures Munged(sdp, rids, out)
  {
    hide Munged, Written, InVideo, VideoDirection, IsVideo, IsMedia, IsDirection, Split, Join, Contains;
    if Contains(sdp, MARK) || |rids| == 0 {
      NothingToDo(sdp, rids);
      return sdp;
    }
    var lines := Split(sdp, CRLF);
    var result: seq<string> := [];
    var inVideo, inserted := false, false;
    ghost var target := -1;
    WrittenNothing(lines, rids);
    for i := 0 to |lines|
      invariant if i == 0 then !inVideo else inVideo <==> InVideo(lines, i - 1)
      invariant Written(lines, rids, i, result, target) && (inserted <==> target >= 0)
      invariant target < 0 ==> target == -1
    {
      var line := lines[i];
      VideoFlag(lines, i, inVideo);
      if IsVideo(line) {
        inVideo := true;
      } else if IsMedia(line) {
        inVideo := false;
      }
      DirectionInVideo(lines, i);
      ghost var before := result;
      result := result + [line];
      if inVideo && !inserted && IsDirection(line) {
        result := AppendBlock(result, rids);
        inserted := true;
        WrittenBlock(lines, rids, i, before);
        target := i;
      } else {
        WrittenLine(lines, rids, i, before, target);
      }
    }
    out := Join(result, CRLF);
    WrittenAll(sdp, rids, result, target);
  }

  lemma NothingToDo(sdp: string, rids: seq<string>)
    requires Contains(sdp, MARK) || |rids| == 0
    ensures Munged(sdp, rids, sdp)
  {
  }

  lemma DirectionInVideo(lines: seq<string>, i: nat)
    requires i < |lines|
    ensures VideoDirection(lines, i) <==> InVideo(lines, i) && IsDirection(lines[i])
  {
  }

  lemma WrittenNothing(lines: seq<string>, rids: seq<string>)
    ensures Written(lines, rids, 0, [], -1)
  {
  }

  // ------------------------------------------------------- what the rewriting means

  /** Rewriting twice changes nothing more. */
  lemma MungingIsIdempotent(sdp: string, rids: seq<string>, once: string, twice: string)
    requires Munged(sdp, rids, once) && Munged(once, rids, twice)
    ensures twice == once
  {
    hide Split, InVideo;
    var lines := Split(sdp, CRLF);
    if !Contains(sdp, MARK) && |rids| > 0 && exists p: nat :: Target(lines, p) {
      var p: nat :| Target(lines, p);
      InjectedMark(lines, p, rids);
    }
  }

  lemma InjectedMark(lines: seq<string>, p: nat, rids: seq<string>)
    requires p < |lines|
    ensures Contains(Join(Inject(lines, p, rids), CRLF), MARK)
  {
    var k := p + 1 + |rids|;
    var line := SimulcastLine(rids);
    assert Inject(lines, p, rids)[k] == line;
    assert MARK <= "a=simulcast:recv " <= line;
    assert Contains(line, MARK);
    JoinContains(Inject(lines, p, rids), CRLF, k, MARK);
  }

  /** An answer whose first video section comes behind `before` and has its direction behind `attributes`: in
      whatever sections come before, directions are passed over. */
  ghost predicate HasVideo(lines: seq<string>, before: seq<string>, media: string, attributes: seq<string>,
                           direction: string, after: seq<string>) {
    && lines == before + [media] + attributes + [direction] + after
    && (forall i :: 0 <= i < |lines| ==> !Contains(lines[i], "\r\n"))
    && (forall i :: 0 <= i < |before| ==> !("m=video" <= before[i]))
    && "m=video" <= media
    && (forall i :: 0 <= i < |attributes| ==>
          !("m=" <= attributes[i]) && attributes[i] != "a=recvonly" && attributes[i] != "a=sendrecv")
    && (direction == "a=recvonly" || direction == "a=sendrecv")
  }

  /** The lines that acknowledge these layers. */
  ghost predicate Acknowledges(block: seq<string>, rids: seq<string>) {
    && |block| == |rids| + 1
    && (forall i :: 0 <= i < |rids| ==> block[i] == "a=rid:" + rids[i] + " recv")
    && block[|rids|] == "a=simulcast:recv " + Join(rids, ";")
  }

  /** The text that comes out, line by line: the layers are acknowledged right behind the direction of the first
      video section. */
  lemma VideoIsAcknowledged(lines: seq<string>, before: seq<string>, media: string, attributes: seq<string>,
                            direction: string, after: seq<string>, rids: seq<string>, block: seq<string>, out: string)
    requires HasVideo(lines, before, media, attributes, direction, after)
    requires Acknowledges(block, rids) && |rids| > 0
    requires !Contains(Join(lines, "\r\n"), "a=simulcast:") && Munged(Join(lines, "\r\n"), rids, out)
    ensures out == Join(before + [media] + attributes + [direction] + block + after, "\r\n")
  {
    hide Split, Join, Contains, Target, Munged, HasVideo, Block, Acknowledges;
    var head := before + [media] + attributes + [direction];
    VideoIsTarget(lines, before, media, attributes, direction, after);
    LinesAreSplit(lines, before, media, attributes, direction, after);
    MungedAt(Join(lines, "\r\n"), |head| - 1, rids, out);
    BlockIs(block, rids);
    assert lines[..|head|] == head && lines[|head|..] == after;
  }

  lemma BlockIs(block: seq<string>, rids: seq<string>)
    requires Acknowledges(block, rids)
    ensures Block(rids) == block
  {
    hide Join;
  }

  lemma LinesAreSplit(lines: seq<string>, before: seq<string>, media: string, attributes: seq<string>,
                      direction: string, after: seq<string>)
    requires HasVideo(lines, before, media, attributes, direction, after)
    ensures lines == before + [media] + attributes + [direction] + after
    ensures Split(Join(lines, "\r\n"), CRLF) == lines
  {
    hide Contains;
    assert NoOverlap("\r\n");
    SplitJoinIff(lines, "\r\n");
  }

  lemma MungedAt(sdp: string, p: nat, rids: seq<string>, out: string)
    requires Munged(sdp, rids, out) && !Contains(sdp, "a=simulcast:") && |rids| > 0
    requires Target(Split(sdp, CRLF), p)
    ensures p < |Split(sdp, CRLF)| && out == Join(Inject(Split(sdp, CRLF), p, rids), "\r\n")
  {
    hide Split, Join, Contains, InVideo;
  }

  lemma VideoIsTarget(lines: seq<string>, before: seq<string>, media: string, attributes: seq<string>,
                      direction: string, after: seq<string>)
    requires HasVideo(lines, before, media, attributes, direction, after)
    ensures Target(lines, |before| + 1 + |attributes|)
  {
    hide Contains;
    var m, p := |before|, |before| + 1 + |attributes|;
    assert lines[m] == media && lines[p] == direction;
    assert forall i :: 0 <= i < m ==> lines[i] == before[i];
    assert forall i :: m < i < p ==> lines[i] == attributes[i - m - 1];
    assert direction[0] == 'a' && media[0] == 'm' && "m="[0] == 'm';
    assert InVideo(lines, p);
    forall q: nat | q < p
      ensures !VideoDirection(lines, q)
    {
      assert q < m || q == m || m < q;
    }
  }

  /** In every other case the answer stays as it was. */
  lemma NothingToAcknowledge(sdp: string, rids: seq<string>, out: string)
    requires Munged(sdp, rids, out)
    requires var lines := Split(sdp, "\r\n");
      || Contains(sdp, "a=simulcast:") || |rids| == 0
      || (forall i :: 0 <= i < |lines| ==> !("m=video" <= lines[i]))
      || (forall i :: 0 <= i < |lines| ==> lines[i] != "a=recvonly" && lines[i] != "a=sendrecv")
    ensures out == sdp
  {
    hide Split, Contains, Join, Target;
    var lines := Split(sdp, "\r\n");
    assert lines == Split(sdp, CRLF);
    if !Contains(sdp, "a=simulcast:") && |rids| > 0 {
      NoTarget(lines);
      assert !Contains(sdp, MARK);
    }
  }

  lemma NoTarget(lines: seq<string>)
    requires || (forall i :: 0 <= i < |lines| ==> !("m=video" <= lines[i]))
             || (forall i :: 0 <= i < |lines| ==> lines[i] != "a=recvonly" && lines[i] != "a=sendrecv")
    ensures forall p: nat :: !Target(lines, p)
  {
  }

  /** The text that is added. */
  function Inserted(rids: seq<string>): string {
    CRLF + Join(Block(rids), CRLF)
  }

  /** For all layer names: the rewritten answer is the answer that came in with the block's text put in
      at one place, behind the target line. */
  lemma OnlyTheBlockIsInserted(sdp: string, rids: seq<string>, p: nat, out: string)
    requires Munged(sdp, rids, out) && !Contains(sdp, MARK) && |rids| > 0
    requires Target(Split(sdp, CRLF), p)
    ensures var at := |Join(Split(sdp, CRLF)[..p + 1], CRLF)|;
      at <= |sdp| && out == sdp[..at] + Inserted(rids) + sdp[at..]
  {
    var lines := Split(sdp, CRLF);
    TargetIsDirection(lines, p);
    assert out == Join(Inject(lines, p, rids), CRLF);
    BlockLength(rids);
    JoinSplit(sdp, CRLF);
    hide Split, Join, Target, Munged, Contains, Block;
    InsertText(lines[..p + 1], Block(rids), lines[p + 1..]);
    assert lines[..p + 1] + lines[p + 1..] == lines;
  }

  lemma InsertText(a: seq<string>, block: seq<string>, b: seq<string>)
    requires |a| > 0 && |block| > 0
    ensures var at, whole := |Join(a, CRLF)|, Join(a + b, CRLF);
      at <= |whole| && Join(a + block + b, CRLF) == whole[..at] + (CRLF + Join(block, CRLF)) + whole[at..]
  {
    hide Join;
    JoinConcat(a, block, CRLF);
    var head, text := Join(a, CRLF), CRLF + Join(block, CRLF);
    assert Join(a + block, CRLF) == head + text;
    if |b| == 0 {
      assert a + b == a && a + block + b == a + block;
      assert head[..|head|] + text + head[|head|..] == head + text;
    } else {
      JoinConcat(a, b, CRLF);
      JoinConcat(a + block, b, CRLF);
      var tail := CRLF + Join(b, CRLF);
      assert Join(a + b, CRLF) == head + tail;
      assert (head + tail)[..|head|] == head && (head + tail)[|head|..] == tail;
      assert Join(a + block + b, CRLF) == head + text + tail;
    }
  }

  /** Some layer name contains the separator. */
  ghost predicate Breaks(rids: seq<string>, sep: string) {
    exists i :: 0 <= i < |rids| && Contains(rids[i], sep)
  }

  /** A line of the block contains a line end exactly when a layer name brings one in. */
  lemma BlockBreaksIff(rids: seq<string>)
    ensures Breaks(Block(rids), CRLF) <==> Breaks(rids, CRLF)
  {
    BlockLength(rids);
    hide Contains, Join;
    var block := Block(rids);
    forall i | 0 <= i < |rids|
      ensures Contains(block[i], CRLF) <==> Contains(rids[i], CRLF)
    {
      assert block[i] == RidLine(rids[i]);
      PaddedContains("a=rid:", rids[i], " recv", CRLF);
    }
    assert block[|rids|] == SimulcastLine(rids);
    JoinContainsIff(rids, CRLF);
    PaddedContains("a=simulcast:recv ", Join(rids, ";"), "", CRLF);
    assert "a=simulcast:recv " + Join(rids, ";") + "" == SimulcastLine(rids);
    assert Contains(block[|rids|], CRLF) <==> Breaks(rids, CRLF);
    if Breaks(rids, CRLF) {
      var k :| 0 <= k < |rids| && Contains(rids[k], CRLF);
      assert Contains(block[k], CRLF);
    }
  }

  /** Text around it brings in no line end that was not there. */
  lemma PaddedContains(head: string, middle: string, tail: string, sep: string)
    requires |sep| == 2 && sep[0] !in head && sep[1] !in tail
    ensures Contains(head + middle + tail, sep) <==> Contains(middle, sep)
  {
    var whole := head + middle + tail;
    ContainsPairIff(whole, sep);
    ContainsPairIff(middle, sep);
    hide Contains;
    forall j: nat
      ensures PairAt(whole, sep, j) <==> j >= |head| && PairAt(middle, sep, j - |head|)
    {
    }
    hide PairAt;
    if j: nat :| PairAt(middle, sep, j) {
      assert PairAt(whole, sep, |head| + j);
    }
  }

  lemma {:induction false} JoinContainsIff(rids: seq<string>, sep: string)
    requires |sep| == 2 && sep[0] != ';' && sep[1] != ';'
    ensures Contains(Join(rids, ";"), sep) <==> Breaks(rids, sep)
  {
    if |rids| == 0 {
      IndexOfIsFirst("", sep);
    } else if |rids| == 1 {
      assert Breaks(rids, sep) <==> Contains(rids[0], sep);
    } else {
      var rest := Join(rids[1..], ";");
      JoinContainsIff(rids[1..], sep);
      ContainsAround(rids[0], ";", rest, sep);
      assert Breaks(rids, sep) <==> Contains(rids[0], sep) || Breaks(rids[1..], sep) by {
        BreaksStep(rids, sep);
      }
    }
  }

  lemma BreaksStep(rids: seq<string>, sep: string)
    requires |rids| > 0
    ensures Breaks(rids, sep) <==> Contains(rids[0], sep) || Breaks(rids[1..], sep)
  {
    hide Contains;
    if i :| 0 <= i < |rids| && Contains(rids[i], sep) {
      assert i > 0 ==> rids[1..][i - 1] == rids[i];
    }
    if i :| 0 <= i < |rids[1..]| && Contains(rids[1..][i], sep) {
      assert rids[i + 1] == rids[1..][i];
    }
  }

  lemma ContainsAround(a: string, mid: string, b: string, sep: string)
    requires |sep| == 2 && |mid| == 1 && mid[0] !in sep
    ensures Contains(a + mid + b, sep) <==> Contains(a, sep) || Contains(b, sep)
  {
    var whole := a + mid + b;
    ContainsPairIff(whole, sep);
    ContainsPairIff(a, sep);
    ContainsPairIff(b, sep);
    hide Contains;
    forall j: nat
      ensures PairAt(whole, sep, j) <==> PairAt(a, sep, j) || (j > |a| && PairAt(b, sep, j - |a| - 1))
    {
    }
    hide PairAt;
    if j: nat :| PairAt(b, sep, j) {
      assert PairAt(whole, sep, |a| + 1 + j);
    }
  }

  /** The rewritten answer has exactly the block's lines more, right behind the target line, and taking
      them out again gives back the answer that came in, exactly when no layer name contains a line end. */
  lemma InjectionCanBeUndoneIff(sdp: string, rids: seq<string>, p: nat, out: string)
    requires Munged(sdp, rids, out) && !Contains(sdp, MARK) && |rids| > 0
    requires Target(Split(sdp, CRLF), p)
    ensures Split(out, CRLF) == Inject(Split(sdp, CRLF), p, rids) <==> !Breaks(rids, CRLF)
    ensures var lines := Inject(Split(sdp, CRLF), p, rids);
      && |lines| == |Split(sdp, CRLF)| + |rids| + 1
      && Join(lines[..p + 1] + lines[p + 1 + |rids| + 1..], CRLF) == sdp
  {
    var lines := Split(sdp, CRLF);
    TargetIsDirection(lines, p);
    assert out == Join(Inject(lines, p, rids), CRLF);
    PartsAreCut(sdp, CRLF);
    BlockBreaksIff(rids);
    BlockLength(rids);
    assert NoOverlap(CRLF);
    hide Split, Join, Contains, Target, Munged, Block;
    var injected, b := Inject(lines, p, rids), |Block(rids)|;
    SplitJoinIff(injected, CRLF);
    JoinSplit(sdp, CRLF);
    TakeOut(lines, p, rids);
    assert forall k :: 0 <= k < b ==> injected[p + 1 + k] == Block(rids)[k];
    if Breaks(Block(rids), CRLF) {
      var k :| 0 <= k < b && Contains(Block(rids)[k], CRLF);
      assert Contains(injected[p + 1 + k], CRLF);
    } else {
      forall k | 0 <= k < |injected|
        ensures !Contains(injected[k], CRLF)
      {
        if p < k <= p + b {
          assert injected[k] == Block(rids)[k - p - 1];
        } else {
          assert injected[k] == lines[if k <= p then k else k - b];
        }
      }
    }
  }

  lemma TargetIsDirection(lines: seq<string>, p: nat)
    requires Target(lines, p)
    ensures p < |lines| && IsDirection(lines[p])
  {
  }

  lemma TakeOut(lines: seq<string>, p: nat, rids: seq<string>)
    requires p < |lines|
    ensures var injected := Inject(lines, p, rids);
      && |injected| == |lines| + |rids| + 1
      && injected[..p + 1] + injected[p + 1 + |rids| + 1..] == lines
  {
    BlockLength(rids);
    hide Block;
  }

  lemma BlockLength(rids: seq<string>)
    ensures |Block(rids)| == |rids| + 1
  {
  }

  /** The block has one rid line for each layer and then the simulcast line, which lists the same layers in
      the same order exactly when no layer name contains a semicolon. */
  lemma SimulcastLineListsRidsIff(rids: seq<string>)
    requires |rids| > 0
    ensures var block := Block(rids);
      && |block| == |rids| + 1
      && (forall i :: 0 <= i < |rids| ==> block[i] == RidLine(rids[i]))
      && StartsWith(block[|rids|], "a=simulcast:recv ")
      && (Split(block[|rids|][|"a=simulcast:recv "|..], ";") == rids <==> !Breaks(rids, ";"))
  {
    hide Contains;
    SplitJoinIff(rids, ";");
    assert Block(rids)[|rids|] == SimulcastLine(rids);
    assert SimulcastLine(rids)[|"a=simulcast:recv "|..] == Join(rids, ";");
  }
}
