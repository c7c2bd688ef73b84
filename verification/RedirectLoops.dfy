/** One peer joining an SFU cluster: three client loops that follow the servers' redirects.

    The servers are not part of this model. `reply(j)` is the redirect target in the answer to the
    peer's join number j, "" when the answer carries none (which means the peer was accepted). */
module RedirectLoops {

  type Did = string

  /** How a loop ends; `joins` is the number of joins made. */
  datatype Outcome =
    | Landed(node: Did, joins: nat)
    | Cycle(joins: nat)
    | UnknownTarget(target: Did, joins: nat)

  /** The node that receives join number j. */
  function At(first: Did, reply: nat -> Did, j: nat): Did {
    if j == 0 then first else reply(j - 1)
  }

  /** The nodes named before answer number n is read. */
  ghost function Visited(first: Did, reply: nat -> Did, n: nat): set<Did> {
    set j | 0 <= j <= n :: At(first, reply, j)
  }

  /** The first n answers all redirect to cluster nodes. */
  ghost predicate Redirected(known: set<Did>, reply: nat -> Did, n: nat) {
    forall i :: 0 <= i < n ==> reply(i) != "" && reply(i) in known
  }

  /** No node receives two of the joins 0..n. */
  ghost predicate NoRepeat(first: Did, reply: nat -> Did, n: nat) {
    forall i, j :: 0 <= i < j <= n ==> At(first, reply, i) != At(first, reply, j)
  }

  /** What the seen-set loop owes its caller. */
  ghost predicate SeenSetResult(known: set<Did>, first: Did, reply: nat -> Did, out: Outcome) {
    && out.joins > 0
    && var last := out.joins - 1;
      && Redirected(known, reply, last)
      && NoRepeat(first, reply, last)
      && match out
         case Landed(node, _) => reply(last) == "" && node == At(first, reply, last)
         case Cycle(_) => reply(last) != "" && reply(last) in Visited(first, reply, last)
         case UnknownTarget(target, _) => target == reply(last) != "" && target !in known
  }

  /** What the hop-counter loop owes its caller. */
  ghost predicate HopResult(known: set<Did>, first: Did, reply: nat -> Did, bound: nat, out: Outcome) {
    && 0 < out.joins <= bound
    && var last := out.joins - 1;
      && Redirected(known, reply, last)
      && match out
         case Landed(node, _) => reply(last) == "" && node == At(first, reply, last)
         case Cycle(_) => out.joins == bound && reply(last) != "" && reply(last) in known
         case UnknownTarget(target, _) => target == reply(last) != "" && target !in known
  }

  /** Following redirects with a set of nodes already seen (T3; S3 counts the peer as overflow where
      T3 throws). It ends for every server, after at most one join per cluster node. */
  method SeenSetLoop(known: set<Did>, first: Did, reply: nat -> Did) returns (out: Outcome)
    requires first in known
    ensures SeenSetResult(known, first, reply, out)
    ensures out.joins <= |known|
  {
    hide Visited, NoRepeat, Redirected;
    var landed := first;
    var redirectTo := reply(0);
    var seen := {first};
    var hops := 1;
    TrailStarts(known, first, reply);
    while redirectTo != ""
      invariant hops > 0 && redirectTo == reply(hops - 1)
      invariant seen == Visited(first, reply, hops - 1) && seen <= known && |seen| == hops
      invariant Redirected(known, reply, hops - 1) && NoRepeat(first, reply, hops - 1)
      invariant landed == At(first, reply, hops - 1)
      decreases known - seen
    {
      SetsFit(seen, known);
      if redirectTo in seen {
        return Cycle(hops);
      }
      if redirectTo !in known {
        return UnknownTarget(redirectTo, hops);
      }
      TrailGrows(known, first, reply, hops - 1);
      assert redirectTo in known - seen;
      seen := seen + {redirectTo};
      hops := hops + 1;
      landed := redirectTo;
      redirectTo := reply(hops - 1);
    }
    SetsFit(seen, known);
    out := Landed(landed, hops);
  }

  lemma TrailStarts(known: set<Did>, first: Did, reply: nat -> Did)
    ensures Visited(first, reply, 0) == {first} && At(first, reply, 0) == first
    ensures Redirected(known, reply, 0) && NoRepeat(first, reply, 0)
  {
    assert Visited(first, reply, 0) == {At(first, reply, 0)};
  }

  lemma TrailGrows(known: set<Did>, first: Did, reply: nat -> Did, n: nat)
    requires Redirected(known, reply, n) && NoRepeat(first, reply, n)
    requires reply(n) != "" && reply(n) in known && reply(n) !in Visited(first, reply, n)
    ensures Redirected(known, reply, n + 1) && NoRepeat(first, reply, n + 1)
    ensures Visited(first, reply, n + 1) == Visited(first, reply, n) + {reply(n)}
  {
    assert At(first, reply, n + 1) == reply(n);
  }

  lemma SetsFit<T>(a: set<T>, b: set<T>)
    requires a <= b
    ensures |a| <= |b|
  {
    assert b == a + (b - a);
  }

  /** Following redirects with a hop counter only: T4 with as many hops as there are nodes, S2 with
      one more. */
  method HopLoop(known: set<Did>, first: Did, reply: nat -> Did, bound: nat) returns (out: Outcome)
    requires first in known && bound > 0
    ensures HopResult(known, first, reply, bound, out)
  {
    var landed := first;
    var redirectTo := reply(0);
    var hops := 1;
    while redirectTo != ""
      invariant 0 < hops <= bound && redirectTo == reply(hops - 1)
      invariant Redirected(known, reply, hops - 1)
      invariant landed == At(first, reply, hops - 1)
      decreases bound - hops
    {
      if redirectTo !in known {
        return UnknownTarget(redirectTo, hops);
      }
      hops := hops + 1;
      if hops > bound {
        return Cycle(hops - 1);
      }
      landed := redirectTo;
      redirectTo := reply(hops - 1);
    }
    out := Landed(landed, hops);
  }

  // ------------------------------------------------------- the loops compared

  /** The answers decide the outcome: neither loop has any choice. */
  lemma SeenSetResultIsUnique(known: set<Did>, first: Did, reply: nat -> Did, a: Outcome, b: Outcome)
    requires first in known
    requires SeenSetResult(known, first, reply, a) && SeenSetResult(known, first, reply, b)
    ensures a == b
  {
    if a.joins < b.joins {
      StopsWhereItStops(known, first, reply, a, b);
    } else if b.joins < a.joins {
      StopsWhereItStops(known, first, reply, b, a);
    }
    VisitedIsKnown(known, first, reply, a.joins - 1);
  }

  lemma StopsWhereItStops(known: set<Did>, first: Did, reply: nat -> Did, a: Outcome, b: Outcome)
    requires SeenSetResult(known, first, reply, a) && SeenSetResult(known, first, reply, b)
    ensures a.joins >= b.joins
  {
    CannotContinue(known, first, reply, a);
  }

  lemma CannotContinue(known: set<Did>, first: Did, reply: nat -> Did, a: Outcome)
    requires SeenSetResult(known, first, reply, a)
    ensures !Redirected(known, reply, a.joins) || !NoRepeat(first, reply, a.joins)
  {
    var last := a.joins - 1;
    if a.Cycle? {
      var j :| 0 <= j <= last && reply(last) == At(first, reply, j);
      assert At(first, reply, last + 1) == reply(last);
    }
  }

  lemma VisitedIsKnown(known: set<Did>, first: Did, reply: nat -> Did, n: nat)
    requires first in known && Redirected(known, reply, n)
    ensures Visited(first, reply, n) <= known
  {
  }

  lemma HopResultIsUnique(known: set<Did>, first: Did, reply: nat -> Did, bound: nat, a: Outcome, b: Outcome)
    requires HopResult(known, first, reply, bound, a) && HopResult(known, first, reply, bound, b)
    ensures a == b
  {
    var x, y := reply(a.joins - 1), reply(b.joins - 1);
  }

  lemma {:induction false} NoRepeatCounts(first: Did, reply: nat -> Did, n: nat)
    requires NoRepeat(first, reply, n)
    ensures |Visited(first, reply, n)| == n + 1
  {
    if n == 0 {
      assert Visited(first, reply, 0) == {first};
    } else {
      VisitedGrows(first, reply, n);
      NoRepeatCounts(first, reply, n - 1);
      hide At, Visited, NoRepeat;
    }
  }

  lemma VisitedGrows(first: Did, reply: nat -> Did, n: nat)
    requires n > 0 && NoRepeat(first, reply, n)
    ensures Visited(first, reply, n) == Visited(first, reply, n - 1) + {At(first, reply, n)}
    ensures At(first, reply, n) !in Visited(first, reply, n - 1)
    ensures NoRepeat(first, reply, n - 1)
  {
    hide At;
  }

  /** Pigeonhole: a trail without a repeat is no longer than the cluster. */
  lemma TrailFits(known: set<Did>, first: Did, reply: nat -> Did, n: nat)
    requires first in known && Redirected(known, reply, n) && NoRepeat(first, reply, n)
    ensures n + 1 <= |known|
  {
    NoRepeatCounts(first, reply, n);
    VisitedIsKnown(known, first, reply, n);
    SetsFit(Visited(first, reply, n), known);
  }

  /** On the same answers, whenever the seen-set loop lands a peer, every hop-counter loop whose
      bound is at least the number of nodes lands it on the same node after the same joins. */
  lemma SeenSetLandingAgrees(known: set<Did>, first: Did, reply: nat -> Did, bound: nat, a: Outcome, b: Outcome)
    requires first in known && bound >= |known|
    requires SeenSetResult(known, first, reply, a) && a.Landed?
    requires HopResult(known, first, reply, bound, b)
    ensures a == b
  {
    TrailFits(known, first, reply, a.joins - 1);
    HopResultIsUnique(known, first, reply, bound, a, b);
  }

  /** A hop-counter landing is a seen-set landing exactly when no node was joined twice. */
  lemma HopLandingAgreesIff(known: set<Did>, first: Did, reply: nat -> Did, bound: nat, a: Outcome, b: Outcome)
    requires first in known
    requires SeenSetResult(known, first, reply, a)
    requires HopResult(known, first, reply, bound, b) && b.Landed?
    ensures a == b <==> NoRepeat(first, reply, b.joins - 1)
    ensures a != b ==> a.Cycle? && a.joins < b.joins
  {
    if NoRepeat(first, reply, b.joins - 1) {
      assert SeenSetResult(known, first, reply, b);
      SeenSetResultIsUnique(known, first, reply, a, b);
    }
  }

  /** T4's "cycle detected" is never a false alarm: some node really was named twice. */
  lemma CycleAlarmIsReal(known: set<Did>, first: Did, reply: nat -> Did, out: Outcome)
    requires first in known
    requires HopResult(known, first, reply, |known|, out) && out.Cycle?
    ensures !NoRepeat(first, reply, |known|)
  {
    if NoRepeat(first, reply, |known|) {
      TrailFits(known, first, reply, |known|);
    }
  }

  /** Two bounds disagree exactly when as many answers as the tighter one allows all redirect to cluster
      nodes. S2's bound is T4's plus one: T4 gives up on a peer that S2 lands exactly when, besides, the
      next answer carries no redirect. */
  lemma HopBoundsAgreeIff(known: set<Did>, first: Did, reply: nat -> Did, tight: nat, loose: nat,
                          a: Outcome, b: Outcome)
    requires tight < loose
    requires HopResult(known, first, reply, tight, a) && HopResult(known, first, reply, loose, b)
    ensures a == b <==> !Redirected(known, reply, tight)
    ensures a.Cycle? <==> Redirected(known, reply, tight)
    ensures loose == tight + 1 ==>
      (a.Cycle? && b.Landed? <==> Redirected(known, reply, tight) && reply(tight) == "")
  {
    var x, y := reply(a.joins - 1), reply(b.joins - 1);
    if !a.Cycle? {
      HopResultIsUnique(known, first, reply, loose, a, b);
    }
  }

  /** The bounds do differ: on these answers T3 and T4 give up and S2 lands the peer. */
  lemma BoundsDiffer()
    ensures var known, reply := {"A", "B", "C"}, (j: nat) => if j == 1 then "A" else if j < 3 then "B" else "";
      && SeenSetResult(known, "A", reply, Cycle(2))
      && HopResult(known, "A", reply, 3, Cycle(3))
      && HopResult(known, "A", reply, 4, Landed("B", 4))
  {
    var known := {"A", "B", "C"};
    var reply := (j: nat) => if j == 1 then "A" else if j < 3 then "B" else "";
    assert At("A", reply, 0) == "A" && At("A", reply, 1) == "B";
    assert "A" in Visited("A", reply, 1);
    assert |known| == 3;
  }

  // ------------------------------------------------------- what an overflow says about capacity

  /** In a peer's joins the servers redirect only when they are full. */
  ghost predicate RedirectsWhenFull(first: Did, reply: nat -> Did, full: set<Did>, joins: nat) {
    forall j: nat {:trigger At(first, reply, j)} :: j < joins && reply(j) != "" ==> At(first, reply, j) in full
  }

  /** And none redirects the peer to itself. */
  ghost predicate RedirectsElsewhere(first: Did, reply: nat -> Did, joins: nat) {
    forall j: nat {:trigger At(first, reply, j)} :: j < joins && reply(j) != "" ==> reply(j) != At(first, reply, j)
  }

  /** Against such servers an overflowed peer has only met full nodes. */
  lemma OverflowMetFullNodes(known: set<Did>, first: Did, reply: nat -> Did, full: set<Did>, joins: nat)
    requires RedirectsWhenFull(first, reply, full, joins)
    requires SeenSetResult(known, first, reply, Cycle(joins))
    ensures Visited(first, reply, joins - 1) <= full
  {
    forall j | 0 <= j <= joins - 1
      ensures At(first, reply, j) in full
    {
      assert reply(j) != "";
    }
  }

  /** In this cluster "all nodes at capacity" is true of every overflow, whichever nodes are full and
      however the full ones redirect. */
  ghost predicate OverflowMeansFull(known: set<Did>, first: Did) {
    forall reply: nat -> Did, full: set<Did>, joins: nat ::
      (RedirectsWhenFull(first, reply, full, joins) && RedirectsElsewhere(first, reply, joins)
       && SeenSetResult(known, first, reply, Cycle(joins))) ==> known <= full
  }

  /** The same when a full node may also name itself. */
  ghost predicate OverflowAlwaysMeansFull(known: set<Did>, first: Did) {
    forall reply: nat -> Did, full: set<Did>, joins: nat ::
      (RedirectsWhenFull(first, reply, full, joins) && SeenSetResult(known, first, reply, Cycle(joins)))
      ==> known <= full
  }

  /** The reason S3 reports is right exactly in clusters of at most two nodes, and, if a node may
      redirect to itself, only in clusters of one. */
  lemma OverflowMeansFullIff(known: set<Did>, first: Did)
    requires first in known && "" !in known
    ensures OverflowMeansFull(known, first) <==> |known| <= 2
    ensures OverflowAlwaysMeansFull(known, first) <==> |known| <= 1
  {
    if |known| <= 2 {
      SmallClustersAreMet(known, first);
    } else {
      BouncedPastRoom(known, first);
    }
    if |known| <= 1 {
      SameSize({first}, known);
      LoneNodeIsMet(known, first);
    } else {
      SelfRedirectPastRoom(known, first);
    }
  }

  lemma SmallClustersAreMet(known: set<Did>, first: Did)
    requires first in known && |known| <= 2
    ensures OverflowMeansFull(known, first)
  {
    forall reply: nat -> Did, full: set<Did>, joins: nat |
      RedirectsWhenFull(first, reply, full, joins) && RedirectsElsewhere(first, reply, joins)
        && SeenSetResult(known, first, reply, Cycle(joins))
      ensures known <= full
    {
      TwoNodeOverflowIsFull(known, first, reply, full, joins);
    }
  }

  lemma TwoNodeOverflowIsFull(known: set<Did>, first: Did, reply: nat -> Did, full: set<Did>, joins: nat)
    requires first in known && |known| <= 2
    requires RedirectsWhenFull(first, reply, full, joins)
    requires RedirectsElsewhere(first, reply, joins)
    requires SeenSetResult(known, first, reply, Cycle(joins))
    ensures known <= full
  {
    OverflowMetFullNodes(known, first, reply, full, joins);
    var last := joins - 1;
    assert At(first, reply, 0) == first;
    if last > 0 {
      VisitedIsKnown(known, first, reply, last);
      var met := {At(first, reply, 0), At(first, reply, 1)};
      assert met <= Visited(first, reply, last);
      assert |met| == 2;
      SameSize(met, known);
    }
  }

  lemma LoneNodeIsMet(known: set<Did>, first: Did)
    requires known == {first}
    ensures OverflowAlwaysMeansFull(known, first)
  {
    forall reply: nat -> Did, full: set<Did>, joins: nat |
      RedirectsWhenFull(first, reply, full, joins) && SeenSetResult(known, first, reply, Cycle(joins))
      ensures known <= full
    {
      OverflowMetFullNodes(known, first, reply, full, joins);
      assert At(first, reply, 0) in Visited(first, reply, joins - 1);
    }
  }

  /** In any larger cluster two full nodes can bounce a peer while the others have room. */
  lemma BouncedPastRoom(known: set<Did>, first: Did)
    requires first in known && "" !in known && |known| > 2
    ensures !OverflowMeansFull(known, first)
  {
    var second := Another(known, {first});
    var third := Another(known, {first, second});
    var reply: nat -> Did := (j: nat) => if j % 2 == 0 then second else first;
    var full := {first, second};
    assert At(first, reply, 0) == first && At(first, reply, 1) == second;
    assert RedirectsWhenFull(first, reply, full, 2) && RedirectsElsewhere(first, reply, 2);
    assert At(first, reply, 0) in Visited(first, reply, 1);
    assert SeenSetResult(known, first, reply, Cycle(2));
    assert third in known && third !in full;
  }

  lemma SelfRedirectPastRoom(known: set<Did>, first: Did)
    requires first in known && "" !in known && |known| > 1
    ensures !OverflowAlwaysMeansFull(known, first)
  {
    var second := Another(known, {first});
    var reply: nat -> Did := (j: nat) => first;
    var full := {first};
    assert At(first, reply, 0) == first;
    assert RedirectsWhenFull(first, reply, full, 1);
    assert At(first, reply, 0) in Visited(first, reply, 0);
    assert SeenSetResult(known, first, reply, Cycle(1));
    assert second in known && second !in full;
  }

  lemma Another(known: set<Did>, met: set<Did>) returns (d: Did)
    requires met <= known && |met| < |known|
    ensures d in known && d !in met
  {
    assert known == met + (known - met);
    assert |known - met| > 0;
    d :| d in known - met;
  }

  lemma SameSize<T>(a: set<T>, b: set<T>)
    requires a <= b && |a| >= |b|
    ensures a == b
  {
    assert b == a + (b - a);
  }

  /** For one: A and B bounce the peer while C has room. */
  lemma ThirdNodeMayHaveRoom()
    ensures var known, full, reply := {"A", "B", "C"}, {"A", "B"}, (j: nat) => if j % 2 == 0 then "B" else "A";
      && RedirectsWhenFull("A", reply, full, 2)
      && RedirectsElsewhere("A", reply, 2)
      && SeenSetResult(known, "A", reply, Cycle(2))
      && !(known <= full)
  {
    var known, full := {"A", "B", "C"}, {"A", "B"};
    var reply := (j: nat) => if j % 2 == 0 then "B" else "A";
    assert At("A", reply, 0) == "A" && At("A", reply, 1) == "B";
    assert "A" in Visited("A", reply, 1);
    assert "C" in known && "C" !in full;
  }
}
