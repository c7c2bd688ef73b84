/** A whole scenario of peers joining a capped SFU cluster: provisioning on every node, membership,
    the redirect-following joins, and the books kept on who landed where. */
module ClusterJoin {
  import opened RedirectLoops
  import opened Wrappers

  datatype CreateReply = CreateReply(success: bool, did: string)

  /** What a peer holds for one node: its token and the identity that node gave it. */
  datatype Entry = Entry(token: string, did: string)

  type Session = map<Did, Entry>

  datatype Result<T> = Ok(value: T) | Err

  ghost function Nodes(nodes: seq<Did>): set<Did> {
    set n | n in nodes
  }

  // ------------------------------------------------------- provisioning

  /** What node j answers for peer i: to `user.create`, to `user.login` ("" unless it is a token), and
      whether the peer's own client gets connected. A call that throws stands for a failing answer. */
  datatype Answers = Answers(create: (nat, nat) -> CreateReply, login: (nat, nat) -> string,
                             connects: (nat, nat) -> bool)

  predicate Usable(answers: Answers, i: nat, j: nat) {
    answers.create(i, j).success && answers.login(i, j) != "" && answers.connects(i, j)
  }

  ghost predicate Provisioned(nodes: seq<Did>, answers: Answers, i: nat, session: Session) {
    && session.Keys == Nodes(nodes)
    && forall j :: 0 <= j < |nodes| ==> session[nodes[j]] == Entry(answers.login(i, j), answers.create(i, j).did)
  }

  /** Every peer is created, logged in and connected on every node; one unusable account fails the whole
      call, and nothing else does. */
  method ProvisionClusterPeers(nodes: seq<Did>, count: nat, answers: Answers)
    returns (r: Result<seq<Session>>)
    requires Distinct(nodes)
    ensures r.Ok? <==> forall i, j :: 0 <= i < count && 0 <= j < |nodes| ==> Usable(answers, i, j)
    ensures r.Ok? ==> |r.value| == count
    ensures r.Ok? ==> forall i :: 0 <= i < count ==> Provisioned(nodes, answers, i, r.value[i])
  {
    var out: seq<Session> := [];
    for i := 0 to count
      invariant |out| == i
      invariant forall k, j :: 0 <= k < i && 0 <= j < |nodes| ==> Usable(answers, k, j)
      invariant forall k :: 0 <= k < i ==> Provisioned(nodes, answers, k, out[k])
    {
      var byNode: Session := map[];
      for j := 0 to |nodes|
        invariant forall k :: 0 <= k < j ==> Usable(answers, i, k)
        invariant byNode.Keys == set k | 0 <= k < j :: nodes[k]
        invariant forall k :: 0 <= k < j ==> byNode[nodes[k]] == Entry(answers.login(i, k), answers.create(i, k).did)
      {
        var reply := answers.create(i, j);
        if !reply.success {
          assert !Usable(answers, i, j);
          return Err;
        }
        var token := answers.login(i, j);
        if token == "" || !answers.connects(i, j) {
          assert !Usable(answers, i, j);
          return Err;
        }
        byNode := byNode[nodes[j] := Entry(token, reply.did)];
      }
      out := out + [byNode];
    }
    r := Ok(out);
  }

  // ------------------------------------------------------- the servers

  /** One more participant on a node. */
  function Admitted(accepted: map<Did, nat>, node: Did): map<Did, nat>
    requires node in accepted
  {
    accepted[node := accepted[node] + 1]
  }

  /** What servers that admit while they can may answer: below the cap they accept; at it they redirect to a
      cluster node, another one unless they may name themselves or are alone. */
  ghost predicate EagerAnswer(counts: map<Did, nat>, cap: nat, self: bool, node: Did, answer: Did) {
    && node in counts
    && if counts[node] < cap then answer == ""
       else answer != "" && answer in counts && (self || |counts| == 1 || answer != node)
  }

  /** Any servers: each join is accepted or redirected anywhere. Servers that enforce the cap accept only
      below it; eager ones besides accept whenever they are, and keep redirects within the cluster. */
  class Cluster {
    const cap: nat
    const enforces: bool
    const eager: bool
    const selfRedirects: bool
    var accepted: map<Did, nat>
    /** Which identities each node lets in. */
    var members: set<(Did, string)>

    constructor (nodes: seq<Did>, cap: nat, enforces: bool, eager: bool, selfRedirects: bool)
      ensures this.cap == cap && this.enforces == enforces && accepted.Keys == Nodes(nodes) && members == {}
      ensures this.eager == eager && this.selfRedirects == selfRedirects
      ensures forall n :: n in accepted ==> accepted[n] == 0
    {
      this.cap, this.enforces, this.eager, this.selfRedirects := cap, enforces, eager, selfRedirects;
      accepted, members := map n | n in nodes :: 0, {};
    }

    method EnsureMembership(node: Did, did: string)
      modifies this`members
      ensures members == old(members) + {(node, did)}
    {
      members := members + {(node, did)};
    }

    /** A node turns away identities that are not its members, so a caller must present one that is. ""
        stands for an answer without redirect: the peer was accepted. */
    method CallJoin(node: Did, did: string) returns (redirectTo: Did)
      requires node in accepted && (node, did) in members && (eager ==> "" !in accepted)
      modifies this`accepted
      ensures redirectTo != "" ==> accepted == old(accepted)
      ensures redirectTo == "" && enforces ==> old(accepted)[node] < cap
      ensures redirectTo == "" ==> accepted == Admitted(old(accepted), node)
      ensures eager ==> EagerAnswer(old(accepted), cap, selfRedirects, node, redirectTo)
    {
      if eager {
        if accepted[node] < cap {
          accepted := accepted[node := accepted[node] + 1];
          return "";
        }
        SomewhereToGo(accepted, node);
        redirectTo :| redirectTo in accepted && (selfRedirects || |accepted| == 1 || redirectTo != node);
        return;
      }
      redirectTo := *;
      if redirectTo == "" {
        if !enforces || accepted[node] < cap {
          accepted := accepted[node := accepted[node] + 1];
        } else {
          redirectTo := "elsewhere";
        }
      }
    }
  }

  lemma SomewhereToGo(counts: map<Did, nat>, node: Did)
    requires node in counts
    ensures exists n :: n in counts && (|counts| == 1 || n != node)
  {
    if |counts| != 1 {
      SetsFit({node}, counts.Keys);
      var n := Another(counts.Keys, {node});
    }
  }

  // ------------------------------------------------------- membership

  /** Some session among the first k holds the identity d. */
  ghost predicate Held(sessions: seq<Session>, k: nat, d: string)
    requires k <= |sessions|
  {
    exists i, m :: 0 <= i < k && m in sessions[i] && sessions[i][m].did == d
  }

  /** Registers, on every node, every identity the users have anywhere in the cluster. */
  method RegisterClusterSfuMembers(cluster: Cluster, nodes: seq<Did>, sessions: seq<Session>)
    modifies cluster`members
    ensures forall n, d :: (n, d) in cluster.members <==>
      (n, d) in old(cluster.members) || (n in nodes && Held(sessions, |sessions|, d))
  {
    for i := 0 to |sessions|
      invariant forall n, d :: (n, d) in cluster.members <==>
        (n, d) in old(cluster.members) || (n in nodes && Held(sessions, i, d))
    {
      var session := sessions[i];
      var allDids := set m | m in session :: session[m].did;
      assert forall d :: Held(sessions, i + 1, d) <==> Held(sessions, i, d) || d in allDids by {
        HeldGrows(sessions, i, allDids);
      }
      hide Held;
      ghost var before := cluster.members;
      var todo := allDids;
      while todo != {}
        invariant todo <= allDids
        invariant forall n, d :: (n, d) in cluster.members <==>
          (n, d) in before || (n in nodes && d in allDids - todo)
        decreases todo
      {
        var did :| did in todo;
        todo := todo - {did};
        RegisterEverywhere(cluster, nodes, did);
      }
      assert todo == {};
    }
  }

  lemma HeldGrows(sessions: seq<Session>, i: nat, dids: set<string>)
    requires i < |sessions| && dids == set m | m in sessions[i] :: sessions[i][m].did
    ensures forall d :: Held(sessions, i + 1, d) <==> Held(sessions, i, d) || d in dids
  {
    forall d
      ensures Held(sessions, i + 1, d) <==> Held(sessions, i, d) || d in dids
    {
      if d in dids {
        var m :| m in sessions[i] && sessions[i][m].did == d;
      }
    }
  }

  /** One identity on every node. */
  method RegisterEverywhere(cluster: Cluster, nodes: seq<Did>, did: string)
    modifies cluster`members
    ensures forall n, d :: (n, d) in cluster.members <==> (n, d) in old(cluster.members) || (n in nodes && d == did)
  {
    for j := 0 to |nodes|
      invariant forall n, d :: (n, d) in cluster.members <==>
        (n, d) in old(cluster.members) || (n in nodes[..j] && d == did)
    {
      cluster.EnsureMembership(nodes[j], did);
      assert nodes[..j + 1] == nodes[..j] + [nodes[j]];
    }
    assert nodes[..|nodes|] == nodes;
  }

  /** What a peer presents to a node is let in there. */
  ghost predicate Admissible(nodes: seq<Did>, session: Session, members: set<(Did, string)>) {
    session.Keys == Nodes(nodes) && forall n :: n in session ==> (n, session[n].did) in members
  }

  // ------------------------------------------------------- one peer

  /** The answers a peer received, as the script the loops are compared on. */
  function Script(replies: seq<Did>): nat -> Did {
    (j: nat) => if j < |replies| then replies[j] else ""
  }

  lemma ScriptGrows(known: set<Did>, first: Did, replies: seq<Did>, reply: Did)
    requires Redirected(known, Script(replies), |replies|) && NoRepeat(first, Script(replies), |replies|)
    ensures Redirected(known, Script(replies + [reply]), |replies|)
    ensures NoRepeat(first, Script(replies + [reply]), |replies|)
    ensures Visited(first, Script(replies + [reply]), |replies|) == Visited(first, Script(replies), |replies|)
    ensures At(first, Script(replies + [reply]), |replies|) == if |replies| == 0 then first else replies[|replies| - 1]
    ensures Script(replies + [reply])(|replies|) == reply
  {
    var a, b := Script(replies), Script(replies + [reply]);
    assert forall j: nat :: j < |replies| ==> a(j) == b(j) == replies[j];
    assert forall j: nat :: j <= |replies| ==> At(first, a, j) == At(first, b, j);
  }

  /** Where the loop stands when the latest answer is about to be read. */
  ghost predicate OnTrail(known: set<Did>, first: Did, replies: seq<Did>, seen: set<Did>, landed: Did) {
    && |replies| > 0
    && var last := |replies| - 1;
      && Script(replies)(last) == replies[last]
      && seen == Visited(first, Script(replies), last) && landed in seen && seen <= known && |seen| == |replies|
      && Redirected(known, Script(replies), last)
      && NoRepeat(first, Script(replies), last)
      && landed == At(first, Script(replies), last)
  }

  lemma ScriptStarts(known: set<Did>, first: Did, reply: Did)
    requires first in known
    ensures OnTrail(known, first, [reply], {first}, first)
  {
    var script := Script([reply]);
    assert Visited(first, script, 0) == {At(first, script, 0)};
  }

  lemma TrailGoesOn(known: set<Did>, first: Did, replies: seq<Did>, seen: set<Did>, landed: Did, reply: Did)
    requires OnTrail(known, first, replies, seen, landed)
    requires var target := replies[|replies| - 1]; target != "" && target in known && target !in seen
    ensures var target := replies[|replies| - 1];
      OnTrail(known, first, replies + [reply], seen + {target}, target)
  {
    hide Redirected, NoRepeat, Visited, Script, At;
    TrailGrows(known, first, Script(replies), |replies| - 1);
    ScriptGrows(known, first, replies, reply);
  }

  lemma TrailEnds(known: set<Did>, first: Did, replies: seq<Did>, seen: set<Did>, landed: Did, out: Outcome)
    requires OnTrail(known, first, replies, seen, landed)
    requires var last := replies[|replies| - 1];
      || (last == "" && out == Landed(landed, |replies|))
      || (last != "" && last in seen && out == Cycle(|replies|))
      || (last != "" && last !in known && out == UnknownTarget(last, |replies|))
    ensures SeenSetResult(known, first, Script(replies), out)
    ensures out.joins <= |known|
  {
    SetsFit(seen, known);
  }

  /** The answers of eager servers to one peer; nothing is admitted before its last join. */
  ghost predicate Eager(counts: map<Did, nat>, cap: nat, self: bool, first: Did, replies: seq<Did>) {
    forall j :: 0 <= j < |replies| ==> EagerAt(counts, cap, self, first, replies, j)
  }

  ghost predicate EagerAt(counts: map<Did, nat>, cap: nat, self: bool, first: Did, replies: seq<Did>, j: nat)
    requires j < |replies|
  {
    EagerAnswer(counts, cap, self, Asked(first, replies, j), replies[j])
  }

  /** The node a peer asks with join number j. */
  function Asked(first: Did, replies: seq<Did>, j: nat): Did
    requires j <= |replies|
  {
    if j == 0 then first else replies[j - 1]
  }

  lemma AskedIsAt(first: Did, replies: seq<Did>, j: nat)
    requires j < |replies|
    ensures At(first, Script(replies), j) == Asked(first, replies, j) && Script(replies)(j) == replies[j]
  {
  }

  lemma NobodyAsked(counts: map<Did, nat>, cap: nat, self: bool, first: Did)
    ensures Eager(counts, cap, self, first, [])
  {
  }

  lemma EagerGrows(counts: map<Did, nat>, cap: nat, self: bool, first: Did, replies: seq<Did>, reply: Did)
    requires Eager(counts, cap, self, first, replies)
    requires EagerAnswer(counts, cap, self, Asked(first, replies, |replies|), reply)
    ensures Eager(counts, cap, self, first, replies + [reply])
  {
    hide EagerAnswer;
    var more := replies + [reply];
    forall j | 0 <= j < |more|
      ensures EagerAt(counts, cap, self, first, more, j)
    {
      if j < |replies| {
        assert EagerAt(counts, cap, self, first, replies, j);
      }
    }
  }

  /** S3's join loop for one peer. Each join goes through the peer's own client for that node. */
  method JoinPeer(cluster: Cluster, nodes: seq<Did>, byNode: Session)
    returns (out: Outcome, replies: seq<Did>)
    requires |nodes| > 0 && Admissible(nodes, byNode, cluster.members) && Nodes(nodes) == cluster.accepted.Keys
    requires cluster.eager ==> "" !in nodes
    modifies cluster`accepted
    ensures SeenSetResult(Nodes(nodes), nodes[0], Script(replies), out)
    ensures out.joins == |replies| <= |Nodes(nodes)|
    ensures !out.Landed? ==> cluster.accepted == old(cluster.accepted)
    ensures out.Landed? ==> out.node in nodes
    ensures out.Landed? && cluster.enforces ==> old(cluster.accepted)[out.node] < cluster.cap
    ensures out.Landed? ==> cluster.accepted == Admitted(old(cluster.accepted), out.node)
    ensures cluster.eager ==>
      EagerPeer(nodes, old(cluster.accepted), cluster.cap, cluster.selfRedirects, replies, out)
  {
    hide OnTrail, SeenSetResult, Script, Admitted, Eager, EagerAnswer;
    ghost var known := Nodes(nodes);
    var first := nodes[0];
    var client := byNode[first];
    var session := cluster.CallJoin(first, client.did);
    var seenNodes := {first};
    var landed := first;
    replies := [session];
    ScriptStarts(known, first, session);
    if cluster.eager {
      NobodyAsked(old(cluster.accepted), cluster.cap, cluster.selfRedirects, first);
      EagerGrows(old(cluster.accepted), cluster.cap, cluster.selfRedirects, first, [], session);
      assert [] + [session] == replies;
    }
    while session != ""
      invariant |replies| > 0 && session == replies[|replies| - 1]
      invariant OnTrail(known, first, replies, seenNodes, landed)
      invariant seenNodes <= known && landed in nodes
      invariant session != "" ==> cluster.accepted == old(cluster.accepted)
      invariant session == "" && cluster.enforces ==> old(cluster.accepted)[landed] < cluster.cap
      invariant session == "" ==> cluster.accepted == Admitted(old(cluster.accepted), landed)
      invariant cluster.eager ==> Eager(old(cluster.accepted), cluster.cap, cluster.selfRedirects, first, replies)
      decreases known - seenNodes
    {
      if session in seenNodes {
        out := Cycle(|replies|);
        TrailEnds(known, first, replies, seenNodes, landed, out);
        return;
      }
      if session !in nodes {
        out := UnknownTarget(session, |replies|);
        TrailEnds(known, first, replies, seenNodes, landed, out);
        return;
      }
      client := byNode[session];
      var answer := cluster.CallJoin(session, client.did);
      TrailGoesOn(known, first, replies, seenNodes, landed, answer);
      if cluster.eager {
        EagerGrows(old(cluster.accepted), cluster.cap, cluster.selfRedirects, first, replies, answer);
      }
      assert session in known - seenNodes;
      seenNodes := seenNodes + {session};
      landed := session;
      session := answer;
      replies := replies + [answer];
    }
    out := Landed(landed, |replies|);
    TrailEnds(known, first, replies, seenNodes, landed, out);
  }

  // ------------------------------------------------------- all peers

  ghost function Total(nodes: seq<Did>, counts: map<Did, nat>): nat
    requires forall n :: n in nodes ==> n in counts
  {
    if |nodes| == 0 then 0 else Total(nodes[1..], counts) + counts[nodes[0]]
  }

  lemma {:induction false} TotalSkips(nodes: seq<Did>, counts: map<Did, nat>, d: Did, k: nat)
    requires forall n :: n in nodes ==> n in counts
    requires d !in nodes
    ensures Total(nodes, counts[d := k]) == Total(nodes, counts)
  {
    if |nodes| == 0 {
    } else {
      TotalSkips(nodes[1..], counts, d, k);
    }
  }

  lemma {:induction false} TotalGrows(nodes: seq<Did>, counts: map<Did, nat>, d: Did)
    requires Distinct(nodes) && d in nodes
    requires forall n :: n in nodes ==> n in counts
    ensures Total(nodes, Admitted(counts, d)) == Total(nodes, counts) + 1
  {
    if nodes[0] == d {
      TotalSkips(nodes[1..], counts, d, counts[d] + 1);
    } else {
      TotalGrows(nodes[1..], counts, d);
    }
  }

  lemma {:induction false} TotalIsCapped(nodes: seq<Did>, counts: map<Did, nat>, cap: nat)
    requires forall n :: n in nodes ==> n in counts && counts[n] <= cap
    ensures Total(nodes, counts) <= |nodes| * cap
  {
    if |nodes| == 0 {
    } else {
      TotalIsCapped(nodes[1..], counts, cap);
      assert |nodes| * cap == |nodes[1..]| * cap + cap;
    }
  }

  lemma {:induction false} TotalOfZeros(nodes: seq<Did>, counts: map<Did, nat>)
    requires forall n :: n in nodes ==> n in counts && counts[n] == 0
    ensures Total(nodes, counts) == 0
  {
    if |nodes| == 0 {
    } else {
      TotalOfZeros(nodes[1..], counts);
    }
  }

  ghost predicate Capped(nodes: seq<Did>, counts: map<Did, nat>, cap: nat)
    requires forall n :: n in nodes ==> n in counts
  {
    forall n :: n in nodes ==> counts[n] <= cap
  }

  /** The counts say how many of the landed peers each node holds. */
  ghost predicate Books(nodes: seq<Did>, counts: map<Did, nat>, peers: seq<Did>) {
    && counts.Keys == Nodes(nodes)
    && (forall n :: n in counts ==> counts[n] == multiset(peers)[n])
    && Total(nodes, counts) == |peers|
  }

  lemma BooksOpen(nodes: seq<Did>, counts: map<Did, nat>)
    requires counts.Keys == Nodes(nodes) && forall n :: n in counts ==> counts[n] == 0
    ensures Books(nodes, counts, [])
  {
    TotalOfZeros(nodes, counts);
  }

  lemma BooksGrow(nodes: seq<Did>, counts: map<Did, nat>, peers: seq<Did>, node: Did)
    requires Distinct(nodes) && Books(nodes, counts, peers) && node in counts
    ensures Books(nodes, Admitted(counts, node), peers + [node])
  {
    TotalGrows(nodes, counts, node);
    assert multiset(peers + [node]) == multiset(peers) + multiset{node};
  }

  lemma BooksClose(nodes: seq<Did>, counts: map<Did, nat>, peers: seq<Did>, cap: nat)
    requires Books(nodes, counts, peers)
    ensures forall n :: n in nodes ==> n in counts && counts[n] == multiset(peers)[n]
    ensures Total(nodes, counts) == |peers|
    ensures Capped(nodes, counts, cap) ==> |peers| <= |nodes| * cap
  {
    if Capped(nodes, counts, cap) {
      TotalIsCapped(nodes, counts, cap);
    }
  }

  // ------------------------------------------------------- the expected overflow

  /** How many participants each node holds after peers with these outcomes. */
  function CountsAfter(nodes: seq<Did>, outs: seq<Outcome>): (counts: map<Did, nat>)
    ensures counts.Keys == set n | n in nodes
  {
    if |outs| == 0 then map n | n in nodes :: 0
    else
      var before, out := CountsAfter(nodes, outs[..|outs| - 1]), outs[|outs| - 1];
      if out.Landed? && out.node in before then Admitted(before, out.node) else before
  }

  function Missed(outs: seq<Outcome>): nat {
    if |outs| == 0 then 0 else Missed(outs[..|outs| - 1]) + if outs[|outs| - 1].Landed? then 0 else 1
  }

  /** TOTAL_PEERS - nodes * MAX_PER_NODE, or 0 where that is negative. */
  function Expected(peers: nat, nodes: nat, cap: nat): nat {
    if peers <= nodes * cap then 0 else peers - nodes * cap
  }

  ghost predicate EagerPeer(nodes: seq<Did>, counts: map<Did, nat>, cap: nat, self: bool, replies: seq<Did>,
                            out: Outcome)
    requires |nodes| > 0
  {
    && SeenSetResult(Nodes(nodes), nodes[0], Script(replies), out) && out.joins == |replies|
    && Eager(counts, cap, self, nodes[0], replies)
  }

  /** Peers that join eager servers one after another, with the answers each of them got. */
  ghost predicate EagerRun(nodes: seq<Did>, cap: nat, self: bool, answers: seq<seq<Did>>, outs: seq<Outcome>)
    requires |nodes| > 0
  {
    && |answers| == |outs|
    && forall i :: 0 <= i < |outs| ==>
         EagerPeer(nodes, CountsAfter(nodes, outs[..i]), cap, self, answers[i], outs[i])
  }

  lemma {:induction false} NodesCount(nodes: seq<Did>)
    requires Distinct(nodes)
    ensures |Nodes(nodes)| == |nodes|
  {
    if |nodes| == 0 {
    } else {
      NodesCount(nodes[1..]);
      assert nodes[0] !in nodes[1..];
      assert Nodes(nodes) == {nodes[0]} + Nodes(nodes[1..]);
    }
  }

  /** In a small cluster a peer overflows only when every node is full. */
  lemma OverflowFindsAllFull(nodes: seq<Did>, counts: map<Did, nat>, cap: nat, self: bool, replies: seq<Did>,
                             out: Outcome)
    requires |nodes| > 0 && Distinct(nodes) && "" !in nodes && counts.Keys == Nodes(nodes)
    requires |nodes| <= if self then 1 else 2
    requires EagerPeer(nodes, counts, cap, self, replies, out) && !out.Landed?
    ensures forall n :: n in nodes ==> counts[n] >= cap
  {
    hide SeenSetResult, Script, RedirectsWhenFull, RedirectsElsewhere, Eager, Visited;
    var known, first, reply := Nodes(nodes), nodes[0], Script(replies);
    var full := set n | n in counts && counts[n] >= cap;
    NodesCount(nodes);
    assert |counts| == |counts.Keys|;
    EagerStaysInside(nodes, counts, cap, self, replies, out);
    EagerRedirectsWhenFull(nodes, counts, cap, self, replies, full);
    if |known| == 1 {
      LoneOverflowIsFull(known, first, reply, full, |replies|);
    } else {
      TwoNodeOverflowIsFull(known, first, reply, full, |replies|);
    }
    forall n | n in nodes
      ensures n in full
    {
      assert n in known;
    }
  }

  lemma LoneOverflowIsFull(known: set<Did>, first: Did, reply: nat -> Did, full: set<Did>, joins: nat)
    requires first in known && |known| == 1 && RedirectsWhenFull(first, reply, full, joins)
    requires SeenSetResult(known, first, reply, Cycle(joins))
    ensures known <= full
  {
    SameSize({first}, known);
    OverflowMetFullNodes(known, first, reply, full, joins);
    assert At(first, reply, 0) in Visited(first, reply, joins - 1);
  }

  lemma EagerStaysInside(nodes: seq<Did>, counts: map<Did, nat>, cap: nat, self: bool, replies: seq<Did>,
                         out: Outcome)
    requires |nodes| > 0 && counts.Keys == Nodes(nodes)
    requires EagerPeer(nodes, counts, cap, self, replies, out) && !out.Landed?
    ensures out == Cycle(|replies|)
  {
    hide NoRepeat, Redirected, Visited, At;
    var last := |replies| - 1;
    AskedIsAt(nodes[0], replies, last);
    assert EagerAt(counts, cap, self, nodes[0], replies, last);
  }

  lemma EagerRedirectsWhenFull(nodes: seq<Did>, counts: map<Did, nat>, cap: nat, self: bool, replies: seq<Did>,
                               full: set<Did>)
    requires |nodes| > 0 && counts.Keys == Nodes(nodes) && full == set n | n in counts && counts[n] >= cap
    requires Eager(counts, cap, self, nodes[0], replies)
    ensures RedirectsWhenFull(nodes[0], Script(replies), full, |replies|)
    ensures !self && |counts| != 1 ==> RedirectsElsewhere(nodes[0], Script(replies), |replies|)
  {
    hide At, Script;
    forall j: nat | j < |replies|
      ensures EagerAnswer(counts, cap, self, At(nodes[0], Script(replies), j), Script(replies)(j))
    {
      AskedIsAt(nodes[0], replies, j);
      assert EagerAt(counts, cap, self, nodes[0], replies, j);
    }
  }

  /** What every run of eager servers keeps: the cap, the totals, and in a small cluster that nobody has
      overflowed unless all nodes are full. */
  ghost predicate Fair(nodes: seq<Did>, cap: nat, self: bool, outs: seq<Outcome>) {
    var counts := CountsAfter(nodes, outs);
    && (forall n :: n in nodes ==> counts[n] <= cap)
    && Total(nodes, counts) + Missed(outs) == |outs|
    && (Missed(outs) > 0 && |nodes| <= (if self then 1 else 2) ==> forall n :: n in nodes ==> counts[n] == cap)
  }

  lemma PrefixRuns(nodes: seq<Did>, cap: nat, self: bool, answers: seq<seq<Did>>, outs: seq<Outcome>)
    requires |nodes| > 0 && EagerRun(nodes, cap, self, answers, outs) && |outs| > 0
    ensures |answers| == |outs|
    ensures var last := |outs| - 1;
      && EagerRun(nodes, cap, self, answers[..last], outs[..last])
      && EagerPeer(nodes, CountsAfter(nodes, outs[..last]), cap, self, answers[last], outs[last])
  {
    hide EagerPeer, CountsAfter;
    var last := |outs| - 1;
    forall i | 0 <= i < last
      ensures EagerPeer(nodes, CountsAfter(nodes, outs[..last][..i]), cap, self, answers[..last][i], outs[..last][i])
    {
      assert outs[..last][..i] == outs[..i];
    }
  }

  lemma {:induction false} RunIsFair(nodes: seq<Did>, cap: nat, self: bool, answers: seq<seq<Did>>,
                                     outs: seq<Outcome>)
    requires |nodes| > 0 && Distinct(nodes) && "" !in nodes && EagerRun(nodes, cap, self, answers, outs)
    ensures Fair(nodes, cap, self, outs)
    decreases |outs|
  {
    hide EagerRun, EagerPeer, Admitted;
    if |outs| == 0 {
      TotalOfZeros(nodes, CountsAfter(nodes, outs));
    } else {
      PrefixRuns(nodes, cap, self, answers, outs);
      var last := |outs| - 1;
      var counts, out := CountsAfter(nodes, outs[..last]), outs[last];
      RunIsFair(nodes, cap, self, answers[..last], outs[..last]);
      if out.Landed? {
        LandsBelowCap(nodes, counts, cap, self, answers[last], out);
        LandingIsFair(nodes, cap, self, outs);
      } else if |nodes| <= if self then 1 else 2 {
        OverflowFindsAllFull(nodes, counts, cap, self, answers[last], out);
      }
    }
  }

  lemma LandingIsFair(nodes: seq<Did>, cap: nat, self: bool, outs: seq<Outcome>)
    requires |outs| > 0 && Distinct(nodes)
    requires var last := |outs| - 1;
      && Fair(nodes, cap, self, outs[..last]) && outs[last].Landed? && outs[last].node in nodes
      && CountsAfter(nodes, outs[..last])[outs[last].node] < cap
    ensures Fair(nodes, cap, self, outs)
  {
    hide Admitted;
    var counts, node := CountsAfter(nodes, outs[..|outs| - 1]), outs[|outs| - 1].node;
    TotalGrows(nodes, counts, node);
    AdmittedIsOneMore(counts, node);
  }

  lemma AdmittedIsOneMore(counts: map<Did, nat>, node: Did)
    requires node in counts
    ensures Admitted(counts, node).Keys == counts.Keys && Admitted(counts, node)[node] == counts[node] + 1
    ensures forall n :: n in counts && n != node ==> Admitted(counts, node)[n] == counts[n]
  {
  }

  lemma LandsBelowCap(nodes: seq<Did>, counts: map<Did, nat>, cap: nat, self: bool, replies: seq<Did>, out: Outcome)
    requires |nodes| > 0 && counts.Keys == Nodes(nodes)
    requires EagerPeer(nodes, counts, cap, self, replies, out) && out.Landed?
    ensures out.node in nodes && counts[out.node] < cap
  {
    hide NoRepeat, Redirected, Visited, At;
    var last := |replies| - 1;
    AskedIsAt(nodes[0], replies, last);
    assert EagerAt(counts, cap, self, nodes[0], replies, last);
  }

  lemma {:induction false} TotalOfFull(nodes: seq<Did>, counts: map<Did, nat>, cap: nat)
    requires forall n :: n in nodes ==> n in counts && counts[n] == cap
    ensures Total(nodes, counts) == |nodes| * cap
  {
    if |nodes| == 0 {
    } else {
      TotalOfFull(nodes[1..], counts, cap);
      assert |nodes| * cap == |nodes[1..]| * cap + cap;
    }
  }

  /** In a small cluster, or with no room at all, exactly the expected number of peers overflows. */
  lemma OverflowIsExpected(nodes: seq<Did>, cap: nat, self: bool, answers: seq<seq<Did>>, outs: seq<Outcome>)
    requires |nodes| > 0 && Distinct(nodes) && "" !in nodes && EagerRun(nodes, cap, self, answers, outs)
    requires cap == 0 || |nodes| <= if self then 1 else 2
    ensures Missed(outs) == Expected(|outs|, |nodes|, cap)
  {
    RunIsFair(nodes, cap, self, answers, outs);
    hide EagerRun, CountsAfter, Total;
    var counts := CountsAfter(nodes, outs);
    TotalIsCapped(nodes, counts, cap);
    if Missed(outs) > 0 || cap == 0 {
      TotalOfFull(nodes, counts, cap);
    }
  }

  lemma RunGrows(nodes: seq<Did>, cap: nat, self: bool, answers: seq<seq<Did>>, outs: seq<Outcome>,
                 replies: seq<Did>, out: Outcome)
    requires |nodes| > 0 && EagerRun(nodes, cap, self, answers, outs)
    requires EagerPeer(nodes, CountsAfter(nodes, outs), cap, self, replies, out)
    ensures EagerRun(nodes, cap, self, answers + [replies], outs + [out])
    ensures var counts := CountsAfter(nodes, outs);
      && CountsAfter(nodes, outs + [out])
           == (if out.Landed? && out.node in counts then Admitted(counts, out.node) else counts)
      && Missed(outs + [out]) == Missed(outs) + if out.Landed? then 0 else 1
  {
    hide EagerPeer, Admitted;
    var outs', answers' := outs + [out], answers + [replies];
    assert outs'[..|outs|] == outs;
    forall i | 0 <= i < |outs'|
      ensures EagerPeer(nodes, CountsAfter(nodes, outs'[..i]), cap, self, answers'[i], outs'[i])
    {
      hide CountsAfter;
      assert outs'[..i] == outs[..i];
    }
  }

  /** The first node holds a participants, the second b, and no other any. */
  ghost predicate Filled(nodes: seq<Did>, counts: map<Did, nat>, a: nat, b: nat) {
    && counts.Keys == Nodes(nodes)
    && forall k :: 0 <= k < |nodes| ==> counts[nodes[k]] == if k == 0 then a else if k == 1 then b else 0
  }

  lemma NoneFilled(nodes: seq<Did>)
    ensures Filled(nodes, CountsAfter(nodes, []), 0, 0)
  {
  }

  lemma OneMoreFilled(nodes: seq<Did>, counts: map<Did, nat>, a: nat, b: nat, k: nat)
    requires Distinct(nodes) && Filled(nodes, counts, a, b) && k < 2 && k < |nodes|
    ensures nodes[k] in counts
    ensures Filled(nodes, Admitted(counts, nodes[k]), if k == 0 then a + 1 else a, if k == 1 then b + 1 else b)
  {
    assert nodes[k] in nodes;
    forall j | 0 <= j < |nodes| && j != k
      ensures nodes[j] in nodes && nodes[j] != nodes[k]
    {
      assert j < k || k < j;
    }
  }

  lemma FilledMeans(nodes: seq<Did>, counts: map<Did, nat>, a: nat, b: nat)
    requires |nodes| > 0 && Filled(nodes, counts, a, b)
    ensures counts.Keys == Nodes(nodes) && nodes[0] in counts && counts[nodes[0]] == a
    ensures |nodes| > 1 ==> nodes[1] in counts && counts[nodes[1]] == b
  {
    assert nodes[0] in nodes && (|nodes| > 1 ==> nodes[1] in nodes);
  }

  /** The first `k` peers land on the first node. */
  lemma {:induction false} FirstNodeFills(nodes: seq<Did>, cap: nat, self: bool, k: nat)
    returns (answers: seq<seq<Did>>, outs: seq<Outcome>)
    requires |nodes| > 0 && Distinct(nodes) && k <= cap
    ensures EagerRun(nodes, cap, self, answers, outs) && |outs| == k && Missed(outs) == 0
    ensures Filled(nodes, CountsAfter(nodes, outs), k, 0)
  {
    hide CountsAfter, Filled, Admitted, EagerPeer;
    if k == 0 {
      answers, outs := [], [];
      NoneFilled(nodes);
    } else {
      hide EagerRun, Missed;
      answers, outs := FirstNodeFills(nodes, cap, self, k - 1);
      var counts := CountsAfter(nodes, outs);
      FilledMeans(nodes, counts, k - 1, 0);
      LandsAtOnce(nodes, counts, cap, self);
      RunGrows(nodes, cap, self, answers, outs, [""], Landed(nodes[0], 1));
      OneMoreFilled(nodes, counts, k - 1, 0, 0);
      answers, outs := answers + [[""]], outs + [Landed(nodes[0], 1)];
    }
  }

  lemma LandsAtOnce(nodes: seq<Did>, counts: map<Did, nat>, cap: nat, self: bool)
    requires |nodes| > 0 && counts.Keys == Nodes(nodes) && counts[nodes[0]] < cap
    ensures EagerPeer(nodes, counts, cap, self, [""], Landed(nodes[0], 1))
  {
    AskedIsAt(nodes[0], [""], 0);
  }

  /** The next `k` are sent on to the second. */
  lemma {:induction false} SecondNodeFills(nodes: seq<Did>, cap: nat, self: bool, k: nat)
    returns (answers: seq<seq<Did>>, outs: seq<Outcome>)
    requires |nodes| > 1 && Distinct(nodes) && "" !in nodes && k <= cap
    ensures EagerRun(nodes, cap, self, answers, outs) && |outs| == cap + k && Missed(outs) == 0
    ensures Filled(nodes, CountsAfter(nodes, outs), cap, k)
  {
    hide CountsAfter, Filled, Admitted, EagerPeer, EagerRun, Missed;
    if k == 0 {
      answers, outs := FirstNodeFills(nodes, cap, self, cap);
    } else {
      answers, outs := SecondNodeFills(nodes, cap, self, k - 1);
      var counts := CountsAfter(nodes, outs);
      FilledMeans(nodes, counts, cap, k - 1);
      LandsNextDoor(nodes, counts, cap, self);
      RunGrows(nodes, cap, self, answers, outs, [nodes[1], ""], Landed(nodes[1], 2));
      OneMoreFilled(nodes, counts, cap, k - 1, 1);
      answers, outs := answers + [[nodes[1], ""]], outs + [Landed(nodes[1], 2)];
    }
  }

  lemma LandsNextDoor(nodes: seq<Did>, counts: map<Did, nat>, cap: nat, self: bool)
    requires |nodes| > 1 && Distinct(nodes) && "" !in nodes && counts.Keys == Nodes(nodes)
    requires counts[nodes[0]] >= cap && counts[nodes[1]] < cap
    ensures EagerPeer(nodes, counts, cap, self, [nodes[1], ""], Landed(nodes[1], 2))
  {
    var reply := Script([nodes[1], ""]);
    assert At(nodes[0], reply, 0) == nodes[0] && At(nodes[0], reply, 1) == nodes[1];
    assert nodes[1] in nodes;
  }

  lemma Bounces(nodes: seq<Did>, counts: map<Did, nat>, cap: nat, self: bool)
    requires |nodes| > 1 && Distinct(nodes) && "" !in nodes && counts.Keys == Nodes(nodes)
    requires counts[nodes[0]] >= cap && counts[nodes[1]] >= cap
    ensures EagerPeer(nodes, counts, cap, self, [nodes[1], nodes[0]], Cycle(2))
  {
    var reply := Script([nodes[1], nodes[0]]);
    assert At(nodes[0], reply, 0) == nodes[0] && At(nodes[0], reply, 1) == nodes[1];
    assert nodes[0] in nodes && nodes[1] in nodes;
    assert At(nodes[0], reply, 0) in Visited(nodes[0], reply, 1);
  }

  lemma NamesItself(nodes: seq<Did>, counts: map<Did, nat>, cap: nat)
    requires |nodes| > 0 && "" !in nodes && counts.Keys == Nodes(nodes) && counts[nodes[0]] >= cap
    ensures EagerPeer(nodes, counts, cap, true, [nodes[0]], Cycle(1))
  {
    var reply := Script([nodes[0]]);
    assert At(nodes[0], reply, 0) == nodes[0] && nodes[0] in nodes;
    assert At(nodes[0], reply, 0) in Visited(nodes[0], reply, 0);
  }

  /** In a larger one a peer is turned away while other nodes are empty. */
  lemma OverflowsTooEarly(nodes: seq<Did>, cap: nat, self: bool)
    returns (answers: seq<seq<Did>>, outs: seq<Outcome>)
    requires Distinct(nodes) && "" !in nodes && cap > 0 && |nodes| > if self then 1 else 2
    ensures EagerRun(nodes, cap, self, answers, outs) && Missed(outs) == 1
    ensures |outs| == (if self then cap else 2 * cap) + 1
    ensures Expected(|outs|, |nodes|, cap) == 0
  {
    hide EagerRun, CountsAfter, Filled, EagerPeer, Missed;
    if self {
      answers, outs := FirstNodeFills(nodes, cap, self, cap);
      FilledMeans(nodes, CountsAfter(nodes, outs), cap, 0);
      NamesItself(nodes, CountsAfter(nodes, outs), cap);
      RunGrows(nodes, cap, self, answers, outs, [nodes[0]], Cycle(1));
      answers, outs := answers + [[nodes[0]]], outs + [Cycle(1)];
      ProductGrows(2, |nodes|, cap);
    } else {
      answers, outs := SecondNodeFills(nodes, cap, self, cap);
      FilledMeans(nodes, CountsAfter(nodes, outs), cap, cap);
      Bounces(nodes, CountsAfter(nodes, outs), cap, self);
      RunGrows(nodes, cap, self, answers, outs, [nodes[1], nodes[0]], Cycle(2));
      answers, outs := answers + [[nodes[1], nodes[0]]], outs + [Cycle(2)];
      ProductGrows(3, |nodes|, cap);
    }
  }

  lemma {:induction false} ProductGrows(a: nat, b: nat, cap: nat)
    requires a <= b
    ensures a * cap <= b * cap
  {
    if b == a {
    } else {
      ProductGrows(a, b - 1, cap);
      assert b * cap == (b - 1) * cap + cap;
    }
  }

  /** Against servers that admit while they can, the reported `expectedOverflow` is the number of peers that
      overflow, for every number of peers and every choice of redirects, exactly in clusters of at most two
      nodes (one, if a node may name itself), or if there is no room at all. */
  lemma ExpectedOverflowIff(nodes: seq<Did>, cap: nat, self: bool)
    requires |nodes| > 0 && Distinct(nodes) && "" !in nodes
    ensures (forall answers, outs :: EagerRun(nodes, cap, self, answers, outs) ==>
               Missed(outs) == Expected(|outs|, |nodes|, cap))
      <==> cap == 0 || |nodes| <= if self then 1 else 2
  {
    hide EagerRun, Missed, Expected;
    if cap == 0 || |nodes| <= if self then 1 else 2 {
      forall answers, outs | EagerRun(nodes, cap, self, answers, outs)
        ensures Missed(outs) == Expected(|outs|, |nodes|, cap)
      {
        OverflowIsExpected(nodes, cap, self, answers, outs);
      }
    } else {
      var answers, outs := OverflowsTooEarly(nodes, cap, self);
    }
  }

  /** S3's own seven peers and cap of three on a third node: one overflows although two seats are left. */
  lemma ThirdNodeStaysEmpty() returns (answers: seq<seq<Did>>, outs: seq<Outcome>)
    ensures EagerRun(["A", "B", "C"], 3, false, answers, outs)
    ensures |outs| == 7 && Missed(outs) == 1 && Expected(7, 3, 3) == 0
  {
    answers, outs := OverflowsTooEarly(["A", "B", "C"], 3, false);
  }

  // ------------------------------------------------------- the scenario

  /** S3 for any number of peers and nodes and any cap, against any servers: everyone is accounted for
      exactly once, the counts are the servers' own, and the verdict says exactly whether the servers
      kept to the cap. Servers that enforce it pass, and at least the peers that cannot fit overflow;
      against eager servers the joins make an eager run, so that in a small cluster exactly those do. */
  method MaxParticipants(cluster: Cluster, nodes: seq<Did>, sessions: seq<Session>)
    returns (peers: seq<Did>, overflowed: seq<nat>, counts: map<Did, nat>, passed: bool,
             ghost answers: seq<seq<Did>>, ghost outs: seq<Outcome>)
    requires |nodes| > 0 && Distinct(nodes) && cluster.accepted.Keys == Nodes(nodes)
    requires forall n :: n in cluster.accepted ==> cluster.accepted[n] == 0
    requires forall i :: 0 <= i < |sessions| ==> Admissible(nodes, sessions[i], cluster.members)
    requires cluster.eager ==> "" !in nodes
    modifies cluster`accepted
    ensures |answers| == |outs| == |sessions| == |peers| + |overflowed|
    ensures forall i :: 0 <= i < |sessions| ==> SeenSetResult(Nodes(nodes), nodes[0], Script(answers[i]), outs[i])
    ensures peers == Placed(outs)
    ensures forall i, j :: 0 <= i < j < |overflowed| ==> overflowed[i] < overflowed[j]
    ensures forall i :: i in overflowed <==> 0 <= i < |outs| && !outs[i].Landed?
    ensures counts == cluster.accepted && counts.Keys == Nodes(nodes)
    ensures forall n :: n in nodes ==> counts[n] == multiset(peers)[n]
    ensures Total(nodes, counts) == |peers|
    ensures passed <==> forall n :: n in cluster.accepted ==> cluster.accepted[n] <= cluster.cap
    ensures passed ==> |overflowed| >= |sessions| - |nodes| * cluster.cap
    ensures cluster.enforces ==> passed
    ensures Traced(nodes, cluster.cap, cluster.selfRedirects, cluster.eager, counts, |sessions|, |overflowed|,
                   answers, outs)
    ensures cluster.eager && (cluster.cap == 0 || |nodes| <= if cluster.selfRedirects then 1 else 2) ==>
      |overflowed| == Expected(|sessions|, |nodes|, cluster.cap)
  {
    hide SeenSetResult, Admitted, Expected, Traced, EagerPeer, Progress, Admissible, Nodes, Total, Capped, Script,
         Placed;
    peers, overflowed, answers, outs := [], [], [], [];
    counts := map n | n in nodes :: 0;
    SameStart(nodes, counts, cluster.accepted);
    ghost var self := cluster.selfRedirects;
    NobodyYet(nodes, cluster.cap, self, cluster.eager, cluster.enforces, counts);
    for i := 0 to |sessions|
      invariant counts == cluster.accepted && counts.Keys == Nodes(nodes)
      invariant Progress(nodes, cluster.cap, self, cluster.eager, cluster.enforces, counts, i, peers, overflowed,
                         answers, outs)
    {
      var out, replies := JoinPeer(cluster, nodes, sessions[i]);
      GoesOn(nodes, cluster.cap, self, cluster.eager, cluster.enforces, counts, i, peers, overflowed, answers, outs,
             replies, out);
      answers, outs := answers + [replies], outs + [out];
      if out.Landed? {
        peers := peers + [out.node];
        counts := Admitted(counts, out.node);
      } else {
        overflowed := overflowed + [i];
      }
    }
    InNodes(nodes);
    passed := forall n | n in nodes :: counts[n] <= cluster.cap;
    Ends(nodes, cluster.cap, self, cluster.eager, cluster.enforces, counts, |sessions|, peers, overflowed, answers,
         outs);
    CappedIff(nodes, counts, cluster.cap);
  }

  lemma SameStart(nodes: seq<Did>, counts: map<Did, nat>, accepted: map<Did, nat>)
    requires counts == map n | n in nodes :: 0
    requires accepted.Keys == Nodes(nodes) && forall n :: n in accepted ==> accepted[n] == 0
    ensures counts == accepted
  {
  }

  /** Where the scenario stands after i peers. */
  ghost predicate Progress(nodes: seq<Did>, cap: nat, self: bool, eager: bool, enforces: bool, counts: map<Did, nat>,
                           i: nat, peers: seq<Did>, overflowed: seq<nat>, answers: seq<seq<Did>>,
                           outs: seq<Outcome>)
    requires |nodes| > 0
  {
    && |peers| + |overflowed| == i && Ascending(overflowed, outs) && peers == Placed(outs)
    && Books(nodes, counts, peers)
    && (enforces ==> Capped(nodes, counts, cap))
    && Traced(nodes, cap, self, eager, counts, i, |overflowed|, answers, outs)
  }

  lemma GoesOn(nodes: seq<Did>, cap: nat, self: bool, eager: bool, enforces: bool, counts: map<Did, nat>, i: nat,
               peers: seq<Did>, overflowed: seq<nat>, answers: seq<seq<Did>>, outs: seq<Outcome>,
               replies: seq<Did>, out: Outcome)
    requires |nodes| > 0 && Distinct(nodes) && counts.Keys == Nodes(nodes)
    requires Progress(nodes, cap, self, eager, enforces, counts, i, peers, overflowed, answers, outs)
    requires out.Landed? ==> out.node in counts && (enforces ==> counts[out.node] < cap)
    requires SeenSetResult(Nodes(nodes), nodes[0], Script(replies), out)
    requires eager ==> EagerPeer(nodes, counts, cap, self, replies, out)
    ensures out.Landed? ==> Admitted(counts, out.node).Keys == counts.Keys
    ensures var answers', outs' := answers + [replies], outs + [out];
      if out.Landed? then
        Progress(nodes, cap, self, eager, enforces, Admitted(counts, out.node), i + 1, peers + [out.node], overflowed,
                 answers', outs')
      else
        Progress(nodes, cap, self, eager, enforces, counts, i + 1, peers, overflowed + [i], answers', outs')
  {
    hide Traced, Ascending, Capped, EagerPeer, Books, Admitted, SeenSetResult, Script, Placed;
    PlacedGrows(outs, out);
    TraceGrows(nodes, cap, self, eager, counts, i, |overflowed|, answers, outs, replies, out);
    if out.Landed? {
      AdmittedIsOneMore(counts, out.node);
      BooksGrow(nodes, counts, peers, out.node);
      CappedStays(nodes, counts, cap, out.node);
      Skipped(overflowed, outs, out);
    } else {
      TraceLength(nodes, cap, self, eager, counts, i, |overflowed|, answers, outs);
      Appended(overflowed, outs, out);
    }
  }

  lemma Ends(nodes: seq<Did>, cap: nat, self: bool, eager: bool, enforces: bool, counts: map<Did, nat>, i: nat,
             peers: seq<Did>, overflowed: seq<nat>, answers: seq<seq<Did>>, outs: seq<Outcome>)
    requires |nodes| > 0 && Distinct(nodes) && counts.Keys == Nodes(nodes) && (eager ==> "" !in nodes)
    requires Progress(nodes, cap, self, eager, enforces, counts, i, peers, overflowed, answers, outs)
    ensures |answers| == |outs| == i == |peers| + |overflowed|
    ensures forall j :: 0 <= j < i ==> SeenSetResult(Nodes(nodes), nodes[0], Script(answers[j]), outs[j])
    ensures peers == Placed(outs)
    ensures forall i, j :: 0 <= i < j < |overflowed| ==> overflowed[i] < overflowed[j]
    ensures forall j :: j in overflowed <==> 0 <= j < |outs| && !outs[j].Landed?
    ensures forall n :: n in nodes ==> counts[n] == multiset(peers)[n]
    ensures Total(nodes, counts) == |peers|
    ensures Capped(nodes, counts, cap) <==> forall n :: n in counts ==> counts[n] <= cap
    ensures Capped(nodes, counts, cap) ==> |overflowed| >= i - |nodes| * cap
    ensures enforces ==> Capped(nodes, counts, cap)
    ensures Traced(nodes, cap, self, eager, counts, i, |overflowed|, answers, outs)
    ensures eager && (cap == 0 || |nodes| <= if self then 1 else 2) ==> |overflowed| == Expected(i, |nodes|, cap)
  {
    hide Traced, Ascending, Capped, Books, Expected, SeenSetResult, Script, Placed;
    BooksClose(nodes, counts, peers, cap);
    TraceEnds(nodes, cap, self, eager, counts, i, |overflowed|, answers, outs);
    TraceLength(nodes, cap, self, eager, counts, i, |overflowed|, answers, outs);
    AscendingMeans(overflowed, outs);
    CappedIff(nodes, counts, cap);
  }

  /** The nodes on which peers landed, in the order in which they did. */
  function Placed(outs: seq<Outcome>): seq<Did> {
    if |outs| == 0 then []
    else
      var before, out := Placed(outs[..|outs| - 1]), outs[|outs| - 1];
      if out.Landed? then before + [out.node] else before
  }

  lemma PlacedGrows(outs: seq<Outcome>, out: Outcome)
    ensures Placed(outs + [out]) == if out.Landed? then Placed(outs) + [out.node] else Placed(outs)
  {
    assert (outs + [out])[..|outs|] == outs;
  }

  /** The numbers of exactly the peers that did not land, in order. */
  ghost predicate Ascending(xs: seq<nat>, outs: seq<Outcome>) {
    && (forall i, j :: 0 <= i < j < |xs| ==> xs[i] < xs[j])
    && (forall i :: i in xs <==> 0 <= i < |outs| && !outs[i].Landed?)
  }

  lemma AscendingMeans(xs: seq<nat>, outs: seq<Outcome>)
    requires Ascending(xs, outs)
    ensures forall i, j :: 0 <= i < j < |xs| ==> xs[i] < xs[j]
    ensures forall i :: i in xs <==> 0 <= i < |outs| && !outs[i].Landed?
  {
  }

  lemma Skipped(xs: seq<nat>, outs: seq<Outcome>, out: Outcome)
    requires Ascending(xs, outs) && out.Landed?
    ensures Ascending(xs, outs + [out])
  {
  }

  lemma Appended(xs: seq<nat>, outs: seq<Outcome>, out: Outcome)
    requires Ascending(xs, outs) && !out.Landed?
    ensures Ascending(xs + [|outs|], outs + [out])
  {
    var ys := xs + [|outs|];
    forall i | 0 <= i < |xs|
      ensures xs[i] < |outs|
    {
      assert xs[i] in xs;
    }
    forall i
      ensures i in ys <==> i in xs || i == |outs|
    {
    }
  }

  lemma InNodes(nodes: seq<Did>)
    ensures forall n :: n in nodes <==> n in Nodes(nodes)
  {
  }

  lemma CappedIff(nodes: seq<Did>, counts: map<Did, nat>, cap: nat)
    requires counts.Keys == Nodes(nodes)
    ensures Capped(nodes, counts, cap) <==> forall n :: n in counts ==> counts[n] <= cap
    ensures Capped(nodes, counts, cap) <==> forall n :: n in nodes ==> counts[n] <= cap
  {
  }

  /** The joins of n peers, of whom `missed` overflowed, leave the servers these counts; made with eager
      servers they are an eager run. */
  ghost predicate Traced(nodes: seq<Did>, cap: nat, self: bool, eager: bool, counts: map<Did, nat>, n: nat,
                         missed: nat, answers: seq<seq<Did>>, outs: seq<Outcome>)
    requires |nodes| > 0
  {
    && |answers| == |outs| == n && Missed(outs) == missed && CountsAfter(nodes, outs) == counts
    && (forall j :: 0 <= j < n ==> SeenSetResult(Nodes(nodes), nodes[0], Script(answers[j]), outs[j]))
    && (eager ==> EagerRun(nodes, cap, self, answers, outs))
  }

  lemma TraceLength(nodes: seq<Did>, cap: nat, self: bool, eager: bool, counts: map<Did, nat>, n: nat, missed: nat,
                    answers: seq<seq<Did>>, outs: seq<Outcome>)
    requires |nodes| > 0 && Traced(nodes, cap, self, eager, counts, n, missed, answers, outs)
    ensures |answers| == |outs| == n
    ensures forall j :: 0 <= j < n ==> SeenSetResult(Nodes(nodes), nodes[0], Script(answers[j]), outs[j])
  {
    hide SeenSetResult, Script;
  }

  lemma NobodyYet(nodes: seq<Did>, cap: nat, self: bool, eager: bool, enforces: bool, counts: map<Did, nat>)
    requires |nodes| > 0 && counts == map n | n in nodes :: 0
    ensures Progress(nodes, cap, self, eager, enforces, counts, 0, [], [], [], [])
  {
    BooksOpen(nodes, counts);
  }

  lemma TraceGrows(nodes: seq<Did>, cap: nat, self: bool, eager: bool, counts: map<Did, nat>, n: nat, missed: nat,
                   answers: seq<seq<Did>>, outs: seq<Outcome>, replies: seq<Did>, out: Outcome)
    requires |nodes| > 0 && Traced(nodes, cap, self, eager, counts, n, missed, answers, outs)
    requires SeenSetResult(Nodes(nodes), nodes[0], Script(replies), out)
    requires eager ==> EagerPeer(nodes, counts, cap, self, replies, out)
    requires out.Landed? ==> out.node in counts
    ensures Traced(nodes, cap, self, eager, if out.Landed? then Admitted(counts, out.node) else counts, n + 1,
                   if out.Landed? then missed else missed + 1, answers + [replies], outs + [out])
  {
    hide EagerRun, EagerPeer, Admitted, SeenSetResult, Script;
    assert (outs + [out])[..|outs|] == outs;
    if eager {
      RunGrows(nodes, cap, self, answers, outs, replies, out);
    }
  }

  lemma TraceEnds(nodes: seq<Did>, cap: nat, self: bool, eager: bool, counts: map<Did, nat>, n: nat, missed: nat,
                  answers: seq<seq<Did>>, outs: seq<Outcome>)
    requires |nodes| > 0 && Distinct(nodes) && (eager ==> "" !in nodes)
    requires Traced(nodes, cap, self, eager, counts, n, missed, answers, outs)
    ensures eager && (cap == 0 || |nodes| <= if self then 1 else 2) ==> missed == Expected(n, |nodes|, cap)
  {
    hide EagerRun, CountsAfter, Missed, Expected;
    if eager && (cap == 0 || |nodes| <= if self then 1 else 2) {
      OverflowIsExpected(nodes, cap, self, answers, outs);
    }
  }

  lemma CappedStays(nodes: seq<Did>, counts: map<Did, nat>, cap: nat, node: Did)
    requires (forall n :: n in nodes ==> n in counts) && node in counts
    ensures Capped(nodes, counts, cap) && counts[node] < cap ==> Capped(nodes, Admitted(counts, node), cap)
  {
  }

  /** The scenario from its first step: accounts are made on every node, their identities registered, and
      the peers join. It gets as far as the joins exactly when every account is usable, and then every
      join any peer makes is made as a member of the node it goes to. */
  method RunScenario(cluster: Cluster, nodes: seq<Did>, count: nat, answers: Answers)
    returns (landed: nat, overflowed: nat, result: Result<bool>)
    requires |nodes| > 0 && Distinct(nodes) && cluster.accepted.Keys == Nodes(nodes)
    requires forall n :: n in cluster.accepted ==> cluster.accepted[n] == 0
    requires cluster.eager ==> "" !in nodes
    modifies cluster
    ensures result.Ok? <==> forall i, j :: 0 <= i < count && 0 <= j < |nodes| ==> Usable(answers, i, j)
    ensures result.Err? ==> cluster.accepted == old(cluster.accepted) && cluster.members == old(cluster.members)
    ensures result.Ok? ==>
      && cluster.accepted.Keys == Nodes(nodes)
      && landed + overflowed == count
      && landed == Total(nodes, cluster.accepted)
      && (result.value <==> forall n :: n in cluster.accepted ==> cluster.accepted[n] <= cluster.cap)
      && (cluster.enforces ==> result.value)
      && (result.value ==> overflowed >= count - |nodes| * cluster.cap)
      && (cluster.eager && (cluster.cap == 0 || |nodes| <= if cluster.selfRedirects then 1 else 2) ==>
            overflowed == Expected(count, |nodes|, cluster.cap))
  {
    landed, overflowed := 0, 0;
    var provisioned := ProvisionClusterPeers(nodes, count, answers);
    if provisioned.Err? {
      return landed, overflowed, Err;
    }
    var sessions := provisioned.value;
    RegisterClusterSfuMembers(cluster, nodes, sessions);
    forall i | 0 <= i < |sessions|
      ensures Admissible(nodes, sessions[i], cluster.members)
    {
      assert Provisioned(nodes, answers, i, sessions[i]);
      assert forall m :: m in sessions[i] ==> Held(sessions, |sessions|, sessions[i][m].did);
    }
    var peers, missed, counts, passed, _, _ := MaxParticipants(cluster, nodes, sessions);
    landed, overflowed, result := |peers|, |missed|, Ok(passed);
  }
}
