/** Full-mesh calls: one peer connection per remote host, made on demand, and paired once. */
module Mesh {
  import opened Wrappers

  /** The two sides of an SDP exchange; one connection must not take both. */
  datatype Role = Offerer | Answerer

  class WebRtcPeer {
    const localId: string
    const remoteId: string
    /** Every role this connection was ever used in. */
    var roles: seq<Role>

    constructor (localId: string, remoteId: string)
      ensures this.localId == localId && this.remoteId == remoteId && roles == []
    {
      this.localId, this.remoteId, roles := localId, remoteId, [];
    }

    method CreateOffer()
      modifies this
      ensures roles == old(roles) + [Offerer]
    {
      roles := roles + [Offerer];
    }

    method CreateAnswer()
      modifies this
      ensures roles == old(roles) + [Answerer]
    {
      roles := roles + [Answerer];
    }
  }

  class MeshHost {
    const id: string
    var peers: map<string, WebRtcPeer>

    constructor (id: string)
      ensures this.id == id && peers == map[]
    {
      this.id, peers := id, map[];
    }

    /** The connection towards a remote host, made when first asked for. */
    method GetPeer(remoteId: string) returns (p: WebRtcPeer)
      modifies this
      ensures remoteId in old(peers) ==> p == old(peers)[remoteId] && peers == old(peers)
      ensures remoteId !in old(peers) ==> fresh(p) && p.roles == [] && p.localId == id && p.remoteId == remoteId
      ensures remoteId !in old(peers) ==> peers == old(peers)[remoteId := p]
    {
      if remoteId in peers {
        return peers[remoteId];
      }
      p := new WebRtcPeer(id, remoteId);
      peers := peers[remoteId := p];
    }
  }

  /** a offers, b answers. */
  method PairPeers(a: WebRtcPeer, b: WebRtcPeer)
    requires a != b
    modifies a, b
    ensures a.roles == old(a.roles) + [Offerer] && b.roles == old(b.roles) + [Answerer]
  {
    a.CreateOffer();
    b.CreateAnswer();
  }

  /** A connection as seen from outside: whom it connects, and the roles it was used in. */
  datatype Link = Link(localId: string, remoteId: string, roles: seq<Role>)

  ghost function Links(host: MeshHost): map<string, Link>
    reads host, host.peers.Values
  {
    map r | r in host.peers :: Link(host.peers[r].localId, host.peers[r].remoteId, host.peers[r].roles)
  }

  /** One round of the inner loop, for two hosts that do not know each other yet. */
  method ConnectPair(x: MeshHost, y: MeshHost)
    requires x != y && y.id !in x.peers && x.id !in y.peers
    modifies x, y
    ensures Links(x) == old(Links(x))[y.id := Link(x.id, y.id, [Offerer])]
    ensures Links(y) == old(Links(y))[x.id := Link(y.id, x.id, [Answerer])]
  {
    hide Links;
    var a := x.GetPeer(y.id);
    var b := y.GetPeer(x.id);
    PairPeers(a, b);
    assert [] + [Offerer] == [Offerer] && [] + [Answerer] == [Answerer];
    LinksGrow(x, a);
    LinksGrow(y, b);
  }

  /** What a host's links are after one connection more, if the earlier ones were left alone. */
  twostate lemma LinksGrow(host: MeshHost, new p: WebRtcPeer)
    requires p.remoteId !in old(host.peers) && host.peers == old(host.peers)[p.remoteId := p]
    requires forall r :: r in old(host.peers) ==> unchanged(old(host.peers)[r])
    ensures Links(host) == old(Links(host))[p.remoteId := Link(p.localId, p.remoteId, p.roles)]
  {
    var before, after := old(Links(host)), Links(host);
    forall r | r in before
      ensures r in after && after[r] == before[r]
    {
      assert host.peers[r] == old(host.peers)[r];
    }
  }

  /** The pair {k, l} comes before the pair (i, j) in the order of the nested loops. */
  predicate Before(k: int, l: int, i: int, j: int) {
    if k < l then k < i || (k == i && l < j)
    else l < k && (l < i || (l == i && k < j))
  }

  /** Host k, as far as the loops have come: connections to exactly the hosts it was paired with, each
      used once, the earlier host of each pair offering. */
  ghost predicate HostDone(ids: seq<string>, k: nat, links: map<string, Link>, i: nat, j: nat)
    requires k < |ids|
  {
    && (forall r :: r in links ==> r in ids)
    && (forall l :: 0 <= l < |ids| ==> (ids[l] in links <==> Before(k, l, i, j)))
    && (forall l :: 0 <= l < |ids| && ids[l] in links ==>
          links[ids[l]] == Link(ids[k], ids[l], [if k < l then Offerer else Answerer]))
  }

  function Ids(hosts: seq<MeshHost>): (ids: seq<string>)
    ensures |ids| == |hosts|
  {
    seq(|hosts|, i requires 0 <= i < |hosts| => hosts[i].id)
  }

  /** The links of every host. */
  ghost predicate HaveLinks(hosts: seq<MeshHost>, all: seq<map<string, Link>>)
    reads set k | 0 <= k < |hosts| :: hosts[k]
    reads set k, r | 0 <= k < |hosts| && r in hosts[k].peers :: hosts[k].peers[r]
  {
    |all| == |hosts| && forall k :: 0 <= k < |hosts| ==> Links(hosts[k]) == all[k]
  }

  ghost predicate AllDone(ids: seq<string>, all: seq<map<string, Link>>, i: nat, j: nat) {
    |all| == |ids| && forall k :: 0 <= k < |ids| ==> HostDone(ids, k, all[k], i, j)
  }

  /** The links after hosts i and j were paired. */
  ghost function Paired(ids: seq<string>, all: seq<map<string, Link>>, i: nat, j: nat): (all': seq<map<string, Link>>)
    requires i < j < |ids| == |all|
    ensures |all'| == |all|
  {
    all[i := all[i][ids[j] := Link(ids[i], ids[j], [Offerer])]]
       [j := all[j][ids[i] := Link(ids[j], ids[i], [Answerer])]]
  }

  lemma OtherHost(ids: seq<string>, k: nat, links: map<string, Link>, i: nat, j: nat)
    requires i < j < |ids| && k < |ids| && k != i && k != j && HostDone(ids, k, links, i, j)
    ensures HostDone(ids, k, links, i, j + 1)
  {
    forall l | 0 <= l < |ids|
      ensures Before(k, l, i, j + 1) <==> Before(k, l, i, j)
    {
    }
  }

  lemma PairedHost(ids: seq<string>, k: nat, m: nat, links: map<string, Link>, i: nat, j: nat)
    requires i < j < |ids| && ((k == i && m == j) || (k == j && m == i)) && Distinct(ids)
    requires HostDone(ids, k, links, i, j)
    ensures ids[m] !in links
    ensures HostDone(ids, k, links[ids[m] := Link(ids[k], ids[m], [if k < m then Offerer else Answerer])], i, j + 1)
  {
    forall l | 0 <= l < |ids|
      ensures Before(k, l, i, j + 1) <==> Before(k, l, i, j) || l == m
    {
    }
  }

  lemma PairingIsProgress(ids: seq<string>, all: seq<map<string, Link>>, i: nat, j: nat)
    requires i < j < |ids| && Distinct(ids) && AllDone(ids, all, i, j)
    ensures ids[j] !in all[i] && ids[i] !in all[j]
    ensures AllDone(ids, Paired(ids, all, i, j), i, j + 1)
  {
    var all', j' := Paired(ids, all, i, j), j + 1;
    PairedHost(ids, i, j, all[i], i, j);
    PairedHost(ids, j, i, all[j], i, j);
    forall k | 0 <= k < |ids|
      ensures HostDone(ids, k, all'[k], i, j')
    {
      if k != i && k != j {
        OtherHost(ids, k, all[k], i, j);
      }
    }
  }

  lemma RowEnds(ids: seq<string>, all: seq<map<string, Link>>, i: nat)
    requires i < |ids| && AllDone(ids, all, i, |ids|)
    ensures AllDone(ids, all, i + 1, i + 2)
  {
    var n, i', i'' := |ids|, i + 1, i + 2;
    forall k | 0 <= k < n
      ensures HostDone(ids, k, all[k], i', i'')
    {
      assert HostDone(ids, k, all[k], i, n);
      assert forall l :: 0 <= l < n ==> (Before(k, l, i, n) <==> Before(k, l, i', i''));
    }
  }

  /** One round of the nested loops on the whole mesh. */
  method ConnectNext(hosts: seq<MeshHost>, i: nat, j: nat, ghost all: seq<map<string, Link>>)
    requires Distinct(Ids(hosts)) && i < j < |hosts| && HaveLinks(hosts, all)
    requires Ids(hosts)[j] !in all[i] && Ids(hosts)[i] !in all[j]
    modifies hosts[i], hosts[j]
    ensures HaveLinks(hosts, Paired(Ids(hosts), all, i, j))
  {
    ghost var ids := Ids(hosts);
    assert forall k :: 0 <= k < |hosts| ==> ids[k] == hosts[k].id;
    assert Links(hosts[i]) == all[i] && Links(hosts[j]) == all[j];
    ConnectPair(hosts[i], hosts[j]);
    ghost var all' := Paired(ids, all, i, j);
    forall k | 0 <= k < |hosts|
      ensures Links(hosts[k]) == all'[k]
    {
      if k != i && k != j {
        assert ids[k] != ids[i] && ids[k] != ids[j];
        assert Links(hosts[k]) == old(Links(hosts[k]));
      }
    }
  }

  /** A connection to each other host and to no one else, each used in one role, once. */
  ghost predicate FullyMeshed(ids: seq<string>, k: nat, links: map<string, Link>)
    requires k < |ids|
  {
    && links.Keys == (set l | 0 <= l < |ids| && l != k :: ids[l])
    && forall l :: 0 <= l < |ids| && l != k ==>
         links[ids[l]] == Link(ids[k], ids[l], [if k < l then Offerer else Answerer])
  }

  lemma MeshEnds(ids: seq<string>, k: nat, links: map<string, Link>)
    requires k < |ids| && HostDone(ids, k, links, |ids|, |ids| + 1)
    ensures FullyMeshed(ids, k, links)
  {
    forall l | 0 <= l < |ids|
      ensures ids[l] in links <==> k != l
    {
    }
  }

  lemma MeshStarts(hosts: seq<MeshHost>, all: seq<map<string, Link>>)
    requires forall k :: 0 <= k < |hosts| ==> hosts[k].peers == map[]
    requires |all| == |hosts| && forall k :: 0 <= k < |hosts| ==> all[k] == map[]
    ensures HaveLinks(hosts, all) && AllDone(Ids(hosts), all, 0, 1)
  {
  }

  /** 0 + 1 + ... + (n - 1). */
  ghost function Triangle(n: nat): nat {
    if n == 0 then 0 else Triangle(n - 1) + n - 1
  }

  lemma {:induction false} TriangleNumber(n: nat)
    ensures 2 * Triangle(n) == n * (n - 1)
  {
    if n == 0 {
    } else {
      TriangleNumber(n - 1);
    }
  }

  lemma MeshIsFull(hosts: seq<MeshHost>, all: seq<map<string, Link>>)
    requires HaveLinks(hosts, all) && AllDone(Ids(hosts), all, |hosts|, |hosts| + 1)
    ensures forall k :: 0 <= k < |hosts| ==> FullyMeshed(Ids(hosts), k, Links(hosts[k]))
  {
    hide FullyMeshed, Links, HostDone;
    forall k | 0 <= k < |hosts|
      ensures FullyMeshed(Ids(hosts), k, Links(hosts[k]))
    {
      assert HostDone(Ids(hosts), k, all[k], |hosts|, |hosts| + 1);
      MeshEnds(Ids(hosts), k, all[k]);
    }
  }

  /** The inner loop: one host and every later one. */
  method ConnectRow(hosts: seq<MeshHost>, i: nat, ghost before: seq<map<string, Link>>)
    returns (pairings: nat, ghost all: seq<map<string, Link>>)
    requires Distinct(Ids(hosts)) && i < |hosts|
    requires |before| == |hosts| && HaveLinks(hosts, before) && AllDone(Ids(hosts), before, i, i + 1)
    modifies set k | 0 <= k < |hosts| :: hosts[k]
    ensures pairings == |hosts| - i - 1
    ensures |all| == |hosts| && HaveLinks(hosts, all) && AllDone(Ids(hosts), all, i + 1, i + 2)
  {
    hide *;
    ghost var ids := Ids(hosts);
    pairings, all := 0, before;
    for j := i + 1 to |hosts|
      invariant pairings == j - i - 1 && |all| == |ids|
      invariant HaveLinks(hosts, all) && AllDone(ids, all, i, j)
    {
      PairingIsProgress(ids, all, i, j);
      ConnectNext(hosts, i, j, all);
      all := Paired(ids, all, i, j);
      pairings := pairings + 1;
    }
    RowEnds(ids, all, i);
  }

  /** From hosts with distinct ids and no connections, for any number of hosts: every pair is connected
      once, each host ends with a connection to each other host and to no one else, and every
      connection is either offerer or answerer, never both. */
  method ConnectAll(hosts: seq<MeshHost>) returns (pairings: nat)
    requires Distinct(Ids(hosts))
    requires forall i :: 0 <= i < |hosts| ==> hosts[i].peers == map[]
    modifies set i | 0 <= i < |hosts| :: hosts[i]
    ensures 2 * pairings == |hosts| * (|hosts| - 1)
    ensures forall k :: 0 <= k < |hosts| ==> FullyMeshed(Ids(hosts), k, Links(hosts[k]))
  {
    hide AllDone, HaveLinks, Distinct, Ids, FullyMeshed, Links;
    pairings := 0;
    var n := |hosts|;
    ghost var all := seq(n, (i: nat) => map[]);
    MeshStarts(hosts, all);
    for i := 0 to n
      invariant pairings == Triangle(n) - Triangle(n - i)
      invariant |all| == n && HaveLinks(hosts, all) && AllDone(Ids(hosts), all, i, i + 1)
    {
      var row;
      row, all := ConnectRow(hosts, i, all);
      pairings := pairings + row;
    }
    TriangleNumber(n);
    MeshIsFull(hosts, all);
  }

  /** Connections are told apart by who holds them and whom they reach, so in a full mesh all of them
      are distinct objects. */
  lemma ConnectionsAreDistinct(hosts: seq<MeshHost>, k: nat, l: nat, k': nat, l': nat)
    requires Distinct(Ids(hosts)) && k < |hosts| && l < |hosts| && k' < |hosts| && l' < |hosts|
    requires FullyMeshed(Ids(hosts), k, Links(hosts[k])) && FullyMeshed(Ids(hosts), k', Links(hosts[k']))
    requires k != l && k' != l' && (k, l) != (k', l')
    ensures Ids(hosts)[l] in hosts[k].peers && Ids(hosts)[l'] in hosts[k'].peers
    ensures hosts[k].peers[Ids(hosts)[l]] != hosts[k'].peers[Ids(hosts)[l']]
  {
    assert Ids(hosts)[l] in Links(hosts[k]) && Ids(hosts)[l'] in Links(hosts[k']);
  }
}
