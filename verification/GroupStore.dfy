/** The ActivityPub group shim (inbox and outbox of sections 5.1 and 5.2 of the W3C ActivityPub
    Recommendation): what POSTs leave in the store and what GETs read back. */
module GroupStore {
  import opened Text
  import opened Numerals
  import opened Wrappers

  /** A received activity; `id` is "" when it is missing, empty or not a string. */
  datatype Activity = Activity(id: string, kind: string, content: string)

  datatype Body = BadJson | Falsy | Doc(activity: Activity)

  datatype Request = Request(verb: string, path: string, body: Body)

  datatype Response =
    | Health(groups: nat)
    | Summary(sizes: map<string, (nat, nat)>)
    | Accepted
    | Outbox(items: seq<Activity>)
    | Followers
    | Found(activity: Activity)
    | Actor(nid: string)
    | Failure(status: nat, message: string)

  datatype Group = Group(activityById: map<string, Activity>, order: seq<string>, byDiffId: map<string, Activity>)

  type Groups = map<string, Group>

  const EMPTY := Group(map[], [], map[])
  const PREFIX := "/ap/v1/groups/"

  // ------------------------------------------------------- urls

  /** The part of an activity id behind a final "/diffs/". */
  function DiffIdOf(id: string): Option<string> {
    var parts := Split(id, "/");
    var n := |parts|;
    if n >= 3 && parts[n - 2] == "diffs" && parts[n - 1] != "" then Some(parts[n - 1]) else None
  }

  function ActorUrl(origin: string, nid: string): string {
    origin + PREFIX + nid
  }

  function Segments(path: string): seq<string>
    requires StartsWith(path, PREFIX)
  {
    NonEmpty(Split(path[|PREFIX|..], "/"))
  }

  // ------------------------------------------------------- one group

  function Anon(n: nat): string {
    "__anon-" + Decimal(n)
  }

  /** The key under which an activity is filed. */
  function KeyOf(g: Group, activity: Activity): string {
    if activity.id != "" then activity.id else Anon(|g.order|)
  }

  function Reflected(g: Group, activity: Activity): Group {
    var id := KeyOf(g, activity);
    if id in g.activityById then g
    else
      var byDiffId := match DiffIdOf(activity.id)
        case None => g.byDiffId
        case Some(d) => g.byDiffId[d := activity];
      Group(g.activityById[id := activity], g.order + [id], byDiffId)
  }

  function GroupFor(groups: Groups, nid: string): Group {
    if nid in groups then groups[nid] else EMPTY
  }

  /** What the outbox serves: the stored activities in insertion order. */
  function Items(g: Group): seq<Activity> {
    seq(|g.order|, i requires 0 <= i < |g.order| =>
      if g.order[i] in g.activityById then g.activityById[g.order[i]] else Activity("", "", ""))
  }

  // ------------------------------------------------------- requests

  /** The group an accepted activity is filed in, if the request carries one. */
  function Delivery(req: Request): Option<(string, Activity)> {
    if req.path == "/" || req.path == "/health" || req.path == "/debug/groups" then None
    else if !StartsWith(req.path, PREFIX) then None
    else
      var segments := Segments(req.path);
      if |segments| >= 2 && segments[1] == "inbox" && req.verb == "POST" && req.body.Doc?
         && req.body.activity.kind != "Follow" && req.body.activity.kind != "Undo"
      then Some((segments[0], req.body.activity))
      else None
  }

  function Respond(groups: Groups, req: Request): Response {
    if req.path == "/" || req.path == "/health" then Health(|groups|)
    else if req.path == "/debug/groups" then
      Summary(map nid | nid in groups :: (|groups[nid].order|, |groups[nid].byDiffId|))
    else if !StartsWith(req.path, PREFIX) then Failure(404, "not found")
    else
      var segments := Segments(req.path);
      if |segments| == 0 then Failure(404, "no group id")
      else
        var nid := segments[0];
        var sub := if |segments| > 1 then segments[1] else "";
        if sub == "inbox" && req.verb == "POST" then
          if req.body == BadJson then Failure(400, "bad json") else Accepted
        else if req.verb != "GET" then Failure(405, "method not allowed")
        else if sub == "outbox" then Outbox(Items(GroupFor(groups, nid)))
        else if sub == "followers" then Followers
        else if sub == "diffs" && |segments| > 2 then
          var g := GroupFor(groups, nid);
          if segments[2] in g.byDiffId then Found(g.byDiffId[segments[2]]) else Failure(404, "unknown diff")
        else if sub == "" then Actor(nid)
        else Failure(404, "not found")
  }

  /** What a request does to the group `nid`. */
  function After(g: Group, nid: string, req: Request): Group {
    match Delivery(req)
    case Some((to, activity)) => if to == nid then Reflected(g, activity) else g
    case None => g
  }

  /** The group a request names so that it comes into being: by a delivery, or by asking for the outbox or
      for a diff. */
  function Touches(req: Request): Option<string> {
    if Delivery(req).Some? then Some(Delivery(req).value.0)
    else if req.verb != "GET" || req.path == "/" || req.path == "/health" || req.path == "/debug/groups" then None
    else if !StartsWith(req.path, PREFIX) then None
    else
      var segments := Segments(req.path);
      if |segments| >= 2 && (segments[1] == "outbox" || (segments[1] == "diffs" && |segments| > 2))
      then Some(segments[0])
      else None
  }

  /** What a request does to the whole store. */
  function Handled(groups: Groups, req: Request): Groups {
    match Touches(req)
    case Some(nid) => groups[nid := After(GroupFor(groups, nid), nid, req)]
    case None => groups
  }

  class GroupShim {
    var groups: Groups

    constructor ()
      ensures groups == map[]
    {
      groups := map[];
    }

    /** Creates the group on first use. */
    method Touch(nid: string) returns (g: Group)
      modifies this
      ensures g == GroupFor(old(groups), nid) && groups == old(groups)[nid := g]
    {
      if nid !in groups {
        groups := groups[nid := EMPTY];
      }
      g := groups[nid];
    }

    method Reflect(nid: string, activity: Activity)
      modifies this
      ensures groups == old(groups)[nid := Reflected(GroupFor(old(groups), nid), activity)]
    {
      var g := Touch(nid);
      var id := if activity.id != "" then activity.id else Anon(|g.order|);
      if id in g.activityById {
        return;
      }
      var byDiffId := g.byDiffId;
      var diffId := DiffIdOf(activity.id);
      if diffId.Some? {
        byDiffId := byDiffId[diffId.value := activity];
      }
      groups := groups[nid := Group(g.activityById[id := activity], g.order + [id], byDiffId)];
    }

    /** One HTTP exchange: the answer, and what it does to the store. */
    method Handle(req: Request) returns (res: Response)
      modifies this
      ensures res == Respond(old(groups), req)
      ensures groups == Handled(old(groups), req)
      ensures forall nid :: GroupFor(groups, nid) == After(GroupFor(old(groups), nid), nid, req)
    {
      if req.path == "/" || req.path == "/health" {
        return Health(|groups|);
      }
      if req.path == "/debug/groups" {
        return Summary(map nid | nid in groups :: (|groups[nid].order|, |groups[nid].byDiffId|));
      }
      if !StartsWith(req.path, PREFIX) {
        return Failure(404, "not found");
      }
      var segments := Segments(req.path);
      if |segments| == 0 {
        return Failure(404, "no group id");
      }
      hide Segments, Items, Reflected, Split;
      var nid := segments[0];
      var sub := if |segments| > 1 then segments[1] else "";
      if sub == "inbox" && req.verb == "POST" {
        if req.body == BadJson {
          return Failure(400, "bad json");
        }
        if req.body.Doc? && req.body.activity.kind != "Follow" && req.body.activity.kind != "Undo" {
          Reflect(nid, req.body.activity);
        }
        return Accepted;
      }
      if req.verb != "GET" {
        return Failure(405, "method not allowed");
      }
      if sub == "outbox" {
        var g := Touch(nid);
        return Outbox(Items(g));
      }
      if sub == "followers" {
        return Followers;
      }
      if sub == "diffs" && |segments| > 2 {
        var g := Touch(nid);
        if segments[2] !in g.byDiffId {
          return Failure(404, "unknown diff");
        }
        return Found(g.byDiffId[segments[2]]);
      }
      if sub == "" {
        return Actor(nid);
      }
      res := Failure(404, "not found");
    }
  }

  /** The content of group `nid` after a history of requests. */
  function Run(requests: seq<Request>, nid: string): Group {
    if |requests| == 0 then EMPTY
    else
      var last := |requests| - 1;
      After(Run(requests[..last], nid), nid, requests[last])
  }

  /** The whole store after a history of requests. */
  function Store(requests: seq<Request>): Groups {
    if |requests| == 0 then map[]
    else Handled(Store(requests[..|requests| - 1]), requests[|requests| - 1])
  }

  function Touched(requests: seq<Request>): set<string> {
    set i | 0 <= i < |requests| && Touches(requests[i]).Some? :: Touches(requests[i]).value
  }

  /** The groups that exist are those some request has touched, each with the content of its own history. */
  lemma {:induction false} StoreIsTouched(requests: seq<Request>, nid: string)
    ensures Store(requests).Keys == Touched(requests)
    ensures GroupFor(Store(requests), nid) == Run(requests, nid)
  {
    hide Delivery, Touches, Reflected;
    if |requests| == 0 {
      assert Store(requests).Keys == {};
    } else {
      var last := |requests| - 1;
      var init := requests[..last];
      StoreIsTouched(init, nid);
      TouchedGrows(requests);
      HandledOne(Store(init), requests[last], nid);
    }
  }

  lemma TouchedGrows(requests: seq<Request>)
    requires |requests| > 0
    ensures var last := |requests| - 1;
      Touched(requests) == Touched(requests[..last]) + match Touches(requests[last]) case Some(n) => {n} case None => {}
  {
    hide Touches;
    var last := |requests| - 1;
    forall n
      ensures n in Touched(requests) <==> n in Touched(requests[..last]) || Touches(requests[last]) == Some(n)
    {
      if i :| 0 <= i < last && Touches(requests[i]) == Some(n) {
        assert requests[..last][i] == requests[i];
      }
      if i :| 0 <= i < last && Touches(requests[..last][i]) == Some(n) {
        assert requests[..last][i] == requests[i];
      }
    }
  }

  lemma HandledOne(groups: Groups, req: Request, nid: string)
    ensures GroupFor(Handled(groups, req), nid) == After(GroupFor(groups, nid), nid, req)
  {
    hide Reflected, Segments;
  }

  /** The health check reports the number of different groups touched so far. */
  lemma HealthCountsGroups(requests: seq<Request>, req: Request)
    requires req.path == "/" || req.path == "/health"
    ensures Respond(Store(requests), req) == Health(|Touched(requests)|)
  {
    hide Store, Touched, Segments;
    StoreIsTouched(requests, "");
    assert |Store(requests)| == |Store(requests).Keys|;
  }

  // ------------------------------------------------------- the three indexes

  /** The latest of the activities filed under a diff id. */
  function Latest(items: seq<Activity>, d: string): Option<Activity> {
    if |items| == 0 then None
    else
      var last := items[|items| - 1];
      if DiffIdOf(last.id) == Some(d) then Some(last) else Latest(items[..|items| - 1], d)
  }

  /** The order lists each stored key once. */
  ghost predicate Listed(g: Group) {
    && (forall i, j :: 0 <= i < j < |g.order| ==> g.order[i] != g.order[j])
    && (forall k :: k in g.order <==> k in g.activityById)
  }

  /** A key is the explicit id, or else the position at which the activity came. */
  ghost predicate Named(g: Group) {
    forall i :: 0 <= i < |g.order| ==>
      g.order[i] == if Items(g)[i].id != "" then Items(g)[i].id else Anon(i)
  }

  ghost predicate Indexed(g: Group) {
    forall d :: Latest(Items(g), d) == if d in g.byDiffId then Some(g.byDiffId[d]) else None
  }

  ghost predicate Consistent(g: Group) {
    Listed(g) && Named(g) && Indexed(g)
  }

  lemma ItemsGrow(g: Group, activity: Activity)
    requires forall k :: k in g.order <==> k in g.activityById
    requires KeyOf(g, activity) !in g.activityById
    ensures Items(Reflected(g, activity)) == Items(g) + [activity]
  {
    hide DiffIdOf, KeyOf;
    var g' := Reflected(g, activity);
    forall i | 0 <= i < |g.order|
      ensures Items(g')[i] == Items(g)[i]
    {
      assert g.order[i] in g.order;
    }
  }

  lemma ReflectKeepsListed(g: Group, activity: Activity)
    requires Listed(g)
    ensures Listed(Reflected(g, activity))
  {
    hide DiffIdOf, KeyOf;
    assert forall k :: k in g.order + [KeyOf(g, activity)] <==> k in g.order || k == KeyOf(g, activity);
  }

  lemma ReflectKeepsIndexed(g: Group, activity: Activity)
    requires Listed(g) && Indexed(g)
    ensures Indexed(Reflected(g, activity))
  {
    hide DiffIdOf, KeyOf;
    if KeyOf(g, activity) !in g.activityById {
      var g' := Reflected(g, activity);
      ItemsGrow(g, activity);
      hide Items;
      var items := Items(g');
      assert items[..|items| - 1] == Items(g);
    }
  }

  lemma ReflectKeepsConsistent(g: Group, activity: Activity)
    requires Consistent(g)
    ensures Consistent(Reflected(g, activity))
  {
    hide DiffIdOf, Listed, Indexed, Named, Reflected;
    ReflectKeepsListed(g, activity);
    ReflectKeepsIndexed(g, activity);
    ListedKeys(g);
    ReflectKeepsNamed(g, activity);
  }

  lemma ReflectKeepsNamed(g: Group, activity: Activity)
    requires Named(g) && forall k :: k in g.order <==> k in g.activityById
    ensures Named(Reflected(g, activity))
  {
    hide DiffIdOf;
    if KeyOf(g, activity) !in g.activityById {
      ItemsGrow(g, activity);
      hide Items, Anon;
    }
  }

  lemma ListedKeys(g: Group)
    requires Listed(g)
    ensures forall k :: k in g.order <==> k in g.activityById
  {
  }

  /** In every reachable store the order has no duplicates and lists exactly the stored keys, and the
      diff index holds the latest accepted activity of each diff id, and nothing else. */
  lemma {:induction false} ReachableIsConsistent(requests: seq<Request>, nid: string)
    ensures Consistent(Run(requests, nid))
  {
    hide Delivery, Consistent;
    if |requests| == 0 {
      EmptyIsConsistent();
    } else {
      var last := |requests| - 1;
      ReachableIsConsistent(requests[..last], nid);
      var delivery := Delivery(requests[last]);
      if delivery.Some? {
        ReflectKeepsConsistent(Run(requests[..last], nid), delivery.value.1);
      }
    }
  }

  lemma EmptyIsConsistent()
    ensures Consistent(EMPTY)
  {
    assert Items(EMPTY) == [];
  }

  // ------------------------------------------------------- the outbox

  /** A delivery is new to its group when its key is not yet taken. */
  predicate IsNew(g: Group, activity: Activity) {
    KeyOf(g, activity) !in g.activityById
  }

  /** One request appends exactly one item, the delivered activity, when it delivers a new activity to
      this group; every other request (Follow, Undo, re-delivery, any GET, any error, any other group)
      changes nothing. */
  lemma OutboxStep(g: Group, nid: string, req: Request)
    requires Consistent(g)
    ensures match Delivery(req)
      case Some((to, activity)) =>
        if to == nid && IsNew(g, activity) then Items(After(g, nid, req)) == Items(g) + [activity]
        else After(g, nid, req) == g
      case None => After(g, nid, req) == g
  {
    hide Delivery, DiffIdOf;
    match Delivery(req)
    case Some((to, activity)) =>
      if to == nid && IsNew(g, activity) {
        ItemsGrow(g, activity);
      }
    case None =>
  }

  /** Whatever was once served stays, in place: an earlier outbox is a prefix of every later one. */
  lemma {:induction false} OutboxOnlyGrows(requests: seq<Request>, k: nat, nid: string)
    requires k <= |requests|
    ensures Items(Run(requests[..k], nid)) <= Items(Run(requests, nid))
    decreases |requests|
  {
    hide Delivery, Consistent, IsNew, Items, After;
    if k == |requests| {
      assert requests[..k] == requests;
    } else {
      var last := |requests| - 1;
      OutboxOnlyGrows(requests[..last], k, nid);
      assert requests[..last][..k] == requests[..k];
      ReachableIsConsistent(requests[..last], nid);
      OutboxStep(Run(requests[..last], nid), nid, requests[last]);
    }
  }

  /** Sending the same activity again is a no-op, whatever happened in between. */
  lemma {:induction false} RedeliveryIsIgnored(requests: seq<Request>, k: nat, nid: string, activity: Activity)
    requires k < |requests| && Delivery(requests[k]) == Some((nid, activity)) && activity.id != ""
    ensures !IsNew(Run(requests, nid), activity)
    decreases |requests|
  {
    hide Delivery, DiffIdOf;
    var last := |requests| - 1;
    if k == last {
    } else {
      RedeliveryIsIgnored(requests[..last], k, nid, activity);
    }
  }

  // ------------------------------------------------------- anonymous activities

  /** An activity without id is dropped exactly when an earlier activity carried, as its explicit id,
      the very name the shim would give it. */
  lemma AnonymousIsDroppedIff(g: Group, activity: Activity)
    requires Consistent(g) && activity.id == ""
    ensures !IsNew(g, activity) <==> exists i :: 0 <= i < |Items(g)| && Items(g)[i].id == Anon(|g.order|)
  {
    hide DiffIdOf, Latest;
    var name := Anon(|g.order|);
    if name in g.activityById {
      var i :| 0 <= i < |g.order| && g.order[i] == name;
      if Items(g)[i].id == "" {
        AnonIsInjective(i, |g.order|);
      }
    }
    if i :| 0 <= i < |Items(g)| && Items(g)[i].id == name {
      AnonIsNonEmpty(|g.order|);
      assert g.order[i] == name;
    }
  }

  lemma AnonIsInjective(m: nat, n: nat)
    requires Anon(m) == Anon(n)
    ensures m == n
  {
    assert Anon(m)[|"__anon-"|..] == Decimal(m) && Anon(n)[|"__anon-"|..] == Decimal(n);
    DecimalIsInjective(m, n);
  }

  lemma AnonIsNonEmpty(n: nat)
    ensures Anon(n) != "" && StartsWith(Anon(n), "__anon-")
  {
  }

  /** As long as no explicit id starts with the reserved prefix, every anonymous activity is kept. */
  lemma AnonymousIsKept(g: Group, activity: Activity)
    requires Consistent(g) && activity.id == ""
    requires forall i :: 0 <= i < |Items(g)| ==> !StartsWith(Items(g)[i].id, "__anon-")
    ensures IsNew(g, activity)
  {
    hide Consistent, IsNew, Items;
    AnonymousIsDroppedIff(g, activity);
    AnonIsNonEmpty(|g.order|);
  }

  /** It can happen: an explicit "__anon-1" makes the second activity, sent without id, disappear. */
  lemma AnonymousCanBeDropped(named: Activity, anonymous: Activity)
    requires named.id == "__anon-1" && anonymous.id == ""
    ensures !IsNew(Reflected(EMPTY, named), anonymous)
  {
    hide DiffIdOf;
    assert Decimal(1) == "1";
    assert Anon(1) == "__anon-1";
  }

  // ------------------------------------------------------- round trip

  lemma NonEmptyStep(a: seq<string>, b: seq<string>)
    requires |a| > 0
    ensures var first: seq<string> := if a[0] == "" then [] else [a[0]];
      NonEmpty(a + b) == first + NonEmpty(a[1..] + b) && NonEmpty(a) == first + NonEmpty(a[1..])
  {
    assert (a + b)[1..] == a[1..] + b;
  }

  lemma {:induction false} NonEmptyConcat(a: seq<string>, b: seq<string>)
    ensures NonEmpty(a + b) == NonEmpty(a) + NonEmpty(b)
  {
    if |a| == 0 {
      assert a + b == b;
    } else {
      NonEmptyConcat(a[1..], b);
      NonEmptyStep(a, b);
      hide NonEmpty;
      var first: seq<string> := if a[0] == "" then [] else [a[0]];
      assert first + (NonEmpty(a[1..]) + NonEmpty(b)) == (first + NonEmpty(a[1..])) + NonEmpty(b);
    }
  }

  /** A name that can stand as one path segment. */
  predicate IsSegment(s: string) {
    s != "" && '/' !in s
  }

  lemma SplitSegment(s: string)
    requires IsSegment(s)
    ensures Split(s, "/") == [s]
  {
    ClosesWithout(s, "/");
  }

  lemma SplitPath(a: string, b: string, c: string)
    requires IsSegment(b) && IsSegment(c)
    ensures Split(a + "/" + b + "/" + c, "/") == Split(a, "/") + [b, c]
  {
    SplitConcat(a + "/" + b, c, "/");
    SplitConcat(a, b, "/");
    SplitSegment(b);
    SplitSegment(c);
    hide Split;
    assert Split(a, "/") + [b] + [c] == Split(a, "/") + [b, c];
  }

  function DiffUrl(origin: string, nid: string, d: string): string {
    ActorUrl(origin, nid) + "/diffs/" + d
  }

  /** The path of a url under `origin`. */
  function PathOf(origin: string, url: string): string
    requires origin <= url
  {
    url[|origin|..]
  }

  /** Parsing undoes printing: the path of a diff url splits back into its group and diff id, and the
      url's own diff id is found in it. */
  lemma DiffUrlRoundTrip(origin: string, nid: string, d: string)
    requires IsSegment(nid) && IsSegment(d)
    ensures var url := DiffUrl(origin, nid, d);
      && DiffIdOf(url) == Some(d)
      && origin <= url && StartsWith(PathOf(origin, url), PREFIX)
      && Segments(PathOf(origin, url)) == [nid, "diffs", d]
  {
    var actor, tail := ActorUrl(origin, nid), nid + "/" + "diffs" + "/" + d;
    var url := DiffUrl(origin, nid, d);
    assert url == actor + "/" + "diffs" + "/" + d;
    assert url == origin + (PREFIX + tail);
    assert PathOf(origin, url) == PREFIX + tail;
    assert PathOf(origin, url)[|PREFIX|..] == tail;
    hide PathOf, DiffUrl, ActorUrl;
    DiffIdAtEnd(actor, d);
    SegmentsOfTail(nid, d);
  }

  lemma DiffIdAtEnd(actor: string, d: string)
    requires IsSegment(d)
    ensures DiffIdOf(actor + "/" + "diffs" + "/" + d) == Some(d)
  {
    assert IsSegment("diffs");
    SplitPath(actor, "diffs", d);
    hide Split;
  }

  /** An activity id names a diff exactly if it ends in "/diffs/" and one more segment, the diff id. */
  lemma DiffIdIff(id: string, d: string)
    ensures DiffIdOf(id) == Some(d) <==> IsSegment(d) && exists actor: string :: id == actor + "/diffs/" + d
  {
    hide DiffIdOf, IsSegment;
    if DiffIdOf(id) == Some(d) {
      var actor := CutDiffId(id, d);
    }
    if actor: string :| id == actor + "/diffs/" + d && IsSegment(d) {
      assert id == actor + "/" + "diffs" + "/" + d;
      DiffIdAtEnd(actor, d);
    }
  }

  lemma CutDiffId(id: string, d: string) returns (actor: string)
    requires DiffIdOf(id) == Some(d)
    ensures id == actor + "/diffs/" + d && IsSegment(d)
  {
    hide Split, Join;
    var parts := Split(id, "/");
    var n := |parts|;
    PartsAreCut(id, "/");
    NotContained(d, "/");
    JoinSplit(id, "/");
    actor := Join(parts[..n - 2], "/");
    JoinConcat(parts[..n - 2], ["diffs", d], "/");
    assert parts[..n - 2] + ["diffs", d] == parts;
    JoinPair("diffs", d, "/");
    assert actor + "/" + ("diffs" + "/" + d) == actor + "/diffs/" + d;
  }

  lemma SegmentsOfTail(nid: string, d: string)
    requires IsSegment(nid) && IsSegment(d)
    ensures NonEmpty(Split(nid + "/" + "diffs" + "/" + d, "/")) == [nid, "diffs", d]
  {
    assert IsSegment("diffs");
    SplitPath(nid, "diffs", d);
    SplitSegment(nid);
    hide Split;
    assert [nid] + ["diffs", d] == [nid, "diffs", d];
    AllNonEmpty([nid, "diffs", d]);
  }

  lemma {:induction false} AllNonEmpty(parts: seq<string>)
    requires forall i :: 0 <= i < |parts| ==> parts[i] != ""
    ensures NonEmpty(parts) == parts
  {
    if |parts| == 0 {
    } else {
      AllNonEmpty(parts[1..]);
    }
  }

  /** After any history, fetching a diff url returns the latest accepted activity with that diff id,
      and 404 exactly when there is none. */
  lemma FetchReturnsLatest(groups: Groups, requests: seq<Request>, origin: string, nid: string, d: string)
    requires IsSegment(nid) && IsSegment(d) && GroupFor(groups, nid) == Run(requests, nid)
    ensures var url := DiffUrl(origin, nid, d);
      origin <= url && Respond(groups, Request("GET", PathOf(origin, url), Falsy))
        == match Latest(Kept(requests, nid), d)
           case Some(activity) => Found(activity)
           case None => Failure(404, "unknown diff")
  {
    DiffUrlRoundTrip(origin, nid, d);
    ReachableIsConsistent(requests, nid);
    ItemsAreKept(requests, nid);
    hide Segments, Split, Run, DiffIdOf, Kept;
    assert "diffs" != "inbox" && "diffs" != "outbox" && "diffs" != "followers" && "diffs" != "";
  }

  /** The request that sends an activity to the inbox named in the group's actor document. */
  function InboxPost(nid: string, activity: Activity): Request {
    Request("POST", PREFIX + nid + "/inbox", Doc(activity))
  }

  /** The inbox url is routed to its own group. */
  lemma InboxDelivers(nid: string, activity: Activity)
    requires IsSegment(nid) && activity.kind != "Follow" && activity.kind != "Undo"
    ensures Delivery(InboxPost(nid, activity)) == Some((nid, activity))
  {
    hide NonEmpty, Split;
    var path, tail := PREFIX + nid + "/inbox", nid + "/" + "inbox";
    assert path == PREFIX + tail && path[|PREFIX|..] == tail;
    SubSegments(nid, "inbox");
    assert Segments(path) == [nid, "inbox"];
    hide Segments;
    assert path[1] == 'a';
    assert "/health"[1] == 'h' && "/debug/groups"[1] == 'd' && |"/"| == 1;
  }

  // ------------------------------------------------------- the answers, from the requests alone

  /** The request posts content, and not a Follow or an Undo, to the group's inbox. */
  ghost predicate Files(req: Request, nid: string) {
    && req.verb == "POST"
    && req.body.Doc? && req.body.activity.kind != "Follow" && req.body.activity.kind != "Undo"
    && "/ap/v1/groups/" <= req.path
    && [nid, "inbox"] <= NonEmpty(Split(req.path[|"/ap/v1/groups/"|..], "/"))
  }

  lemma DeliveryIff(req: Request, nid: string, activity: Activity)
    ensures Delivery(req) == Some((nid, activity)) <==> Files(req, nid) && req.body.activity == activity
  {
    hide NonEmpty, Split;
    if PREFIX <= req.path {
      assert req.path[1] == 'a';
      assert "/health"[1] == 'h' && "/debug/groups"[1] == 'd' && |"/"| == 1;
    }
  }

  /** The name an activity goes by: its id, or else one made of the place it takes. */
  function NameAt(items: seq<Activity>, i: nat): string
    requires i < |items|
  {
    if items[i].id != "" then items[i].id else "__anon-" + Decimal(i)
  }

  /** Some earlier activity goes by the name the next one would have. */
  ghost predicate Repeats(items: seq<Activity>, activity: Activity) {
    exists i :: 0 <= i < |items| && NameAt(items, i) == NameAt(items + [activity], |items|)
  }

  /** What was posted to the group, in order, without what repeats a name. */
  ghost function Kept(requests: seq<Request>, nid: string): seq<Activity> {
    if |requests| == 0 then []
    else
      var before, req := Kept(requests[..|requests| - 1], nid), requests[|requests| - 1];
      if Files(req, nid) && !Repeats(before, req.body.activity) then before + [req.body.activity] else before
  }

  lemma NewIff(g: Group, activity: Activity)
    requires Listed(g) && Named(g)
    ensures IsNew(g, activity) <==> !Repeats(Items(g), activity)
  {
    hide Items;
    var items, key := Items(g), KeyOf(g, activity);
    ItemsLength(g);
    assert key == NameAt(items + [activity], |items|);
    forall i | 0 <= i < |items|
      ensures g.order[i] == NameAt(items, i)
    {
    }
    hide KeyOf, NameAt, Named;
    if key in g.order {
      var i :| 0 <= i < |g.order| && g.order[i] == key;
      assert NameAt(items, i) == key;
    }
  }

  lemma ItemsLength(g: Group)
    ensures |Items(g)| == |g.order|
  {
  }

  /** After any history the group holds exactly that. */
  lemma {:induction false} ItemsAreKept(requests: seq<Request>, nid: string)
    ensures Items(Run(requests, nid)) == Kept(requests, nid)
  {
    hide Files, Delivery, DiffIdOf, Repeats, IsNew, After, Consistent;
    if |requests| == 0 {
      assert Items(EMPTY) == [];
    } else {
      var last := |requests| - 1;
      var init, req := requests[..last], requests[last];
      var g := Run(init, nid);
      ItemsAreKept(init, nid);
      ReachableIsConsistent(init, nid);
      OutboxStep(g, nid, req);
      hide Items, Reflected;
      if req.body.Doc? {
        DeliveryIff(req, nid, req.body.activity);
        ConsistentParts(g);
        NewIff(g, req.body.activity);
      }
      ToOneGroup(req, nid);
    }
  }

  lemma ConsistentParts(g: Group)
    requires Consistent(g)
    ensures Listed(g) && Named(g)
  {
  }

  lemma ToOneGroup(req: Request, nid: string)
    ensures match Delivery(req)
      case Some((to, activity)) => req.body == Doc(activity) && (to == nid <==> Files(req, nid))
      case None => !Files(req, nid)
  {
    hide Files;
    match Delivery(req)
    case Some((to, activity)) => DeliveryIff(req, nid, activity);
    case None =>
      if req.body.Doc? {
        DeliveryIff(req, nid, req.body.activity);
      } else {
        NothingToFile(req, nid);
      }
  }

  lemma NothingToFile(req: Request, nid: string)
    requires !req.body.Doc?
    ensures !Files(req, nid)
  {
  }

  lemma SubSegments(nid: string, sub: string)
    requires IsSegment(nid) && IsSegment(sub)
    ensures NonEmpty(Split(nid + "/" + sub, "/")) == [nid, sub]
  {
    SplitConcat(nid, sub, "/");
    SplitSegment(nid);
    SplitSegment(sub);
    hide Split;
    assert [nid] + [sub] == [nid, sub];
    AllNonEmpty([nid, sub]);
  }

  /** The path of one of a group's collections. */
  lemma SubPath(nid: string, sub: string)
    requires IsSegment(nid) && IsSegment(sub)
    ensures var path := "/ap/v1/groups/" + nid + "/" + sub;
      && StartsWith(path, PREFIX) && Segments(path) == [nid, sub]
      && path != "/" && path != "/health" && path != "/debug/groups"
  {
    hide NonEmpty, Split;
    var path, tail := "/ap/v1/groups/" + nid + "/" + sub, nid + "/" + sub;
    assert path == PREFIX + tail && path[|PREFIX|..] == tail;
    SubSegments(nid, sub);
    assert path[1] == 'a';
    assert "/health"[1] == 'h' && "/debug/groups"[1] == 'd' && |"/"| == 1;
  }

  /** What an outbox serves after any history: everything that was posted to the group, in order, without what
      repeats a name. */
  lemma OutboxIsServed(groups: Groups, requests: seq<Request>, nid: string, body: Body)
    requires IsSegment(nid) && GroupFor(groups, nid) == Run(requests, nid)
    ensures Respond(groups, Request("GET", "/ap/v1/groups/" + nid + "/outbox", body)) == Outbox(Kept(requests, nid))
  {
    hide Segments, Items, Kept, Run;
    SubPath(nid, "outbox");
    assert "/ap/v1/groups/" + nid + "/outbox" == "/ap/v1/groups/" + nid + "/" + "outbox";
    ItemsAreKept(requests, nid);
  }

  /** All other answers below a group, and which requests bring a group into being. */
  lemma SubRoutes(groups: Groups, nid: string, sub: string, verb: string, body: Body)
    requires IsSegment(nid) && IsSegment(sub)
    ensures var req := Request(verb, "/ap/v1/groups/" + nid + "/" + sub, body);
      var res, posted := Respond(groups, req), verb == "POST" && sub == "inbox";
      && (posted ==> res == if body == BadJson then Failure(400, "bad json") else Accepted)
      && (verb != "GET" && !posted ==> res == Failure(405, "method not allowed"))
      && (verb == "GET" && sub == "followers" ==> res == Followers)
      && (verb == "GET" && sub != "outbox" && sub != "followers" ==> res == Failure(404, "not found"))
      && (Touches(req) == Some(nid) <==> (verb == "GET" && sub == "outbox") || Files(req, nid))
      && (Touches(req) == None || Touches(req) == Some(nid))
  {
    SubPath(nid, sub);
    hide Segments, Items;
    var req := Request(verb, "/ap/v1/groups/" + nid + "/" + sub, body);
    ToOneGroup(req, nid);
    hide Files;
  }

  lemma DiffTouches(nid: string, d: string, verb: string, body: Body)
    requires IsSegment(nid) && IsSegment(d)
    ensures Touches(Request(verb, "/ap/v1/groups/" + nid + "/diffs/" + d, body))
         == if verb == "GET" then Some(nid) else None
  {
    var path := "/ap/v1/groups/" + nid + "/diffs/" + d;
    DiffUrlRoundTrip("", nid, d);
    assert DiffUrl("", nid, d) == path && PathOf("", path) == path;
    assert path[1] == 'a';
    assert "/health"[1] == 'h' && "/debug/groups"[1] == 'd' && |"/"| == 1;
    hide Segments;
  }

  /** The group itself. */
  lemma GroupRoute(groups: Groups, nid: string, verb: string, body: Body)
    requires IsSegment(nid)
    ensures Respond(groups, Request(verb, "/ap/v1/groups/" + nid, body))
         == if verb == "GET" then Actor(nid) else Failure(405, "method not allowed")
    ensures Touches(Request(verb, "/ap/v1/groups/" + nid, body)) == None
  {
    var path := "/ap/v1/groups/" + nid;
    assert path[|PREFIX|..] == nid;
    SplitSegment(nid);
    AllNonEmpty([nid]);
    assert path[1] == 'a';
    assert "/health"[1] == 'h' && "/debug/groups"[1] == 'd' && |"/"| == 1;
    assert Segments(path) == [nid];
    hide Segments, Items;
  }

  /** No group. */
  lemma NoRoute(groups: Groups, path: string, verb: string, body: Body)
    requires path != "/" && path != "/health" && path != "/debug/groups"
    ensures !("/ap/v1/groups/" <= path) ==> Respond(groups, Request(verb, path, body)) == Failure(404, "not found")
    ensures path == "/ap/v1/groups/" ==> Respond(groups, Request(verb, path, body)) == Failure(404, "no group id")
    ensures !("/ap/v1/groups/" <= path) || path == "/ap/v1/groups/" ==> Touches(Request(verb, path, body)) == None
  {
    if path == "/ap/v1/groups/" {
      assert path[|PREFIX|..] == "";
      assert Split("", "/") == [""];
      assert NonEmpty([""]) == [];
      assert Segments(path) == [];
    }
    hide Segments, Items;
  }

  ghost function DiffIds(items: seq<Activity>): set<string> {
    set i | 0 <= i < |items| && DiffIdOf(items[i].id).Some? :: DiffIdOf(items[i].id).value
  }

  lemma {:induction false} LatestIff(items: seq<Activity>, d: string)
    ensures Latest(items, d).Some? <==> exists i :: 0 <= i < |items| && DiffIdOf(items[i].id) == Some(d)
  {
    hide DiffIdOf;
    if |items| == 0 {
    } else {
      var init := items[..|items| - 1];
      LatestIff(init, d);
      assert forall i :: 0 <= i < |init| ==> init[i] == items[i];
    }
  }

  /** The summary lists the groups touched so far, each with the number of activities its outbox serves and the
      number of different diffs among them. */
  lemma SummaryTells(requests: seq<Request>, verb: string, body: Body, nid: string)
    ensures var res := Respond(Store(requests), Request(verb, "/debug/groups", body));
      && res.Summary? && res.sizes.Keys == Touched(requests)
      && (nid in Touched(requests) ==>
            res.sizes[nid] == (|Kept(requests, nid)|, |DiffIds(Kept(requests, nid))|))
  {
    hide Segments, Store, Touched, Kept, DiffIds, Run;
    StoreIsTouched(requests, nid);
    assert "/debug/groups" != "/" && "/debug/groups" != "/health";
    if nid in Touched(requests) {
      ItemsAreKept(requests, nid);
      ReachableIsConsistent(requests, nid);
      assert Store(requests)[nid] == Run(requests, nid);
      SizesTell(Run(requests, nid));
    }
  }

  lemma SizesTell(g: Group)
    requires Consistent(g)
    ensures |g.order| == |Items(g)| && |g.byDiffId| == |DiffIds(Items(g))|
  {
    hide DiffIdOf, Latest, Listed, Named;
    ItemsLength(g);
    hide Items;
    var items := Items(g);
    forall d
      ensures d in g.byDiffId.Keys <==> d in DiffIds(items)
    {
      assert Latest(items, d) == if d in g.byDiffId then Some(g.byDiffId[d]) else None;
      LatestIff(items, d);
    }
    assert g.byDiffId.Keys == DiffIds(items);
    assert |g.byDiffId| == |g.byDiffId.Keys|;
  }

  /** A Follow or an Undo is acknowledged and files nothing anywhere. */
  lemma MembershipIsNotContent(groups: Groups, requests: seq<Request>, nid: string, activity: Activity, other: string)
    requires IsSegment(nid) && (activity.kind == "Follow" || activity.kind == "Undo")
    ensures Respond(groups, InboxPost(nid, activity)) == Accepted
    ensures Kept(requests + [InboxPost(nid, activity)], other) == Kept(requests, other)
    ensures Run(requests + [InboxPost(nid, activity)], other) == Run(requests, other)
  {
    hide Segments, NonEmpty, Split, Reflected, Repeats;
    var post := InboxPost(nid, activity);
    assert post.path == "/ap/v1/groups/" + nid + "/" + "inbox";
    SubRoutes(groups, nid, "inbox", "POST", Doc(activity));
    assert (requests + [post])[..|requests|] == requests;
    assert !Files(post, other);
    ToOneGroup(post, other);
    hide Delivery, Files, Respond;
  }

  /** The whole way round: an activity posted to the inbox under its own diff url, if it was new, is
      what the next fetch of that url returns, whatever the group held before. */
  lemma PostedDiffIsFetched(groups: Groups, requests: seq<Request>, origin: string, nid: string, d: string,
                            activity: Activity)
    requires IsSegment(nid) && IsSegment(d) && activity.id == DiffUrl(origin, nid, d)
    requires activity.kind != "Follow" && activity.kind != "Undo" && IsNew(Run(requests, nid), activity)
    requires GroupFor(groups, nid) == Run(requests + [InboxPost(nid, activity)], nid)
    ensures origin <= activity.id
    ensures Respond(groups, Request("GET", PathOf(origin, activity.id), Falsy)) == Found(activity)
  {
    hide Delivery, DiffIdOf, Items, Respond, InboxPost, PathOf, IsSegment, Run, Latest, IsNew, Kept;
    DiffUrlRoundTrip(origin, nid, d);
    InboxDelivers(nid, activity);
    PostedIsLatest(requests, nid, InboxPost(nid, activity), d, activity);
    ItemsAreKept(requests + [InboxPost(nid, activity)], nid);
    FetchReturnsLatest(groups, requests + [InboxPost(nid, activity)], origin, nid, d);
  }

  lemma PostedIsLatest(requests: seq<Request>, nid: string, post: Request, d: string, activity: Activity)
    requires Delivery(post) == Some((nid, activity)) && DiffIdOf(activity.id) == Some(d)
    requires IsNew(Run(requests, nid), activity)
    ensures Latest(Items(Run(requests + [post], nid)), d) == Some(activity)
  {
    hide Delivery, DiffIdOf, Items, Reflected, Consistent;
    var g := Run(requests, nid);
    ReachableIsConsistent(requests, nid);
    ConsistentKeys(g);
    assert (requests + [post])[..|requests|] == requests;
    ItemsGrow(g, activity);
    assert (Items(g) + [activity])[|Items(g)|] == activity;
  }

  lemma ConsistentKeys(g: Group)
    requires Consistent(g)
    ensures forall k :: k in g.order <==> k in g.activityById
  {
    hide Named, Indexed;
  }
}
