/** The event subscriber: a map from event type to a set of handlers, and unsubscribe closures that
    each remember the set they were made from. */
module Events {
  import opened Wrappers

  type Handler = nat

  /** What an unsubscribe closure captures. Set objects are named by the order of their creation. */
  datatype Sub = Sub(eventType: string, set_: nat, handler: Handler)

  /** `sets[n]` is the content of set object n, in insertion order. */
  datatype Registry = Registry(table: map<string, nat>, sets: seq<seq<Handler>>)

  const EMPTY := Registry(map[], [])

  ghost predicate WellFormed(r: Registry) {
    forall t :: t in r.table ==> r.table[t] < |r.sets|
  }

  function Without(handlers: seq<Handler>, h: Handler): seq<Handler> {
    if |handlers| == 0 then []
    else
      var last := handlers[|handlers| - 1];
      Without(handlers[..|handlers| - 1], h) + if last == h then [] else [last]
  }

  function With(handlers: seq<Handler>, h: Handler): seq<Handler> {
    if h in handlers then handlers else handlers + [h]
  }

  /** The handlers a frame of this type is dispatched to. */
  function Dispatched(r: Registry, t: string): seq<Handler> {
    if t in r.table && r.table[t] < |r.sets| then r.sets[r.table[t]] else []
  }

  function On(r: Registry, t: string, h: Handler): (Registry, Sub)
    requires WellFormed(r)
  {
    var n := if t in r.table then r.table[t] else |r.sets|;
    var sets := if t in r.table then r.sets else r.sets + [[]];
    (Registry(r.table[t := n], sets[n := With(sets[n], h)]), Sub(t, n, h))
  }

  /** Running an unsubscribe closure: the table entry goes when the captured set is empty, whichever set
      the table holds by then. */
  function Off(r: Registry, sub: Sub): Registry
    requires sub.set_ < |r.sets|
  {
    var handlers := Without(r.sets[sub.set_], sub.handler);
    Registry(if handlers == [] then r.table - {sub.eventType} else r.table, r.sets[sub.set_ := handlers])
  }

  class EventsClient {
    var listenersByType: map<string, nat>
    var sets: seq<seq<Handler>>

    function View(): Registry
      reads this
    {
      Registry(listenersByType, sets)
    }

    constructor ()
      ensures View() == EMPTY
    {
      listenersByType, sets := map[], [];
    }

    method Subscribe(eventType: string, handler: Handler) returns (sub: Sub)
      requires WellFormed(View())
      modifies this
      ensures (View(), sub) == On(old(View()), eventType, handler)
    {
      if eventType !in listenersByType {
        sets := sets + [[]];
        listenersByType := listenersByType[eventType := |sets| - 1];
      }
      var n := listenersByType[eventType];
      sets := sets[n := With(sets[n], handler)];
      sub := Sub(eventType, n, handler);
      assert old(eventType in listenersByType) ==> old(listenersByType)[eventType := n] == old(listenersByType);
    }

    method Unsubscribe(sub: Sub)
      requires sub.set_ < |sets|
      modifies this
      ensures View() == Off(old(View()), sub)
    {
      sets := sets[sub.set_ := Without(sets[sub.set_], sub.handler)];
      if sets[sub.set_] == [] {
        listenersByType := listenersByType - {sub.eventType};
      }
    }

    /** A frame of this type arrives: its handlers are called one after another. */
    method OnMessage(eventType: string) returns (called: seq<Handler>)
      requires WellFormed(View())
      ensures called == Dispatched(View(), eventType)
    {
      called := [];
      if eventType in listenersByType {
        var handlers := sets[listenersByType[eventType]];
        for i := 0 to |handlers|
          invariant called == handlers[..i]
        {
          called := called + [handlers[i]];
        }
      }
    }

    method Disconnect()
      modifies this
      ensures View() == old(View()).(table := map[])
    {
      listenersByType := map[];
    }
  }

  // ------------------------------------------------------- what one unsubscribe does

  /** The closure is stale: its set is (or becomes) empty while the table already holds another set under
      its type. */
  predicate DropsOthers(r: Registry, sub: Sub)
    requires sub.set_ < |r.sets|
  {
    && sub.eventType in r.table && r.table[sub.eventType] != sub.set_
    && Without(r.sets[sub.set_], sub.handler) == []
  }

  /** Two types never share a set object. */
  ghost predicate Unshared(r: Registry) {
    WellFormed(r) && forall t, u :: t in r.table && u in r.table && r.table[t] == r.table[u] ==> t == u
  }

  /** How the registry and the closures handed out so far hang together, however these are used. */
  ghost predicate Structured(r: Registry, subs: seq<Sub>) {
    && Unshared(r)
    && (forall k :: 0 <= k < |subs| ==> subs[k].set_ < |r.sets|)
    && (forall k, t :: 0 <= k < |subs| && t in r.table && r.table[t] == subs[k].set_ ==> t == subs[k].eventType)
    && (forall t :: t in r.table ==> Dispatched(r, t) != [])
  }

  lemma OffIsExact(r: Registry, subs: seq<Sub>, n: nat)
    requires Structured(r, subs) && n < |subs|
    ensures !DropsOthers(r, subs[n]) <==> forall t ::
      Dispatched(Off(r, subs[n]), t) == Unsubscribed(r, subs[n], t)
    ensures DropsOthers(r, subs[n]) ==>
      Dispatched(r, subs[n].eventType) != [] && Dispatched(Off(r, subs[n]), subs[n].eventType) == []
  {
    var sub := subs[n];
    var r' := Off(r, sub);
    hide Without;
    if DropsOthers(r, sub) {
      assert Dispatched(r', sub.eventType) == [] != Dispatched(r, sub.eventType);
    }
  }

  /** What unsubscribing should leave of type t: without the handler if the captured set is still the one in
      use there, else as it was. */
  function Unsubscribed(r: Registry, sub: Sub, t: string): seq<Handler> {
    if t in r.table && r.table[t] == sub.set_ then Without(Dispatched(r, t), sub.handler) else Dispatched(r, t)
  }

  /** It does happen: subscribe, unsubscribe, subscribe another handler, run the first closure again. */
  lemma StaleUnsubscribeDropsNewer()
    ensures On(EMPTY, "offer", 1) == (Registry(map["offer" := 0], [[1]]), Sub("offer", 0, 1))
    ensures Off(Registry(map["offer" := 0], [[1]]), Sub("offer", 0, 1)) == Registry(map[], [[]])
    ensures On(Registry(map[], [[]]), "offer", 2) == (Registry(map["offer" := 1], [[], [2]]), Sub("offer", 1, 2))
    ensures Dispatched(Registry(map["offer" := 1], [[], [2]]), "offer") == [2]
    ensures Dispatched(Off(Registry(map["offer" := 1], [[], [2]]), Sub("offer", 0, 1)), "offer") == []
  {
    var none: seq<Handler> := [];
    assert none + [1] == [1] && none + [2] == [2];
    assert EMPTY.sets + [none] == [none] && [none][0 := none + [1]] == [[1]];
    assert [1][..0] == none && Without([1], 1) == none && [[1]][0 := none] == [none];
    assert [none] + [none] == [none, none] && [none, none][1 := none + [2]] == [none, [2]];
  }

  // ------------------------------------------------------- whole runs

  /** Any handler may be subscribed, to any type, any number of times; any closure handed out so far may be
      run, again and again, before and after a disconnect. */
  datatype Op = Listen(eventType: string, handler: Handler) | Unlisten(n: nat) | Close

  /** The registry, every closure handed out so far, and the subscriptions that should be in force: not
      cancelled by their own closure, and no disconnect since. */
  datatype State = State(r: Registry, subs: seq<Sub>, live: set<nat>)

  const START := State(EMPTY, [], {})

  function Step(s: State, op: Op): State
    requires WellFormed(s.r) && forall k :: 0 <= k < |s.subs| ==> s.subs[k].set_ < |s.r.sets|
  {
    match op
    case Listen(t, h) =>
      var (r, sub) := On(s.r, t, h);
      State(r, s.subs + [sub], s.live + {|s.subs|})
    case Unlisten(n) => if n < |s.subs| then State(Off(s.r, s.subs[n]), s.subs, s.live - {n}) else s
    case Close => State(s.r.(table := map[]), s.subs, {})
  }

  ghost function Run(ops: seq<Op>): (s: State)
    ensures Structured(s.r, s.subs)
  {
    if |ops| == 0 then START
    else
      var s := Run(ops[..|ops| - 1]);
      StepKeepsStructure(s, ops[|ops| - 1]);
      Step(s, ops[|ops| - 1])
  }

  /** One operation more. */
  lemma RunStep(ops: seq<Op>, i: nat)
    requires i < |ops|
    ensures Run(ops[..i + 1]) == Step(Run(ops[..i]), ops[i])
  {
    assert ops[..i + 1][..i] == ops[..i];
  }

  lemma RunStart(ops: seq<Op>)
    ensures Run(ops[..0]) == START
  {
  }

  lemma OnEffect(r: Registry, t: string, h: Handler)
    requires Unshared(r)
    ensures var (r', sub) := On(r, t, h);
      && sub.eventType == t && sub.handler == h && sub.set_ < |r'.sets|
      && Unshared(r') && |r'.sets| >= |r.sets| && Current(r', sub)
      && r'.table.Keys == r.table.Keys + {t}
      && (forall u :: Dispatched(r', u) == if u == t then With(Dispatched(r, t), h) else Dispatched(r, u))
      && (forall u :: u in r.table ==> u in r'.table && r'.table[u] == r.table[u])
      && (t !in r.table ==> sub.set_ == |r.sets|)
  {
  }

  lemma ListenKeepsStructure(r: Registry, subs: seq<Sub>, t: string, h: Handler)
    requires Structured(r, subs)
    ensures var (r', sub) := On(r, t, h); Structured(r', subs + [sub])
  {
    OnEffect(r, t, h);
    hide On, Without, Unshared, Dispatched;
    var (r', sub) := On(r, t, h);
    var subs' := subs + [sub];
    forall k, u | 0 <= k < |subs'| && u in r'.table && r'.table[u] == subs'[k].set_
      ensures u == subs'[k].eventType
    {
      assert u in r'.table.Keys;
      if k == |subs| {
        SameSet(r', u, t);
      }
    }
    forall u | u in r'.table
      ensures Dispatched(r', u) != []
    {
      assert u in r'.table.Keys;
    }
  }

  lemma SameSet(r: Registry, t: string, u: string)
    requires Unshared(r) && t in r.table && u in r.table && r.table[t] == r.table[u]
    ensures t == u
  {
  }

  /** However the closures are used, no set serves two types, a captured set is in use under its own type
      only, and no set in use is empty. */
  lemma StepKeepsStructure(s: State, op: Op)
    requires Structured(s.r, s.subs)
    ensures var s' := Step(s, op); Structured(s'.r, s'.subs)
  {
    hide Without;
    match op
    case Listen(t, h) => ListenKeepsStructure(s.r, s.subs, t, h);
    case Unlisten(n) =>
    case Close =>
  }

  /** After any run: running any closure removes its handler from its own type, if the captured set is still
      in use, and changes nothing else, exactly when the closure is not stale; a stale closure silences
      every handler of its type. */
  lemma OffIsExactIff(ops: seq<Op>, n: nat)
    requires n < |Run(ops).subs|
    ensures var s := Run(ops);
      && (!DropsOthers(s.r, s.subs[n]) <==> forall t ::
            Dispatched(Off(s.r, s.subs[n]), t) == Unsubscribed(s.r, s.subs[n], t))
      && (DropsOthers(s.r, s.subs[n]) ==>
            Dispatched(s.r, s.subs[n].eventType) != []
            && Dispatched(Off(s.r, s.subs[n]), s.subs[n].eventType) == [])
  {
    hide Run, Off, DropsOthers, Dispatched, Unsubscribed;
    var s := Run(ops);
    OffIsExact(s.r, s.subs, n);
  }

  predicate Current(r: Registry, sub: Sub) {
    sub.eventType in r.table && r.table[sub.eventType] == sub.set_
  }

  /** The handlers with a subscription in force for a type, each once, in order of subscription. */
  function Live(subs: seq<Sub>, live: set<nat>, t: string): seq<Handler> {
    if |subs| == 0 then []
    else
      var last := |subs| - 1;
      var before := Live(subs[..last], live, t);
      if last in live && subs[last].eventType == t then With(before, subs[last].handler) else before
  }

  /** Every frame goes to exactly the handlers with a subscription in force for its type. */
  ghost predicate Faithful(s: State) {
    forall t :: Dispatched(s.r, t) == Live(s.subs, s.live, t)
  }

  /** Another subscription in force for the same type has the same handler. */
  ghost predicate Shared(s: State, n: nat)
    requires n < |s.subs|
  {
    exists m :: m in s.live && m < |s.subs| && m != n
      && s.subs[m].eventType == s.subs[n].eventType && s.subs[m].handler == s.subs[n].handler
  }

  /** The closure would drop a newer set, or take away a handler that another subscription still wants. */
  ghost predicate Harmful(s: State, n: nat)
    requires Structured(s.r, s.subs) && n < |s.subs|
  {
    DropsOthers(s.r, s.subs[n]) || (Current(s.r, s.subs[n]) && Shared(s, n))
  }

  ghost predicate Inv(s: State) {
    && Structured(s.r, s.subs)
    && (forall k :: k in s.live ==> k < |s.subs| && Current(s.r, s.subs[k]))
    && Faithful(s)
  }

  lemma {:induction false} LiveIgnores(subs: seq<Sub>, a: set<nat>, b: set<nat>, t: string)
    requires forall k :: 0 <= k < |subs| && subs[k].eventType == t ==> (k in a <==> k in b)
    ensures Live(subs, a, t) == Live(subs, b, t)
  {
    if |subs| == 0 {
    } else {
      LiveIgnores(subs[..|subs| - 1], a, b, t);
    }
  }

  lemma {:induction false} LiveIff(subs: seq<Sub>, live: set<nat>, t: string, h: Handler)
    ensures h in Live(subs, live, t) <==>
      exists k :: k in live && k < |subs| && subs[k].eventType == t && subs[k].handler == h
  {
    if |subs| == 0 {
    } else {
      var last := |subs| - 1;
      LiveIff(subs[..last], live, t, h);
      if k :| k in live && k < |subs| && subs[k].eventType == t && subs[k].handler == h {
        if k < last {
          assert subs[..last][k] == subs[k];
        }
      }
      if k :| k in live && k < last && subs[..last][k].eventType == t && subs[..last][k].handler == h {
        assert subs[k].eventType == t && subs[k].handler == h;
      }
    }
  }

  lemma {:induction false} WithoutIff(handlers: seq<Handler>, h: Handler, x: Handler)
    ensures x in Without(handlers, h) <==> x in handlers && x != h
    ensures h !in handlers ==> Without(handlers, h) == handlers
  {
    if |handlers| == 0 {
    } else {
      var init, last := handlers[..|handlers| - 1], handlers[|handlers| - 1];
      WithoutIff(init, h, x);
      WithoutStep(init, last, h);
      hide Without;
      assert handlers == init + [last];
    }
  }

  lemma WithoutStep(init: seq<Handler>, last: Handler, h: Handler)
    ensures Without(init + [last], h) == Without(init, h) + if last == h then [] else [last]
  {
    assert (init + [last])[..|init|] == init;
  }

  lemma WithoutWith(handlers: seq<Handler>, h: Handler, x: Handler)
    ensures h != x ==> Without(With(handlers, x), h) == With(Without(handlers, h), x)
    ensures h !in handlers ==> Without(With(handlers, h), h) == handlers
  {
    WithoutIff(handlers, h, x);
    assert (handlers + [x])[..|handlers|] == handlers;
    assert (handlers + [h])[..|handlers|] == handlers;
  }

  lemma {:induction false} LiveWithout(subs: seq<Sub>, live: set<nat>, n: nat)
    requires n < |subs| && n in live
    requires forall m :: m in live && m < |subs| && m != n && subs[m].eventType == subs[n].eventType ==>
               subs[m].handler != subs[n].handler
    ensures var t, h := subs[n].eventType, subs[n].handler;
      Live(subs, live - {n}, t) == Without(Live(subs, live, t), h)
  {
    var t, h := subs[n].eventType, subs[n].handler;
    var last := |subs| - 1;
    var init, before := subs[..last], Live(subs[..last], live, t);
    assert forall m :: 0 <= m < last ==> init[m] == subs[m];
    hide Without, With;
    if n == last {
      LiveIgnores(init, live - {n}, live, t);
      LiveIff(init, live, t, h);
      WithoutWith(before, h, h);
    } else {
      LiveWithout(init, live, n);
      WithoutWith(before, h, subs[last].handler);
    }
  }

  lemma {:induction false} NobodyLive(subs: seq<Sub>, t: string)
    ensures Live(subs, {}, t) == []
  {
    if |subs| == 0 {
    } else {
      NobodyLive(subs[..|subs| - 1], t);
    }
  }

  lemma LiveGrows(subs: seq<Sub>, sub: Sub, live: set<nat>, t: string)
    ensures Live(subs + [sub], live, t)
         == if |subs| in live && sub.eventType == t then With(Live(subs, live, t), sub.handler) else Live(subs, live, t)
  {
    assert (subs + [sub])[..|subs|] == subs;
  }

  lemma StaysCurrent(r: Registry, r': Registry, sub: Sub)
    requires Current(r, sub) && forall u :: u in r.table ==> u in r'.table && r'.table[u] == r.table[u]
    ensures Current(r', sub)
  {
  }

  lemma ListenKeepsInv(s: State, t: string, h: Handler)
    requires Inv(s)
    ensures Inv(Step(s, Listen(t, h)))
  {
    hide On, Structured, Faithful, Current;
    StepKeepsStructure(s, Listen(t, h));
    StructuredIsUnshared(s.r, s.subs);
    ListenKeepsFaithful(s, t, h);
    ListenKeepsCurrent(s, t, h);
  }

  lemma ListenKeepsFaithful(s: State, t: string, h: Handler)
    requires Unshared(s.r) && Faithful(s) && forall k :: k in s.live ==> k < |s.subs|
    ensures var (r', sub) := On(s.r, t, h);
      Faithful(State(r', s.subs + [sub], s.live + {|s.subs|}))
  {
    hide On, With, Dispatched, Live, Current;
    OnEffect(s.r, t, h);
    var (r', sub) := On(s.r, t, h);
    var subs', live' := s.subs + [sub], s.live + {|s.subs|};
    forall u
      ensures Dispatched(r', u) == Live(subs', live', u)
    {
      LiveIgnores(s.subs, s.live, live', u);
      LiveGrows(s.subs, sub, live', u);
      assert Dispatched(s.r, u) == Live(s.subs, s.live, u);
    }
  }

  lemma ListenKeepsCurrent(s: State, t: string, h: Handler)
    requires Unshared(s.r) && forall k :: k in s.live ==> k < |s.subs| && Current(s.r, s.subs[k])
    ensures var (r', sub) := On(s.r, t, h);
      var subs' := s.subs + [sub];
      forall k :: k in s.live + {|s.subs|} ==> k < |subs'| && Current(r', subs'[k])
  {
    hide On, With, Dispatched, Current;
    OnEffect(s.r, t, h);
    var (r', sub) := On(s.r, t, h);
    forall k | k in s.live
      ensures Current(r', s.subs[k])
    {
      StaysCurrent(s.r, r', s.subs[k]);
    }
  }

  lemma StructuredIsUnshared(r: Registry, subs: seq<Sub>)
    requires Structured(r, subs)
    ensures Unshared(r) && forall k :: 0 <= k < |subs| ==> subs[k].set_ < |r.sets|
  {
  }

  /** A closure that is neither stale nor shares its handler does what it should, or nothing. */
  lemma UnlistenKeepsInv(s: State, n: nat)
    requires Inv(s) && n < |s.subs| && !Harmful(s, n)
    ensures Inv(Step(s, Unlisten(n)))
  {
    StepKeepsStructure(s, Unlisten(n));
    var s', sub := Step(s, Unlisten(n)), s.subs[n];
    UnlistenEffect(s, n);
    hide Off, Dispatched, Structured, Live, Harmful, Shared;
    forall u
      ensures Dispatched(s'.r, u) == Live(s'.subs, s'.live, u)
    {
      assert Dispatched(s.r, u) == Live(s.subs, s.live, u);
      if u != sub.eventType {
        LiveIgnores(s.subs, s.live, s'.live, u);
      }
    }
    forall k | k in s'.live
      ensures Current(s'.r, s.subs[k])
    {
      LiveIff(s.subs, s'.live, s.subs[k].eventType, s.subs[k].handler);
      assert Dispatched(s'.r, s.subs[k].eventType) == Live(s.subs, s'.live, s.subs[k].eventType);
      OffKeepsCurrent(s.r, sub, s.subs[k]);
    }
  }

  lemma OffKeepsCurrent(r: Registry, sub: Sub, other: Sub)
    requires sub.set_ < |r.sets| && Current(r, other) && Dispatched(Off(r, sub), other.eventType) != []
    ensures Current(Off(r, sub), other)
  {
  }

  lemma UnlistenEffect(s: State, n: nat)
    requires Inv(s) && n < |s.subs| && !Harmful(s, n)
    ensures var r', t := Off(s.r, s.subs[n]), s.subs[n].eventType;
      && (forall u :: u != t ==> Dispatched(r', u) == Dispatched(s.r, u))
      && Dispatched(r', t) == Live(s.subs, s.live - {n}, t)
  {
    var sub := s.subs[n];
    var t, h := sub.eventType, sub.handler;
    OffIsExact(s.r, s.subs, n);
    assert Dispatched(s.r, t) == Live(s.subs, s.live, t);
    assert Dispatched(Off(s.r, sub), t) == Unsubscribed(s.r, sub, t);
    forall u | u != t
      ensures Dispatched(Off(s.r, sub), u) == Dispatched(s.r, u)
    {
      assert Dispatched(Off(s.r, sub), u) == Unsubscribed(s.r, sub, u);
    }
    hide Off, Dispatched, Without;
    if n in s.live {
      LiveWithout(s.subs, s.live, n);
    } else {
      assert s.live - {n} == s.live;
      LiveIff(s.subs, s.live, t, h);
      WithoutIff(Live(s.subs, s.live, t), h, h);
    }
  }

  /** A closure that is stale or shares its handler breaks the promise at once. */
  lemma HarmShows(s: State, n: nat)
    requires Inv(s) && n < |s.subs| && Harmful(s, n)
    ensures !Faithful(Step(s, Unlisten(n)))
  {
    var sub := s.subs[n];
    var t, h := sub.eventType, sub.handler;
    var s' := Step(s, Unlisten(n));
    OffIsExact(s.r, s.subs, n);
    assert Dispatched(s.r, t) == Live(s.subs, s.live, t);
    if DropsOthers(s.r, sub) {
      assert n !in s.live && s'.live == s.live;
      hide Off, Dispatched, Without, DropsOthers;
      assert Dispatched(s'.r, t) != Live(s'.subs, s'.live, t);
    } else {
      assert Dispatched(s'.r, t) == Unsubscribed(s.r, sub, t) == Without(Dispatched(s.r, t), h);
      hide Off, Dispatched, Without, DropsOthers;
      var m :| m in s.live && m < |s.subs| && m != n && s.subs[m].eventType == t && s.subs[m].handler == h;
      assert m in s'.live;
      LiveIff(s.subs, s'.live, t, h);
      WithoutIff(Dispatched(s.r, t), h, h);
      assert Dispatched(s'.r, t) != Live(s'.subs, s'.live, t);
    }
  }

  ghost predicate HarmAt(ops: seq<Op>, i: nat)
    requires i < |ops|
  {
    ops[i].Unlisten? && ops[i].n < |Run(ops[..i]).subs| && Harmful(Run(ops[..i]), ops[i].n)
  }

  lemma StepKeepsInv(s: State, op: Op)
    requires Inv(s)
    requires op.Unlisten? && op.n < |s.subs| ==> !Harmful(s, op.n)
    ensures Inv(Step(s, op))
  {
    match op
    case Listen(t, h) => ListenKeepsInv(s, t, h);
    case Unlisten(n) =>
      if n < |s.subs| {
        UnlistenKeepsInv(s, n);
      }
    case Close =>
      StepKeepsStructure(s, Close);
      forall t {
        NobodyLive(s.subs, t);
      }
  }

  lemma {:induction false} HarmlessPrefix(ops: seq<Op>, n: nat)
    requires n <= |ops| && forall i :: 0 <= i < n ==> !HarmAt(ops, i)
    ensures Inv(Run(ops[..n]))
  {
    hide Inv, Harmful, Run, Step;
    if n == 0 {
      RunStart(ops);
      StartKeepsInv();
    } else {
      HarmlessPrefix(ops, n - 1);
      assert !HarmAt(ops, n - 1);
      RunStep(ops, n - 1);
      StepKeepsInv(Run(ops[..n - 1]), ops[n - 1]);
    }
  }

  lemma StartKeepsInv()
    ensures Inv(START)
  {
    forall t {
      NobodyLive([], t);
    }
  }

  /** A harmful closure shows: at that point or earlier some frame goes to the wrong handlers. */
  lemma {:induction false} HarmIsSeen(ops: seq<Op>, i: nat)
    requires i < |ops| && HarmAt(ops, i)
    ensures exists n :: 0 <= n <= |ops| && !Faithful(Run(ops[..n]))
  {
    hide HarmAt, Run, Faithful;
    if j: nat :| j < i && HarmAt(ops, j) {
      HarmIsSeen(ops, j);
    } else {
      FirstHarmIsSeen(ops, i);
    }
  }

  lemma FirstHarmIsSeen(ops: seq<Op>, i: nat)
    requires i < |ops| && HarmAt(ops, i) && forall j :: 0 <= j < i ==> !HarmAt(ops, j)
    ensures !Faithful(Run(ops[..i + 1]))
  {
    hide Inv, Harmful, Faithful, Run, Step;
    HarmlessPrefix(ops, i);
    RunStep(ops, i);
    HarmShows(Run(ops[..i]), ops[i].n);
  }

  /** For every run, however closures are used: at every point a frame goes to exactly the handlers with a
      subscription in force, in order, if and only if no closure that is run is stale or shares its handler
      with another subscription in force. */
  lemma FaithfulIff(ops: seq<Op>)
    ensures (forall n :: 0 <= n <= |ops| ==> Faithful(Run(ops[..n])))
      <==> (forall i :: 0 <= i < |ops| ==> !HarmAt(ops, i))
  {
    hide Run, Faithful, HarmAt;
    if i :| 0 <= i < |ops| && HarmAt(ops, i) {
      HarmIsSeen(ops, i);
    } else {
      forall n | 0 <= n <= |ops|
        ensures Faithful(Run(ops[..n]))
      {
        HarmlessPrefix(ops, n);
        InvIsFaithful(Run(ops[..n]));
      }
    }
  }

  lemma InvIsFaithful(s: State)
    requires Inv(s)
    ensures Faithful(s)
  {
  }

  /** Sharing does happen: one handler subscribed twice is gone after the first of its two closures. */
  lemma SharedHandlerIsLost()
    ensures HarmAt([Listen("offer", 1), Listen("offer", 1), Unlisten(0)], 2)
  {
    hide Run, Structured, DropsOthers, Shared;
    TwoSubscriptions();
    TwoSubscriptionsShare();
  }

  lemma TwoSubscriptions()
    ensures var ops := [Listen("offer", 1), Listen("offer", 1), Unlisten(0)];
      var sub := Sub("offer", 0, 1);
      Run(ops[..2]) == State(Registry(map["offer" := 0], [[1]]), [sub, sub], {0, 1})
  {
    hide Run, On, Structured, Step;
    var ops := [Listen("offer", 1), Listen("offer", 1), Unlisten(0)];
    RunStart(ops);
    RunStep(ops, 0);
    FirstStep("offer", 1);
    RunStep(ops, 1);
    SecondStep("offer", 1);
  }

  lemma FirstStep(t: string, h: Handler)
    ensures Step(START, Listen(t, h)) == State(Registry(map[t := 0], [[h]]), [Sub(t, 0, h)], {0})
  {
    hide On;
    FirstListen(t, h);
  }

  lemma SecondStep(t: string, h: Handler)
    ensures var r, sub := Registry(map[t := 0], [[h]]), Sub(t, 0, h);
      Step(State(r, [sub], {0}), Listen(t, h)) == State(r, [sub, sub], {0, 1})
  {
    hide On;
    SameListen(Registry(map[t := 0], [[h]]), t, h);
  }

  lemma TwoSubscriptionsShare()
    ensures var s := State(Registry(map["offer" := 0], [[1]]), [Sub("offer", 0, 1), Sub("offer", 0, 1)], {0, 1});
      Shared(s, 0) && Current(s.r, s.subs[0])
  {
    assert 1 in {0, 1};
    var s := State(Registry(map["offer" := 0], [[1]]), [Sub("offer", 0, 1), Sub("offer", 0, 1)], {0, 1});
    assert 1 in s.live && s.subs[1] == s.subs[0];
  }

  lemma FirstListen(t: string, h: Handler)
    ensures On(EMPTY, t, h) == (Registry(map[t := 0], [[h]]), Sub(t, 0, h))
  {
    var none: seq<Handler> := [];
    assert EMPTY.sets + [none] == [none] && none + [h] == [h] && [none][0 := [h]] == [[h]];
  }

  lemma SameListen(r: Registry, t: string, h: Handler)
    requires r == Registry(map[t := 0], [[h]])
    ensures On(r, t, h) == (r, Sub(t, 0, h))
  {
    assert r.table[t := 0] == r.table && r.sets[0 := [h]] == r.sets;
  }

  /** Each closure is run at most once, before any disconnect, and not while another subscription of the type
      has the same handler. */
  ghost predicate Disciplined(ops: seq<Op>, i: nat)
    requires i < |ops|
  {
    ops[i].Unlisten? ==>
      var s, n := Run(ops[..i]), ops[i].n;
      n in s.live && (n < |s.subs| ==> !Shared(s, n))
  }

  /** Used that way the client keeps its promise at every point of every run. */
  lemma {:induction false} DisciplinedRunsAreFaithful(ops: seq<Op>, n: nat)
    requires n <= |ops| && forall i :: 0 <= i < n ==> Disciplined(ops, i)
    ensures Inv(Run(ops[..n]))
  {
    hide Structured, Faithful, Run, Step;
    if n == 0 {
      HarmlessPrefix(ops, 0);
    } else {
      DisciplinedRunsAreFaithful(ops, n - 1);
      assert Disciplined(ops, n - 1);
      RunStep(ops, n - 1);
      hide Shared;
      StepKeepsInv(Run(ops[..n - 1]), ops[n - 1]);
    }
  }

  // ------------------------------------------------------- what a caller can tell

  /** A subscription as its caller knows it. A period of an event type lasts as long as some subscription to
      the type is in force, and is known by the number of the subscription that opened it. */
  datatype Note = Note(eventType: string, handler: Handler, period: nat)

  /** The subscriptions made so far, those in force, and those whose handler no closure of their period has
      taken out since (a disconnect ends the period but takes nothing out). */
  datatype Book = Book(notes: seq<Note>, live: set<nat>, out: set<nat>)

  /** The period of the type that is under way. */
  function OpenPeriod(notes: seq<Note>, live: set<nat>, t: string): Option<nat> {
    if |notes| == 0 then None
    else
      var last := |notes| - 1;
      if last in live && notes[last].eventType == t then Some(notes[last].period)
      else OpenPeriod(notes[..last], live, t)
  }

  function Noted(b: Book, op: Op): Book {
    match op
    case Listen(t, h) =>
      var k := |b.notes|;
      var period := match OpenPeriod(b.notes, b.live, t) case Some(p) => p case None => k;
      Book(b.notes + [Note(t, h, period)], b.live + {k}, b.out + {k})
    case Unlisten(n) =>
      if n >= |b.notes| then b
      else Book(b.notes, b.live - {n}, set m | m in b.out && !SameEntry(b.notes, m, n))
    case Close => b.(live := {})
  }

  predicate SameEntry(notes: seq<Note>, m: nat, n: nat)
    requires n < |notes|
  {
    m < |notes| && notes[m].period == notes[n].period && notes[m].handler == notes[n].handler
  }

  function BookOf(ops: seq<Op>): Book {
    if |ops| == 0 then Book([], {}, {}) else Noted(BookOf(ops[..|ops| - 1]), ops[|ops| - 1])
  }

  /** Not the time to run this closure: its own period is over, every other handler of that period is out
      already, and a later period of the type is under way; or its period is under way and another
      subscription in force has the same handler. */
  ghost predicate Untimely(b: Book, n: nat)
    requires n < |b.notes|
  {
    match OpenPeriod(b.notes, b.live, b.notes[n].eventType)
    case None => false
    case Some(p) =>
      if p != b.notes[n].period then
        forall m :: m in b.out && m < |b.notes| && b.notes[m].period == b.notes[n].period ==>
          b.notes[m].handler == b.notes[n].handler
      else SharedNote(b, n)
  }

  ghost predicate SharedNote(b: Book, n: nat)
    requires n < |b.notes|
  {
    exists m :: m in b.live && m < |b.notes| && m != n
      && b.notes[m].eventType == b.notes[n].eventType && b.notes[m].handler == b.notes[n].handler
  }

  ghost predicate UntimelyAt(ops: seq<Op>, i: nat)
    requires i < |ops|
  {
    ops[i].Unlisten? && ops[i].n < |BookOf(ops[..i]).notes| && Untimely(BookOf(ops[..i]), ops[i].n)
  }

  /** The caller's book describes the registry: periods are set objects, and a set holds the handlers of its
      period that are not out. */
  ghost predicate Linked(s: State, b: Book) {
    && SameNotes(s.subs, b.notes) && b.live == s.live
    && Periods(s.subs, b.notes)
    && (forall k :: 0 <= k < |s.subs| ==> s.subs[k].set_ < |s.r.sets|)
    && (forall k, h :: 0 <= k < |s.subs| ==> (h in s.r.sets[s.subs[k].set_] <==> Holds(b, b.notes[k].period, h)))
  }

  ghost predicate SameNotes(subs: seq<Sub>, notes: seq<Note>) {
    && |subs| == |notes|
    && forall k :: 0 <= k < |subs| ==>
         subs[k].eventType == notes[k].eventType && subs[k].handler == notes[k].handler && notes[k].period <= k
  }

  ghost predicate Periods(subs: seq<Sub>, notes: seq<Note>)
    requires |subs| == |notes|
  {
    forall k, m :: 0 <= k < |subs| && 0 <= m < |subs| ==>
      (subs[k].set_ == subs[m].set_ <==> notes[k].period == notes[m].period)
  }

  /** Some subscription of the period with this handler has not been taken out. */
  ghost predicate Holds(b: Book, period: nat, h: Handler) {
    exists m :: m in b.out && m < |b.notes| && b.notes[m].period == period && b.notes[m].handler == h
  }

  lemma {:induction false} OpenPeriodIff(notes: seq<Note>, live: set<nat>, t: string)
    ensures match OpenPeriod(notes, live, t)
      case None => forall k :: k in live && k < |notes| ==> notes[k].eventType != t
      case Some(p) => exists k :: k in live && k < |notes| && notes[k].eventType == t && notes[k].period == p
  {
    if |notes| == 0 {
    } else {
      var last := |notes| - 1;
      OpenPeriodIff(notes[..last], live, t);
      assert forall k :: 0 <= k < last ==> notes[..last][k] == notes[k];
    }
  }

  /** A type has a set in use exactly when a subscription to it is in force, and that is the one its closure
      remembers. */
  lemma InForceIff(s: State, t: string)
    requires Inv(s)
    ensures t in s.r.table <==> exists k :: k in s.live && k < |s.subs| && s.subs[k].eventType == t
    ensures forall k :: k in s.live && k < |s.subs| && s.subs[k].eventType == t ==>
      t in s.r.table && s.r.table[t] == s.subs[k].set_
  {
    hide Live;
    assert Dispatched(s.r, t) == Live(s.subs, s.live, t);
    if t in s.r.table {
      assert Dispatched(s.r, t) != [];
      LiveIff(s.subs, s.live, t, Dispatched(s.r, t)[0]);
    }
  }

  /** The set in use for the type is that of period p, which some subscription in force belongs to. */
  ghost predicate InUse(s: State, b: Book, t: string, p: nat, k: nat) {
    && k in s.live && k < |s.subs| && k < |b.notes| && s.subs[k].eventType == t && b.notes[k].period == p
    && t in s.r.table && s.r.table[t] == s.subs[k].set_
  }

  lemma OpenPeriodIsSet(s: State, b: Book, t: string)
    requires Inv(s) && Linked(s, b)
    ensures match OpenPeriod(b.notes, b.live, t)
      case None => t !in s.r.table
      case Some(p) => exists k: nat :: InUse(s, b, t, p, k)
  {
    hide Inv, Periods;
    OpenPeriodIff(b.notes, b.live, t);
    InForceIff(s, t);
    assert forall k :: 0 <= k < |s.subs| ==> s.subs[k].eventType == b.notes[k].eventType;
    if OpenPeriod(b.notes, b.live, t).Some? {
      var p := OpenPeriod(b.notes, b.live, t).value;
      var k :| k in b.live && k < |b.notes| && b.notes[k].eventType == t && b.notes[k].period == p;
      assert InUse(s, b, t, p, k);
    }
  }

  lemma WithoutEmptyIff(handlers: seq<Handler>, h: Handler)
    ensures Without(handlers, h) == [] <==> forall x :: x in handlers ==> x == h
  {
    forall x {
      WithoutIff(handlers, h, x);
    }
    if Without(handlers, h) != [] {
      WithoutIff(handlers, h, Without(handlers, h)[0]);
    }
  }

  /** While nothing has gone wrong, a caller can tell the harmful closures from its own book. */
  lemma HarmfulIffUntimely(s: State, b: Book, n: nat)
    requires Inv(s) && Linked(s, b) && n < |s.subs|
    ensures Harmful(s, n) <==> Untimely(b, n)
  {
    hide Inv, Without, OpenPeriod, Unshared;
    var t, h := s.subs[n].eventType, s.subs[n].handler;
    InvIsStructured(s);
    OpenPeriodIsSet(s, b, t);
    var open := OpenPeriod(b.notes, b.live, t);
    if open.Some? {
      var k: nat :| InUse(s, b, t, open.value, k);
      assert s.r.table[t] == s.subs[n].set_ <==> open.value == b.notes[n].period;
      if open.value != b.notes[n].period {
        StaleIffLastOut(s, b, n);
      } else {
        SharedIff(s, b, n);
      }
    }
  }

  lemma InvIsStructured(s: State)
    requires Inv(s)
    ensures Structured(s.r, s.subs)
  {
  }

  lemma StaleIffLastOut(s: State, b: Book, n: nat)
    requires Linked(s, b) && n < |s.subs|
    ensures Without(s.r.sets[s.subs[n].set_], s.subs[n].handler) == [] <==>
      forall m :: m in b.out && m < |b.notes| && b.notes[m].period == b.notes[n].period ==>
        b.notes[m].handler == b.notes[n].handler
  {
    hide Periods;
    var content, h := s.r.sets[s.subs[n].set_], s.subs[n].handler;
    WithoutEmptyIff(content, h);
    assert forall x :: x in content <==> Holds(b, b.notes[n].period, x);
    if m :| m in b.out && m < |b.notes| && b.notes[m].period == b.notes[n].period && b.notes[m].handler != h {
      assert Holds(b, b.notes[n].period, b.notes[m].handler);
    }
  }

  lemma SharedIff(s: State, b: Book, n: nat)
    requires Linked(s, b) && n < |s.subs|
    ensures Shared(s, n) <==> SharedNote(b, n)
  {
    hide Periods;
    assert forall k :: 0 <= k < |s.subs| ==>
      s.subs[k].eventType == b.notes[k].eventType && s.subs[k].handler == b.notes[k].handler;
  }

  lemma LinkListen(s: State, b: Book, t: string, h: Handler)
    requires Inv(s) && Linked(s, b)
    ensures Linked(Step(s, Listen(t, h)), Noted(b, Listen(t, h)))
  {
    hide Inv, OpenPeriod, Unshared, Structured;
    InvIsStructured(s);
    StructuredIsUnshared(s.r, s.subs);
    UnsharedIsWellFormed(s.r);
    OpenPeriodIsSet(s, b, t);
    var s', b' := Step(s, Listen(t, h)), Noted(b, Listen(t, h));
    var k, sub, note := |s.subs|, s'.subs[|s.subs|], b'.notes[|s.subs|];
    forall m | 0 <= m < k
      ensures s.subs[m].set_ == sub.set_ <==> b.notes[m].period == note.period
    {
      var open := OpenPeriod(b.notes, b.live, t);
      if open.Some? {
        var j: nat :| InUse(s, b, t, open.value, j);
        assert Periods(s.subs, b.notes);
      }
    }
    assert Periods(s'.subs, b'.notes);
    forall m, x | 0 <= m <= k
      ensures x in s'.r.sets[s'.subs[m].set_] <==> Holds(b', b'.notes[m].period, x)
    {
      HoldsMore(b, note, b'.notes[m].period, x);
      SetAfterOn(s.r, t, h, s'.subs[m].set_, x);
      if m == k && t in s.r.table {
        var j: nat :| InUse(s, b, t, note.period, j);
        assert x in s.r.sets[s.subs[j].set_] <==> Holds(b, b.notes[j].period, x);
      } else if m == k {
        NewPeriodIsEmpty(b, x);
      }
    }
  }

  lemma UnsharedIsWellFormed(r: Registry)
    requires Unshared(r)
    ensures WellFormed(r)
  {
  }

  lemma NewPeriodIsEmpty(b: Book, x: Handler)
    requires forall k :: 0 <= k < |b.notes| ==> b.notes[k].period <= k
    ensures !Holds(b, |b.notes|, x)
  {
  }

  lemma HoldsMore(b: Book, note: Note, period: nat, x: Handler)
    ensures Holds(Book(b.notes + [note], b.live + {|b.notes|}, b.out + {|b.notes|}), period, x)
      <==> Holds(b, period, x) || (note.period == period && note.handler == x)
  {
    var notes' := b.notes + [note];
    assert notes'[|b.notes|] == note;
    assert forall m :: 0 <= m < |b.notes| ==> notes'[m] == b.notes[m];
    if Holds(b, period, x) {
      var m :| m in b.out && m < |b.notes| && b.notes[m].period == period && b.notes[m].handler == x;
      assert notes'[m].period == period;
    }
  }

  lemma SetAfterOn(r: Registry, t: string, h: Handler, n: nat, x: Handler)
    requires WellFormed(r) && n < |On(r, t, h).0.sets|
    ensures x in On(r, t, h).0.sets[n] <==> (n < |r.sets| && x in r.sets[n]) || (n == On(r, t, h).1.set_ && x == h)
  {
  }

  lemma LinkUnlisten(s: State, b: Book, n: nat)
    requires Linked(s, b) && WellFormed(s.r) && n < |s.subs|
    ensures Linked(Step(s, Unlisten(n)), Noted(b, Unlisten(n)))
  {
    hide Without;
    var s', b' := Step(s, Unlisten(n)), Noted(b, Unlisten(n));
    forall m, x | 0 <= m < |s.subs|
      ensures x in s'.r.sets[s.subs[m].set_] <==> Holds(b', b.notes[m].period, x)
    {
      assert x in s.r.sets[s.subs[m].set_] <==> Holds(b, b.notes[m].period, x);
      WithoutIff(s.r.sets[s.subs[m].set_], s.subs[n].handler, x);
      HoldsLess(b, n, b.notes[m].period, x);
    }
  }

  lemma HoldsLess(b: Book, n: nat, period: nat, x: Handler)
    requires n < |b.notes|
    ensures Holds(Noted(b, Unlisten(n)), period, x)
      <==> Holds(b, period, x) && !(b.notes[n].period == period && b.notes[n].handler == x)
  {
    var b' := Noted(b, Unlisten(n));
    if Holds(b, period, x) && !(b.notes[n].period == period && b.notes[n].handler == x) {
      var m :| m in b.out && m < |b.notes| && b.notes[m].period == period && b.notes[m].handler == x;
      assert m in b'.out;
    }
  }

  lemma LinkStep(s: State, b: Book, op: Op)
    requires Inv(s) && Linked(s, b)
    ensures Linked(Step(s, op), Noted(b, op))
  {
    InvIsStructured(s);
    hide Inv;
    match op
    case Listen(t, h) =>
      hide Linked;
      LinkListen(s, b, t, h);
    case Unlisten(n) =>
      if n < |s.subs| {
        LinkUnlisten(s, b, n);
      }
    case Close =>
      hide Periods;
      assert forall p, x :: Holds(b, p, x) <==> Holds(b.(live := {}), p, x);
  }

  lemma BookStep(ops: seq<Op>, i: nat)
    requires i < |ops|
    ensures BookOf(ops[..i + 1]) == Noted(BookOf(ops[..i]), ops[i])
  {
    assert ops[..i + 1][..i] == ops[..i];
  }

  lemma {:induction false} LinkedPrefix(ops: seq<Op>, n: nat)
    requires n <= |ops| && forall i :: 0 <= i < n ==> !HarmAt(ops, i)
    ensures Linked(Run(ops[..n]), BookOf(ops[..n]))
  {
    hide Run, Step, Noted, HarmAt, Inv, BookOf;
    if n == 0 {
      RunStart(ops);
      LinkedStart(ops);
    } else {
      LinkedPrefix(ops, n - 1);
      HarmlessPrefix(ops, n - 1);
      RunStep(ops, n - 1);
      BookStep(ops, n - 1);
      LinkStep(Run(ops[..n - 1]), BookOf(ops[..n - 1]), ops[n - 1]);
    }
  }

  lemma LinkedStart(ops: seq<Op>)
    ensures Linked(START, BookOf(ops[..0]))
  {
  }

  /** Up to the first harm the two conditions agree. */
  lemma {:induction false} HarmIffUntimelyUpTo(ops: seq<Op>, n: nat)
    requires n <= |ops|
    ensures (forall i :: 0 <= i < n ==> !HarmAt(ops, i)) <==> (forall i :: 0 <= i < n ==> !UntimelyAt(ops, i))
  {
    hide HarmAt, UntimelyAt;
    if n == 0 {
    } else {
      HarmIffUntimelyUpTo(ops, n - 1);
      if forall i :: 0 <= i < n - 1 ==> !HarmAt(ops, i) {
        HarmIffUntimelyNext(ops, n - 1);
      }
    }
  }

  lemma HarmIffUntimelyNext(ops: seq<Op>, i: nat)
    requires i < |ops| && forall j :: 0 <= j < i ==> !HarmAt(ops, j)
    ensures HarmAt(ops, i) <==> UntimelyAt(ops, i)
  {
    hide Run, BookOf, Harmful, Untimely, Inv;
    LinkedPrefix(ops, i);
    HarmlessPrefix(ops, i);
    var s, b := Run(ops[..i]), BookOf(ops[..i]);
    LinkedLength(s, b);
    if ops[i].Unlisten? && ops[i].n < |s.subs| {
      HarmfulIffUntimely(s, b, ops[i].n);
    }
  }

  lemma LinkedLength(s: State, b: Book)
    requires Linked(s, b)
    ensures |s.subs| == |b.notes|
  {
  }

  /** The same theorem in terms of the operations alone: frames always go to the right handlers if and only if
      no closure is run untimely. */
  lemma FaithfulByUseIff(ops: seq<Op>)
    ensures (forall n :: 0 <= n <= |ops| ==> Faithful(Run(ops[..n])))
      <==> (forall i :: 0 <= i < |ops| ==> !UntimelyAt(ops, i))
  {
    hide Run, Faithful, HarmAt, UntimelyAt;
    FaithfulIff(ops);
    HarmIffUntimelyUpTo(ops, |ops|);
  }

  // ------------------------------------------------------- who is called, from the operations alone

  /** How many subscriptions were made. */
  function Listens(ops: seq<Op>): nat {
    if |ops| == 0 then 0 else Listens(ops[..|ops| - 1]) + if ops[|ops| - 1].Listen? then 1 else 0
  }

  /** Operation i subscribes this handler to this type; there was no disconnect since, and its own closure was
      not run. */
  ghost predicate InForceAt(ops: seq<Op>, i: nat, t: string, h: Handler) {
    && i < |ops| && ops[i] == Listen(t, h)
    && Close !in ops[i + 1..] && Unlisten(Listens(ops[..i])) !in ops[i + 1..]
  }

  /** And it is the first such operation. */
  ghost predicate FirstAt(ops: seq<Op>, i: nat, t: string, h: Handler) {
    InForceAt(ops, i, t, h) && forall m: nat :: m < i ==> !InForceAt(ops, m, t, h)
  }

  lemma {:induction false} ListensAscend(ops: seq<Op>, i: nat, j: nat)
    requires i < j <= |ops| && ops[i].Listen?
    ensures Listens(ops[..i]) < Listens(ops[..j])
    decreases j
  {
    assert ops[..j][..j - 1] == ops[..j - 1];
    if i < j - 1 {
      ListensAscend(ops, i, j - 1);
    }
  }

  lemma InForceStep(ops: seq<Op>, i: nat, t: string, h: Handler)
    requires |ops| > 0
    ensures var init, op := ops[..|ops| - 1], ops[|ops| - 1];
      InForceAt(ops, i, t, h) <==>
        if i == |init| then op == Listen(t, h)
        else InForceAt(init, i, t, h) && op != Close && op != Unlisten(Listens(init[..i]))
    ensures InForceAt(ops[..|ops| - 1], i, t, h) ==> i < |ops| - 1
  {
    var init := ops[..|ops| - 1];
    if i < |init| {
      assert ops[i + 1..] == init[i + 1..] + [ops[|init|]];
      assert ops[..i] == init[..i];
    } else if i == |init| {
      assert ops[i + 1..] == [];
    }
  }

  /** Subscription k is the one made by operation i. */
  ghost predicate MadeBy(ops: seq<Op>, k: nat, i: nat, t: string, h: Handler) {
    InForceAt(ops, i, t, h) && Listens(ops[..i]) == k
  }

  /** Subscription k is in force for this type and handler. */
  ghost predicate Wants(subs: seq<Sub>, live: set<nat>, k: nat, t: string, h: Handler) {
    k in live && k < |subs| && subs[k].eventType == t && subs[k].handler == h
  }

  /** The subscriptions in force are those of the operations that no other has undone. */
  lemma {:induction false} LiveIsInForce(ops: seq<Op>, k: nat, t: string, h: Handler)
    ensures |Run(ops).subs| == Listens(ops) && forall m :: m in Run(ops).live ==> m < |Run(ops).subs|
    ensures Wants(Run(ops).subs, Run(ops).live, k, t, h) <==> exists i: nat :: MadeBy(ops, k, i, t, h)
  {
    hide Structured, InForceAt;
    if |ops| == 0 {
      NothingInForce(ops, t, h);
    } else {
      var last := |ops| - 1;
      var init, op := ops[..last], ops[last];
      LiveIsInForce(init, k, t, h);
      StepLive(Run(init), op, k, t, h);
      forall i: nat
        ensures MadeBy(ops, k, i, t, h) <==>
          || (i == last && op == Listen(t, h) && k == Listens(init))
          || (MadeBy(init, k, i, t, h) && op != Close && op != Unlisten(k))
      {
        InForceStep(ops, i, t, h);
        if i < last {
          assert ops[..i] == init[..i];
        }
      }
      hide Run, MadeBy, Wants;
      if i: nat :| MadeBy(init, k, i, t, h) {
        assert MadeBy(ops, k, i, t, h) || !MadeBy(ops, k, i, t, h);
      }
      assert MadeBy(ops, k, last, t, h) || !MadeBy(ops, k, last, t, h);
    }
  }

  lemma NothingInForce(ops: seq<Op>, t: string, h: Handler)
    requires |ops| == 0
    ensures forall i: nat :: !InForceAt(ops, i, t, h)
  {
  }

  lemma StepLive(s: State, op: Op, k: nat, t: string, h: Handler)
    requires Structured(s.r, s.subs) && forall m :: m in s.live ==> m < |s.subs|
    ensures var s' := Step(s, op);
      && |s'.subs| == |s.subs| + (if op.Listen? then 1 else 0)
      && (forall m :: m in s'.live ==> m < |s'.subs|)
      && (Wants(s'.subs, s'.live, k, t, h) <==>
            || (op == Listen(t, h) && k == |s.subs|)
            || (Wants(s.subs, s.live, k, t, h) && op != Close && op != Unlisten(k)))
  {
    hide Off, Dispatched;
  }

  /** The subscription of the type and handler that comes first. */
  ghost predicate FirstLive(subs: seq<Sub>, live: set<nat>, t: string, h: Handler, k: nat) {
    Wants(subs, live, k, t, h) && forall m: nat :: m < k ==> !Wants(subs, live, m, t, h)
  }

  ghost predicate InLiveOrder(subs: seq<Sub>, live: set<nat>, t: string, handlers: seq<Handler>) {
    forall a, b, k: nat, m: nat ::
      (0 <= a < b < |handlers| && FirstLive(subs, live, t, handlers[a], k) && FirstLive(subs, live, t, handlers[b], m))
      ==> k < m
  }

  lemma {:induction false} LiveIsInOrder(subs: seq<Sub>, live: set<nat>, t: string)
    ensures Distinct(Live(subs, live, t)) && InLiveOrder(subs, live, t, Live(subs, live, t))
  {
    if |subs| == 0 {
    } else {
      var last := |subs| - 1;
      var init, before, handlers := subs[..last], Live(subs[..last], live, t), Live(subs, live, t);
      LiveIsInOrder(init, live, t);
      assert before <= handlers;
      forall a, b, k: nat, m: nat | 0 <= a < b < |handlers| && FirstLive(subs, live, t, handlers[a], k)
          && FirstLive(subs, live, t, handlers[b], m)
        ensures k < m
      {
        FirstIsEarlyIff(subs, live, t, handlers[a], k);
        FirstIsEarlyIff(subs, live, t, handlers[b], m);
      }
    }
  }

  lemma LiveWants(subs: seq<Sub>, live: set<nat>, t: string, h: Handler)
    ensures h in Live(subs, live, t) <==> exists k: nat :: Wants(subs, live, k, t, h)
  {
    LiveIff(subs, live, t, h);
    if h in Live(subs, live, t) {
      var k :| k in live && k < |subs| && subs[k].eventType == t && subs[k].handler == h;
      assert Wants(subs, live, k, t, h);
    }
  }

  lemma WantsEarlier(subs: seq<Sub>, live: set<nat>, m: nat, t: string, h: Handler)
    requires |subs| > 0
    ensures Wants(subs[..|subs| - 1], live, m, t, h) <==> m < |subs| - 1 && Wants(subs, live, m, t, h)
    ensures Wants(subs, live, m, t, h) ==> m < |subs|
  {
  }

  /** The first is early exactly if the earlier subscriptions want the handler already. */
  lemma FirstIsEarlyIff(subs: seq<Sub>, live: set<nat>, t: string, h: Handler, k: nat)
    requires |subs| > 0 && FirstLive(subs, live, t, h, k)
    ensures var init := subs[..|subs| - 1];
      if h in Live(init, live, t) then k < |init| && FirstLive(init, live, t, h, k) else k == |init|
  {
    hide Wants, Live;
    var init := subs[..|subs| - 1];
    LiveWants(init, live, t, h);
    forall m: nat
      ensures Wants(init, live, m, t, h) <==> m < |init| && Wants(subs, live, m, t, h)
      ensures Wants(subs, live, m, t, h) ==> m < |subs|
    {
      WantsEarlier(subs, live, m, t, h);
    }
    if m: nat :| Wants(init, live, m, t, h) {
      assert Wants(subs, live, m, t, h);
    }
  }

  /** As long as no closure is run untimely, a frame calls each handler that some operation still in force
      subscribed to its type, no other, none twice, and in the order of their first subscriptions in force. */
  lemma WhoIsCalled(ops: seq<Op>, t: string)
    requires forall i :: 0 <= i < |ops| ==> !UntimelyAt(ops, i)
    ensures var called := Dispatched(Run(ops).r, t);
      && Distinct(called)
      && (forall h :: h in called <==> exists i: nat :: InForceAt(ops, i, t, h))
      && (forall a, b, i: nat, j: nat ::
            0 <= a < b < |called| && FirstAt(ops, i, t, called[a]) && FirstAt(ops, j, t, called[b]) ==> i < j)
  {
    hide Run, Faithful, UntimelyAt, InForceAt, FirstLive, Wants, FirstAt, Live, Distinct, Dispatched;
    var s := Run(ops);
    FaithfulByUseIff(ops);
    assert ops[..|ops|] == ops;
    FaithfulCalls(s, t);
    LiveIsInOrder(s.subs, s.live, t);
    var called := Live(s.subs, s.live, t);
    forall h
      ensures h in called <==> exists i: nat :: InForceAt(ops, i, t, h)
    {
      CalledIff(ops, t, h);
    }
    forall a, b, i: nat, j: nat |
        0 <= a < b < |called| && FirstAt(ops, i, t, called[a]) && FirstAt(ops, j, t, called[b])
      ensures i < j
    {
      FirstIsFirst(ops, i, t, called[a]);
      FirstIsFirst(ops, j, t, called[b]);
      if j < i {
        FirstIsListen(ops, j, t, called[b]);
        FirstIsListen(ops, i, t, called[a]);
        ListensAscend(ops, j, i);
      }
    }
  }

  lemma FaithfulCalls(s: State, t: string)
    requires Faithful(s)
    ensures Dispatched(s.r, t) == Live(s.subs, s.live, t)
  {
  }

  lemma FirstIsListen(ops: seq<Op>, i: nat, t: string, h: Handler)
    requires FirstAt(ops, i, t, h)
    ensures i < |ops| && ops[i].Listen?
  {
  }

  lemma CalledIff(ops: seq<Op>, t: string, h: Handler)
    ensures h in Live(Run(ops).subs, Run(ops).live, t) <==> exists i: nat :: InForceAt(ops, i, t, h)
  {
    hide Run, InForceAt;
    var s := Run(ops);
    LiveWants(s.subs, s.live, t, h);
    if k: nat :| Wants(s.subs, s.live, k, t, h) {
      LiveIsInForce(ops, k, t, h);
    }
    if i: nat :| InForceAt(ops, i, t, h) {
      IsOperation(ops, i, t, h);
      LiveIsInForce(ops, Listens(ops[..i]), t, h);
      assert MadeBy(ops, Listens(ops[..i]), i, t, h);
    }
  }

  lemma IsOperation(ops: seq<Op>, i: nat, t: string, h: Handler)
    requires InForceAt(ops, i, t, h)
    ensures i < |ops| && ops[i].Listen?
  {
  }

  lemma FirstIsFirst(ops: seq<Op>, i: nat, t: string, h: Handler)
    requires FirstAt(ops, i, t, h)
    ensures i < |ops| && FirstLive(Run(ops).subs, Run(ops).live, t, h, Listens(ops[..i]))
  {
    hide Run, InForceAt, Wants, Structured;
    IsOperation(ops, i, t, h);
    var s, k := Run(ops), Listens(ops[..i]);
    LiveIsInForce(ops, k, t, h);
    assert MadeBy(ops, k, i, t, h);
    forall m: nat | m < k
      ensures !Wants(s.subs, s.live, m, t, h)
    {
      LiveIsInForce(ops, m, t, h);
      NotMadeBefore(ops, i, t, h, m);
    }
  }

  lemma NotMadeBefore(ops: seq<Op>, i: nat, t: string, h: Handler, m: nat)
    requires FirstAt(ops, i, t, h) && i < |ops| && m < Listens(ops[..i])
    ensures forall j: nat :: !MadeBy(ops, m, j, t, h)
  {
    IsOperation(ops, i, t, h);
    forall j: nat | i < j < |ops|
      ensures Listens(ops[..i]) < Listens(ops[..j])
    {
      ListensAscend(ops, i, j);
    }
  }
}
