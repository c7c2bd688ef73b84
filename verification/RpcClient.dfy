/** Requests over one WebSocket: numbered calls, a table of pending ones, and the four ways in which a
    call is settled. */
module RpcClient {
  import opened Numerals
  import opened Wrappers

  datatype Socket = Absent | Connecting | Open | Shut

  /** What a server message carries. */
  datatype Answer = Result(result: string) | Error(message: string)

  /** How a caller's promise is settled. */
  datatype Reply = Answered(answer: Answer) | TimedOut | SocketClosed | SendFailed

  datatype Event =
    | Connect
    | Opened
    | Disconnect
    | Call(sendOk: bool)
    | Message(key: string, answer: Answer)
    | Timeout(id: nat)
    | Closed(current: bool)

  /** `pending` holds the keys of the pending map in insertion order, `armed` the calls whose timer
      still runs, `log` every resolve and reject so far. */
  datatype State = State(ws: Socket, requestId: nat, pending: seq<string>, armed: set<nat>, log: seq<(string, Reply)>)

  const FRESH := State(Absent, 0, [], {}, [])

  function Remove(keys: seq<string>, k: string): seq<string> {
    if |keys| == 0 then []
    else if keys[0] == k then Remove(keys[1..], k)
    else [keys[0]] + Remove(keys[1..], k)
  }

  function RejectAll(keys: seq<string>): seq<(string, Reply)> {
    seq(|keys|, i requires 0 <= i < |keys| => (keys[i], SocketClosed))
  }

  /** Takes a call off the table and settles it; a call that is not on the table is left alone. */
  function Settle(s: State, k: string, reply: Reply): State {
    if k in s.pending then s.(pending := Remove(s.pending, k), log := s.log + [(k, reply)]) else s
  }

  function Step(s: State, e: Event): State {
    match e
    case Connect => s.(ws := Connecting)
    case Opened => if s.ws == Connecting then s.(ws := Open) else s
    case Disconnect => s.(ws := Absent)
    case Call(sendOk) =>
      if s.ws != Open then s
      else
        var id := s.requestId + 1;
        var k := Decimal(id);
        if sendOk then s.(requestId := id, pending := s.pending + [k], armed := s.armed + {id})
        else s.(requestId := id, pending := s.pending + [k], log := s.log + [(k, SendFailed)])
    case Message(key, answer) => if key == "" then s else Settle(s, key, Answered(answer))
    case Timeout(id) =>
      if id in s.armed then Settle(s.(armed := s.armed - {id}), Decimal(id), TimedOut) else s
    case Closed(current) =>
      s.(ws := if current && s.ws != Absent then Shut else s.ws, pending := [], log := s.log + RejectAll(s.pending))
  }

  function Run(events: seq<Event>): State {
    if |events| == 0 then FRESH
    else Step(Run(events[..|events| - 1]), events[|events| - 1])
  }

  class InstrumentedClient {
    var ws: Socket
    var requestId: nat
    var pendingRequests: seq<string>
    var timers: set<nat>
    ghost var log: seq<(string, Reply)>

    ghost function View(): State
      reads this
    {
      State(ws, requestId, pendingRequests, timers, log)
    }

    constructor ()
      ensures View() == FRESH
    {
      ws, requestId, pendingRequests, timers, log := Absent, 0, [], {}, [];
    }

    method WsConnect()
      modifies this
      ensures View() == Step(old(View()), Connect)
    {
      ws := Connecting;
    }

    method OnOpen()
      modifies this
      ensures View() == Step(old(View()), Opened)
    {
      if ws == Connecting {
        ws := Open;
      }
    }

    method WsDisconnect()
      modifies this
      ensures View() == Step(old(View()), Disconnect)
    {
      ws := Absent;
    }

    /** `sendOk` says whether handing the request to the socket went through; when it throws, the
        promise is rejected but the table entry stays and no timer is started. */
    method WsCall(sendOk: bool) returns (id: string)
      modifies this
      ensures View() == Step(old(View()), Call(sendOk))
      ensures id == if old(ws) == Open then Decimal(requestId) else ""
    {
      if ws != Open {
        return "";
      }
      requestId := requestId + 1;
      id := Decimal(requestId);
      pendingRequests := pendingRequests + [id];
      if sendOk {
        timers := timers + {requestId};
      } else {
        log := log + [(id, SendFailed)];
      }
    }

    method OnMessage(key: string, answer: Answer)
      modifies this
      ensures View() == Step(old(View()), Message(key, answer))
    {
      if key != "" && key in pendingRequests {
        pendingRequests := Remove(pendingRequests, key);
        log := log + [(key, Answered(answer))];
      }
    }

    method OnTimeout(id: nat)
      modifies this
      ensures View() == Step(old(View()), Timeout(id))
    {
      if id in timers {
        timers := timers - {id};
        var key := Decimal(id);
        if key in pendingRequests {
          pendingRequests := Remove(pendingRequests, key);
          log := log + [(key, TimedOut)];
        }
      }
    }

    method OnClose(current: bool)
      modifies this
      ensures View() == Step(old(View()), Closed(current))
    {
      for i := 0 to |pendingRequests|
        invariant log == old(log) + RejectAll(pendingRequests[..i])
        invariant ws == old(ws) && requestId == old(requestId)
        invariant pendingRequests == old(pendingRequests) && timers == old(timers)
      {
        assert RejectAll(pendingRequests[..i + 1])
            == RejectAll(pendingRequests[..i]) + [(pendingRequests[i], SocketClosed)];
        log := log + [(pendingRequests[i], SocketClosed)];
      }
      assert pendingRequests[..|pendingRequests|] == pendingRequests;
      pendingRequests := [];
      if current && ws != Absent {
        ws := Shut;
      }
    }
  }

  // ------------------------------------------------------- the fate of every request

  /** Everything that was ever done to the promise of call `k`. */
  function Fate(log: seq<(string, Reply)>, k: string): seq<Reply> {
    if |log| == 0 then []
    else
      var last := log[|log| - 1];
      Fate(log[..|log| - 1], k) + if last.0 == k then [last.1] else []
  }

  lemma {:induction false} FateConcat(a: seq<(string, Reply)>, b: seq<(string, Reply)>, k: string)
    ensures Fate(a + b, k) == Fate(a, k) + Fate(b, k)
  {
    if |b| == 0 {
      assert a + b == a;
    } else {
      FateConcat(a, b[..|b| - 1], k);
      assert (a + b)[..|a + b| - 1] == a + b[..|b| - 1];
    }
  }

  lemma {:induction false} RemoveIsExact(keys: seq<string>, k: string)
    requires Distinct(keys)
    ensures Distinct(Remove(keys, k))
    ensures forall x :: x in Remove(keys, k) <==> x in keys && x != k
  {
    if |keys| == 0 {
    } else {
      RemoveIsExact(keys[1..], k);
      assert forall x :: x in keys <==> x == keys[0] || x in keys[1..];
      assert keys[0] !in Remove(keys[1..], k);
    }
  }

  lemma {:induction false} FateOfRejectAll(keys: seq<string>, k: string)
    requires Distinct(keys)
    ensures Fate(RejectAll(keys), k) == if k in keys then [SocketClosed] else []
  {
    if |keys| == 0 {
    } else {
      var init := keys[..|keys| - 1];
      FateOfRejectAll(init, k);
      assert RejectAll(keys)[..|keys| - 1] == RejectAll(init);
      assert forall x :: x in keys <==> x == keys[|keys| - 1] || x in init;
    }
  }

  ghost predicate Issued(s: State, k: string) {
    exists i :: 0 < i <= s.requestId && k == Decimal(i)
  }

  /** What can have happened to a call: still on the table and unsettled, or settled once and gone.
      The one exception is a call whose send threw: its promise is already rejected while the entry is
      still on the table, and a later answer or close takes the entry off with a second, void, settle. */
  ghost predicate Accounted(s: State, k: string) {
    var fate := Fate(s.log, k);
    if !Issued(s, k) then k !in s.pending && fate == []
    else if k in s.pending then fate == [] || fate == [SendFailed]
    else
      || (|fate| == 1 && fate[0] != SendFailed)
      || (|fate| == 2 && fate[0] == SendFailed && fate[1] != SendFailed)
  }

  ghost predicate Inv(s: State) {
    && Distinct(s.pending)
    && (forall k :: Accounted(s, k))
    && (forall i :: i in s.armed ==> TimerIsLive(s, i))
  }

  /** A timer runs only for a call whose send went through. */
  ghost predicate TimerIsLive(s: State, i: nat) {
    0 < i <= s.requestId && SendFailed !in Fate(s.log, Decimal(i))
  }

  lemma TimersStayLive(s: State, s': State, more: seq<(string, Reply)>)
    requires forall i :: i in s.armed ==> TimerIsLive(s, i)
    requires s'.armed <= s.armed && s'.requestId >= s.requestId && s'.log == s.log + more
    requires forall i :: i in s.armed ==> SendFailed !in Fate(more, Decimal(i))
    ensures forall i :: i in s'.armed ==> TimerIsLive(s', i)
  {
    forall i | i in s'.armed
      ensures TimerIsLive(s', i)
    {
      assert TimerIsLive(s, i);
      FateConcat(s.log, more, Decimal(i));
    }
  }

  lemma SettleKeepsInv(s: State, k: string, reply: Reply)
    requires Inv(s) && reply != SendFailed
    ensures Inv(Settle(s, k, reply))
  {
    if k in s.pending {
      var s' := Settle(s, k, reply);
      RemoveIsExact(s.pending, k);
      forall x
        ensures Accounted(s', x)
      {
        assert Accounted(s, x) && (Issued(s', x) <==> Issued(s, x));
        FateConcat(s.log, [(k, reply)], x);
        FateOfOne(k, reply, x);
      }
      forall i | i in s.armed {
        FateOfOne(k, reply, Decimal(i));
      }
      TimersStayLive(s, s', [(k, reply)]);
    }
  }

  lemma FateOfOne(k: string, reply: Reply, x: string)
    ensures Fate([(k, reply)], x) == if x == k then [reply] else []
  {
    assert [(k, reply)][..0] == [];
  }

  /** What one event does to the promise of call `k`. */
  ghost function Done(s: State, e: Event, k: string): seq<Reply> {
    match e
    case Call(sendOk) => if s.ws == Open && !sendOk && k == Decimal(s.requestId + 1) then [SendFailed] else []
    case Message(key, answer) => if key != "" && key == k && k in s.pending then [Answered(answer)] else []
    case Timeout(id) => if id in s.armed && k == Decimal(id) && k in s.pending then [TimedOut] else []
    case Closed(_) => if k in s.pending then [SocketClosed] else []
    case _ => []
  }

  lemma StepFate(s: State, e: Event, k: string)
    requires Distinct(s.pending)
    ensures Fate(Step(s, e).log, k) == Fate(s.log, k) + Done(s, e, k)
  {
    hide Decimal, RejectAll, Fate, Distinct, Remove;
    match e
    case Call(sendOk) =>
      FateConcat(s.log, [(Decimal(s.requestId + 1), SendFailed)], k);
      FateOfOne(Decimal(s.requestId + 1), SendFailed, k);
    case Message(key, answer) =>
      FateConcat(s.log, [(key, Answered(answer))], k);
      FateOfOne(key, Answered(answer), k);
    case Timeout(id) =>
      FateConcat(s.log, [(Decimal(id), TimedOut)], k);
      FateOfOne(Decimal(id), TimedOut, k);
    case Closed(_) =>
      FateConcat(s.log, RejectAll(s.pending), k);
      FateOfRejectAll(s.pending, k);
    case _ =>
  }

  /** How one event changes which calls are on the table. */
  lemma StepTable(s: State, e: Event, k: string)
    requires Distinct(s.pending)
    ensures k in Step(s, e).pending <==>
      || (e.Call? && s.ws == Open && k == Decimal(s.requestId + 1))
      || (k in s.pending && !e.Closed? && !(e.Message? && k != "" && e.key == k)
          && !(e.Timeout? && e.id in s.armed && k == Decimal(e.id)))
  {
    hide Decimal, RejectAll, Distinct, Remove;
    match e
    case Message(key, answer) => RemoveIsExact(s.pending, key);
    case Timeout(id) => RemoveIsExact(s.pending, Decimal(id));
    case _ =>
  }

  lemma CallKeepsInv(s: State, sendOk: bool)
    requires Inv(s)
    ensures Inv(Step(s, Call(sendOk)))
    ensures s.ws == Open ==> !Issued(s, Decimal(s.requestId + 1))
  {
    hide Accounted, Distinct, TimerIsLive, Fate, Decimal, Issued;
    NewNumber(s);
    if s.ws == Open {
      var s' := Step(s, Call(sendOk));
      forall x
        ensures Accounted(s', x)
      {
        assert Accounted(s, x);
        StepFate(s, Call(sendOk), x);
        StepTable(s, Call(sendOk), x);
        IssuedGrows(s, s', x);
        AccountedOn(s, s', x, Decimal(s.requestId + 1), sendOk);
      }
      NewIsDistinct(s.pending, Decimal(s.requestId + 1));
      CallKeepsTimers(s, sendOk);
    }
  }

  lemma NewIsDistinct(keys: seq<string>, k: string)
    requires Distinct(keys) && k !in keys
    ensures Distinct(keys + [k])
  {
  }

  lemma AccountedOn(s: State, s': State, x: string, new_: string, sendOk: bool)
    requires Accounted(s, x) && (x == new_ ==> !Issued(s, x))
    requires Issued(s', x) <==> Issued(s, x) || x == new_
    requires x in s'.pending <==> x in s.pending || x == new_
    requires Fate(s'.log, x) == Fate(s.log, x) + if x == new_ && !sendOk then [SendFailed] else []
    ensures Accounted(s', x)
  {
    hide Fate, Issued;
  }

  lemma CallKeepsTimers(s: State, sendOk: bool)
    requires Inv(s) && s.ws == Open && Fate(s.log, Decimal(s.requestId + 1)) == []
    requires !Issued(s, Decimal(s.requestId + 1))
    ensures var s' := Step(s, Call(sendOk)); forall i :: i in s'.armed ==> TimerIsLive(s', i)
  {
    var new_ := Decimal(s.requestId + 1);
    forall i | i in s.armed
      ensures TimerIsLive(s, i)
      ensures Fate([(new_, SendFailed)], Decimal(i)) == []
    {
      assert Issued(s, Decimal(i));
      FateOfOne(new_, SendFailed, Decimal(i));
    }
    if sendOk {
      assert s.log + [] == s.log;
      TimersStayLive(s, s.(requestId := s.requestId + 1), []);
    } else {
      TimersStayLive(s, Step(s, Call(false)), [(new_, SendFailed)]);
    }
  }

  lemma IssuedGrows(s: State, s': State, x: string)
    requires s'.requestId == s.requestId + 1
    ensures Issued(s', x) <==> Issued(s, x) || x == Decimal(s'.requestId)
  {
    if Issued(s, x) {
      var i :| 0 < i <= s.requestId && x == Decimal(i);
      assert 0 < i <= s'.requestId;
    }
  }

  lemma ClosedKeepsInv(s: State, current: bool)
    requires Inv(s)
    ensures Inv(Step(s, Closed(current)))
  {
    var s' := Step(s, Closed(current));
    forall x
      ensures Accounted(s', x)
    {
      assert Accounted(s, x) && (Issued(s', x) <==> Issued(s, x));
      FateConcat(s.log, RejectAll(s.pending), x);
      FateOfRejectAll(s.pending, x);
    }
    forall i | i in s.armed {
      FateOfRejectAll(s.pending, Decimal(i));
    }
    TimersStayLive(s, s', RejectAll(s.pending));
  }

  lemma SameTable(s: State, s': State)
    requires Inv(s) && s' == s.(ws := s'.ws, armed := s'.armed) && s'.armed <= s.armed
    ensures Inv(s')
  {
    forall x
      ensures Accounted(s', x)
    {
      assert Accounted(s, x) && (Issued(s', x) <==> Issued(s, x));
    }
    forall i | i in s'.armed
      ensures TimerIsLive(s', i)
    {
      assert TimerIsLive(s, i);
    }
  }

  lemma StepKeepsInv(s: State, e: Event)
    requires Inv(s)
    ensures Inv(Step(s, e))
  {
    hide Inv, RejectAll, Decimal;
    match e
    case Call(sendOk) => CallKeepsInv(s, sendOk);
    case Message(key, answer) => SettleKeepsInv(s, key, Answered(answer));
    case Timeout(id) =>
      SameTable(s, s.(armed := s.armed - {id}));
      SettleKeepsInv(s.(armed := s.armed - {id}), Decimal(id), TimedOut);
    case Closed(current) => ClosedKeepsInv(s, current);
    case _ => SameTable(s, Step(s, e));
  }

  /** In every interleaving every call is accounted for. */
  lemma {:induction false} EveryRunIsAccounted(events: seq<Event>)
    ensures Inv(Run(events))
  {
    if |events| == 0 {
      forall k ensures Accounted(FRESH, k) {}
    } else {
      hide Inv, Step;
      EveryRunIsAccounted(events[..|events| - 1]);
      StepKeepsInv(Run(events[..|events| - 1]), events[|events| - 1]);
    }
  }

  // ------------------------------------------------------- the socket and the numbers, from the events alone

  /** The connection begun by event c is the latest, and neither side has ended it. */
  ghost predicate DialledAt(events: seq<Event>, c: nat) {
    && c < |events| && events[c] == Connect
    && forall j :: c < j < |events| ==> events[j] != Connect && events[j] != Disconnect && events[j] != Closed(true)
  }

  ghost predicate OpenSince(events: seq<Event>, c: nat) {
    DialledAt(events, c) && Opened in events[c + 1..]
  }

  /** A connection has been begun, has opened and has not been ended since. */
  ghost predicate IsOpen(events: seq<Event>) {
    exists c: nat :: OpenSince(events, c)
  }

  /** How many calls found the socket open. */
  ghost function Calls(events: seq<Event>): nat {
    if |events| == 0 then 0
    else
      var init, e := events[..|events| - 1], events[|events| - 1];
      Calls(init) + if e.Call? && IsOpen(init) then 1 else 0
  }

  /** Event i is a call that was not refused; its number is one more than the calls before. */
  ghost predicate IssuedAt(events: seq<Event>, i: nat) {
    i < |events| && events[i].Call? && IsOpen(events[..i])
  }

  ghost function NumberAt(events: seq<Event>, i: nat): nat
    requires i < |events|
  {
    Calls(events[..i]) + 1
  }

  lemma DialledStep(events: seq<Event>, c: nat)
    requires |events| > 0
    ensures var init, e := events[..|events| - 1], events[|events| - 1];
      var goesOn := e != Connect && e != Disconnect && e != Closed(true);
      && (DialledAt(events, c) <==> (c == |init| && e == Connect) || (DialledAt(init, c) && goesOn))
      && (OpenSince(events, c) <==> goesOn && (OpenSince(init, c) || (DialledAt(init, c) && e == Opened)))
  {
    var init := events[..|events| - 1];
    if c < |init| {
      assert events[c + 1..] == init[c + 1..] + [events[|init|]];
    } else if c == |init| {
      assert events[c + 1..] == [];
    }
  }

  lemma {:induction false} SocketIff(events: seq<Event>)
    ensures Run(events).ws == Open <==> IsOpen(events)
    ensures Run(events).ws in {Connecting, Open} <==> exists c: nat :: DialledAt(events, c)
  {
    if |events| == 0 {
    } else {
      var init, e := events[..|events| - 1], events[|events| - 1];
      SocketIff(init);
      StepSocket(Run(init), e);
      forall c: nat {
        DialledStep(events, c);
      }
      hide Run, Step, DialledAt, OpenSince;
      assert e == Connect ==> DialledAt(events, |init|);
      if c: nat :| DialledAt(init, c) {
        assert DialledAt(events, c) || !DialledAt(events, c);
        assert OpenSince(events, c) || !OpenSince(events, c);
      }
      if c: nat :| OpenSince(init, c) {
        assert OpenSince(events, c) || !OpenSince(events, c);
      }
    }
  }

  lemma StepSocket(s: State, e: Event)
    ensures Step(s, e).ws ==
      if e == Connect then Connecting
      else if e == Opened && s.ws == Connecting then Open
      else if e == Disconnect then Absent
      else if e == Closed(true) && s.ws != Absent then Shut
      else s.ws
  {
    hide Decimal, RejectAll, Remove;
  }

  lemma {:induction false} NumbersAreCounted(events: seq<Event>)
    ensures Run(events).requestId == Calls(events)
  {
    hide Decimal, RejectAll, Remove, IsOpen;
    if |events| == 0 {
    } else {
      NumbersAreCounted(events[..|events| - 1]);
      SocketIff(events[..|events| - 1]);
    }
  }

  /** A call is refused, and nothing at all happens, exactly when the socket is not open. */
  lemma CallIsRefusedIff(events: seq<Event>, sendOk: bool)
    ensures Run(events + [Call(sendOk)]) == Run(events) <==> !IsOpen(events)
  {
    hide Decimal, IsOpen;
    SocketIff(events);
    assert (events + [Call(sendOk)])[..|events|] == events;
  }

  /** So it is after a disconnect, or after the close of the socket in use, until a new one is opened. */
  lemma NoCallAfterClose(events: seq<Event>, j: nat, sendOk: bool)
    requires j < |events| && (events[j] == Disconnect || events[j] == Closed(true))
    requires Connect !in events[j + 1..] || Opened !in events[j + 1..]
    ensures Run(events + [Call(sendOk)]) == Run(events)
  {
    hide Run, IsOpen;
    CallIsRefusedIff(events, sendOk);
    if IsOpen(events) {
      OpenedLater(events, j);
    }
  }

  lemma OpenedLater(events: seq<Event>, j: nat)
    requires j < |events| && (events[j] == Disconnect || events[j] == Closed(true)) && IsOpen(events)
    ensures Connect in events[j + 1..] && Opened in events[j + 1..]
  {
    var c: nat :| OpenSince(events, c);
    assert c > j && events[c] == events[j + 1..][c - j - 1];
    assert events[c + 1..] == events[j + 1..][c - j..];
  }

  // ------------------------------------------------------- how a call ends

  /** What an event means for call `id`, if the call is still pending. A call whose send threw has no timer. */
  function EndOf(e: Event, id: nat, sendOk: bool): Option<Reply> {
    match e
    case Message(key, answer) => if key == Decimal(id) then Some(Answered(answer)) else None
    case Timeout(fired) => if sendOk && fired == id then Some(TimedOut) else None
    case Closed(_) => Some(SocketClosed)
    case _ => None
  }

  function FirstEnd(events: seq<Event>, id: nat, sendOk: bool): Option<Reply> {
    if |events| == 0 then None
    else if EndOf(events[0], id, sendOk).Some? then EndOf(events[0], id, sendOk)
    else FirstEnd(events[1..], id, sendOk)
  }

  lemma {:induction false} FirstEndGrows(events: seq<Event>, e: Event, id: nat, sendOk: bool)
    ensures FirstEnd(events + [e], id, sendOk)
         == if FirstEnd(events, id, sendOk).Some? then FirstEnd(events, id, sendOk) else EndOf(e, id, sendOk)
  {
    hide EndOf;
    if |events| == 0 {
      assert (events + [e])[1..] == [];
    } else {
      assert (events + [e])[1..] == events[1..] + [e];
      FirstEndGrows(events[1..], e, id, sendOk);
    }
  }

  lemma {:induction false} FirstEndIff(events: seq<Event>, id: nat, sendOk: bool)
    ensures FirstEnd(events, id, sendOk).None? <==> forall e :: e in events ==> EndOf(e, id, sendOk).None?
  {
    hide EndOf;
    if |events| == 0 {
    } else {
      FirstEndIff(events[1..], id, sendOk);
      assert forall e :: e in events <==> e == events[0] || e in events[1..];
    }
  }

  /** How call `id` stands: settled by its end, if that has come, and else on the table; its timer, once started,
      runs until it fires. */
  ghost predicate Stands(s: State, id: nat, sendOk: bool, end: Option<Reply>, fired: bool) {
    var k := Decimal(id);
    && 0 < id <= s.requestId
    && Fate(s.log, k) == (if sendOk then [] else [SendFailed]) + (if end.Some? then [end.value] else [])
    && (k in s.pending <==> end.None?)
    && (id in s.armed <==> sendOk && !fired)
  }

  lemma StandsAtFirst(s: State, sendOk: bool)
    requires Inv(s) && s.ws == Open
    ensures Stands(Step(s, Call(sendOk)), s.requestId + 1, sendOk, None, false)
  {
    hide Decimal, Fate, Accounted;
    NewNumber(s);
    StepFate(s, Call(sendOk), Decimal(s.requestId + 1));
    StepTable(s, Call(sendOk), Decimal(s.requestId + 1));
    assert s.requestId + 1 in s.armed ==> TimerIsLive(s, s.requestId + 1);
  }

  lemma StandsOn(s: State, e: Event, id: nat, sendOk: bool, end: Option<Reply>, fired: bool)
    requires Inv(s) && Stands(s, id, sendOk, end, fired) && (end.None? && sendOk ==> !fired)
    ensures Stands(Step(s, e), id, sendOk, if end.Some? then end else EndOf(e, id, sendOk), fired || e == Timeout(id))
  {
    hide Decimal, Fate, Step, Inv, Distinct;
    var k := Decimal(id);
    InvIsDistinct(s);
    NewNumber(s);
    assert Issued(s, k);
    if e.Timeout? && Decimal(e.id) == k {
      DecimalIsInjective(e.id, id);
    }
    StepTimers(s, e, id);
    EndIsDone(s, e, id, sendOk, end, fired);
    StepFate(s, e, k);
    StepTable(s, e, k);
    hide Issued;
  }

  lemma EndIsDone(s: State, e: Event, id: nat, sendOk: bool, end: Option<Reply>, fired: bool)
    requires Stands(s, id, sendOk, end, fired) && (end.None? && sendOk ==> !fired)
    requires Decimal(s.requestId + 1) != Decimal(id) && (e.Timeout? && Decimal(e.id) == Decimal(id) ==> e.id == id)
    ensures Done(s, e, Decimal(id)) ==
      if end.None? && EndOf(e, id, sendOk).Some? then [EndOf(e, id, sendOk).value] else []
  {
    hide Decimal, Fate;
  }

  lemma StepTimers(s: State, e: Event, id: nat)
    ensures Step(s, e).requestId >= s.requestId
    ensures id in Step(s, e).armed <==>
      (id in s.armed && e != Timeout(id)) || (e == Call(true) && s.ws == Open && id == s.requestId + 1)
  {
    hide Decimal, RejectAll, Remove;
  }

  /** Every call in every run: its promise is settled by the first event that ends it, an answer with its id, a
      close, or, if its send went through, its timer, and by nothing else; until then it is on the table. */
  lemma {:induction false} FirstEndSettles(events: seq<Event>, i: nat)
    requires IssuedAt(events, i)
    ensures var id, sendOk, later := NumberAt(events, i), events[i].sendOk, events[i + 1..];
      Stands(Run(events), id, sendOk, FirstEnd(later, id, sendOk), Timeout(id) in later)
    decreases |events|
  {
    hide Decimal, Step, Inv, IsOpen, EndOf, Stands, FirstEnd, Calls;
    var last := |events| - 1;
    var init, e := events[..last], events[last];
    var id, sendOk := NumberAt(events, i), events[i].sendOk;
    EveryRunIsAccounted(init);
    if i == last {
      SocketIff(init);
      NumbersAreCounted(init);
      StandsAtFirst(Run(init), sendOk);
      assert events[i + 1..] == [];
      NoEnd(id, sendOk);
    } else {
      assert init[..i] == events[..i];
      FirstEndSettles(init, i);
      var later := init[i + 1..];
      assert events[i + 1..] == later + [e];
      FirstEndGrows(later, e, id, sendOk);
      FirstEndIff(later, id, sendOk);
      TimeoutEnds(id);
      StandsOn(Run(init), e, id, sendOk, FirstEnd(later, id, sendOk), Timeout(id) in later);
    }
  }

  lemma NoEnd(id: nat, sendOk: bool)
    ensures FirstEnd([], id, sendOk) == None
  {
  }

  lemma TimeoutEnds(id: nat)
    ensures EndOf(Timeout(id), id, true) == Some(TimedOut)
  {
  }

  lemma {:induction false} ArmedWasSent(events: seq<Event>, id: nat) returns (i: nat)
    requires id in Run(events).armed
    ensures SentAt(events, i, id)
  {
    hide Decimal, Step, IsOpen, Calls;
    var last := |events| - 1;
    var init := events[..last];
    StepTimers(Run(init), events[last], id);
    if id in Run(init).armed {
      i := ArmedWasSent(init, id);
      assert init[..i] == events[..i];
    } else {
      i := last;
      SocketIff(init);
      NumbersAreCounted(init);
    }
  }

  /** Event i is a call that was sent, with this number. */
  ghost predicate SentAt(events: seq<Event>, i: nat, id: nat) {
    IssuedAt(events, i) && events[i] == Call(true) && id == NumberAt(events, i)
  }

  lemma SentIsArmedIff(events: seq<Event>, i: nat, id: nat)
    requires SentAt(events, i, id)
    ensures i < |events| && (id in Run(events).armed <==> Timeout(id) !in events[i + 1..])
  {
    hide Run, IsOpen, Calls, FirstEnd, Decimal, Fate;
    FirstEndSettles(events, i);
  }

  /** A timer runs exactly for a call that was sent and whose timer has not fired since. */
  lemma TimerRunsIff(events: seq<Event>, id: nat)
    ensures id in Run(events).armed <==>
      exists i: nat :: SentAt(events, i, id) && i < |events| && Timeout(id) !in events[i + 1..]
  {
    hide Run, SentAt;
    if id in Run(events).armed {
      var i := ArmedWasSent(events, id);
      SentIsArmedIff(events, i, id);
    }
    if i: nat :| SentAt(events, i, id) && i < |events| && Timeout(id) !in events[i + 1..] {
      SentIsArmedIff(events, i, id);
    }
  }

  /** A close, or the timer of a call that was sent, leaves the call settled and off the table, whatever else
      happens before or after. */
  lemma TimerAndCloseSettle(events: seq<Event>, i: nat, j: nat)
    requires IssuedAt(events, i) && i < j < |events|
    requires events[j].Closed? || (events[i] == Call(true) && events[j] == Timeout(NumberAt(events, i)))
    ensures var s, k := Run(events), Decimal(NumberAt(events, i));
      k !in s.pending && Fate(s.log, k) != []
  {
    hide Decimal, Fate, Run, FirstEnd, EndOf, IsOpen, Calls;
    var id, sendOk, later := NumberAt(events, i), events[i].sendOk, events[i + 1..];
    FirstEndSettles(events, i);
    FirstEndIff(later, id, sendOk);
    assert later[j - i - 1] == events[j];
    ThisEnds(events[j], id, sendOk);
  }

  lemma ThisEnds(e: Event, id: nat, sendOk: bool)
    requires e.Closed? || (sendOk && e == Timeout(id))
    ensures EndOf(e, id, sendOk).Some?
  {
  }

  // ------------------------------------------------------- the order of the table

  function Keys(ids: seq<nat>): seq<string> {
    seq(|ids|, i requires 0 <= i < |ids| => Decimal(ids[i]))
  }

  ghost predicate Ascending(ids: seq<nat>, n: nat) {
    && (forall i, j :: 0 <= i < j < |ids| ==> ids[i] < ids[j])
    && (forall i :: 0 <= i < |ids| ==> 0 < ids[i] <= n)
  }

  lemma {:induction false} RemoveKeepsOrder(ids: seq<nat>, n: nat, k: string) returns (left: seq<nat>)
    requires Ascending(ids, n)
    ensures Keys(left) == Remove(Keys(ids), k) && Ascending(left, n)
    ensures forall id :: id in left ==> id in ids
  {
    hide Decimal;
    if |ids| == 0 {
      left := [];
    } else {
      left := RemoveKeepsOrder(ids[1..], n, k);
      assert Keys(ids)[1..] == Keys(ids[1..]);
      if Decimal(ids[0]) != k {
        assert Keys([ids[0]] + left) == [Decimal(ids[0])] + Keys(left);
        forall m | 0 <= m < |left|
          ensures ids[0] < left[m]
        {
          assert left[m] in ids[1..];
        }
        left := [ids[0]] + left;
      }
    }
  }

  /** The table lists the pending calls in the order they were made. */
  lemma {:induction false} TableIsInOrder(events: seq<Event>) returns (ids: seq<nat>)
    ensures Run(events).pending == Keys(ids) && Ascending(ids, Calls(events))
  {
    hide Decimal, Remove, RejectAll, IsOpen;
    if |events| == 0 {
      ids := [];
    } else {
      var init, e := events[..|events| - 1], events[|events| - 1];
      var s := Run(init);
      ids := TableIsInOrder(init);
      NumbersAreCounted(init);
      NumbersAreCounted(events);
      match e
      case Call(_) =>
        if s.ws == Open {
          assert Keys(ids + [s.requestId + 1]) == Keys(ids) + [Decimal(s.requestId + 1)];
          ids := ids + [s.requestId + 1];
        }
      case Message(key, _) =>
        if key != "" && key in s.pending {
          ids := RemoveKeepsOrder(ids, s.requestId, key);
        }
      case Timeout(id) =>
        if id in s.armed && Decimal(id) in s.pending {
          ids := RemoveKeepsOrder(ids, s.requestId, Decimal(id));
        }
      case Closed(_) => ids := [];
      case _ =>
    }
  }

  /** A close rejects exactly the pending calls, in the order they were made, and empties the table. */
  lemma CloseRejectsInOrder(events: seq<Event>, current: bool) returns (ids: seq<nat>)
    ensures Ascending(ids, Calls(events))
    ensures forall id: nat :: id in ids <==> Decimal(id) in Run(events).pending
    ensures var s, s' := Run(events), Run(events + [Closed(current)]);
      && s'.pending == []
      && |s'.log| == |s.log| + |ids| && s'.log[..|s.log|] == s.log
      && forall n :: 0 <= n < |ids| ==> s'.log[|s.log| + n] == (Decimal(ids[n]), SocketClosed)
  {
    hide Decimal, Calls, Keys, RejectAll, Ascending;
    ids := TableIsInOrder(events);
    assert (events + [Closed(current)])[..|events|] == events;
    forall id: nat
      ensures id in ids <==> Decimal(id) in Keys(ids)
    {
      KeyIff(ids, id);
    }
    RejectKeys(ids);
  }

  lemma KeyIff(ids: seq<nat>, id: nat)
    ensures id in ids <==> Decimal(id) in Keys(ids)
  {
    hide Decimal;
    if n :| 0 <= n < |ids| && Keys(ids)[n] == Decimal(id) {
      DecimalIsInjective(ids[n], id);
    }
    if n :| 0 <= n < |ids| && ids[n] == id {
      assert Keys(ids)[n] == Decimal(id);
    }
  }

  lemma RejectKeys(ids: seq<nat>)
    ensures var log := RejectAll(Keys(ids));
      |log| == |ids| && forall n :: 0 <= n < |ids| ==> log[n] == (Decimal(ids[n]), SocketClosed)
  {
    hide Decimal;
  }

  // ------------------------------------------------------- consequences over whole runs

  /** Exactly the calls that were issued and not yet settled are on the table. */
  ghost predicate TableIsExact(s: State) {
    forall k :: k in s.pending <==> Issued(s, k) && Fate(s.log, k) == []
  }

  /** Some call is on the table although its promise is settled. */
  ghost predicate HasLeak(s: State) {
    exists k :: k in s.pending && Fate(s.log, k) == [SendFailed]
  }

  lemma TableIsExactIff(events: seq<Event>)
    ensures TableIsExact(Run(events)) <==> !HasLeak(Run(events))
  {
    EveryRunIsAccounted(events);
    var s := Run(events);
    hide Run, Fate, Issued;
    forall k
      ensures (k in s.pending <==> Issued(s, k) && Fate(s.log, k) == [])
        <==> !(k in s.pending && Fate(s.log, k) == [SendFailed])
    {
      assert Accounted(s, k);
    }
  }

  /** A leak is left by a send that threw, until a close or a message with that very key clears it. */
  ghost predicate LeftBy(events: seq<Event>, k: string, i: nat) {
    && IssuedAt(events, i) && !events[i].sendOk && k == Decimal(NumberAt(events, i))
    && forall j :: i < j < |events| ==> !events[j].Closed? && !(events[j].Message? && events[j].key == k)
  }

  lemma LeftByStep(events: seq<Event>, k: string, i: nat)
    requires |events| > 0
    ensures var init, e := events[..|events| - 1], events[|events| - 1];
      LeftBy(events, k, i) <==>
        if i == |events| - 1 then e == Call(false) && IsOpen(init) && k == Decimal(Calls(init) + 1)
        else LeftBy(init, k, i) && !e.Closed? && !(e.Message? && e.key == k)
    ensures LeftBy(events[..|events| - 1], k, i) ==> i < |events| - 1
  {
    hide IsOpen, Calls, Decimal;
    var init := events[..|events| - 1];
    if i < |init| {
      assert init[..i] == events[..i];
    }
  }

  /** One step's effect on a leaked call. */
  lemma LeakStep(s: State, e: Event, k: string)
    requires Inv(s) && k != ""
    ensures var s' := Step(s, e);
      k in s'.pending && Fate(s'.log, k) == [SendFailed] <==>
        || (e == Call(false) && s.ws == Open && k == Decimal(s.requestId + 1))
        || (k in s.pending && Fate(s.log, k) == [SendFailed] && !e.Closed? && !(e.Message? && e.key == k))
  {
    StepFate(s, e, k);
    StepTable(s, e, k);
    NewNumber(s);
    assert e.Timeout? && e.id in s.armed ==> TimerIsLive(s, e.id);
    hide Decimal, Fate, Step, Inv, Accounted;
  }

  /** The next number is not in use. */
  lemma NewNumber(s: State)
    requires Inv(s)
    ensures !Issued(s, Decimal(s.requestId + 1))
    ensures Decimal(s.requestId + 1) !in s.pending && Fate(s.log, Decimal(s.requestId + 1)) == []
  {
    var k := Decimal(s.requestId + 1);
    assert Accounted(s, k);
    hide Decimal, Fate;
    if Issued(s, k) {
      var i :| 0 < i <= s.requestId && k == Decimal(i);
      DecimalIsInjective(i, s.requestId + 1);
    }
  }

  /** The table holds more than the unsettled calls exactly when some send threw and neither a close
      nor a message with its key has come since. */
  lemma {:induction false} LeakIff(events: seq<Event>, k: string)
    requires k != ""
    ensures k in Run(events).pending && Fate(Run(events).log, k) == [SendFailed]
      <==> exists i: nat :: LeftBy(events, k, i)
  {
    hide Step, Decimal, Fate, LeftBy, IsOpen, Calls;
    if |events| == 0 {
      NothingLeft(k);
      assert events == [];
    } else {
      var last := |events| - 1;
      var s := Run(events[..last]);
      LeakIff(events[..last], k);
      EveryRunIsAccounted(events[..last]);
      SocketIff(events[..last]);
      NumbersAreCounted(events[..last]);
      LeakStep(s, events[last], k);
      forall i: nat {
        LeftByStep(events, k, i);
      }
      assert LeftBy(events, k, last) || !LeftBy(events, k, last);
      if i: nat :| LeftBy(events[..last], k, i) {
        assert LeftBy(events, k, i) || !LeftBy(events, k, i);
      }
    }
  }

  lemma NothingLeft(k: string)
    ensures forall i: nat :: !LeftBy([], k, i)
  {
  }

  ghost predicate SendsGoThrough(events: seq<Event>) {
    Call(false) !in events
  }

  /** With every send going through, each call is settled at most once and the table is exact. */
  lemma NoSendFailsNoLeak(events: seq<Event>)
    requires SendsGoThrough(events)
    ensures TableIsExact(Run(events))
    ensures forall k :: |Fate(Run(events).log, k)| <= 1
  {
    EveryRunIsAccounted(events);
    var s := Run(events);
    hide Run, Issued, Fate;
    forall k
      ensures |Fate(s.log, k)| <= 1
      ensures k in s.pending <==> Issued(s, k) && Fate(s.log, k) == []
    {
      NoSendFailed(events, k);
      assert Accounted(s, k);
    }
  }

  lemma {:induction false} NoSendFailed(events: seq<Event>, k: string)
    requires SendsGoThrough(events)
    ensures SendFailed !in Fate(Run(events).log, k)
  {
    hide Step, Inv;
    if |events| == 0 {
    } else {
      var last := |events| - 1;
      var s := Run(events[..last]);
      NoSendFailed(events[..last], k);
      EveryRunIsAccounted(events[..last]);
      InvIsDistinct(s);
      StepFate(s, events[last], k);
      hide Fate, Run;
    }
  }

  lemma InvIsDistinct(s: State)
    requires Inv(s)
    ensures Distinct(s.pending)
  {
  }

  /** Without that, it is not: one throwing send leaves a settled call on the table. */
  lemma ThrowingSendLeaks()
    ensures !TableIsExact(Run([Connect, Opened, Call(false)]))
  {
    var a, b, c := [Connect], [Connect, Opened], [Connect, Opened, Call(false)];
    assert a[..0] == [] && b[..1] == a && c[..2] == b;
    assert Run(a) == State(Connecting, 0, [], {}, []);
    assert Run(b) == State(Open, 0, [], {}, []);
    var s := Run(c);
    assert s == State(Open, 1, [Decimal(1)], {}, [(Decimal(1), SendFailed)]);
    FateOfOne(Decimal(1), SendFailed, Decimal(1));
    assert Decimal(1) in s.pending;
  }

  /** A call that has left the table is never touched again, whatever arrives later: late answers,
      answers to unknown ids, its own timer, a close. Its number is not given out again. */
  lemma {:induction false} SettledStaysSettled(events: seq<Event>, more: seq<Event>, k: string)
    requires Issued(Run(events), k) && k !in Run(events).pending
    ensures var s, s' := Run(events), Run(events + more);
      Issued(s', k) && k !in s'.pending && Fate(s'.log, k) == Fate(s.log, k)
  {
    if |more| == 0 {
      assert events + more == events;
    } else {
      var init, e := more[..|more| - 1], more[|more| - 1];
      assert (events + more)[..|events + more| - 1] == events + init;
      SettledStaysSettled(events, init, k);
      EveryRunIsAccounted(events + init);
      hide Run, Decimal;
      GoneStaysGone(Run(events + init), e, k);
    }
  }

  lemma GoneStaysGone(s: State, e: Event, k: string)
    requires Inv(s) && Issued(s, k) && k !in s.pending
    ensures var s' := Step(s, e); Issued(s', k) && k !in s'.pending && Fate(s'.log, k) == Fate(s.log, k)
  {
    StepFate(s, e, k);
    StepTable(s, e, k);
    NewNumber(s);
    hide Decimal, Fate, Inv, Distinct, RejectAll;
    if e.Call? {
      IssuedGrows(s, s.(requestId := s.requestId + 1), k);
    }
  }

  /** What made event number i settle call `k` with `reply`. */
  ghost predicate Cause(events: seq<Event>, i: nat, k: string, reply: Reply) {
    && i < |events|
    && match reply
       case Answered(answer) => events[i] == Message(k, answer)
       case TimedOut => exists id :: events[i] == Timeout(id) && k == Decimal(id)
       case SocketClosed => events[i].Closed?
       case SendFailed => events[i] == Call(false) && IssuedAt(events, i) && k == Decimal(NumberAt(events, i))
  }

  /** Each settlement of a call comes from an event of its own: a message with its id, its own timer,
      its own failed send, or a close. */
  lemma {:induction false} EverySettlementHasACause(events: seq<Event>, j: nat)
    requires j < |Run(events).log|
    ensures exists i: nat :: Cause(events, i, Run(events).log[j].0, Run(events).log[j].1)
  {
    hide Step, Cause, Decimal;
    if |events| == 0 {
    } else {
      var last := |events| - 1;
      var s := Run(events[..last]);
      StepLogs(s, events[last]);
      if j < |s.log| {
        EverySettlementHasACause(events[..last], j);
        var i: nat :| Cause(events[..last], i, s.log[j].0, s.log[j].1);
        CauseStays(events, i, s.log[j].0, s.log[j].1);
      } else {
        LastCause(events, j);
      }
    }
  }

  /** Nothing is taken back. */
  lemma StepLogs(s: State, e: Event)
    ensures s.log <= Step(s, e).log
  {
    hide Decimal, RejectAll, Remove;
  }

  lemma CauseStays(events: seq<Event>, i: nat, k: string, reply: Reply)
    requires |events| > 0 && Cause(events[..|events| - 1], i, k, reply)
    ensures Cause(events, i, k, reply)
  {
    hide Run, Decimal, IsOpen, Calls;
    assert events[..|events| - 1][..i] == events[..i];
  }

  lemma LastCause(events: seq<Event>, j: nat)
    requires |events| > 0 && |Run(events[..|events| - 1]).log| <= j < |Run(events).log|
    ensures Cause(events, |events| - 1, Run(events).log[j].0, Run(events).log[j].1)
  {
    var s, e := Run(events[..|events| - 1]), events[|events| - 1];
    NewEntry(s, e, j);
    SocketIff(events[..|events| - 1]);
    NumbersAreCounted(events[..|events| - 1]);
    hide Run, Decimal, Step, IsOpen, Calls;
  }

  /** What a step can add to the log. */
  lemma NewEntry(s: State, e: Event, j: nat)
    requires |s.log| <= j < |Step(s, e).log|
    ensures var (k, reply) := Step(s, e).log[j];
      match reply
      case Answered(answer) => e == Message(k, answer)
      case TimedOut => e.Timeout? && k == Decimal(e.id)
      case SocketClosed => e.Closed?
      case SendFailed => e == Call(false) && s.ws == Open && k == Decimal(s.requestId + 1)
  {
    hide Decimal, Remove;
  }
}
