/** Server-pushed offers on one wire. Each frame hangs a link on a chain of promises,
    `pending.then(() => applyOffer(frame).catch(...))`; each offer is applied in four awaited operations,
    and `detach` waits for the end of the chain. Which link moves next is up to the scheduler. */
module Renegotiation {
  import opened Wrappers

  datatype Frame = Frame(neighbourhoodUrl: string, roomName: string, sdpOffer: Option<string>)

  /** What the wire is set up for; `parses` says which offer texts are JSON. */
  datatype Config = Config(neighbourhoodUrl: string, roomName: string, parses: string -> bool)

  /** The awaited operations of one offer, in order; the first three make up `createAnswer`. */
  datatype Op = SetRemote | CreateAnswer | SetLocal | Post

  /** A link's promise: its handler not yet run, waiting for an operation, about to run its `catch`, or
      settled. */
  datatype Status = Waiting | Running(op: Op) | Threw | Fulfilled | Rejected

  datatype Link = Link(frame: Frame, status: Status)

  /** How links are hung up. `chained`: by `then` on the link before; else the handler runs at once.
      `caught`: the handler ends in the `catch` that counts a failure. */
  datatype Wiring = Wiring(chained: bool, caught: bool)

  /** As the wire does it. */
  const WIRED := Wiring(true, true)

  /** An operation begun by the link with this arrival number. */
  datatype Entry = Entry(frame: nat, op: Op)

  datatype Event =
    | Arrive(frame: Frame)
    | Advance(link: nat, ok: bool, callbackThrows: bool)
    | Detach

  /** `log` is every operation begun, `threw` the number of `onRenegotiated` callbacks that threw. */
  datatype State = State(subscribed: bool, links: seq<Link>, applied: nat, failed: nat, threw: nat, log: seq<Entry>)

  const FRESH := State(true, [], 0, 0, 0, [])

  predicate Matches(cfg: Config, frame: Frame) {
    && frame.neighbourhoodUrl == cfg.neighbourhoodUrl
    && frame.roomName == cfg.roomName
    && frame.sdpOffer.Some?
  }

  function Next(op: Op): Op
    requires op != Post
  {
    match op
    case SetRemote => CreateAnswer
    case CreateAnswer => SetLocal
    case SetLocal => Post
  }

  predicate Settled(status: Status) {
    status == Fulfilled || status == Rejected
  }

  /** A handler hung on a promise runs once that promise is fulfilled; on a rejected one it never runs, and
      its own promise is rejected too. */
  function Begun(cfg: Config, w: Wiring, links: seq<Link>, i: nat): Status
    requires i < |links|
  {
    if w.chained && i > 0 && links[i - 1].status == Rejected then Rejected
    else if w.chained && i > 0 && links[i - 1].status != Fulfilled then Waiting
    else if !Matches(cfg, links[i].frame) then Fulfilled
    else if !cfg.parses(links[i].frame.sdpOffer.value) then Threw
    else Running(SetRemote)
  }

  /** Where one more turn of the event loop takes link i. */
  function Moved(cfg: Config, w: Wiring, links: seq<Link>, i: nat, ok: bool, callbackThrows: bool): Status
    requires i < |links|
  {
    match links[i].status
    case Waiting => Begun(cfg, w, links, i)
    case Running(op) =>
      if !ok then Threw
      else if op != Post then Running(Next(op))
      else if callbackThrows then Threw
      else Fulfilled
    case Threw => if w.caught then Fulfilled else Rejected
    case settled => settled
  }

  function Step(cfg: Config, w: Wiring, s: State, e: Event): State {
    match e
    case Arrive(frame) => if s.subscribed then s.(links := s.links + [Link(frame, Waiting)]) else s
    case Detach => s.(subscribed := false)
    case Advance(i, ok, callbackThrows) =>
      if i >= |s.links| then s
      else
        var was, now := s.links[i].status, Moved(cfg, w, s.links, i, ok, callbackThrows);
        var posted := was == Running(Post) && ok;
        State(s.subscribed, s.links[i := Link(s.links[i].frame, now)],
              s.applied + if posted then 1 else 0,
              s.failed + if was == Threw && w.caught then 1 else 0,
              s.threw + if posted && callbackThrows then 1 else 0,
              if now.Running? then s.log + [Entry(i, now.op)] else s.log)
  }

  function Run(cfg: Config, w: Wiring, events: seq<Event>): State {
    if |events| == 0 then FRESH
    else Step(cfg, w, Run(cfg, w, events[..|events| - 1]), events[|events| - 1])
  }

  class RenegotiationWire {
    const cfg: Config
    var subscribed: bool
    var pending: seq<Link>
    var applied: nat
    var failed: nat
    ghost var threw: nat
    ghost var log: seq<Entry>

    ghost function View(): State
      reads this
    {
      State(subscribed, pending, applied, failed, threw, log)
    }

    constructor (cfg: Config)
      ensures this.cfg == cfg && View() == FRESH
    {
      this.cfg := cfg;
      subscribed, pending, applied, failed, threw, log := true, [], 0, 0, 0, [];
    }

    method OnFrame(frame: Frame)
      modifies this
      ensures View() == Step(cfg, WIRED, old(View()), Arrive(frame))
    {
      if subscribed {
        pending := pending + [Link(frame, Waiting)];
      }
    }

    /** `detach` up to its await, which is on the last link. */
    method StopListening()
      modifies this
      ensures View() == Step(cfg, WIRED, old(View()), Detach)
    {
      subscribed := false;
    }

    /** One turn of the event loop for link i. `ok` is the outcome of the operation it waits for, if any. */
    method Resume(i: nat, ok: bool, callbackThrows: bool)
      modifies this
      ensures View() == Step(cfg, WIRED, old(View()), Advance(i, ok, callbackThrows))
    {
      if i >= |pending| {
        return;
      }
      var frame, now := pending[i].frame, pending[i].status;
      match pending[i].status {
        case Waiting =>
          if i > 0 && pending[i - 1].status == Rejected {
            now := Rejected;
          } else if i == 0 || pending[i - 1].status == Fulfilled {
            if !Matches(cfg, frame) {
              now := Fulfilled;
            } else if !cfg.parses(frame.sdpOffer.value) {
              now := Threw;
            } else {
              now := Running(SetRemote);
              log := log + [Entry(i, SetRemote)];
            }
          }
        case Running(op) =>
          if !ok {
            now := Threw;
          } else if op != Post {
            now := Running(Next(op));
            log := log + [Entry(i, Next(op))];
          } else {
            applied := applied + 1;
            if callbackThrows {
              threw := threw + 1;
              now := Threw;
            } else {
              now := Fulfilled;
            }
          }
        case Threw =>
          failed := failed + 1;
          now := Fulfilled;
        case _ =>
      }
      pending := pending[i := Link(frame, now)];
    }
  }

  // ------------------------------------------------------- order and serialisation

  /** Operation b may directly follow operation a on the wire: it is the next one for the same frame, or
      the first one for a frame that arrived later. */
  predicate Follows(a: Entry, b: Entry) {
    || (b.frame == a.frame && a.op != Post && b.op == Next(a.op))
    || (b.frame > a.frame && b.op == SetRemote)
  }

  ghost predicate Serial(log: seq<Entry>) {
    && (|log| > 0 ==> log[0].op == SetRemote)
    && (forall i :: 0 < i < |log| ==> Follows(log[i - 1], log[i]))
  }

  /** A link that has started finds every earlier one settled. */
  ghost predicate InOrder(links: seq<Link>) {
    forall i, j :: 0 <= i < j < |links| && links[j].status != Waiting ==> Settled(links[i].status)
  }

  /** The log tells the operations of the started links, the latest of which may be under way. */
  ghost predicate LogFits(links: seq<Link>, log: seq<Entry>) {
    && Serial(log)
    && (forall k :: 0 <= k < |log| ==> log[k].frame < |links| && links[log[k].frame].status != Waiting)
    && (forall i :: 0 <= i < |links| && links[i].status.Running? ==>
          |log| > 0 && log[|log| - 1] == Entry(i, links[i].status.op))
  }

  lemma {:induction false} FramesAscend(log: seq<Entry>, i: nat, j: nat)
    requires Serial(log) && i <= j < |log|
    ensures log[i].frame <= log[j].frame
    decreases j
  {
    if i == j {
    } else {
      FramesAscend(log, i, j - 1);
      assert Follows(log[j - 1], log[j]);
    }
  }

  lemma SerialGrows(log: seq<Entry>, e: Entry)
    requires Serial(log)
    requires if |log| == 0 then e.op == SetRemote else Follows(log[|log| - 1], e)
    ensures Serial(log + [e])
  {
    var log' := log + [e];
    forall i | 0 < i < |log'|
      ensures Follows(log'[i - 1], log'[i])
    {
      if i < |log| {
        assert log'[i - 1] == log[i - 1] && log'[i] == log[i];
      }
    }
  }

  lemma AdvanceKeepsOrder(cfg: Config, w: Wiring, s: State, i: nat, ok: bool, callbackThrows: bool)
    requires w.chained && InOrder(s.links) && i < |s.links|
    ensures InOrder(Step(cfg, w, s, Advance(i, ok, callbackThrows)).links)
  {
    hide Matches;
    var links, links' := s.links, Step(cfg, w, s, Advance(i, ok, callbackThrows)).links;
    forall j, k | 0 <= j < k < |links'| && links'[k].status != Waiting
      ensures Settled(links'[j].status)
    {
      if k == i && links[i].status == Waiting && j < i - 1 {
        assert links[i - 1].status != Waiting;
      }
    }
  }

  lemma AdvanceKeepsLog(cfg: Config, w: Wiring, s: State, i: nat, ok: bool, callbackThrows: bool)
    requires w.chained && InOrder(s.links) && LogFits(s.links, s.log) && i < |s.links|
    ensures var s' := Step(cfg, w, s, Advance(i, ok, callbackThrows)); LogFits(s'.links, s'.log)
  {
    hide Matches, Follows, Serial, InOrder, LogFits;
    AdvanceKeepsOrder(cfg, w, s, i, ok, callbackThrows);
    var now := Moved(cfg, w, s.links, i, ok, callbackThrows);
    if now.Running? {
      LogGrows(s, i, now.op);
    } else if now != s.links[i].status {
      LogRests(s, i, now);
    } else {
      assert s.links[i := Link(s.links[i].frame, now)] == s.links;
    }
  }

  lemma LogGrows(s: State, i: nat, op: Op)
    requires InOrder(s.links) && LogFits(s.links, s.log) && i < |s.links|
    requires InOrder(s.links[i := Link(s.links[i].frame, Running(op))])
    requires match s.links[i].status
      case Waiting => op == SetRemote
      case Running(prior) => prior != Post && op == Next(prior)
      case _ => false
    ensures LogFits(s.links[i := Link(s.links[i].frame, Running(op))], s.log + [Entry(i, op)])
  {
    hide Follows, Serial;
    EntryFollows(s, i, op);
    SerialGrows(s.log, Entry(i, op));
    var links' := s.links[i := Link(s.links[i].frame, Running(op))];
    forall j | 0 <= j < |links'| && links'[j].status.Running?
      ensures j == i
    {
      assert links'[i].status == Running(op);
      assert j < i || j == i || i < j;
    }
  }

  lemma LogRests(s: State, i: nat, now: Status)
    requires LogFits(s.links, s.log) && i < |s.links| && !now.Running? && now != Waiting
    ensures LogFits(s.links[i := Link(s.links[i].frame, now)], s.log)
  {
    hide Follows, Serial;
  }

  lemma EntryFollows(s: State, i: nat, op: Op)
    requires InOrder(s.links) && LogFits(s.links, s.log) && i < |s.links|
    requires match s.links[i].status
      case Waiting => op == SetRemote
      case Running(prior) => prior != Post && op == Next(prior)
      case _ => false
    ensures if |s.log| == 0 then op == SetRemote else Follows(s.log[|s.log| - 1], Entry(i, op))
  {
    if |s.log| > 0 {
      var last := s.log[|s.log| - 1];
      assert s.links[last.frame].status != Waiting;
    }
  }

  // ------------------------------------------------------- the books

  /** How often an answer was posted back. */
  function CountPosts(log: seq<Entry>): nat {
    if |log| == 0 then 0 else CountPosts(log[..|log| - 1]) + if log[|log| - 1].op == Post then 1 else 0
  }

  /** How many links are posting one. */
  function CountPosting(links: seq<Link>): nat {
    if |links| == 0 then 0
    else CountPosting(links[..|links| - 1]) + if links[|links| - 1].status == Running(Post) then 1 else 0
  }

  /** How many matching frames have been dealt with. */
  function CountDone(cfg: Config, links: seq<Link>): nat {
    if |links| == 0 then 0
    else
      var last := links[|links| - 1];
      CountDone(cfg, links[..|links| - 1]) + if last.status == Fulfilled && Matches(cfg, last.frame) then 1 else 0
  }

  function CountMatching(cfg: Config, links: seq<Link>): nat {
    if |links| == 0 then 0
    else CountMatching(cfg, links[..|links| - 1]) + if Matches(cfg, links[|links| - 1].frame) then 1 else 0
  }

  /** Turns a link still has to take, at most. */
  function Turns(status: Status): nat {
    match status
    case Waiting => 6
    case Running(SetRemote) => 5
    case Running(CreateAnswer) => 4
    case Running(SetLocal) => 3
    case Running(Post) => 2
    case Threw => 1
    case _ => 0
  }

  function Left(links: seq<Link>): nat {
    if |links| == 0 then 0 else Left(links[..|links| - 1]) + Turns(links[|links| - 1].status)
  }

  lemma {:induction false} LinkMoves(cfg: Config, links: seq<Link>, i: nat, now: Status)
    requires i < |links|
    ensures var was, links' := links[i].status, links[i := Link(links[i].frame, now)];
      && CountPosting(links') + (if was == Running(Post) then 1 else 0)
           == CountPosting(links) + (if now == Running(Post) then 1 else 0)
      && CountDone(cfg, links') + (if was == Fulfilled && Matches(cfg, links[i].frame) then 1 else 0)
           == CountDone(cfg, links) + (if now == Fulfilled && Matches(cfg, links[i].frame) then 1 else 0)
      && Left(links') + Turns(was) == Left(links) + Turns(now)
  {
    hide Matches, Turns;
    var last := |links| - 1;
    var links' := links[i := Link(links[i].frame, now)];
    if i == last {
      assert links'[..last] == links[..last];
    } else {
      LinkMoves(cfg, links[..last], i, now);
      assert links'[..last] == links[..last][i := Link(links[i].frame, now)];
    }
  }

  ghost predicate Inv(cfg: Config, w: Wiring, s: State) {
    && (w.chained ==> InOrder(s.links) && LogFits(s.links, s.log))
    && (w.caught ==> NoneRejected(s.links))
    && Tried(cfg, s)
    && BusyMatch(cfg, s.links)
    && s.applied + s.failed == CountDone(cfg, s.links) + s.threw
    && s.applied + CountPosting(s.links) <= CountPosts(s.log)
  }

  predicate Busy(status: Status) {
    status.Running? || status == Threw
  }

  /** Only matching frames keep a link busy. */
  ghost predicate BusyMatch(cfg: Config, links: seq<Link>) {
    forall i :: 0 <= i < |links| && Busy(links[i].status) ==> Matches(cfg, links[i].frame)
  }

  ghost predicate NoneRejected(links: seq<Link>) {
    forall i :: 0 <= i < |links| ==> links[i].status != Rejected
  }

  /** Every offer whose handler ran, and could be parsed, was begun. */
  ghost predicate Tried(cfg: Config, s: State) {
    forall i :: 0 <= i < |s.links| && s.links[i].status !in {Waiting, Rejected} && Applicable(cfg, s.links[i].frame)
      ==> Entry(i, SetRemote) in s.log
  }

  predicate Applicable(cfg: Config, frame: Frame) {
    Matches(cfg, frame) && cfg.parses(frame.sdpOffer.value)
  }

  lemma AdvanceKeepsBooks(cfg: Config, w: Wiring, s: State, i: nat, ok: bool, callbackThrows: bool)
    requires Inv(cfg, w, s) && i < |s.links|
    ensures var s' := Step(cfg, w, s, Advance(i, ok, callbackThrows));
      && s'.applied + s'.failed == CountDone(cfg, s'.links) + s'.threw
      && s'.applied + CountPosting(s'.links) <= CountPosts(s'.log)
  {
    hide InOrder, LogFits, NoneRejected, Tried, Matches, CountDone, CountPosting, CountPosts;
    var now := Moved(cfg, w, s.links, i, ok, callbackThrows);
    LinkMoves(cfg, s.links, i, now);
    if now.Running? {
      PostsGrow(s.log, Entry(i, now.op));
    }
  }

  lemma PostsGrow(log: seq<Entry>, e: Entry)
    ensures CountPosts(log + [e]) == CountPosts(log) + if e.op == Post then 1 else 0
  {
    assert (log + [e])[..|log|] == log;
  }

  lemma AdvanceKeepsTries(cfg: Config, w: Wiring, s: State, i: nat, ok: bool, callbackThrows: bool)
    requires Tried(cfg, s) && i < |s.links|
    ensures Tried(cfg, Step(cfg, w, s, Advance(i, ok, callbackThrows)))
  {
    var s' := Step(cfg, w, s, Advance(i, ok, callbackThrows));
    forall j | 0 <= j < |s'.links| && s'.links[j].status !in {Waiting, Rejected} && Applicable(cfg, s'.links[j].frame)
      ensures Entry(j, SetRemote) in s'.log
    {
      if j == i && s.links[i].status == Waiting {
        assert s'.log == s.log + [Entry(i, SetRemote)];
      } else {
        assert Entry(j, SetRemote) in s.log;
      }
    }
  }

  lemma ArriveKeepsInv(cfg: Config, w: Wiring, s: State, frame: Frame)
    requires Inv(cfg, w, s)
    ensures Inv(cfg, w, s.(links := s.links + [Link(frame, Waiting)]))
  {
    hide Matches, Serial;
    var links' := s.links + [Link(frame, Waiting)];
    assert links'[..|s.links|] == s.links;
  }

  lemma AdvanceKeepsStatus(cfg: Config, w: Wiring, s: State, i: nat, ok: bool, callbackThrows: bool)
    requires BusyMatch(cfg, s.links) && i < |s.links|
    ensures var links' := Step(cfg, w, s, Advance(i, ok, callbackThrows)).links;
      BusyMatch(cfg, links') && (w.caught && NoneRejected(s.links) ==> NoneRejected(links'))
  {
    hide Matches;
  }

  lemma AdvanceKeepsInv(cfg: Config, w: Wiring, s: State, i: nat, ok: bool, callbackThrows: bool)
    requires Inv(cfg, w, s) && i < |s.links|
    ensures Inv(cfg, w, Step(cfg, w, s, Advance(i, ok, callbackThrows)))
  {
    hide InOrder, LogFits, Tried, NoneRejected, BusyMatch, CountDone, CountPosting, CountPosts, Step;
    AdvanceKeepsBooks(cfg, w, s, i, ok, callbackThrows);
    AdvanceKeepsTries(cfg, w, s, i, ok, callbackThrows);
    AdvanceKeepsStatus(cfg, w, s, i, ok, callbackThrows);
    if w.chained {
      AdvanceKeepsOrder(cfg, w, s, i, ok, callbackThrows);
      AdvanceKeepsLog(cfg, w, s, i, ok, callbackThrows);
    }
  }

  lemma StepKeepsInv(cfg: Config, w: Wiring, s: State, e: Event)
    requires Inv(cfg, w, s)
    ensures Inv(cfg, w, Step(cfg, w, s, e))
  {
    match e
    case Arrive(frame) => ArriveKeepsInv(cfg, w, s, frame);
    case Detach =>
    case Advance(i, ok, callbackThrows) =>
      if i < |s.links| {
        hide Inv;
        AdvanceKeepsInv(cfg, w, s, i, ok, callbackThrows);
      }
  }

  lemma {:induction false} RunKeepsInv(cfg: Config, w: Wiring, events: seq<Event>)
    ensures Inv(cfg, w, Run(cfg, w, events))
  {
    if |events| == 0 {
    } else {
      hide Inv, Step;
      RunKeepsInv(cfg, w, events[..|events| - 1]);
      StepKeepsInv(cfg, w, Run(cfg, w, events[..|events| - 1]), events[|events| - 1]);
    }
  }

  // ------------------------------------------------------- what chaining is for

  function Rank(op: Op): nat {
    match op
    case SetRemote => 1
    case CreateAnswer => 2
    case SetLocal => 3
    case Post => 4
  }

  /** At most one offer is being applied; the operations begun are those of one offer after the other, in
      order of arrival, and within an offer the first, second, third and fourth with nothing in between. */
  ghost predicate OneAtATime(s: State) {
    OneBusy(s.links) && InTurn(s.log)
  }

  ghost predicate OneBusy(links: seq<Link>) {
    forall i, j :: 0 <= i < j < |links| ==> !(Busy(links[i].status) && Busy(links[j].status))
  }

  ghost predicate InTurn(log: seq<Entry>) {
    && (forall i, j :: 0 <= i < j < |log| ==> log[i].frame <= log[j].frame)
    && (forall i :: 0 <= i < |log| ==>
          Rank(log[i].op) == if i > 0 && log[i - 1].frame == log[i].frame then Rank(log[i - 1].op) + 1 else 1)
  }

  lemma SerialIsInTurn(log: seq<Entry>)
    requires Serial(log)
    ensures InTurn(log)
  {
    forall i | 0 < i < |log|
      ensures Follows(log[i - 1], log[i])
    {
    }
    forall i, j | 0 <= i < j < |log|
      ensures log[i].frame <= log[j].frame
    {
      FramesAscend(log, i, j);
    }
  }

  lemma OrderIsOneBusy(links: seq<Link>)
    requires InOrder(links)
    ensures OneBusy(links)
  {
  }

  lemma ChainedIsOneAtATime(cfg: Config, w: Wiring, events: seq<Event>)
    requires w.chained
    ensures OneAtATime(Run(cfg, w, events))
  {
    RunKeepsInv(cfg, w, events);
    hide Run, CountDone, CountPosts, CountPosting, Tried, InOrder, OneBusy, Serial, InTurn;
    SerialIsInTurn(Run(cfg, w, events).log);
    OrderIsOneBusy(Run(cfg, w, events).links);
  }

  /** Whatever the scheduler does, offers never interleave if and only if links are chained. No offer ever
      counts as applied without its answer having been posted. */
  lemma OffersNeverInterleaveIff(w: Wiring)
    ensures (forall cfg: Config, events: seq<Event> :: OneAtATime(Run(cfg, w, events))) <==> w.chained
    ensures forall cfg: Config, events: seq<Event> ::
      var s := Run(cfg, w, events); s.applied <= CountPosts(s.log)
  {
    forall cfg: Config, events: seq<Event>
      ensures w.chained ==> OneAtATime(Run(cfg, w, events))
      ensures var s := Run(cfg, w, events); s.applied <= CountPosts(s.log)
    {
      RunKeepsInv(cfg, w, events);
      if w.chained {
        ChainedIsOneAtATime(cfg, w, events);
      }
    }
    if !w.chained {
      UnchainedOffersInterleave(w);
    }
  }

  const OFFER := Frame("", "", Some(""))

  function Everything(): Config {
    Config("", "", (text: string) => true)
  }

  /** Two frames have arrived. */
  lemma TwoArrivals(w: Wiring) returns (events: seq<Event>)
    ensures events == [Arrive(OFFER), Arrive(OFFER)]
    ensures Run(Everything(), w, events) == FRESH.(links := [Link(OFFER, Waiting), Link(OFFER, Waiting)])
  {
    var one := [Arrive(OFFER)];
    events := [Arrive(OFFER), Arrive(OFFER)];
    assert one[..0] == [] && events[..1] == one;
    assert Run(Everything(), w, one) == FRESH.(links := [Link(OFFER, Waiting)]);
  }

  lemma RunMore(cfg: Config, w: Wiring, events: seq<Event>, e: Event)
    ensures Run(cfg, w, events + [e]) == Step(cfg, w, Run(cfg, w, events), e)
  {
    assert (events + [e])[..|events|] == events;
  }

  lemma UnchainedOffersInterleave(w: Wiring)
    requires !w.chained
    ensures exists cfg: Config, events: seq<Event> :: !OneAtATime(Run(cfg, w, events))
  {
    var cfg := Everything();
    var events := TwoArrivals(w);
    var first, second := Advance(0, true, false), Advance(1, true, false);
    RunMore(cfg, w, events, first);
    RunMore(cfg, w, events + [first], second);
    var s := Run(cfg, w, events + [first] + [second]);
    assert s.links == [Link(OFFER, Running(SetRemote)), Link(OFFER, Running(SetRemote))];
    assert Busy(s.links[0].status) && Busy(s.links[1].status);
  }

  // ------------------------------------------------------- what the catch is for

  /** No link of the chain is ever rejected if and only if failures are caught. */
  lemma NeverRejectedIff(w: Wiring)
    ensures (forall cfg: Config, events: seq<Event> :: NoneRejected(Run(cfg, w, events).links)) <==> w.caught
  {
    if w.caught {
      forall cfg: Config, events: seq<Event>
        ensures NoneRejected(Run(cfg, w, events).links)
      {
        RunKeepsInv(cfg, w, events);
      }
    } else {
      var events := FirstOfferFails(w);
      assert Run(Everything(), w, events).links[0].status == Rejected;
    }
  }

  /** Two offers; the first one's first operation fails. */
  lemma FirstOfferFails(w: Wiring) returns (events: seq<Event>)
    requires !w.caught
    ensures Run(Everything(), w, events)
         == State(true, [Link(OFFER, Rejected), Link(OFFER, Waiting)], 0, 0, 0, [Entry(0, SetRemote)])
  {
    var cfg := Everything();
    events := TwoArrivals(w);
    var begin, fail, settle := Advance(0, true, false), Advance(0, false, false), Advance(0, true, false);
    RunMore(cfg, w, events, begin);
    RunMore(cfg, w, events + [begin], fail);
    RunMore(cfg, w, events + [begin] + [fail], settle);
    var one, two := Run(cfg, w, events + [begin]), Run(cfg, w, events + [begin] + [fail]);
    assert one.links == [Link(OFFER, Running(SetRemote)), Link(OFFER, Waiting)];
    assert two.links == [Link(OFFER, Threw), Link(OFFER, Waiting)];
    events := events + [begin] + [fail] + [settle];
    assert Run(cfg, w, events).links == [Link(OFFER, Rejected), Link(OFFER, Waiting)];
  }

  ghost predicate Drained(s: State) {
    forall i :: 0 <= i < |s.links| ==> Settled(s.links[i].status)
  }

  /** Every frame that carries an applicable offer was begun. */
  ghost predicate AllTried(cfg: Config, s: State) {
    forall i :: 0 <= i < |s.links| && Applicable(cfg, s.links[i].frame) ==> Entry(i, SetRemote) in s.log
  }

  /** A failed offer never stops a later one: once the chain has drained every applicable offer was tried,
      for every schedule and every outcome, if and only if failures are caught (or nothing is chained). */
  lemma LaterOffersAreTriedIff(w: Wiring)
    ensures (forall cfg: Config, events: seq<Event> ::
               Drained(Run(cfg, w, events)) ==> AllTried(cfg, Run(cfg, w, events)))
      <==> w.caught || !w.chained
  {
    if w.caught || !w.chained {
      forall cfg: Config, events: seq<Event> | Drained(Run(cfg, w, events))
        ensures AllTried(cfg, Run(cfg, w, events))
      {
        DrainedAllTried(cfg, w, events);
      }
    } else {
      var events := FirstOfferFails(w);
      var skip := Advance(1, true, false);
      RunMore(Everything(), w, events, skip);
      var s := Run(Everything(), w, events + [skip]);
      assert s.links == [Link(OFFER, Rejected), Link(OFFER, Rejected)] && s.log == [Entry(0, SetRemote)];
      assert Drained(s) && Applicable(Everything(), s.links[1].frame) && !AllTried(Everything(), s);
    }
  }

  lemma DrainedAllTried(cfg: Config, w: Wiring, events: seq<Event>)
    requires (w.caught || !w.chained) && Drained(Run(cfg, w, events))
    ensures AllTried(cfg, Run(cfg, w, events))
  {
    RunKeepsInv(cfg, w, events);
    if !w.caught {
      UnchainedIsTried(cfg, w, events);
    }
  }

  /** Without a chain nothing is skipped. */
  lemma {:induction false} UnchainedIsTried(cfg: Config, w: Wiring, events: seq<Event>)
    requires !w.chained
    ensures var s := Run(cfg, w, events);
      forall i :: 0 <= i < |s.links| && s.links[i].status != Waiting && Applicable(cfg, s.links[i].frame) ==>
        Entry(i, SetRemote) in s.log
  {
    if |events| == 0 {
    } else {
      var s, s' := Run(cfg, w, events[..|events| - 1]), Run(cfg, w, events);
      UnchainedIsTried(cfg, w, events[..|events| - 1]);
      forall i | 0 <= i < |s'.links| && s'.links[i].status != Waiting && Applicable(cfg, s'.links[i].frame)
        ensures Entry(i, SetRemote) in s'.log
      {
        if s.links[i].status == Waiting {
          assert s'.log == s.log + [Entry(i, SetRemote)];
        } else {
          assert Entry(i, SetRemote) in s.log;
        }
      }
    }
  }

  // ------------------------------------------------------- which frames are answered

  /** The frames that came while the wire was listening. */
  function Arrivals(events: seq<Event>): seq<Frame> {
    if |events| == 0 then []
    else
      var init, e := events[..|events| - 1], events[|events| - 1];
      Arrivals(init) + if e.Arrive? && Detach !in init then [e.frame] else []
  }

  function Frames(links: seq<Link>): seq<Frame> {
    seq(|links|, i requires 0 <= i < |links| => links[i].frame)
  }

  /** The chain has one link for each of them, in their order. */
  lemma {:induction false} LinksAreArrivals(cfg: Config, w: Wiring, events: seq<Event>)
    ensures var s := Run(cfg, w, events);
      Frames(s.links) == Arrivals(events) && (s.subscribed <==> Detach !in events)
  {
    hide Moved;
    if |events| == 0 {
    } else {
      var init, e := events[..|events| - 1], events[|events| - 1];
      LinksAreArrivals(cfg, w, init);
      assert Detach in events <==> Detach in init || e == Detach;
    }
  }

  /** Operations are begun for applicable offers only. */
  ghost predicate OnlyApplicable(cfg: Config, s: State) {
    && (forall i :: 0 <= i < |s.links| && s.links[i].status.Running? ==> Applicable(cfg, s.links[i].frame))
    && (forall k :: 0 <= k < |s.log| ==> EntryApplies(cfg, s.links, s.log[k]))
  }

  ghost predicate EntryApplies(cfg: Config, links: seq<Link>, entry: Entry) {
    entry.frame < |links| && Applicable(cfg, links[entry.frame].frame)
  }

  lemma StepKeepsApplicable(cfg: Config, w: Wiring, s: State, e: Event)
    requires OnlyApplicable(cfg, s)
    ensures OnlyApplicable(cfg, Step(cfg, w, s, e))
  {
    hide Applicable, EntryApplies;
    var s' := Step(cfg, w, s, e);
    forall k | 0 <= k < |s.log|
      ensures EntryApplies(cfg, s'.links, s.log[k])
    {
      StillApplies(cfg, s.links, s'.links, s.log[k]);
    }
    if e.Advance? && e.link < |s.links| {
      BegunApplies(cfg, w, s.links, e.link, e.ok, e.callbackThrows);
      hide Moved;
      OwnEntryApplies(cfg, s'.links, e.link);
    }
  }

  lemma OwnEntryApplies(cfg: Config, links: seq<Link>, i: nat)
    requires i < |links|
    ensures Applicable(cfg, links[i].frame) ==> forall op :: EntryApplies(cfg, links, Entry(i, op))
  {
    hide Applicable;
  }

  lemma StillApplies(cfg: Config, links: seq<Link>, links': seq<Link>, entry: Entry)
    requires EntryApplies(cfg, links, entry) && |links| <= |links'|
    requires forall i :: 0 <= i < |links| ==> links'[i].frame == links[i].frame
    ensures EntryApplies(cfg, links', entry)
  {
    hide Applicable;
  }

  lemma BegunApplies(cfg: Config, w: Wiring, links: seq<Link>, i: nat, ok: bool, callbackThrows: bool)
    requires i < |links| && (links[i].status.Running? ==> Applicable(cfg, links[i].frame))
    ensures Moved(cfg, w, links, i, ok, callbackThrows).Running? ==> Applicable(cfg, links[i].frame)
  {
  }

  lemma {:induction false} RunKeepsApplicable(cfg: Config, w: Wiring, events: seq<Event>)
    ensures OnlyApplicable(cfg, Run(cfg, w, events))
  {
    if |events| == 0 {
    } else {
      hide OnlyApplicable, Step;
      RunKeepsApplicable(cfg, w, events[..|events| - 1]);
      StepKeepsApplicable(cfg, w, Run(cfg, w, events[..|events| - 1]), events[|events| - 1]);
    }
  }

  /** Nothing is ever begun for a frame of another neighbourhood or room or without a readable offer; once the
      chain has drained, the answer to every other frame has been begun. */
  lemma OwnOffersAreAnsweredIff(cfg: Config, events: seq<Event>, i: nat)
    requires i < |Arrivals(events)|
    ensures var log, frame := Run(cfg, WIRED, events).log, Arrivals(events)[i];
      var own := frame.neighbourhoodUrl == cfg.neighbourhoodUrl && frame.roomName == cfg.roomName
                 && frame.sdpOffer.Some? && cfg.parses(frame.sdpOffer.value);
      && (forall op :: Entry(i, op) in log ==> own)
      && (Drained(Run(cfg, WIRED, events)) ==> (Entry(i, SetRemote) in log <==> own))
  {
    var s, frame := Run(cfg, WIRED, events), Arrivals(events)[i];
    LinksAreArrivals(cfg, WIRED, events);
    assert Frames(s.links)[i] == frame;
    RunKeepsApplicable(cfg, WIRED, events);
    if Drained(s) {
      DrainedAllTried(cfg, WIRED, events);
    }
    hide Run, Arrivals;
    forall op | Entry(i, op) in s.log
      ensures Applicable(cfg, frame)
    {
      assert EntryApplies(cfg, s.links, Entry(i, op));
    }
  }

  // ------------------------------------------------------- the counters

  /** Event k ends operation `op` of link i. */
  ghost predicate EndsOp(cfg: Config, events: seq<Event>, k: nat, i: nat, op: Op) {
    && k < |events| && events[k].Advance? && events[k].link == i
    && IsRunning(Run(cfg, WIRED, events[..k]), i, op)
  }

  predicate IsRunning(s: State, i: nat, op: Op) {
    i < |s.links| && s.links[i].status == Running(op)
  }

  ghost predicate Succeeds(cfg: Config, events: seq<Event>, i: nat, op: Op) {
    exists k: nat :: EndsOp(cfg, events, k, i, op) && events[k].ok
  }

  /** Some operation of link i failed, or its callback threw. */
  ghost predicate Breaks(cfg: Config, events: seq<Event>, i: nat) {
    exists k: nat, op :: BreaksAt(cfg, events, k, i, op)
  }

  ghost predicate BreaksAt(cfg: Config, events: seq<Event>, k: nat, i: nat, op: Op) {
    EndsOp(cfg, events, k, i, op) && (!events[k].ok || (op == Post && events[k].callbackThrows))
  }

  /** The frames whose four operations all succeeded. */
  ghost function Answered(cfg: Config, events: seq<Event>): set<nat> {
    set i: nat | i < |Arrivals(events)| && AnsweredAt(cfg, events, i)
  }

  ghost predicate AnsweredAt(cfg: Config, events: seq<Event>, i: nat) {
    forall op :: Succeeds(cfg, events, i, op)
  }

  /** The frames for this wire whose offer could not be parsed, or of which some operation failed or the
      callback threw. */
  ghost function Broken(cfg: Config, events: seq<Event>): set<nat> {
    set i: nat | i < |Arrivals(events)| && BrokenAt(cfg, events, i, Arrivals(events)[i])
  }

  ghost predicate BrokenAt(cfg: Config, events: seq<Event>, i: nat, frame: Frame) {
    && frame.neighbourhoodUrl == cfg.neighbourhoodUrl && frame.roomName == cfg.roomName && frame.sdpOffer.Some?
    && (!cfg.parses(frame.sdpOffer.value) || Breaks(cfg, events, i))
  }

  lemma EndsOpStep(cfg: Config, events: seq<Event>, k: nat, i: nat, op: Op)
    requires |events| > 0
    ensures var last := |events| - 1;
      EndsOp(cfg, events, k, i, op) <==>
        if k == last then
          events[last].Advance? && events[last].link == i && IsRunning(Run(cfg, WIRED, events[..last]), i, op)
        else EndsOp(cfg, events[..last], k, i, op)
  {
    hide Run;
    var init := events[..|events| - 1];
    if k < |init| {
      assert init[..k] == events[..k];
    }
  }

  lemma TaleStep(cfg: Config, events: seq<Event>, i: nat)
    requires |events| > 0
    ensures var init, e := events[..|events| - 1], events[|events| - 1];
      var s := Run(cfg, WIRED, init);
      && (forall op :: Succeeds(cfg, events, i, op) <==>
            Succeeds(cfg, init, i, op) || (e.Advance? && e.link == i && e.ok && IsRunning(s, i, op)))
      && (Breaks(cfg, events, i) <==>
            || Breaks(cfg, init, i)
            || (e.Advance? && e.link == i && i < |s.links| && s.links[i].status.Running?
                && (!e.ok || (s.links[i].status == Running(Post) && e.callbackThrows))))
  {
    var last := |events| - 1;
    var init, e := events[..last], events[last];
    forall k: nat, op {
      EndsOpStep(cfg, events, k, i, op);
    }
    forall k: nat, op | EndsOp(cfg, init, k, i, op)
      ensures k < last && EndsOp(cfg, events, k, i, op) && events[k] == init[k]
    {
    }
    hide EndsOp, Run;
    var s := Run(cfg, WIRED, init);
    forall op
      ensures Succeeds(cfg, events, i, op) <==>
        Succeeds(cfg, init, i, op) || (e.Advance? && e.link == i && e.ok && IsRunning(s, i, op))
    {
      if k: nat :| EndsOp(cfg, init, k, i, op) && init[k].ok {
        assert EndsOp(cfg, events, k, i, op) && events[k].ok;
      }
      assert EndsOp(cfg, events, last, i, op) || !EndsOp(cfg, events, last, i, op);
    }
    if k: nat, op :| BreaksAt(cfg, init, k, i, op) {
      assert BreaksAt(cfg, events, k, i, op);
    }
    if i < |s.links| && s.links[i].status.Running? {
      var op := s.links[i].status.op;
      assert BreaksAt(cfg, events, last, i, op) || !BreaksAt(cfg, events, last, i, op);
    }
    if k: nat, op :| BreaksAt(cfg, events, k, i, op) {
      assert k < last ==> BreaksAt(cfg, init, k, i, op);
    }
  }

  /** What the history of a link says about its status. */
  ghost predicate Fits(cfg: Config, events: seq<Event>, i: nat, link: Link) {
    match link.status
    case Waiting => Untouched(cfg, events, i)
    case Running(op) =>
      && Applicable(cfg, link.frame) && !Breaks(cfg, events, i)
      && forall p :: Succeeds(cfg, events, i, p) <==> Rank(p) < Rank(op)
    case Threw => Matches(cfg, link.frame) && (Breaks(cfg, events, i) || !cfg.parses(link.frame.sdpOffer.value))
    case Fulfilled =>
      Applicable(cfg, link.frame) ==> AnsweredAt(cfg, events, i) || Breaks(cfg, events, i)
    case Rejected => false
  }

  ghost predicate Untouched(cfg: Config, events: seq<Event>, i: nat) {
    !Breaks(cfg, events, i) && forall p :: !Succeeds(cfg, events, i, p)
  }

  ghost predicate HistoryFits(cfg: Config, events: seq<Event>, i: nat) {
    var links := Run(cfg, WIRED, events).links;
    if i < |links| && Applicable(cfg, links[i].frame) then Fits(cfg, events, i, links[i])
    else Untouched(cfg, events, i) && (i < |links| ==> Fits(cfg, events, i, links[i]))
  }

  lemma FitsOn(cfg: Config, events: seq<Event>, i: nat)
    requires |events| > 0 && HistoryFits(cfg, events[..|events| - 1], i)
    ensures HistoryFits(cfg, events, i)
  {
    hide Run, Succeeds, Breaks, Arrivals;
    TaleStep(cfg, events, i);
    NoneIsRejected(cfg, events[..|events| - 1]);
    LastStep(cfg, events);
  }

  lemma LastStep(cfg: Config, events: seq<Event>)
    requires |events| > 0
    ensures Run(cfg, WIRED, events) == Step(cfg, WIRED, Run(cfg, WIRED, events[..|events| - 1]), events[|events| - 1])
  {
    hide Step;
  }

  lemma NoneIsRejected(cfg: Config, events: seq<Event>)
    ensures NoneRejected(Run(cfg, WIRED, events).links)
  {
    RunKeepsInv(cfg, WIRED, events);
  }

  lemma {:induction false} EveryHistoryFits(cfg: Config, events: seq<Event>, i: nat)
    ensures HistoryFits(cfg, events, i)
  {
    if |events| == 0 {
    } else {
      hide HistoryFits;
      EveryHistoryFits(cfg, events[..|events| - 1], i);
      FitsOn(cfg, events, i);
    }
  }

  /** The broken frames that have been dealt with. */
  ghost function Caught(cfg: Config, events: seq<Event>): set<nat> {
    set i: nat | i < |Arrivals(events)| && CaughtAt(cfg, events, i)
  }

  ghost predicate CaughtAt(cfg: Config, events: seq<Event>, i: nat) {
    var links := Run(cfg, WIRED, events).links;
    i < |links| && links[i].status == Fulfilled && BrokenAt(cfg, events, i, links[i].frame)
  }

  /** The latest event is the end of link i's post, or the turn in which its catch runs. */
  ghost predicate Posts(cfg: Config, events: seq<Event>, i: nat)
    requires |events| > 0
  {
    var s, e := Run(cfg, WIRED, events[..|events| - 1]), events[|events| - 1];
    e.Advance? && e.link == i && e.ok && IsRunning(s, i, Post)
  }

  ghost predicate Catches(cfg: Config, events: seq<Event>, i: nat)
    requires |events| > 0
  {
    var s, e := Run(cfg, WIRED, events[..|events| - 1]), events[|events| - 1];
    e.Advance? && e.link == i && i < |s.links| && s.links[i].status == Threw
  }

  lemma BecomesAnswered(cfg: Config, events: seq<Event>, i: nat)
    requires |events| > 0
    ensures var init := events[..|events| - 1];
      && (AnsweredAt(cfg, events, i) <==> AnsweredAt(cfg, init, i) || Posts(cfg, events, i))
      && (Posts(cfg, events, i) ==> !AnsweredAt(cfg, init, i))
  {
    EveryHistoryFits(cfg, events[..|events| - 1], i);
    TaleStep(cfg, events, i);
    hide Run, Succeeds, Breaks, Applicable, Matches;
    var s := Run(cfg, WIRED, events[..|events| - 1]);
    if i < |s.links| && s.links[i].status.Running? {
      assert Rank(Post) >= Rank(s.links[i].status.op);
    }
  }

  lemma BecomesCaught(cfg: Config, events: seq<Event>, i: nat)
    requires |events| > 0
    ensures var init := events[..|events| - 1];
      && (CaughtAt(cfg, events, i) <==> CaughtAt(cfg, init, i) || Catches(cfg, events, i))
      && (Catches(cfg, events, i) ==> !CaughtAt(cfg, init, i))
  {
    var init, e := events[..|events| - 1], events[|events| - 1];
    EveryHistoryFits(cfg, init, i);
    TaleStep(cfg, events, i);
    assert Run(cfg, WIRED, events) == Step(cfg, WIRED, Run(cfg, WIRED, init), e);
    hide Run, Succeeds, Breaks;
  }

  /** Both counters, in every run: `applied` is the number of frames whose four operations all succeeded; `failed`
      is, once the chain has drained, the number of frames for this wire that broke. */
  lemma {:induction false} CountersTell(cfg: Config, events: seq<Event>)
    ensures var s := Run(cfg, WIRED, events);
      && s.applied == |Answered(cfg, events)|
      && s.failed == |Caught(cfg, events)|
      && (Drained(s) ==> s.failed == |Broken(cfg, events)|)
  {
    LinksAreArrivals(cfg, WIRED, events);
    if |events| == 0 {
      assert Answered(cfg, events) == {} && Caught(cfg, events) == {} && Broken(cfg, events) == {};
    } else {
      CountersStep(cfg, events);
      CountersTell(cfg, events[..|events| - 1]);
      if Drained(Run(cfg, WIRED, events)) {
        DrainedIsCaught(cfg, events);
      }
    }
  }

  /** Once the chain has drained, every frame for this wire has been answered or has broken, and no other. */
  lemma OwnFramesCount(cfg: Config, events: seq<Event>, i: nat)
    requires Drained(Run(cfg, WIRED, events)) && i < |Arrivals(events)|
    ensures var frame := Arrivals(events)[i];
      frame.neighbourhoodUrl == cfg.neighbourhoodUrl && frame.roomName == cfg.roomName && frame.sdpOffer.Some?
      <==> i in Answered(cfg, events) || i in Broken(cfg, events)
  {
    LinksAreArrivals(cfg, WIRED, events);
    EveryHistoryFits(cfg, events, i);
    hide Run, Arrivals, Succeeds, Breaks;
    var links := Run(cfg, WIRED, events).links;
    assert Frames(links)[i] == links[i].frame;
    if AnsweredAt(cfg, events, i) {
      assert Succeeds(cfg, events, i, Post);
    }
  }

  lemma DrainedIsCaught(cfg: Config, events: seq<Event>)
    requires Drained(Run(cfg, WIRED, events))
    ensures Caught(cfg, events) == Broken(cfg, events)
  {
    LinksAreArrivals(cfg, WIRED, events);
    RunKeepsInv(cfg, WIRED, events);
    hide Run, Arrivals, Breaks;
    var links := Run(cfg, WIRED, events).links;
    assert forall i :: 0 <= i < |links| ==> Frames(links)[i] == links[i].frame;
  }

  lemma CountersStep(cfg: Config, events: seq<Event>)
    requires |events| > 0
    ensures var init := events[..|events| - 1];
      var s, s' := Run(cfg, WIRED, init), Run(cfg, WIRED, events);
      && |Answered(cfg, events)| + s.applied == |Answered(cfg, init)| + s'.applied
      && |Caught(cfg, events)| + s.failed == |Caught(cfg, init)| + s'.failed
  {
    var init, e := events[..|events| - 1], events[|events| - 1];
    AnsweredStep(cfg, events);
    CaughtStep(cfg, events);
    assert Run(cfg, WIRED, events) == Step(cfg, WIRED, Run(cfg, WIRED, init), e);
    hide Run, Answered, Caught, Moved;
  }

  lemma AnsweredStep(cfg: Config, events: seq<Event>)
    requires |events| > 0
    ensures var init, e := events[..|events| - 1], events[|events| - 1];
      |Answered(cfg, events)|
        == |Answered(cfg, init)| + if e.Advance? && Posts(cfg, events, e.link) then 1 else 0
  {
    hide Run, AnsweredAt, Arrivals;
    var init, e := events[..|events| - 1], events[|events| - 1];
    forall i: nat
      ensures i in Answered(cfg, events) <==> i in Answered(cfg, init) || Posts(cfg, events, i)
      ensures Posts(cfg, events, i) ==> i !in Answered(cfg, init) && e.Advance? && i == e.link
    {
      BecomesAnswered(cfg, events, i);
      AnsweredIff(cfg, init, i);
      AnsweredIff(cfg, events, i);
    }
    hide Posts, Answered;
    if e.Advance? && Posts(cfg, events, e.link) {
      assert Answered(cfg, events) == Answered(cfg, init) + {e.link};
    } else {
      assert Answered(cfg, events) == Answered(cfg, init);
    }
  }

  lemma CaughtStep(cfg: Config, events: seq<Event>)
    requires |events| > 0
    ensures var init, e := events[..|events| - 1], events[|events| - 1];
      |Caught(cfg, events)| == |Caught(cfg, init)| + if e.Advance? && Catches(cfg, events, e.link) then 1 else 0
  {
    hide Run, CaughtAt, Arrivals;
    var init, e := events[..|events| - 1], events[|events| - 1];
    forall i: nat
      ensures i in Caught(cfg, events) <==> i in Caught(cfg, init) || Catches(cfg, events, i)
      ensures Catches(cfg, events, i) ==> i !in Caught(cfg, init) && e.Advance? && i == e.link
    {
      BecomesCaught(cfg, events, i);
      CaughtIff(cfg, init, i);
      CaughtIff(cfg, events, i);
    }
    hide Catches, Caught;
    if e.Advance? && Catches(cfg, events, e.link) {
      assert Caught(cfg, events) == Caught(cfg, init) + {e.link};
    } else {
      assert Caught(cfg, events) == Caught(cfg, init);
    }
  }

  lemma AnsweredIff(cfg: Config, events: seq<Event>, i: nat)
    ensures i in Answered(cfg, events) <==> AnsweredAt(cfg, events, i)
  {
    LinksAreArrivals(cfg, WIRED, events);
    EveryHistoryFits(cfg, events, i);
    hide Run, Arrivals, Succeeds, Breaks;
    if i >= |Arrivals(events)| {
      assert !Succeeds(cfg, events, i, Post);
    }
  }

  lemma CaughtIff(cfg: Config, events: seq<Event>, i: nat)
    ensures i in Caught(cfg, events) <==> CaughtAt(cfg, events, i)
  {
    LinksAreArrivals(cfg, WIRED, events);
    hide Run, Arrivals, BrokenAt;
  }

  /** Event number i is the end of a successful post whose callback throws. */
  ghost predicate CallbackThrew(cfg: Config, events: seq<Event>, i: nat) {
    && i < |events| && events[i].Advance? && events[i].ok && events[i].callbackThrows
    && IsPosting(Run(cfg, WIRED, events[..i]), events[i].link)
  }

  predicate IsPosting(s: State, i: nat) {
    i < |s.links| && s.links[i].status == Running(Post)
  }

  lemma CallbackThrewStep(cfg: Config, events: seq<Event>, i: nat)
    requires |events| > 0
    ensures var last := |events| - 1;
      CallbackThrew(cfg, events, i) <==>
        if i == last then
          events[last].Advance? && events[last].ok && events[last].callbackThrows
          && IsPosting(Run(cfg, WIRED, events[..last]), events[last].link)
        else CallbackThrew(cfg, events[..last], i)
  {
    hide Run;
    var init := events[..|events| - 1];
    if i < |init| {
      assert init[..i] == events[..i];
    }
  }

  lemma {:induction false} ThrewIff(cfg: Config, events: seq<Event>)
    ensures Run(cfg, WIRED, events).threw > 0 <==> exists i: nat :: CallbackThrew(cfg, events, i)
  {
    hide CallbackThrew;
    if |events| == 0 {
      NobodyThrew(cfg, events);
    } else {
      var last := |events| - 1;
      var init := events[..last];
      ThrewIff(cfg, init);
      CallbackThrewStep(cfg, events, last);
      ThrewStep(cfg, Run(cfg, WIRED, init), events[last]);
      assert Run(cfg, WIRED, events) == Step(cfg, WIRED, Run(cfg, WIRED, init), events[last]);
      hide Run, Step;
      if Run(cfg, WIRED, init).threw > 0 {
        var i: nat :| CallbackThrew(cfg, init, i);
        EarlyThrow(cfg, events, i);
      } else if i: nat :| CallbackThrew(cfg, events, i) {
        CallbackThrewStep(cfg, events, i);
      }
    }
  }

  lemma NobodyThrew(cfg: Config, events: seq<Event>)
    requires |events| == 0
    ensures forall i: nat :: !CallbackThrew(cfg, events, i)
  {
  }

  lemma EarlyThrow(cfg: Config, events: seq<Event>, i: nat)
    requires |events| > 0 && CallbackThrew(cfg, events[..|events| - 1], i)
    ensures CallbackThrew(cfg, events, i)
  {
    hide Run;
    assert events[..|events| - 1][..i] == events[..i];
  }

  lemma ThrewStep(cfg: Config, s: State, e: Event)
    ensures Step(cfg, WIRED, s, e).threw
         == s.threw + if e.Advance? && e.ok && e.callbackThrows && IsPosting(s, e.link) then 1 else 0
  {
    hide Matches;
  }

  lemma {:induction false} DrainedIsDone(cfg: Config, links: seq<Link>)
    requires forall i :: 0 <= i < |links| ==> links[i].status == Fulfilled
    ensures CountDone(cfg, links) == CountMatching(cfg, links)
  {
    if |links| == 0 {
    } else {
      DrainedIsDone(cfg, links[..|links| - 1]);
    }
  }

  /** Once the chain has drained, applied plus failed is the number of matching frames exactly when no
      callback threw; each throwing callback is counted in both. */
  lemma DrainedCountsAgree(cfg: Config, events: seq<Event>)
    requires Drained(Run(cfg, WIRED, events))
    ensures var s := Run(cfg, WIRED, events);
      && s.applied + s.failed == CountMatching(cfg, s.links) + s.threw
      && (s.applied + s.failed == CountMatching(cfg, s.links) <==> forall i: nat :: !CallbackThrew(cfg, events, i))
  {
    RunKeepsInv(cfg, WIRED, events);
    ThrewIff(cfg, events);
    hide CallbackThrew, Run, CountMatching, CountDone, InOrder, LogFits, Tried;
    DrainedIsDone(cfg, Run(cfg, WIRED, events).links);
  }

  /** It does happen: one offer, applied and posted, whose callback throws, is counted twice. */
  lemma ThrowingCallbackCountsTwice()
    ensures var go := Advance(0, true, true);
      var s := Run(Everything(), WIRED, [Arrive(OFFER)] + [go] + [go] + [go] + [go] + [go] + [go]);
      Drained(s) && s.applied == 1 && s.failed == 1 && CountMatching(Everything(), s.links) == 1
  {
    var cfg, go := Everything(), Advance(0, true, true);
    var e := [Arrive(OFFER)];
    assert e[..0] == [];
    RunMore(cfg, WIRED, e, go);
    RunMore(cfg, WIRED, e + [go], go);
    RunMore(cfg, WIRED, e + [go] + [go], go);
    RunMore(cfg, WIRED, e + [go] + [go] + [go], go);
    RunMore(cfg, WIRED, e + [go] + [go] + [go] + [go], go);
    RunMore(cfg, WIRED, e + [go] + [go] + [go] + [go] + [go], go);
    assert Run(cfg, WIRED, e).links == [Link(OFFER, Waiting)];
    assert Run(cfg, WIRED, e + [go]).links == [Link(OFFER, Running(SetRemote))];
    assert Run(cfg, WIRED, e + [go] + [go]).links == [Link(OFFER, Running(CreateAnswer))];
    assert Run(cfg, WIRED, e + [go] + [go] + [go]).links == [Link(OFFER, Running(SetLocal))];
    assert Run(cfg, WIRED, e + [go] + [go] + [go] + [go]).links == [Link(OFFER, Running(Post))];
    assert Run(cfg, WIRED, e + [go] + [go] + [go] + [go] + [go]).links == [Link(OFFER, Threw)];
    var s := Run(cfg, WIRED, e + [go] + [go] + [go] + [go] + [go] + [go]);
    assert s.links == [Link(OFFER, Fulfilled)] && s.links[..0] == [];
  }

  // ------------------------------------------------------- progress

  /** The first link that is not settled. */
  lemma {:induction false} FirstOpen(links: seq<Link>) returns (i: nat)
    requires exists k :: 0 <= k < |links| && !Settled(links[k].status)
    ensures i < |links| && !Settled(links[i].status) && forall k :: 0 <= k < i ==> Settled(links[k].status)
  {
    var last := |links| - 1;
    if k :| 0 <= k < last && !Settled(links[k].status) {
      assert links[..last][k] == links[k];
      i := FirstOpen(links[..last]);
      assert forall k :: 0 <= k < i ==> links[..last][k] == links[k];
    } else {
      i := last;
    }
  }

  /** While the chain has not drained some link can move, and whatever comes of it less is left to do. */
  lemma SomeLinkMoves(cfg: Config, w: Wiring, s: State, ok: bool, callbackThrows: bool) returns (i: nat)
    requires !Drained(s)
    ensures i < |s.links| && Left(Step(cfg, w, s, Advance(i, ok, callbackThrows)).links) < Left(s.links)
  {
    hide Left, Matches, CountDone, CountPosting;
    i := FirstOpen(s.links);
    assert i > 0 ==> Settled(s.links[i - 1].status);
    LinkMoves(cfg, s.links, i, Moved(cfg, w, s.links, i, ok, callbackThrows));
    TurnIsTaken(cfg, w, s.links, i, ok, callbackThrows);
    hide Moved;
  }

  /** A link whose predecessor is settled has one turn less to take after one. */
  lemma TurnIsTaken(cfg: Config, w: Wiring, links: seq<Link>, i: nat, ok: bool, callbackThrows: bool)
    requires i < |links| && !Settled(links[i].status) && (i > 0 ==> Settled(links[i - 1].status))
    ensures Turns(Moved(cfg, w, links, i, ok, callbackThrows)) < Turns(links[i].status)
  {
    hide Matches;
  }

  /** A turn that changes anything leaves less to do. */
  lemma TurnsAreProgress(cfg: Config, w: Wiring, s: State, i: nat, ok: bool, callbackThrows: bool)
    ensures var s' := Step(cfg, w, s, Advance(i, ok, callbackThrows)); s' == s || Left(s'.links) < Left(s.links)
  {
    hide Matches, CountDone, CountPosting, Left;
    if i < |s.links| {
      var now := Moved(cfg, w, s.links, i, ok, callbackThrows);
      LinkMoves(cfg, s.links, i, now);
      if now == s.links[i].status {
        assert s.links[i := Link(s.links[i].frame, now)] == s.links;
      }
    }
  }

  /** Every schedule in which each turn changes something ends, after at most as many turns as are left to
      take; as long as the chain has not drained, SomeLinkMoves continues it. */
  lemma {:induction false} ChainDrains(cfg: Config, w: Wiring, events: seq<Event>, turns: seq<Event>)
    requires forall k :: 0 <= k < |turns| ==>
      turns[k].Advance? && Run(cfg, w, events + turns[..k + 1]) != Run(cfg, w, events + turns[..k])
    ensures |turns| + Left(Run(cfg, w, events + turns).links) <= Left(Run(cfg, w, events).links)
  {
    hide Run, Step, Left;
    if |turns| == 0 {
      assert events + turns == events;
    } else {
      var last := |turns| - 1;
      var init, e := turns[..last], turns[last];
      forall k | 0 <= k < |init|
        ensures init[k].Advance? && Run(cfg, w, events + init[..k + 1]) != Run(cfg, w, events + init[..k])
      {
        assert init[..k + 1] == turns[..k + 1] && init[..k] == turns[..k];
      }
      ChainDrains(cfg, w, events, init);
      RunMore(cfg, w, events + init, e);
      assert turns[..last + 1] == turns && events + init + [e] == events + turns;
      TurnsAreProgress(cfg, w, Run(cfg, w, events + init), e.link, e.ok, e.callbackThrows);
    }
  }

  // ------------------------------------------------------- detach

  /** What `detach` waits for: it no longer listens and the promise it holds, the last link's, is settled. */
  predicate DetachReturns(s: State) {
    !s.subscribed && (|s.links| > 0 ==> Settled(s.links[|s.links| - 1].status))
  }

  /** Waiting for the last link is waiting for all of them, exactly because links are chained. */
  lemma DetachDrainsIff(w: Wiring)
    ensures (forall cfg: Config, events: seq<Event> ::
               DetachReturns(Run(cfg, w, events)) ==> Drained(Run(cfg, w, events)))
      <==> w.chained
  {
    if w.chained {
      forall cfg: Config, events: seq<Event> | DetachReturns(Run(cfg, w, events))
        ensures Drained(Run(cfg, w, events))
      {
        RunKeepsInv(cfg, w, events);
      }
    } else {
      var events := UnmatchedOvertakes(w);
      var s := Run(Everything(), w, events);
      assert DetachReturns(s) && !Settled(s.links[0].status);
    }
  }

  /** An offer and a frame for another room; only the second is looked at. */
  lemma UnmatchedOvertakes(w: Wiring) returns (events: seq<Event>)
    requires !w.chained
    ensures var s := Run(Everything(), w, events);
      && !s.subscribed && |s.links| == 2
      && s.links[0].status == Waiting && s.links[1].status == Fulfilled
  {
    var cfg := Everything();
    var other := Frame("", "elsewhere", Some(""));
    var one := [Arrive(OFFER)];
    assert one[..0] == [];
    RunMore(cfg, w, one, Arrive(other));
    RunMore(cfg, w, one + [Arrive(other)], Advance(1, true, false));
    events := one + [Arrive(other)] + [Advance(1, true, false)];
    RunMore(cfg, w, events, Detach);
    assert Run(cfg, w, one).links == [Link(OFFER, Waiting)];
    assert Run(cfg, w, one + [Arrive(other)]).links == [Link(OFFER, Waiting), Link(other, Waiting)];
    assert Run(cfg, w, events).links == [Link(OFFER, Waiting), Link(other, Fulfilled)];
    events := events + [Detach];
  }

  /** Once `detach` has returned nothing is pending and nothing starts again, whatever still arrives. */
  lemma {:induction false} NothingStartsAfterDetach(cfg: Config, events: seq<Event>, more: seq<Event>)
    requires DetachReturns(Run(cfg, WIRED, events))
    ensures Run(cfg, WIRED, events + more) == Run(cfg, WIRED, events)
  {
    if |more| == 0 {
      assert events + more == events;
    } else {
      var init := more[..|more| - 1];
      assert (events + more)[..|events + more| - 1] == events + init;
      NothingStartsAfterDetach(cfg, events, init);
      RunKeepsInv(cfg, WIRED, events);
      hide Run;
      DrainedRests(cfg, Run(cfg, WIRED, events), more[|more| - 1]);
    }
  }

  lemma DrainedRests(cfg: Config, s: State, e: Event)
    requires DetachReturns(s) && InOrder(s.links)
    ensures Drained(s) && Step(cfg, WIRED, s, e) == s
  {
    hide Matches;
    if e.Advance? && e.link < |s.links| {
      assert s.links[e.link := s.links[e.link]] == s.links;
    }
  }
}
