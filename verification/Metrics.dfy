/** Latency bookkeeping over overlapping timed calls and resets, and the figures read from it. */
module Metrics {
  import opened Reals

  datatype Event = Start | Finish(durationMs: real, ok: bool) | Reset

  /** The counters; `inFlight` is the number of calls running, `carried` the number of calls that were
      running at the latest reset. */
  datatype State = State(totalRequests: nat, totalErrors: nat, totalDurationMs: real, latencies: seq<real>,
                         inFlight: nat, carried: nat)

  const FRESH := State(0, 0, 0.0, [], 0, 0)

  function Step(s: State, e: Event): State {
    match e
    case Start => s.(totalRequests := s.totalRequests + 1, inFlight := s.inFlight + 1)
    case Finish(d, ok) =>
      if s.inFlight == 0 then s
      else s.(totalErrors := s.totalErrors + if ok then 0 else 1, totalDurationMs := s.totalDurationMs + d,
              latencies := s.latencies + [d], inFlight := s.inFlight - 1)
    case Reset => FRESH.(inFlight := s.inFlight, carried := s.inFlight)
  }

  function Run(events: seq<Event>): State {
    if |events| == 0 then FRESH
    else Step(Run(events[..|events| - 1]), events[|events| - 1])
  }

  function Sum(xs: seq<real>): real {
    if |xs| == 0 then 0.0 else Sum(xs[..|xs| - 1]) + xs[|xs| - 1]
  }

  /** In every interleaving the total duration is the sum of the latencies and no more errors than
      latencies are counted. The request counter counts finished and running calls exactly when the
      latest reset found nothing in flight; otherwise it is short by the calls it found. */
  lemma {:induction false} BooksBalance(events: seq<Event>)
    ensures var s := Run(events);
      && s.totalDurationMs == Sum(s.latencies)
      && s.totalErrors <= |s.latencies|
      && s.totalRequests + s.carried == |s.latencies| + s.inFlight
      && (s.totalRequests == |s.latencies| + s.inFlight <==> s.carried == 0)
  {
    if |events| == 0 {
    } else {
      var s, s' := Run(events[..|events| - 1]), Run(events);
      BooksBalance(events[..|events| - 1]);
      if |s'.latencies| > 0 && s'.latencies != s.latencies {
        assert s'.latencies[..|s'.latencies| - 1] == s.latencies;
      }
    }
  }

  /** One reset during one call is enough: the call is booked and not counted. */
  lemma ResetLosesCalls()
    ensures var s := Run([Start, Reset, Finish(1.0, true)]); s.totalRequests == 0 && s.latencies == [1.0]
  {
    var a, b, c := [Start], [Start, Reset], [Start, Reset, Finish(1.0, true)];
    assert a[..0] == [] && b[..1] == a && c[..2] == b;
    assert Run(a) == FRESH.(totalRequests := 1, inFlight := 1);
    assert Run(b) == FRESH.(inFlight := 1, carried := 1);
  }

  // ------------------------------------------------------- the books, from the events alone

  /** How many calls are running. */
  function Running(events: seq<Event>): nat {
    if |events| == 0 then 0
    else
      var before := Running(events[..|events| - 1]);
      match events[|events| - 1]
      case Start => before + 1
      case Finish(_, _) => if before == 0 then 0 else before - 1
      case Reset => before
  }

  /** No reset has come after event i. */
  ghost predicate Kept(events: seq<Event>, i: nat)
    requires i < |events|
  {
    Reset !in events[i + 1..]
  }

  /** Event i is the end of a running call and still on the books. */
  ghost predicate Booked(events: seq<Event>, i: nat) {
    i < |events| && events[i].Finish? && Running(events[..i]) > 0 && Kept(events, i)
  }

  ghost function Finished(events: seq<Event>): set<nat> {
    set i: nat | i < |events| && Booked(events, i)
  }

  ghost function Failed(events: seq<Event>): set<nat> {
    set i: nat | i < |events| && Booked(events, i) && !events[i].ok
  }

  ghost function Started(events: seq<Event>): set<nat> {
    set i: nat | i < |events| && events[i] == Start && Kept(events, i)
  }

  lemma BookedStep(events: seq<Event>, i: nat)
    requires i < |events|
    ensures var init, e := events[..|events| - 1], events[|events| - 1];
      && (Kept(events, i) <==> i == |init| || (Kept(init, i) && e != Reset))
      && (Booked(events, i) <==>
            if i == |init| then e.Finish? && Running(init) > 0 else Booked(init, i) && e != Reset)
  {
    hide Running;
    var init := events[..|events| - 1];
    if i < |init| {
      assert events[i + 1..] == init[i + 1..] + [events[|init|]];
      assert init[..i] == events[..i];
    } else {
      assert events[i + 1..] == [];
    }
  }

  lemma SetsGrow(events: seq<Event>)
    requires |events| > 0
    ensures var init, e, last := events[..|events| - 1], events[|events| - 1], |events| - 1;
      var ends := e.Finish? && Running(init) > 0;
      && Finished(events) == (if e == Reset then {} else if ends then Finished(init) + {last} else Finished(init))
      && Failed(events) == (if e == Reset then {} else if ends && !e.ok then Failed(init) + {last} else Failed(init))
      && Started(events)
           == (if e == Reset then {} else if e == Start then Started(init) + {last} else Started(init))
  {
    forall i: nat | i < |events| {
      BookedStep(events, i);
    }
    hide Kept, Booked, Running;
    assert forall i :: 0 <= i < |events| - 1 ==> events[..|events| - 1][i] == events[i];
  }

  /** In every interleaving: each request counted is a start, each latency a call that ended, each error one that
      failed, all since the latest reset. */
  lemma {:induction false} BooksTell(events: seq<Event>)
    ensures var s := Run(events);
      && s.totalRequests == |Started(events)| && |s.latencies| == |Finished(events)|
      && s.totalErrors == |Failed(events)| && s.inFlight == Running(events)
  {
    hide Finished, Failed, Started;
    if |events| == 0 {
      NothingBooked(events);
    } else {
      BooksTell(events[..|events| - 1]);
      SetsGrow(events);
      LastIsNew(events);
    }
  }

  lemma NothingBooked(events: seq<Event>)
    requires |events| == 0
    ensures Started(events) == {} && Finished(events) == {} && Failed(events) == {}
  {
  }

  lemma LastIsNew(events: seq<Event>)
    requires |events| > 0
    ensures var init, last := events[..|events| - 1], |events| - 1;
      last !in Finished(init) && last !in Failed(init) && last !in Started(init)
  {
  }

  /** `ends` lists the events that ended these calls, in order, and the latencies are their durations. */
  ghost predicate Durations(events: seq<Event>, ends: seq<nat>, latencies: seq<real>) {
    && |ends| == |latencies|
    && (forall j, k :: 0 <= j < k < |ends| ==> ends[j] < ends[k])
    && (forall k :: 0 <= k < |ends| ==> EndedAt(events, ends[k], latencies[k]))
  }

  ghost predicate EndedAt(events: seq<Event>, i: nat, durationMs: real) {
    i < |events| && events[i].Finish? && events[i].durationMs == durationMs
  }

  lemma DurationsGrow(events: seq<Event>, ends: seq<nat>, latencies: seq<real>)
    requires |events| > 0 && Durations(events[..|events| - 1], ends, latencies)
    ensures Durations(events, ends, latencies)
    ensures var last := |events| - 1;
      events[last].Finish? ==> Durations(events, ends + [last], latencies + [events[last].durationMs])
  {
    var last := |events| - 1;
    forall k | 0 <= k < |ends|
      ensures EndedAt(events, ends[k], latencies[k]) && ends[k] < last
    {
      assert EndedAt(events[..last], ends[k], latencies[k]);
    }
    assert events[last].Finish? ==> EndedAt(events, last, events[last].durationMs);
    hide EndedAt;
  }

  /** The latencies are the durations of the calls that ended, in the order in which they did. */
  lemma {:induction false} LatenciesAreInOrder(events: seq<Event>) returns (ends: seq<nat>)
    ensures Durations(events, ends, Run(events).latencies)
    ensures forall i :: i in ends <==> i in Finished(events)
  {
    hide Running, Finished, Failed, Started, Durations;
    if |events| == 0 {
      ends := [];
      NothingBooked(events);
      NoDurations(events);
    } else {
      var last := |events| - 1;
      ends := LatenciesAreInOrder(events[..last]);
      BooksTell(events[..last]);
      SetsGrow(events);
      DurationsGrow(events, ends, Run(events[..last]).latencies);
      NoDurations(events);
      if events[last] == Reset {
        ends := [];
      } else if events[last].Finish? && Running(events[..last]) > 0 {
        ends := ends + [last];
      }
    }
  }

  lemma NoDurations(events: seq<Event>)
    ensures Durations(events, [], [])
  {
  }

  // ------------------------------------------------------- the figures

  datatype Stats = Stats(count: nat, errors: nat, avgMs: real, p50Ms: real, p95Ms: real, p99Ms: real,
                         minMs: real, maxMs: real)

  function Insert(xs: seq<real>, x: real): seq<real> {
    if |xs| == 0 then [x]
    else if x >= xs[|xs| - 1] then xs + [x]
    else Insert(xs[..|xs| - 1], x) + [xs[|xs| - 1]]
  }

  function Sort(xs: seq<real>): seq<real> {
    if |xs| == 0 then [] else Insert(Sort(xs[..|xs| - 1]), xs[|xs| - 1])
  }

  ghost predicate Sorted(xs: seq<real>) {
    forall i, j :: 0 <= i < j < |xs| ==> xs[i] <= xs[j]
  }

  /** How many of the values are at most v. */
  function AtMost(xs: seq<real>, v: real): nat {
    if |xs| == 0 then 0 else AtMost(xs[..|xs| - 1], v) + if xs[|xs| - 1] <= v then 1 else 0
  }

  /** How many are less than v. */
  function Below(xs: seq<real>, v: real): nat {
    if |xs| == 0 then 0 else Below(xs[..|xs| - 1], v) + if xs[|xs| - 1] < v then 1 else 0
  }

  lemma {:induction false} InsertSorts(xs: seq<real>, x: real)
    requires Sorted(xs)
    ensures var ys := Insert(xs, x);
      && Sorted(ys) && |ys| == |xs| + 1
      && ys[|xs|] == if |xs| == 0 || x >= xs[|xs| - 1] then x else xs[|xs| - 1]
  {
    if |xs| == 0 || x >= xs[|xs| - 1] {
    } else {
      var init, last := xs[..|xs| - 1], xs[|xs| - 1];
      InsertSorts(init, x);
      var ys := Insert(init, x);
      assert ys[|init|] <= last;
    }
  }

  lemma {:induction false} InsertPermutes(xs: seq<real>, x: real)
    ensures multiset(Insert(xs, x)) == multiset(xs) + multiset{x}
  {
    if |xs| == 0 || x >= xs[|xs| - 1] {
    } else {
      InsertPermutes(xs[..|xs| - 1], x);
      assert xs == xs[..|xs| - 1] + [xs[|xs| - 1]];
    }
  }

  lemma AddLast(xs: seq<real>, x: real, v: real)
    ensures Sum(xs + [x]) == Sum(xs) + x
    ensures AtMost(xs + [x], v) == AtMost(xs, v) + if x <= v then 1 else 0
    ensures Below(xs + [x], v) == Below(xs, v) + if x < v then 1 else 0
  {
    assert (xs + [x])[..|xs|] == xs;
  }

  lemma {:induction false} InsertAddsUp(xs: seq<real>, x: real, v: real)
    ensures Sum(Insert(xs, x)) == Sum(xs) + x
    ensures AtMost(Insert(xs, x), v) == AtMost(xs, v) + if x <= v then 1 else 0
    ensures Below(Insert(xs, x), v) == Below(xs, v) + if x < v then 1 else 0
  {
    hide Sum, AtMost, Below;
    if |xs| == 0 || x >= xs[|xs| - 1] {
      AddLast(xs, x, v);
      assert |xs| == 0 ==> xs + [x] == [x];
    } else {
      var init, last := xs[..|xs| - 1], xs[|xs| - 1];
      InsertAddsUp(init, x, v);
      AddLast(Insert(init, x), last, v);
      AddLast(init, last, v);
      assert init + [last] == xs;
    }
  }

  lemma {:induction false} SortKeeps(xs: seq<real>, v: real)
    ensures var ys := Sort(xs);
      && Sorted(ys) && |ys| == |xs| && multiset(ys) == multiset(xs)
      && Sum(ys) == Sum(xs) && AtMost(ys, v) == AtMost(xs, v) && Below(ys, v) == Below(xs, v)
  {
    if |xs| == 0 {
    } else {
      var init, last := xs[..|xs| - 1], xs[|xs| - 1];
      assert xs == init + [last];
      SortKeeps(init, v);
      InsertSorts(Sort(init), last);
      InsertPermutes(Sort(init), last);
      InsertAddsUp(Sort(init), last, v);
    }
  }

  lemma {:induction false} SortedPrefixCounts(xs: seq<real>, k: nat)
    requires Sorted(xs) && k < |xs|
    ensures AtMost(xs, xs[k]) >= k + 1
    decreases |xs|
  {
    var last := |xs| - 1;
    if k < last {
      SortedPrefixCounts(xs[..last], k);
    } else {
      AllAtMost(xs[..last], xs[last]);
    }
  }

  lemma {:induction false} SortedPrefixIsBelow(xs: seq<real>, k: nat)
    requires Sorted(xs) && k < |xs|
    ensures Below(xs, xs[k]) <= k
    decreases |xs|
  {
    var last := |xs| - 1;
    if k < last {
      SortedPrefixIsBelow(xs[..last], k);
    } else {
      NoMoreThanAll(xs[..last], xs[last]);
    }
  }

  lemma {:induction false} NoMoreThanAll(xs: seq<real>, v: real)
    ensures Below(xs, v) <= |xs|
  {
    if |xs| == 0 {
    } else {
      NoMoreThanAll(xs[..|xs| - 1], v);
    }
  }

  lemma {:induction false} AllAtMost(xs: seq<real>, v: real)
    requires forall i :: 0 <= i < |xs| ==> xs[i] <= v
    ensures AtMost(xs, v) == |xs|
  {
    if |xs| == 0 {
    } else {
      AllAtMost(xs[..|xs| - 1], v);
    }
  }

  lemma {:induction false} SumBounds(xs: seq<real>, lo: real, hi: real)
    requires forall i :: 0 <= i < |xs| ==> lo <= xs[i] <= hi
    ensures |xs| as real * lo <= Sum(xs) <= |xs| as real * hi
  {
    if |xs| == 0 {
    } else {
      var n := |xs| as real;
      SumBounds(xs[..|xs| - 1], lo, hi);
      assert n * lo == (n - 1.0) * lo + lo && n * hi == (n - 1.0) * hi + hi;
    }
  }

  lemma AverageBounds(sum: real, n: real, lo: real, hi: real)
    requires n > 0.0 && n * lo <= sum <= n * hi
    ensures lo <= sum / n <= hi
  {
  }

  /** `v` stands at position k of the latencies in ascending order: at most k of them are less, more than
      k are no greater. */
  ghost predicate HasRank(latencies: seq<real>, k: nat, v: real) {
    v in latencies && Below(latencies, v) <= k < AtMost(latencies, v)
  }

  /** What the figures mean, without sorting anything: all 0 if there is no latency; else the attained
      bounds, the mean between them, and the latencies below which 50, 95 and 99 percent lie. */
  ghost predicate Describes(f: Stats, latencies: seq<real>, totalErrors: nat) {
    var n := |latencies|;
    if n == 0 then f == Stats(0, 0, 0.0, 0.0, 0.0, 0.0, 0.0, 0.0)
    else
      && f.count == n && f.errors == totalErrors <= n
      && Times(f.avgMs, n as real) == Sum(latencies)
      && f.minMs <= f.avgMs <= f.maxMs
      && f.minMs <= f.p50Ms <= f.p95Ms <= f.p99Ms <= f.maxMs
      && (forall i :: 0 <= i < n ==> f.minMs <= latencies[i] <= f.maxMs)
      && f.minMs in latencies && f.maxMs in latencies
      && HasRank(latencies, n * 50 / 100, f.p50Ms)
      && HasRank(latencies, n * 95 / 100, f.p95Ms)
      && HasRank(latencies, n * 99 / 100, f.p99Ms)
  }

  lemma {:induction false} BelowAtMost(xs: seq<real>, v: real, w: real)
    requires v < w
    ensures AtMost(xs, v) <= Below(xs, w)
  {
    if |xs| == 0 {
    } else {
      BelowAtMost(xs[..|xs| - 1], v, w);
    }
  }

  lemma RankIsUnique(latencies: seq<real>, k: nat, v: real, w: real)
    requires HasRank(latencies, k, v) && HasRank(latencies, k, w)
    ensures v == w
  {
    if v < w {
      BelowAtMost(latencies, v, w);
    } else if w < v {
      BelowAtMost(latencies, w, v);
    }
  }

  /** The description leaves no figure open. */
  lemma DescriptionIsExact(f: Stats, g: Stats, latencies: seq<real>, totalErrors: nat)
    requires Describes(f, latencies, totalErrors) && Describes(g, latencies, totalErrors)
    ensures f == g
  {
    hide Times, Sum, HasRank;
    var n := |latencies|;
    if n > 0 {
      RankIsUnique(latencies, n * 50 / 100, f.p50Ms, g.p50Ms);
      RankIsUnique(latencies, n * 95 / 100, f.p95Ms, g.p95Ms);
      RankIsUnique(latencies, n * 99 / 100, f.p99Ms, g.p99Ms);
      SameMean(f.avgMs, g.avgMs, n as real);
    }
  }

  lemma SameMean(a: real, b: real, n: real)
    requires n > 0.0 && Times(a, n) == Times(b, n)
    ensures a == b
  {
    if a < b {
      TimesPositive(b - a, n);
    } else if b < a {
      TimesPositive(a - b, n);
    }
  }

  /** Figures read off an ascending copy describe the latencies. */
  lemma SortedFigures(latencies: seq<real>, totalErrors: nat)
    requires |latencies| > 0 && totalErrors <= |latencies|
    ensures var sorted, n := Sort(latencies), |latencies|;
      && |sorted| == n
      && Describes(Stats(n, totalErrors, Sum(latencies) / n as real, sorted[n * 50 / 100], sorted[n * 95 / 100],
                         sorted[n * 99 / 100], sorted[0], sorted[n - 1]), latencies, totalErrors)
  {
    hide Sum, AtMost, Below, Sort, Sorted, HasRank, Times;
    var n := |latencies|;
    SortKeeps(latencies, 0.0);
    SortedRanks(Sort(latencies));
    SortedEnds(latencies);
    SortedAverage(latencies);
    MeanTimesCount(Sum(latencies), n as real);
    SortedHasRank(latencies, n * 50 / 100);
    SortedHasRank(latencies, n * 95 / 100);
    SortedHasRank(latencies, n * 99 / 100);
  }

  lemma MeanTimesCount(sum: real, n: real)
    requires n > 0.0
    ensures Times(sum / n, n) == sum
  {
  }

  lemma SortedRanks(ys: seq<real>)
    requires Sorted(ys) && |ys| > 0
    ensures var n := |ys|; ys[0] <= ys[n * 50 / 100] <= ys[n * 95 / 100] <= ys[n * 99 / 100] <= ys[n - 1]
  {
    var n := |ys|;
    var i, j, k := n * 50 / 100, n * 95 / 100, n * 99 / 100;
    assert 0 <= i <= j <= k <= n - 1;
    OrderedAt(ys, 0, i);
    OrderedAt(ys, i, j);
    OrderedAt(ys, j, k);
    OrderedAt(ys, k, n - 1);
  }

  lemma SortedEnds(xs: seq<real>)
    requires |xs| > 0
    ensures var ys, n := Sort(xs), |xs|;
      && |ys| == n
      && (forall i :: 0 <= i < n ==> ys[0] <= xs[i] <= ys[n - 1])
      && ys[0] in xs && ys[n - 1] in xs
  {
    hide Sum, AtMost, Sort;
    SortKeeps(xs, 0.0);
    var ys, n := Sort(xs), |xs|;
    forall i | 0 <= i < n
      ensures ys[0] <= xs[i] <= ys[n - 1]
    {
      assert xs[i] in multiset(xs);
      BoundedByEnds(ys, xs[i]);
    }
    assert ys[0] in multiset(ys) && ys[n - 1] in multiset(ys);
    assert ys[0] in multiset(xs) && ys[n - 1] in multiset(xs);
  }

  lemma SortedAverage(xs: seq<real>)
    requires |xs| > 0
    ensures |Sort(xs)| == |xs| && Sort(xs)[0] <= Sum(xs) / |xs| as real <= Sort(xs)[|xs| - 1]
  {
    hide Sum, Sort;
    SortedEnds(xs);
    SumBounds(xs, Sort(xs)[0], Sort(xs)[|xs| - 1]);
    AverageBounds(Sum(xs), |xs| as real, Sort(xs)[0], Sort(xs)[|xs| - 1]);
  }

  lemma OrderedAt(ys: seq<real>, i: nat, j: nat)
    requires Sorted(ys) && i <= j < |ys|
    ensures ys[i] <= ys[j]
  {
  }

  lemma BoundedByEnds(ys: seq<real>, x: real)
    requires Sorted(ys) && x in multiset(ys)
    ensures ys[0] <= x <= ys[|ys| - 1]
  {
    assert x in ys;
  }

  lemma SortedHasRank(xs: seq<real>, k: nat)
    requires k < |xs|
    ensures |Sort(xs)| == |xs| && HasRank(xs, k, Sort(xs)[k])
  {
    hide Sum, AtMost, Below, Sort;
    SortKeeps(xs, 0.0);
    var ys := Sort(xs);
    SortKeeps(xs, ys[k]);
    SortedPrefixCounts(ys, k);
    SortedPrefixIsBelow(ys, k);
    assert ys[k] in multiset(ys);
    assert ys[k] in multiset(xs);
  }

  class InstrumentedMetrics {
    var totalRequests: nat
    var totalErrors: nat
    var totalDurationMs: real
    var latencies: seq<real>
    ghost var inFlight: nat
    ghost var carried: nat

    ghost function View(): State
      reads this
    {
      State(totalRequests, totalErrors, totalDurationMs, latencies, inFlight, carried)
    }

    /** The books balance. */
    ghost predicate Valid()
      reads this
    {
      totalDurationMs == Sum(latencies) && totalErrors <= |latencies|
    }

    constructor ()
      ensures Valid() && View() == FRESH
    {
      totalRequests, totalErrors, totalDurationMs, latencies, inFlight, carried := 0, 0, 0.0, [], 0, 0;
    }

    /** The first half of `timed`. */
    method Begin()
      requires Valid()
      modifies this
      ensures Valid() && View() == Step(old(View()), Start)
    {
      totalRequests := totalRequests + 1;
      inFlight := inFlight + 1;
    }

    /** The second half, on success or failure of the timed function. */
    method End(durationMs: real, ok: bool)
      requires Valid() && inFlight > 0
      modifies this
      ensures Valid() && View() == Step(old(View()), Finish(durationMs, ok))
    {
      if !ok {
        totalErrors := totalErrors + 1;
      }
      totalDurationMs := totalDurationMs + durationMs;
      latencies := latencies + [durationMs];
      assert latencies[..|latencies| - 1] == old(latencies);
      inFlight := inFlight - 1;
    }

    method ResetMetrics()
      modifies this
      ensures Valid() && View() == Step(old(View()), Reset)
    {
      totalRequests, totalErrors, totalDurationMs, latencies := 0, 0, 0.0, [];
      carried := inFlight;
    }

    method GetStats() returns (stats: Stats)
      requires Valid()
      ensures Describes(stats, latencies, totalErrors)
      ensures forall events :: View() == Run(events) ==>
        stats.count == |Finished(events)| && stats.errors == |Failed(events)|
    {
      forall events | View() == Run(events)
        ensures |latencies| == |Finished(events)| && totalErrors == |Failed(events)|
      {
        hide Run, Finished, Failed, Started;
        BooksTell(events);
      }
      hide Run, Finished, Failed;
      SortKeeps(latencies, 0.0);
      var sorted := Sort(latencies);
      var count := |sorted|;
      if count == 0 {
        return Stats(0, 0, 0.0, 0.0, 0.0, 0.0, 0.0, 0.0);
      }
      SortedFigures(latencies, totalErrors);
      hide Describes, Sum, Sort;
      stats := Stats(count, totalErrors, totalDurationMs / count as real,
                     sorted[count * 50 / 100], sorted[count * 95 / 100], sorted[count * 99 / 100],
                     sorted[0], sorted[count - 1]);
    }
  }
}
