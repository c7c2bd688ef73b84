/** The steady-load loops of the memory scenarios: several timers driven by one polled clock. */
module Monitor {
  import opened Reals

  /** One round of the loop: the clock as the loop guard reads it and as the body reads it. */
  datatype Round = Round(guard: real, elapsed: real)

  /** The times at which a timer fires when it is polled at these readings: at the first one, and then
      whenever at least an interval has passed since it last fired. */
  function Firings(readings: seq<real>, interval: real): seq<real> {
    if |readings| == 0 then []
    else
      var r, before := readings[|readings| - 1], Firings(readings[..|readings| - 1], interval);
      if |before| == 0 || r - before[|before| - 1] >= interval then before + [r] else before
  }

  /** The clock never runs backwards, and the body reads it after the guard. */
  ghost predicate Clock(rounds: seq<Round>) {
    && (forall i :: 0 <= i < |rounds| ==> 0.0 <= rounds[i].guard <= rounds[i].elapsed)
    && (forall i, j :: 0 <= i < j < |rounds| ==> rounds[i].elapsed <= rounds[j].guard)
  }

  function Elapsed(rounds: seq<Round>): seq<real> {
    seq(|rounds|, i requires 0 <= i < |rounds| => rounds[i].elapsed)
  }

  lemma FiringsStep(rounds: seq<Round>, n: nat, interval: real)
    requires n < |rounds|
    ensures Firings(Elapsed(rounds[..n + 1]), interval)
         == var before := Firings(Elapsed(rounds[..n]), interval);
            var r := rounds[n].elapsed;
            if |before| == 0 || r - before[|before| - 1] >= interval then before + [r] else before
  {
    assert Elapsed(rounds[..n + 1])[..n] == Elapsed(rounds[..n]);
  }

  // ------------------------------------------------------- what a polled timer promises

  ghost predicate Readings(readings: seq<real>) {
    && (forall i :: 0 <= i < |readings| ==> readings[i] >= 0.0)
    && (forall i, j :: 0 <= i < j < |readings| ==> readings[i] <= readings[j])
  }

  lemma ClockGivesReadings(rounds: seq<Round>, n: nat)
    requires Clock(rounds) && n <= |rounds|
    ensures Readings(Elapsed(rounds[..n]))
  {
  }

  /** The k-th firing, counting from 0, comes no earlier than k intervals. */
  ghost predicate InTime(log: seq<real>, interval: real) {
    forall k :: 0 <= k < |log| ==> log[k] >= Times(k as real, interval)
  }

  /** No catch-up bursts: firings are at least an interval apart. */
  ghost predicate Spaced(log: seq<real>, interval: real) {
    forall k :: 0 < k < |log| ==> log[k] - log[k - 1] >= interval
  }

  /** The timer fires only when polled, and no poll is neglected: each is less than an interval after
      some firing at or before it. */
  ghost predicate Prompt(log: seq<real>, readings: seq<real>, interval: real) {
    && (forall k :: 0 <= k < |log| ==> log[k] in readings)
    && (forall i :: 0 <= i < |readings| ==> Covered(log, readings[i], interval))
  }

  ghost predicate Paced(log: seq<real>, readings: seq<real>, interval: real) {
    InTime(log, interval) && Spaced(log, interval) && Prompt(log, readings, interval)
  }

  ghost predicate Covered(log: seq<real>, r: real, interval: real) {
    exists k :: 0 <= k < |log| && log[k] <= r < log[k] + interval
  }

  lemma NextMultiple(k: nat, last: real, r: real, interval: real)
    requires last >= Times(k as real, interval) && r - last >= interval
    ensures r >= Times((k + 1) as real, interval)
  {
    assert (k + 1) as real * interval == k as real * interval + interval;
  }

  lemma InTimeGoesOn(log: seq<real>, r: real, interval: real)
    requires InTime(log, interval) && r >= 0.0
    requires |log| > 0 ==> r - log[|log| - 1] >= interval
    ensures InTime(log + [r], interval)
  {
    hide Times;
    var n := |log|;
    if n == 0 {
      TimesZero(0.0, interval);
    } else {
      NextMultiple(n - 1, log[n - 1], r, interval);
    }
    assert (log + [r])[n] == r && r >= Times(n as real, interval);
    assert forall k :: 0 <= k < n ==> (log + [r])[k] == log[k];
  }

  lemma SpacedGoesOn(log: seq<real>, r: real, interval: real)
    requires Spaced(log, interval)
    requires |log| > 0 ==> r - log[|log| - 1] >= interval
    ensures Spaced(log + [r], interval)
  {
  }

  lemma PacedMeans(log: seq<real>, readings: seq<real>, interval: real)
    ensures Paced(log, readings, interval) <==>
      InTime(log, interval) && Spaced(log, interval) && Prompt(log, readings, interval)
  {
  }

  lemma PacedGoesOn(before: seq<real>, init: seq<real>, r: real, interval: real)
    requires Paced(before, init, interval) && interval > 0.0 && r >= 0.0
    requires |before| > 0 ==> r - before[|before| - 1] >= interval
    ensures Paced(before + [r], init + [r], interval)
  {
    hide *;
    PacedMeans(before, init, interval);
    InTimeGoesOn(before, r, interval);
    SpacedGoesOn(before, r, interval);
    PromptGoesOn(before, init, r, interval);
    PacedMeans(before + [r], init + [r], interval);
  }

  lemma PromptGoesOn(before: seq<real>, init: seq<real>, r: real, interval: real)
    requires Prompt(before, init, interval) && interval > 0.0
    ensures Prompt(before + [r], init + [r], interval)
  {
    var log := before + [r];
    forall i | 0 <= i < |init|
      ensures Covered(log, init[i], interval)
    {
      assert Covered(before, init[i], interval);
      var k :| 0 <= k < |before| && before[k] <= init[i] < before[k] + interval;
      assert log[k] == before[k];
    }
    assert Covered(log, r, interval) by {
      assert log[|before|] == r;
    }
    hide Covered;
  }

  lemma PacedRests(log: seq<real>, init: seq<real>, r: real, interval: real)
    requires Paced(log, init, interval) && |log| > 0 && log[|log| - 1] <= r < log[|log| - 1] + interval
    ensures Paced(log, init + [r], interval)
  {
    hide Times;
    assert Covered(log, r, interval);
  }

  lemma {:induction false} TimersArePaced(readings: seq<real>, interval: real)
    requires Readings(readings) && interval > 0.0
    ensures var log := Firings(readings, interval);
      && Paced(log, readings, interval)
      && (|readings| > 0 ==> |log| > 0 && log[|log| - 1] <= readings[|readings| - 1])
  {
    hide Times, Paced;
    if |readings| == 0 {
      NothingIsPaced(readings, interval);
    } else {
      var init, r := readings[..|readings| - 1], readings[|readings| - 1];
      assert readings == init + [r];
      TimersArePaced(init, interval);
      var before, log := Firings(init, interval), Firings(readings, interval);
      if log != before {
        PacedGoesOn(before, init, r, interval);
      } else {
        PacedRests(log, init, r, interval);
      }
    }
  }

  lemma NothingIsPaced(readings: seq<real>, interval: real)
    requires |readings| == 0
    ensures Paced([], readings, interval)
  {
  }

  /** The number of firings is at most the last reading's number of whole intervals plus one. */
  lemma FiringsAreBounded(readings: seq<real>, interval: real)
    requires Readings(readings) && interval > 0.0 && |readings| > 0
    ensures |Firings(readings, interval)| <= (readings[|readings| - 1] / interval).Floor + 1
  {
    TimersArePaced(readings, interval);
    var log, last := Firings(readings, interval), readings[|readings| - 1];
    assert log[|log| - 1] >= Times((|log| - 1) as real, interval);
    hide Firings, Paced, Readings, Times;
    QuotientBound((|log| - 1) as real, interval, last);
  }

  lemma QuotientBound(k: real, interval: real, last: real)
    requires interval > 0.0 && Times(k, interval) <= last
    ensures k <= last / interval
  {
  }

  lemma {:induction false} Apart(log: seq<real>, interval: real, i: nat, j: nat)
    requires interval > 0.0 && Spaced(log, interval) && i < j < |log|
    ensures log[j] >= log[i] + interval
    decreases j
  {
    if i == j - 1 {
    } else {
      Apart(log, interval, i, j - 1);
    }
  }

  /** A reading that comes an interval or more after the firings before the k-th is covered by the k-th
      or a later one. */
  lemma CoveredByThen(log: seq<real>, interval: real, r: real, k: nat)
    requires Spaced(log, interval) && interval > 0.0 && Covered(log, r, interval)
    requires k <= |log| && (k > 0 ==> r >= log[k - 1] + interval)
    ensures k < |log| && log[k] <= r
  {
    hide Spaced;
    var j :| 0 <= j < |log| && log[j] <= r < log[j] + interval;
    if j < k - 1 {
      Apart(log, interval, j, k - 1);
    }
    if k < j {
      Apart(log, interval, k, j);
    }
  }

  lemma FiredByThen(log: seq<real>, readings: seq<real>, interval: real, r: real, k: nat)
    requires Paced(log, readings, interval) && interval > 0.0 && r in readings
    requires k <= |log| && (k > 0 ==> r >= log[k - 1] + interval)
    ensures k < |log| && log[k] <= r
  {
    var i :| 0 <= i < |readings| && readings[i] == r;
    PollIsCovered(log, readings, interval, i);
    hide Prompt, InTime, Spaced, Covered;
    CoveredByThen(log, interval, r, k);
  }

  lemma PollIsCovered(log: seq<real>, readings: seq<real>, interval: real, i: nat)
    requires Prompt(log, readings, interval) && i < |readings|
    ensures Covered(log, readings[i], interval)
  {
    hide Covered;
  }

  /** The promises leave a timer no freedom: two logs that keep them on the same readings agree. */
  lemma {:induction false} PacedLogsAgree(a: seq<real>, b: seq<real>, readings: seq<real>, interval: real, k: nat)
    requires Paced(a, readings, interval) && Paced(b, readings, interval) && interval > 0.0
    requires k < |a|
    ensures k < |b| && a[k] == b[k]
  {
    hide Covered, InTime;
    if k == 0 {
    } else {
      PacedLogsAgree(a, b, readings, interval, k - 1);
    }
    FiredByThen(b, readings, interval, a[k], k);
    FiredByThen(a, readings, interval, b[k], k);
  }

  lemma PacedLogIsUnique(log: seq<real>, readings: seq<real>, interval: real)
    requires Readings(readings) && interval > 0.0 && Paced(log, readings, interval)
    ensures log == Firings(readings, interval)
  {
    TimersArePaced(readings, interval);
    hide Firings, Readings, Paced;
    var fired := Firings(readings, interval);
    forall k | 0 <= k < |log|
      ensures k < |fired| && log[k] == fired[k]
    {
      PacedLogsAgree(log, fired, readings, interval, k);
    }
    if |log| < |fired| {
      PacedLogsAgree(fired, log, readings, interval, |log|);
    } else if |fired| < |log| {
      PacedLogsAgree(log, fired, readings, interval, |fired|);
    }
  }

  // ------------------------------------------------------- the loop

  /** What a timer of the loop owes after n rounds. */
  ghost predicate KeepsPace(log: seq<real>, rounds: seq<Round>, n: nat, interval: real)
    requires n <= |rounds|
  {
    interval > 0.0 ==>
      && Paced(log, Elapsed(rounds[..n]), interval)
      && (n > 0 ==> |log| <= (rounds[n - 1].elapsed / interval).Floor + 1)
  }

  lemma TimerKeepsPace(rounds: seq<Round>, n: nat, interval: real)
    requires Clock(rounds) && n <= |rounds|
    ensures KeepsPace(Firings(Elapsed(rounds[..n]), interval), rounds, n, interval)
  {
    hide Firings, Paced, Readings;
    if interval > 0.0 {
      ClockGivesReadings(rounds, n);
      TimersArePaced(Elapsed(rounds[..n]), interval);
      if n > 0 {
        FiringsAreBounded(Elapsed(rounds[..n]), interval);
      }
    }
  }

  /** The value of `lastAt` that goes with a timer's past firings. */
  function LastAt(log: seq<real>, interval: real): real {
    if |log| == 0 then -interval else log[|log| - 1]
  }

  /** The monitor loop with its three timers. It runs until the guard reads the duration or the
      readings end (the run is still going on); each timer fires as if it were alone, so each one with a
      positive interval is paced and bounded. */
  method MonitorLoop(rounds: seq<Round>, duration: real, linkInterval: real, queryInterval: real, rssInterval: real)
    returns (links: seq<real>, queries: seq<real>, rss: seq<real>, n: nat)
    requires Clock(rounds)
    ensures n <= |rounds|
    ensures forall i :: 0 <= i < n ==> rounds[i].guard < duration
    ensures n < |rounds| ==> rounds[n].guard >= duration
    ensures links == Firings(Elapsed(rounds[..n]), linkInterval)
    ensures queries == Firings(Elapsed(rounds[..n]), queryInterval)
    ensures rss == Firings(Elapsed(rounds[..n]), rssInterval)
    ensures KeepsPace(links, rounds, n, linkInterval)
    ensures KeepsPace(queries, rounds, n, queryInterval)
    ensures KeepsPace(rss, rounds, n, rssInterval)
  {
    hide Firings, Elapsed, Clock, KeepsPace;
    links, queries, rss, n := [], [], [], 0;
    var lastLinkAt, lastQueryAt, lastRssAt := -linkInterval, -queryInterval, -rssInterval;
    NoFirings(rounds, linkInterval);
    NoFirings(rounds, queryInterval);
    NoFirings(rounds, rssInterval);
    while n < |rounds| && rounds[n].guard < duration
      invariant n <= |rounds|
      invariant forall i :: 0 <= i < n ==> rounds[i].guard < duration
      invariant links == Firings(Elapsed(rounds[..n]), linkInterval) && lastLinkAt == LastAt(links, linkInterval)
      invariant queries == Firings(Elapsed(rounds[..n]), queryInterval) && lastQueryAt == LastAt(queries, queryInterval)
      invariant rss == Firings(Elapsed(rounds[..n]), rssInterval) && lastRssAt == LastAt(rss, rssInterval)
    {
      var elapsed := rounds[n].elapsed;
      ClockSign(rounds, n);
      FiringsStep(rounds, n, linkInterval);
      FiringsStep(rounds, n, queryInterval);
      FiringsStep(rounds, n, rssInterval);
      if elapsed - lastLinkAt >= linkInterval {
        lastLinkAt := elapsed;
        links := links + [elapsed];
      }
      if elapsed - lastQueryAt >= queryInterval {
        lastQueryAt := elapsed;
        queries := queries + [elapsed];
      }
      if elapsed - lastRssAt >= rssInterval {
        lastRssAt := elapsed;
        rss := rss + [elapsed];
      }
      n := n + 1;
    }
    TimerKeepsPace(rounds, n, linkInterval);
    TimerKeepsPace(rounds, n, queryInterval);
    TimerKeepsPace(rounds, n, rssInterval);
  }

  lemma ClockSign(rounds: seq<Round>, n: nat)
    requires Clock(rounds) && n < |rounds|
    ensures rounds[n].elapsed >= 0.0
  {
  }

  lemma NoFirings(rounds: seq<Round>, interval: real)
    ensures Firings(Elapsed(rounds[..0]), interval) == []
  {
  }
}
