/** Recognising who is speaking: chunks of audio are buffered until half a second has arrived,
    then the loudest candidate frequency is reported. */
module Fingerprinter {
  import opened Reals
  import opened Complex
  import opened Goertzel
  import opened Tones
  import opened Wrappers

  const SAMPLE_RATE: nat := 48000
  const MIN_SAMPLES: nat := 24000
  const FRAME: nat := 480
  const AMPLITUDE := 8000.0

  /** The winning candidate and its squared magnitude. */
  datatype Detection = Detection(hz: nat, power: real)

  /** `turns(n)` is the rotation e^(2·pi·i/n) behind Math.cos and Math.sin: b steps of the one that is b
      times as fine make one of the coarser. */
  ghost predicate TrigTable(turns: nat -> C) {
    && (forall n: nat :: IsTurn(turns(n), n))
    && (forall a: nat, b: nat :: Finer(turns, a, b))
  }

  ghost predicate Finer(turns: nat -> C, a: nat, b: nat) {
    a > 0 && b > 0 ==> Pow(turns(a * b), b) == turns(a)
  }

  /** Math.round(n·hz / rate). */
  function Bin(n: nat, hz: nat): nat {
    (2 * n * hz + SAMPLE_RATE) / (2 * SAMPLE_RATE)
  }

  function PowerAt(turns: nat -> C, x: seq<real>, hz: nat): real {
    Norm2(Dft(x, Pow(turns(|x|), Bin(|x|, hz))))
  }

  /** The first candidate whose power no earlier one reaches and no later one exceeds. */
  function Loudest(turns: nat -> C, x: seq<real>, candidates: seq<nat>): Detection {
    if |candidates| == 0 then Detection(0, 0.0)
    else
      var last := |candidates| - 1;
      var best := Loudest(turns, x, candidates[..last]);
      var power := PowerAt(turns, x, candidates[last]);
      if power > best.power then Detection(candidates[last], power) else best
  }

  lemma NothingIsSilent(turns: nat -> C, x: seq<real>)
    ensures Loudest(turns, x, []) == Detection(0, 0.0)
  {
  }

  lemma LoudestStep(turns: nat -> C, x: seq<real>, candidates: seq<nat>, i: nat)
    requires i < |candidates|
    ensures var best, power := Loudest(turns, x, candidates[..i]), PowerAt(turns, x, candidates[i]);
      Loudest(turns, x, candidates[..i + 1]) == if power > best.power then Detection(candidates[i], power) else best
  {
    hide PowerAt;
    assert candidates[..i + 1][..i] == candidates[..i];
  }

  ghost predicate FirstMaximum(turns: nat -> C, x: seq<real>, candidates: seq<nat>, best: Detection, i: nat) {
    && i < |candidates|
    && best == Detection(candidates[i], PowerAt(turns, x, candidates[i]))
    && forall j :: 0 <= j < i ==> PowerAt(turns, x, candidates[j]) < best.power
  }

  /** The reported frequency is a maximal candidate, the first of them; 0 is reported with power 0
      exactly when every magnitude is 0. */
  lemma {:induction false} LoudestIsFirstMaximum(turns: nat -> C, x: seq<real>, candidates: seq<nat>)
    ensures var best := Loudest(turns, x, candidates);
      && (forall c :: c in candidates ==> PowerAt(turns, x, c) <= best.power)
      && (best.power > 0.0 ==> exists i :: FirstMaximum(turns, x, candidates, best, i))
      && (best.power == 0.0 <==> forall c :: c in candidates ==> PowerAt(turns, x, c) == 0.0)
      && (best.power == 0.0 ==> best.hz == 0)
      && best.power >= 0.0
  {
    hide PowerAt;
    if |candidates| == 0 {
    } else {
      var last := |candidates| - 1;
      var init := candidates[..last];
      LoudestIsFirstMaximum(turns, x, init);
      PowerIsNonNegative(turns, x, candidates[last]);
      var best, best' := Loudest(turns, x, init), Loudest(turns, x, candidates);
      assert forall c :: c in candidates <==> c in init || c == candidates[last];
      if best' == best && best.power > 0.0 {
        var i :| FirstMaximum(turns, x, init, best, i);
        assert forall j :: 0 <= j < i ==> candidates[j] == init[j];
        assert FirstMaximum(turns, x, candidates, best, i);
      } else if best' != best {
        assert forall j :: 0 <= j < last ==> candidates[j] == init[j] && candidates[j] in init;
        assert FirstMaximum(turns, x, candidates, best', last);
      }
    }
  }

  lemma PowerIsNonNegative(turns: nat -> C, x: seq<real>, hz: nat)
    ensures PowerAt(turns, x, hz) >= 0.0
  {
    hide Norm2;
    NormPositive(Dft(x, Pow(turns(|x|), Bin(|x|, hz))));
  }

  function Flatten(chunks: seq<seq<real>>): seq<real> {
    if |chunks| == 0 then []
    else Flatten(chunks[..|chunks| - 1]) + chunks[|chunks| - 1]
  }

  datatype State = State(buffer: seq<seq<real>>, totalSamples: nat, result: Option<Detection>)

  datatype Event = Chunk(samples: seq<real>) | Reset

  const FRESH := State([], 0, None)

  function Step(turns: nat -> C, candidates: seq<nat>, s: State, e: Event): State {
    match e
    case Reset => FRESH
    case Chunk(samples) =>
      if s.result.Some? then s
      else
        var buffer, total := s.buffer + [samples], s.totalSamples + |samples|;
        if total >= MIN_SAMPLES then State([], total, Some(Loudest(turns, Flatten(buffer), candidates)))
        else State(buffer, total, None)
  }

  function Run(turns: nat -> C, candidates: seq<nat>, events: seq<Event>): State {
    if |events| == 0 then FRESH
    else
      var last := |events| - 1;
      Step(turns, candidates, Run(turns, candidates, events[..last]), events[last])
  }

  class AudioFingerprinter {
    var buffer: seq<seq<real>>
    var totalSamples: nat
    var result: Option<Detection>
    const candidateHz: seq<nat>
    const turns: nat -> C

    function View(): State
      reads this
    {
      State(buffer, totalSamples, result)
    }

    ghost predicate Valid()
      reads this
    {
      && TrigTable(turns)
      && (result.None? ==> totalSamples == |Flatten(buffer)|)
    }

    constructor (candidateHz: seq<nat>, turns: nat -> C)
      requires TrigTable(turns)
      ensures Valid() && View() == FRESH
      ensures this.candidateHz == candidateHz && this.turns == turns
    {
      this.candidateHz, this.turns := candidateHz, turns;
      buffer, totalSamples, result := [], 0, None;
    }

    /** The caller reuses `samples`, so its content is copied. */
    method OnData(samples: array<real>)
      requires Valid()
      modifies this
      ensures Valid() && View() == Step(turns, candidateHz, old(View()), Chunk(samples[..]))
    {
      if result.Some? {
        return;
      }
      buffer := buffer + [samples[..]];
      totalSamples := totalSamples + samples.Length;
      assert buffer[..|buffer| - 1] == old(buffer);
      if totalSamples >= MIN_SAMPLES {
        Analyse();
      }
    }

    method Analyse()
      requires Valid() && result.None?
      modifies this
      ensures Valid()
      ensures View() == State([], old(totalSamples), Some(Loudest(turns, Flatten(old(buffer)), candidateHz)))
    {
      hide Flatten, Loudest, Bin;
      var all := Concatenate();
      buffer := [];
      NothingIsSilent(turns, all);
      var best := Detection(0, 0.0);
      for i := 0 to |candidateHz|
        invariant best == Loudest(turns, all, candidateHz[..i])
        invariant buffer == [] && totalSamples == old(totalSamples)
      {
        LoudestStep(turns, all, candidateHz, i);
        var hz := candidateHz[i];
        var z := BinRotation(turns, |all|, hz);
        var power := Goertzel.Power(all, z);
        if power > best.power {
          best := Detection(hz, power);
        }
      }
      assert candidateHz[..|candidateHz|] == candidateHz;
      result := Some(best);
    }

    /** Copies the buffered chunks into one array, one after another. */
    method Concatenate() returns (samples: seq<real>)
      requires Valid() && result.None?
      ensures samples == Flatten(buffer)
    {
      hide Flatten;
      NothingFlattens();
      var all := new real[totalSamples];
      var offset := 0;
      for i := 0 to |buffer|
        invariant offset == |Flatten(buffer[..i])| <= totalSamples
        invariant all[..offset] == Flatten(buffer[..i])
      {
        var chunk := buffer[i];
        assert buffer[..i] + [chunk] == buffer[..i + 1];
        FlattenStep(buffer[..i], chunk);
        PrefixFits(buffer, i + 1);
        forall k | 0 <= k < |chunk| {
          all[offset + k] := chunk[k];
        }
        assert all[..offset] + all[offset..offset + |chunk|] == all[..offset + |chunk|];
        assert all[offset..offset + |chunk|] == chunk;
        offset := offset + |chunk|;
      }
      assert buffer[..|buffer|] == buffer;
      samples := all[..];
    }

    method ResetAll()
      requires Valid()
      modifies this
      ensures Valid() && View() == Step(turns, candidateHz, old(View()), Reset)
    {
      result := None;
      buffer := [];
      totalSamples := 0;
    }
  }

  /** The unit rotation whose real part is cos(2·pi·k/n). */
  method BinRotation(turns: nat -> C, n: nat, hz: nat) returns (z: C)
    requires TrigTable(turns)
    ensures z == Pow(turns(n), Bin(n, hz)) && Norm2(z) == 1.0
  {
    assert IsTurn(turns(n), n);
    PowUnit(turns(n), Bin(n, hz));
    z := Pow(turns(n), Bin(n, hz));
  }

  lemma {:induction false} PrefixFits(chunks: seq<seq<real>>, i: nat)
    requires i <= |chunks|
    ensures Flatten(chunks[..i]) <= Flatten(chunks)
    decreases |chunks| - i
  {
    if i == |chunks| {
      assert chunks[..i] == chunks;
    } else {
      assert chunks[..i + 1][..i] == chunks[..i];
      PrefixFits(chunks, i + 1);
    }
  }

  // ------------------------------------------------------------------ whole runs

  /** The chunks delivered since the last reset. */
  function SinceReset(events: seq<Event>): seq<seq<real>> {
    if |events| == 0 || events[|events| - 1] == Reset then []
    else SinceReset(events[..|events| - 1]) + [events[|events| - 1].samples]
  }

  /** `m` chunks are the fewest that reach the threshold. */
  predicate Enough(chunks: seq<seq<real>>, m: nat) {
    0 < m <= |chunks| && |Flatten(chunks[..m - 1])| < MIN_SAMPLES <= |Flatten(chunks[..m])|
  }

  /** The state after the first `m` chunks were analysed together. */
  function Analysed(turns: nat -> C, candidates: seq<nat>, chunks: seq<seq<real>>, m: nat): State
    requires m <= |chunks|
  {
    var all := Flatten(chunks[..m]);
    State([], |all|, Some(Loudest(turns, all, candidates)))
  }

  /** What a run leaves behind depends only on the chunks since the last reset: below the threshold
      they are all buffered in order, and from then on the result is the one analysis of the
      shortest sufficient prefix. */
  ghost predicate Settled(turns: nat -> C, candidates: seq<nat>, chunks: seq<seq<real>>, s: State) {
    if |Flatten(chunks)| < MIN_SAMPLES then
      s == State(chunks, |Flatten(chunks)|, None)
    else
      exists m: nat :: Enough(chunks, m) && s == Analysed(turns, candidates, chunks, m)
  }

  lemma {:induction false} RunSettles(turns: nat -> C, candidates: seq<nat>, events: seq<Event>)
    ensures Settled(turns, candidates, SinceReset(events), Run(turns, candidates, events))
  {
    hide Loudest, Flatten;
    NothingFlattens();
    if |events| == 0 || events[|events| - 1].Reset? {
    } else {
      var last := |events| - 1;
      var before, chunks := SinceReset(events[..last]), SinceReset(events);
      var s := Run(turns, candidates, events[..last]);
      RunSettles(turns, candidates, events[..last]);
      FlattenStep(before, events[last].samples);
      assert chunks[..|before|] == before && chunks[..|chunks|] == chunks;
      if s.result.Some? {
        var m: nat :| Enough(before, m) && s == Analysed(turns, candidates, before, m);
        StaysEnough(before, chunks, m);
        assert s == Analysed(turns, candidates, chunks, m);
      } else if |Flatten(chunks)| >= MIN_SAMPLES {
        assert Enough(chunks, |chunks|);
      }
    }
  }

  lemma NothingFlattens()
    ensures Flatten([]) == []
  {
  }

  lemma FlattenStep(chunks: seq<seq<real>>, chunk: seq<real>)
    ensures Flatten(chunks + [chunk]) == Flatten(chunks) + chunk
  {
    assert (chunks + [chunk])[..|chunks|] == chunks;
  }

  lemma StaysEnough(before: seq<seq<real>>, chunks: seq<seq<real>>, m: nat)
    requires Enough(before, m) && before <= chunks
    ensures Enough(chunks, m) && before[..m] == chunks[..m]
    ensures |Flatten(chunks)| >= MIN_SAMPLES
  {
    assert before[..m] == chunks[..m] && before[..m - 1] == chunks[..m - 1];
    PrefixFits(chunks, m);
  }

  lemma EnoughIsUnique(chunks: seq<seq<real>>, m: nat, k: nat)
    requires Enough(chunks, m) && Enough(chunks, k)
    ensures m == k
  {
    if m < k {
      PrefixOfPrefix(chunks, m, k - 1);
    } else if k < m {
      PrefixOfPrefix(chunks, k, m - 1);
    }
  }

  lemma PrefixOfPrefix(chunks: seq<seq<real>>, i: nat, j: nat)
    requires i <= j <= |chunks|
    ensures |Flatten(chunks[..i])| <= |Flatten(chunks[..j])|
  {
    assert chunks[..j][..i] == chunks[..i];
    PrefixFits(chunks[..j], i);
  }

  // ------------------------------------------------------------------ an exact tone is recognised

  /** `n` samples of the synthetic tone from sample `start` on; the tone turns by `v` per sample. */
  function Stream(v: C, start: nat, n: nat): seq<real> {
    seq(n, (i: nat) => AMPLITUDE * Pow(v, start + i).im)
  }

  /** The sender: 10 ms frames of a sine, with the clock carried from frame to frame. */
  class ToneSource {
    const v: C
    var t: nat

    constructor (v: C)
      ensures this.v == v && t == 0
    {
      this.v, t := v, 0;
    }

    method Tick() returns (frame: array<real>)
      modifies this
      ensures fresh(frame) && frame[..] == Stream(v, old(t), FRAME)
      ensures t == old(t) + FRAME
    {
      frame := new real[FRAME];
      for i := 0 to FRAME
        invariant t == old(t) + i
        invariant frame[..i] == Stream(v, old(t), i)
      {
        frame[i] := AMPLITUDE * Pow(v, t).im;
        t := t + 1;
      }
    }
  }

  /** Wherever the stream is cut, the window is a tone at some phase. */
  lemma WindowIsTone(v: C, start: nat, n: nat)
    ensures var p := Pow(v, start);
      Stream(v, start, n) == Tone(v, AMPLITUDE * p.im, AMPLITUDE * p.re, n)
  {
    hide Pow, Mul, Sample;
    var p := Pow(v, start);
    forall i: nat | i < n
      ensures AMPLITUDE * Pow(v, start + i).im == Sample(AMPLITUDE * p.im, AMPLITUDE * p.re, Pow(v, i))
    {
      PowAdd(v, start, i);
      SineOfSum(p, Pow(v, i));
    }
  }

  lemma SineOfSum(p: C, q: C)
    ensures AMPLITUDE * Mul(p, q).im == Sample(AMPLITUDE * p.im, AMPLITUDE * p.re, q)
  {
  }

  /** Its amplitude is the full one whatever the phase. */
  lemma FullAmplitude(p: C)
    requires Norm2(p) == 1.0
    ensures Square(AMPLITUDE * p.im) + Square(AMPLITUDE * p.re) == Square(AMPLITUDE)
  {
    var x, y := p.im, p.re;
    assert x * x + y * y == 1.0;
  }

  /** What the detector reads at bin `k` in any window of the stream sent on bin `j`. */
  lemma WindowSpectrum(u: C, n: nat, j: nat, k: nat, start: nat)
    requires IsTurn(u, n) && n > 0 && (2 * j) % n != 0
    ensures Norm2(Dft(Stream(Pow(u, j), start, n), Pow(u, k))) == if OnBin(n, j, k) then FullPower(n) else 0.0
  {
    hide Square, Pow, Norm2, Dft, Stream, Tone, OnBin;
    var v := Pow(u, j);
    var p := Pow(v, start);
    PowUnit(u, j);
    PowUnit(v, start);
    WindowIsTone(v, start, n);
    FullAmplitude(p);
    ToneSpectrum(u, n, j, k, AMPLITUDE * p.im, AMPLITUDE * p.re);
  }

  /** The squared magnitude of a tone on its own bin. */
  function FullPower(n: nat): real {
    Square(n as real / 2.0) * Square(AMPLITUDE)
  }

  /** The first candidate whose bin is the tone's or an alias of it, or the number of candidates. */
  function FirstOn(n: nat, bin: nat, candidates: seq<nat>): (f: nat)
    requires n > 0
    ensures f <= |candidates|
  {
    if |candidates| == 0 then 0
    else
      var last := |candidates| - 1;
      var f := FirstOn(n, bin, candidates[..last]);
      if f < last || SharesBin(n, bin, candidates[last]) then f else last + 1
  }

  /** The first candidate on the bin has this frequency. */
  predicate LeadsBin(n: nat, bin: nat, candidates: seq<nat>, hz: nat)
    requires n > 0
  {
    var f := FirstOn(n, bin, candidates);
    f < |candidates| && candidates[f] == hz
  }

  predicate SharesBin(n: nat, bin: nat, hz: nat)
    requires n > 0
  {
    OnBin(n, bin, Bin(n, hz))
  }

  lemma {:induction false} FirstOnIsFirst(n: nat, bin: nat, candidates: seq<nat>)
    requires n > 0
    ensures var f := FirstOn(n, bin, candidates);
      && (f < |candidates| ==> SharesBin(n, bin, candidates[f]))
      && (forall i :: 0 <= i < f ==> !SharesBin(n, bin, candidates[i]))
  {
    hide SharesBin;
    if |candidates| == 0 {
    } else {
      var last := |candidates| - 1;
      FirstOnIsFirst(n, bin, candidates[..last]);
      assert forall i :: 0 <= i < last ==> candidates[..last][i] == candidates[i];
    }
  }

  /** For any candidates, any window of a tone that falls exactly on a bin is reported as the first candidate
      on that bin, with the full power of the tone; as 0 with power 0 if there is none. */
  lemma WindowIsReported(turns: nat -> C, candidates: seq<nat>, bin: nat, start: nat, n: nat)
    requires TrigTable(turns) && n > 0 && (2 * bin) % n != 0
    ensures var f := FirstOn(n, bin, candidates);
      Loudest(turns, Stream(Pow(turns(n), bin), start, n), candidates)
        == if f < |candidates| then Detection(candidates[f], FullPower(n)) else Detection(0, 0.0)
  {
    hide Square, Bin, Pow, Norm2, Dft, Loudest, OnBin, FirstOn, FullPower, Finer;
    var x := Stream(Pow(turns(n), bin), start, n);
    assert IsTurn(turns(n), n);
    forall i | 0 <= i < |candidates|
      ensures PowerAt(turns, x, candidates[i]) == if SharesBin(n, bin, candidates[i]) then FullPower(n) else 0.0
    {
      WindowSpectrum(turns(n), n, bin, Bin(n, candidates[i]), start);
    }
    FullPowerIsPositive(n);
    hide PowerAt;
    FirstOnWins(turns, x, candidates, n, bin);
  }

  /** How a tone of this frequency turns from one sample to the next. */
  function ToneOf(turns: nat -> C, hz: nat): C {
    Pow(turns(SAMPLE_RATE), hz)
  }

  /** A candidate is looked for on the bin nearest to its frequency, the higher one of two. */
  lemma BinIsNearest(n: nat, hz: nat)
    ensures 2 * SAMPLE_RATE * Bin(n, hz) - SAMPLE_RATE <= 2 * n * hz < 2 * SAMPLE_RATE * Bin(n, hz) + SAMPLE_RATE
  {
    var x, d := 2 * n * hz + SAMPLE_RATE, 2 * SAMPLE_RATE;
    assert x == d * (x / d) + x % d;
  }

  /** The frequency is that of its bin, not only near it. */
  predicate FallsOnBin(n: nat, hz: nat) {
    Bin(n, hz) * SAMPLE_RATE == hz * n
  }

  lemma ToneOnBin(turns: nat -> C, n: nat, hz: nat)
    requires TrigTable(turns) && n > 0 && FallsOnBin(n, hz)
    ensures ToneOf(turns, hz) == Pow(turns(n), Bin(n, hz))
  {
    hide Pow, Bin;
    var u := turns(n * SAMPLE_RATE);
    assert Finer(turns, n, SAMPLE_RATE) && Finer(turns, SAMPLE_RATE, n);
    assert n * SAMPLE_RATE == SAMPLE_RATE * n;
    PowPow(u, n, hz);
    PowPow(u, SAMPLE_RATE, Bin(n, hz));
    assert n * hz == SAMPLE_RATE * Bin(n, hz);
  }

  /** A candidate whose frequency falls on a bin is recognised by its tone exactly when no earlier candidate
      of another frequency shares that bin. */
  lemma WindowIsRecognisedIff(turns: nat -> C, candidates: seq<nat>, s: nat, start: nat, n: nat)
    requires TrigTable(turns) && s < |candidates| && n > 0
    requires FallsOnBin(n, candidates[s]) && (2 * Bin(n, candidates[s])) % n != 0
    ensures var bin := Bin(n, candidates[s]);
      var heard := Loudest(turns, Stream(ToneOf(turns, candidates[s]), start, n), candidates);
      && heard.power == FullPower(n)
      && (heard.hz == candidates[s] <==> LeadsBin(n, bin, candidates, candidates[s]))
      && (Distinct(candidates) ==>
            (heard.hz == candidates[s] <==> forall i :: 0 <= i < s ==> !SharesBin(n, bin, candidates[i])))
  {
    hide TrigTable, Bin, Pow, Loudest, SharesBin, FirstOn, FullPower, Stream, ToneOf, FallsOnBin;
    var bin := Bin(n, candidates[s]);
    OwnBin(n, candidates[s]);
    ToneOnBin(turns, n, candidates[s]);
    FirstOnIsFirst(n, bin, candidates);
    WindowIsReported(turns, candidates, bin, start, n);
    assert FirstOn(n, bin, candidates) <= s;
  }

  lemma OwnBin(n: nat, hz: nat)
    requires n > 0
    ensures SharesBin(n, Bin(n, hz), hz)
  {
  }

  /** They do share bins: a tone at 442 Hz, which falls on one, is reported as 441 Hz when that is listed
      first. */
  lemma NeighbourIsReported(turns: nat -> C, start: nat)
    requires TrigTable(turns)
    ensures FallsOnBin(MIN_SAMPLES, 442)
    ensures Loudest(turns, Stream(ToneOf(turns, 442), start, MIN_SAMPLES), [441, 442]).hz == 441
  {
    assert Bin(MIN_SAMPLES, 441) == 221 == Bin(MIN_SAMPLES, 442);
    OwnBin(MIN_SAMPLES, 441);
    ToneOnBin(turns, MIN_SAMPLES, 442);
    hide TrigTable, Pow, Loudest, SharesBin, FirstOn, FullPower, Stream, ToneOf, Bin;
    FirstOnIsFirst(MIN_SAMPLES, 221, [441, 442]);
    WindowIsReported(turns, [441, 442], 221, start, MIN_SAMPLES);
    assert [441, 442][0] == 441;
    assert FirstOn(MIN_SAMPLES, 221, [441, 442]) == 0;
  }

  lemma FullPowerIsPositive(n: nat)
    requires n > 0
    ensures FullPower(n) > 0.0
  {
    var h := n as real / 2.0;
    TimesPositive(h, h);
    TimesPositive(AMPLITUDE, AMPLITUDE);
    TimesPositive(Square(h), Square(AMPLITUDE));
  }

  /** Half a second at amplitude 8000 reads with magnitude 12000 * 8000. */
  lemma PowerOfSpeaker()
    ensures FullPower(24000) == 96000000.0 * 96000000.0
  {
  }

  lemma {:induction false} FirstOnWins(turns: nat -> C, x: seq<real>, candidates: seq<nat>, n: nat, bin: nat)
    requires n > 0 && FullPower(n) > 0.0
    requires forall i :: 0 <= i < |candidates| ==>
      PowerAt(turns, x, candidates[i]) == if SharesBin(n, bin, candidates[i]) then FullPower(n) else 0.0
    ensures var f := FirstOn(n, bin, candidates);
      Loudest(turns, x, candidates)
        == if f < |candidates| then Detection(candidates[f], FullPower(n)) else Detection(0, 0.0)
  {
    hide PowerAt, SharesBin, FullPower;
    if |candidates| == 0 {
    } else {
      var last := |candidates| - 1;
      assert forall i :: 0 <= i < last ==> candidates[..last][i] == candidates[i];
      FirstOnWins(turns, x, candidates[..last], n, bin);
    }
  }

  /** `k` consecutive frames of the stream. */
  function Frames(v: C, start: nat, k: nat): seq<seq<real>> {
    if k == 0 then [] else Frames(v, start, k - 1) + [Stream(v, start + FRAME * (k - 1), FRAME)]
  }

  lemma {:induction false} FramesFlatten(v: C, start: nat, k: nat)
    ensures |Frames(v, start, k)| == k
    ensures Flatten(Frames(v, start, k)) == Stream(v, start, FRAME * k)
  {
    hide Pow;
    if k == 0 {
    } else {
      FramesFlatten(v, start, k - 1);
      var frames := Frames(v, start, k);
      assert frames[..k - 1] == Frames(v, start, k - 1);
      assert Stream(v, start, FRAME * k)
          == Stream(v, start, FRAME * (k - 1)) + Stream(v, start + FRAME * (k - 1), FRAME);
    }
  }

  lemma {:induction false} FramesPrefix(v: C, start: nat, k: nat, m: nat)
    requires m <= k
    ensures |Frames(v, start, k)| == k && Frames(v, start, k)[..m] == Frames(v, start, m)
  {
    hide Stream;
    if m < k {
      FramesPrefix(v, start, k - 1, m);
      assert Frames(v, start, k)[..m] == Frames(v, start, k - 1)[..m];
    } else if k > 0 {
      FramesPrefix(v, start, k - 1, k - 1);
    }
  }

  function Deliver(chunks: seq<seq<real>>): seq<Event> {
    seq(|chunks|, i requires 0 <= i < |chunks| => Chunk(chunks[i]))
  }

  lemma {:induction false} DeliveredSinceReset(before: seq<Event>, chunks: seq<seq<real>>)
    ensures SinceReset(before + [Reset] + Deliver(chunks)) == chunks
  {
    var events := before + [Reset] + Deliver(chunks);
    if |chunks| == 0 {
      assert events[|events| - 1] == Reset;
    } else {
      var last := |chunks| - 1;
      DeliveredSinceReset(before, chunks[..last]);
      assert events[..|events| - 1] == before + [Reset] + Deliver(chunks[..last]);
    }
  }

  /** After any history, once the fingerprinter is reset and at least 50 frames of the tone of a speaker
      have arrived, it reports the first candidate on the speaker's bin, whatever the other candidates are.
      The speaker's frequency is even, so that it falls on a bin of the half-second window, and not a
      multiple of half the sample rate. */
  lemma SpeakerIsReported(turns: nat -> C, candidates: seq<nat>, s: nat, before: seq<Event>, start: nat, k: nat)
    requires TrigTable(turns) && s < |candidates| && k >= 50
    requires candidates[s] % 2 == 0 && candidates[s] % MIN_SAMPLES != 0
    ensures var f := FirstOn(MIN_SAMPLES, candidates[s] / 2, candidates);
      && f <= s
      && Run(turns, candidates, before + [Reset] + Deliver(Frames(ToneOf(turns, candidates[s]), start, k)))
           == State([], MIN_SAMPLES, Some(Detection(candidates[f], FullPower(MIN_SAMPLES))))
  {
    var bin := candidates[s] / 2;
    BinOfEven(candidates[s]);
    OwnBin(MIN_SAMPLES, candidates[s]);
    ToneOnBin(turns, MIN_SAMPLES, candidates[s]);
    hide Pow, Square, Loudest, Flatten, Stream, TrigTable, Frames, SinceReset, Run, Deliver, Bin, SharesBin, FirstOn,
         FullPower, ToneOf;
    var v := ToneOf(turns, candidates[s]);
    var chunks := Frames(v, start, k);
    var events := before + [Reset] + Deliver(chunks);
    DeliveredSinceReset(before, chunks);
    FiftyFramesSuffice(v, start, k);
    RunSettles(turns, candidates, events);
    var m: nat :| Enough(chunks, m) && Run(turns, candidates, events) == Analysed(turns, candidates, chunks, m);
    EnoughIsUnique(chunks, m, 50);
    FirstOnIsFirst(MIN_SAMPLES, bin, candidates);
    assert FirstOn(MIN_SAMPLES, bin, candidates) <= s;
    WindowIsReported(turns, candidates, bin, start, MIN_SAMPLES);
    assert Run(turns, candidates, events) == Analysed(turns, candidates, chunks, 50);
    assert Flatten(chunks[..50]) == Stream(v, start, MIN_SAMPLES);
  }

  lemma BinOfEven(hz: nat)
    requires hz % 2 == 0
    ensures Bin(MIN_SAMPLES, hz) == hz / 2 && 2 * (hz / 2) == hz && FallsOnBin(MIN_SAMPLES, hz)
  {
  }

  /** With distinct candidates that is the speaker exactly when no earlier candidate shares the speaker's
      bin, so always when all candidates are even and below half the sample rate, as in every scenario that
      listens for tones. */
  lemma SpeakerIsRecognised(turns: nat -> C, candidates: seq<nat>, s: nat, before: seq<Event>, start: nat, k: nat)
    requires TrigTable(turns) && s < |candidates| && k >= 50 && Distinct(candidates)
    requires candidates[s] % 2 == 0 && candidates[s] % MIN_SAMPLES != 0
    ensures var events := before + [Reset] + Deliver(Frames(ToneOf(turns, candidates[s]), start, k));
      var recognised := State([], MIN_SAMPLES, Some(Detection(candidates[s], FullPower(MIN_SAMPLES))));
      (Run(turns, candidates, events) == recognised)
        <==> (forall i :: 0 <= i < s ==> !SharesBin(MIN_SAMPLES, candidates[s] / 2, candidates[i]))
    ensures EvenBelowHalf(candidates)
      ==> forall i :: 0 <= i < s ==> !SharesBin(MIN_SAMPLES, candidates[s] / 2, candidates[i])
  {
    var bin := candidates[s] / 2;
    if EvenBelowHalf(candidates) {
      EvenCandidatesSeparate(candidates, s);
    }
    BinOfEven(candidates[s]);
    OwnBin(MIN_SAMPLES, candidates[s]);
    hide Pow, Loudest, Stream, TrigTable, Frames, Run, Deliver, FullPower, FirstOn, ToneOf, SharesBin, Bin,
         EvenBelowHalf;
    SpeakerIsReported(turns, candidates, s, before, start, k);
    FirstOnIsFirst(MIN_SAMPLES, bin, candidates);
    var f := FirstOn(MIN_SAMPLES, bin, candidates);
    assert f < s ==> candidates[f] != candidates[s];
  }

  predicate EvenBelowHalf(candidates: seq<nat>) {
    forall i :: 0 <= i < |candidates| ==> 0 < candidates[i] < MIN_SAMPLES && candidates[i] % 2 == 0
  }

  lemma FiftyFramesSuffice(v: C, start: nat, k: nat)
    requires k >= 50
    ensures var chunks := Frames(v, start, k);
      && Enough(chunks, 50)
      && |Flatten(chunks)| >= MIN_SAMPLES
      && Flatten(chunks[..50]) == Stream(v, start, MIN_SAMPLES)
      && |Stream(v, start, MIN_SAMPLES)| == MIN_SAMPLES
  {
    hide Pow, Stream, Frames, Flatten;
    FramesPrefix(v, start, k, 50);
    FramesPrefix(v, start, k, 49);
    FramesFlatten(v, start, 50);
    FramesFlatten(v, start, 49);
    StreamLength(v, start, FRAME * 50);
    StreamLength(v, start, FRAME * 49);
    PrefixFits(Frames(v, start, k), 50);
  }

  /** Even frequencies below half the sample rate share no bins. */
  lemma EvenCandidatesSeparate(candidates: seq<nat>, s: nat)
    requires s < |candidates| && Distinct(candidates) && EvenBelowHalf(candidates)
    ensures forall i :: 0 <= i < |candidates| && i != s ==> !SharesBin(MIN_SAMPLES, candidates[s] / 2, candidates[i])
  {
    forall i | 0 <= i < |candidates| && i != s
      ensures !SharesBin(MIN_SAMPLES, candidates[s] / 2, candidates[i])
    {
      BinOfEven(candidates[i]);
      BinOfEven(candidates[s]);
      var j, l := candidates[s] / 2, candidates[i] / 2;
      assert i < s || s < i;
      assert 0 < j < 12000 && 0 < l < 12000 && j != l;
      assert (j + l) % MIN_SAMPLES != 0 && (j - l) % MIN_SAMPLES != 0;
    }
  }

  lemma StreamLength(v: C, start: nat, n: nat)
    ensures |Stream(v, start, n)| == n
  {
  }
}
