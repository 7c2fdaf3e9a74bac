// The primary synchronisation block as it runs: fields, two rings and an output buffer
// updated in place. Every call refines PssTracker.Step, so PssHistory and PssRuns speak
// about this object.

module Pss {
  import opened Radio
  import opened PssTracker
  import MA = MovingAverage
  import H = PssHistory

  // set_history(half_frame_length): the sample at the read cursor has this index in the
  // buffer a call is given.
  const HISTORY_OFFSET: int := HALF_FRAME_LENGTH - 1

  // Where the copy of a half frame finds its i-th sample.
  function CopyIndex(frameStart: int, i: nat): int {
    HISTORY_OFFSET + frameStart + i
  }

  // The samples that the copy reads all lie in a buffer of n samples.
  ghost predicate CopyInBounds(n: nat, frameStart: int) {
    forall i :: 0 <= i < HALF_FRAME_LENGTH ==> 0 <= CopyIndex(frameStart, i) < n
  }

  // The same, from the length of the buffer and the position alone.
  predicate WindowFits(n: nat, peakPos: int) {
    peakPos - SLOT_LENGTH + HISTORY_OFFSET + HALF_FRAME_LENGTH <= n
  }

  // assert(nconsume < ninput_items[0]): the number of items a call consumes is below the
  // number it was given, history included.
  predicate AssertionHolds(n: nat, peakPos: int) {
    peakPos - SLOT_LENGTH + HALF_FRAME_LENGTH < n
  }

  // What the copy needs of the buffer, for every buffer and every position, and which
  // calls the assertion in front of it lets pass although the copy overruns. With the
  // smallest buffer a scheduler may offer, 19199 items, these are the calls with a peak at
  // 961 to 10558.
  lemma AssertionIsTooWeak(n: nat, peakPos: nat)
    ensures CopyInBounds(n, peakPos - SLOT_LENGTH) <==> WindowFits(n, peakPos)
    ensures WindowFits(n, peakPos) ==> AssertionHolds(n, peakPos)
    ensures AssertionHolds(n, peakPos) && !CopyInBounds(n, peakPos - SLOT_LENGTH)
            <==> peakPos + 8640 < n < peakPos + 18239
    ensures var least := HALF_FRAME_LENGTH + HISTORY_OFFSET;
            AssertionHolds(least, peakPos) && !CopyInBounds(least, peakPos - SLOT_LENGTH)
            <==> 961 <= peakPos <= 10558
  {
    var last := HALF_FRAME_LENGTH - 1;
    assert CopyIndex(peakPos - SLOT_LENGTH, last) == peakPos - SLOT_LENGTH + HISTORY_OFFSET + HALF_FRAME_LENGTH - 1;
  }

  // Between calls the counters show a run, the one that ends the history, and a tracking block
  // stands at its peak.
  lemma CountersShowRun(cfg: Params, xs: seq<Input>) returns (run: nat)
    ensures var s := Run(cfg, xs);
            && s.score == (if 1 <= cfg.trackAfter <= run then cfg.trackAfter else run)
            && (s.tracking <==> 1 <= cfg.trackAfter <= run)
            && (s.tracking ==> s.peakPos == SLOT_LENGTH)
  {
    H.PssMatchesHistory(cfg, xs);
    run := H.TrailingRun(H.History(cfg, xs));
  }

  class PssBlock {
    const cfg: Params
    var psrThreshold: real

    var score: int
    var timer: int
    var isTracking: bool
    var trackingLost: bool

    const psrData: array<real>
    var psrI: nat
    var psr: real
    var psrMax: real
    var peakPos: int

    const cfoData: array<real>
    var cfoI: nat

    // how far the scheduler has moved this block on its two streams
    var itemsRead: int
    var itemsWritten: nat

    // the inputs of all calls so far
    ghost var hist: seq<Input>

    ghost predicate Shows(s: Tracker)
      reads this`score, this`timer, this`isTracking, this`psr, this`psrMax, this`peakPos, this`psrI, this`cfoI,
            this`itemsRead, psrData, cfoData
    {
      && psrData != cfoData
      && score == s.score && timer == s.timer && isTracking == s.tracking
      && psr == s.psr && psrMax == s.psrMax && peakPos == s.peakPos
      && MA.Holds(psrData[..], s.psrLog) && psrI == |s.psrLog|
      && MA.Holds(cfoData[..], s.cfoLog) && cfoI == |s.cfoLog|
      && itemsRead == s.cursor
    }

    // Between calls no loss is waiting to be signalled, and the output is whole half
    // frames.
    ghost predicate Valid()
      reads this, psrData, cfoData
    {
      Shows(Run(cfg, hist)) && !trackingLost && itemsWritten % HALF_FRAME_LENGTH == 0
    }

    constructor (psrThreshold: real, trackAfter: int, trackEvery: int)
      ensures Valid() && hist == [] && this.psrThreshold == psrThreshold
      ensures cfg == Params(trackAfter, trackEvery)
      ensures fresh(psrData) && fresh(cfoData)
    {
      cfg := Params(trackAfter, trackEvery);
      this.psrThreshold := psrThreshold;
      score, timer, isTracking, trackingLost := 0, 0, false, false;
      psrData := new real[MA.SIZE](_ => 0.0);
      cfoData := new real[MA.SIZE](_ => 0.0);
      psrI, cfoI := 0, 0;
      psr, psrMax, peakPos := 0.0, 0.0, 0;
      itemsRead, itemsWritten := 0, 0;
      hist := [];
    }

    // The counter shows an unbroken run of so many over-threshold calls: its length, cut
    // off at track_after, and whether it is long enough to track.
    ghost predicate Counts(run: nat)
      reads this`score, this`isTracking
    {
      && score == (if 1 <= cfg.trackAfter <= run then cfg.trackAfter else run)
      && (isTracking <==> 1 <= cfg.trackAfter <= run)
    }

    // One more call of the run.
    method IncrScore(ghost s: Tracker, ghost run: nat)
      requires Shows(s) && Counts(run)
      modifies this`score, this`isTracking
      ensures Counts(run + 1)
      ensures Shows(PssTracker.IncrScore(cfg, s))
    {
      var maxScore := cfg.trackAfter;
      if isTracking && score == maxScore {
        return;
      }
      score := score + 1;
      if !isTracking && score == maxScore {
        isTracking := true;
      }
    }

    // The run is broken. Clears only the first 50 slots of each ring: memset is given a
    // count of slots.
    method ResetScore(ghost s: Tracker, ghost run: nat)
      requires Shows(s) && Counts(run)
      modifies this`score, this`timer, this`isTracking, this`trackingLost, this`psrI, this`cfoI, psrData, cfoData
      ensures Counts(0)
      ensures Shows(PssTracker.ResetScore(s))
      ensures trackingLost == (old(trackingLost) || run != 0)
    {
      if score == 0 {
        return;
      }
      score := 0;
      timer := 0;
      isTracking := false;
      MA.ClearBytes(psrData, MA.SIZE);
      psrI := 0;
      MA.ClearBytes(cfoData, MA.SIZE);
      cfoI := 0;
      trackingLost := true;
    }

    // The search, or one tick of the timer that skips it.
    method Sync(ghost s: Tracker, ghost x: Input, foundPos: nat, foundPsr: real)
      requires Shows(s) && x.peakPos == foundPos && x.psr == foundPsr
      modifies this`timer, this`peakPos, this`psr, this`psrI, psrData
      ensures Shows(PssTracker.Sync(cfg, s, x))
    {
      if !isTracking || timer == 0 {
        timer := cfg.trackEvery;
        peakPos := foundPos;
        psr := foundPsr;
        MA.PushKeepsRing(psrData[..], s.psrLog, psr);
        psrData[psrI % MA.SIZE] := psr;
        psrI := psrI + 1;
      } else {
        timer := timer - 1;
      }
    }

    // Score the call against the threshold and keep the largest ratio seen.
    method UpdateScore(ghost t: Tracker, ghost x: Input, ghost run: nat) returns (over: bool)
      requires Shows(t) && Counts(run) && x.threshold == psrThreshold && !trackingLost
      modifies this`score, this`timer, this`isTracking, this`trackingLost, this`psrI, this`cfoI, this`psrMax,
               psrData, cfoData
      ensures Shows(Score(cfg, t, x))
      ensures Counts(if over then run + 1 else 0)
      ensures over == (t.psr > x.threshold) && trackingLost == (!over && t.score != 0)
      ensures trackingLost ==> !isTracking
    {
      over := psr > psrThreshold;
      if over {
        IncrScore(t, run);
      } else {
        ResetScore(t, run);
      }
      if psr > psrMax {
        psrMax := psr;
      }
    }

    // What a call has done to its output and to the stream positions, given the output
    // the tracker calls for.
    twostate predicate Produced(input: Stream, out: array<Cf>, o: Output,
                                produced: nat, consumed: int, new tag: Option<nat>, freq: real)
      reads this`itemsRead, this`itemsWritten, out
    {
      && itemsRead == old(itemsRead) + consumed
      && itemsWritten == old(itemsWritten) + produced
      && if o.Dropped? then
           produced == 0 && consumed == HALF_FRAME_LENGTH && tag.None? && out[..] == old(out[..])
         else
           && produced == HALF_FRAME_LENGTH <= out.Length
           && itemsRead == o.start + HALF_FRAME_LENGTH
           && out[..HALF_FRAME_LENGTH] == Window(input, o.start)
           && (o.Lost? ==> tag == Some(old(itemsWritten)))
           && (o.Locked? ==> tag.None? && freq == o.freq)
    }

    // The buffer offers samples around the read cursor.
    ghost predicate Offers(input: Stream, buf: seq<Cf>)
      reads this`itemsRead
    {
      forall k :: 0 <= k < |buf| ==> buf[k] == input(itemsRead - HISTORY_OFFSET + k)
    }

    // The call will search.
    predicate Searches()
      reads this`isTracking, this`timer
    {
      !isTracking || timer == 0
    }

    // A call answered with this ratio will copy a half frame: it is over threshold or
    // breaks a run.
    predicate WillCopy(foundPsr: real)
      reads this`isTracking, this`timer, this`psr, this`psrThreshold, this`score
    {
      (if Searches() then foundPsr else psr) > psrThreshold || score != 0
    }

    // One call. foundPos, foundPsr and cfo are what the signal library answers. A call
    // that copies needs its window in the buffer (AssertionIsTooWeak).
    method GeneralWork(ghost input: Stream, buf: seq<Cf>, out: array<Cf>,
                       foundPos: nat, foundPsr: real, cfo: real)
      returns (produced: nat, consumed: int, tag: Option<nat>, freq: real)
      requires Valid() && Offers(input, buf)
      requires out.Length >= HALF_FRAME_LENGTH
      requires WillCopy(foundPsr) ==> WindowFits(|buf|, if Searches() then foundPos else peakPos)
      modifies this, psrData, cfoData, out
      ensures Valid() && psrThreshold == old(psrThreshold)
      ensures hist == old(hist) + [Input(psrThreshold, foundPos, foundPsr, cfo)]
      ensures Produced(input, out, Step(cfg, Run(cfg, old(hist)), Input(psrThreshold, foundPos, foundPsr, cfo)).1,
                       produced, consumed, tag, freq)
    {
      ghost var x := Input(psrThreshold, foundPos, foundPsr, cfo);
      RunExtend(cfg, hist, x);
      ghost var run := CountersShowRun(cfg, hist);
      produced, consumed, tag, freq := Process(Run(cfg, hist), x, run, input, buf, out, foundPos, foundPsr, cfo);
      hist := hist + [x];
    }

    // The body of a call: search, score, then pass a half frame on or drop one.
    method Process(ghost s: Tracker, ghost x: Input, ghost run: nat, ghost input: Stream,
                   buf: seq<Cf>, out: array<Cf>, foundPos: nat, foundPsr: real, cfo: real)
      returns (produced: nat, consumed: int, tag: Option<nat>, freq: real)
      requires Shows(s) && Counts(run) && !trackingLost && (s.tracking ==> s.peakPos == SLOT_LENGTH)
      requires x == Input(psrThreshold, foundPos, foundPsr, cfo)
      requires Offers(input, buf) && out.Length >= HALF_FRAME_LENGTH
      requires WillCopy(foundPsr) ==> WindowFits(|buf|, if Searches() then foundPos else peakPos)
      modifies this`score, this`timer, this`isTracking, this`trackingLost, this`psr, this`psrI, this`psrMax,
               this`peakPos, this`cfoI, this`itemsRead, this`itemsWritten, psrData, cfoData, out
      ensures Shows(Step(cfg, s, x).0) && !trackingLost
      ensures Produced(input, out, Step(cfg, s, x).1, produced, consumed, tag, freq)
    {
      tag, freq := None, 0.0;
      Sync(s, x, foundPos, foundPsr);
      ghost var t := PssTracker.Sync(cfg, s, x);
      var psrOverThreshold := UpdateScore(t, x, run);
      ghost var u := Score(cfg, t, x);
      if psrOverThreshold || trackingLost {
        produced := HALF_FRAME_LENGTH;
        consumed, tag, freq := EmitHalfFrame(input, buf, out, u, x, cfo);
      } else {
        consumed := HALF_FRAME_LENGTH;
        itemsRead := itemsRead + consumed;
        produced := 0;
      }
      itemsWritten := itemsWritten + produced;
    }

    // The re-aligned half frame, corrected or tagged.
    method EmitHalfFrame(ghost input: Stream, buf: seq<Cf>, out: array<Cf>,
                         ghost u: Tracker, ghost x: Input, cfo: real)
      returns (consumed: int, tag: Option<nat>, freq: real)
      requires Shows(u) && Offers(input, buf) && x.cfo == cfo
      requires out.Length >= HALF_FRAME_LENGTH
      requires 0 <= peakPos - SLOT_LENGTH + HISTORY_OFFSET
      requires WindowFits(|buf|, peakPos)
      requires trackingLost ==> !isTracking
      modifies this`peakPos, this`itemsRead, this`cfoI, this`trackingLost, cfoData, out
      ensures Shows(Emit(u, x).0) && !trackingLost
      ensures Emit(u, x).1.start == old(itemsRead) + old(peakPos) - SLOT_LENGTH
      ensures itemsRead == old(itemsRead) + consumed == Emit(u, x).1.start + HALF_FRAME_LENGTH
      ensures out[..HALF_FRAME_LENGTH] == Window(input, Emit(u, x).1.start)
      ensures Emit(u, x).1.Lost? ==> tag == Some(itemsWritten)
      ensures Emit(u, x).1.Locked? ==> tag.None? && freq == Emit(u, x).1.freq
    {
      tag, freq := None, 0.0;
      var frameStart := peakPos - SLOT_LENGTH;
      peakPos := SLOT_LENGTH;
      consumed := frameStart + HALF_FRAME_LENGTH;
      CopyWindow(input, buf, out, frameStart);
      itemsRead := itemsRead + consumed;
      if isTracking {
        MA.PushKeepsRing(cfoData[..], u.cfoLog, cfo);
        cfoData[cfoI % MA.SIZE] := cfo;
        cfoI := cfoI + 1;
        var mean := MA.ComputeMovingAvg(cfoData, cfoI, u.cfoLog + [cfo]);
        freq := -mean / (SYMBOL_SIZE as real);
      } else {
        tag := Some(itemsWritten);
        trackingLost := false;
      }
    }

    method CopyWindow(ghost input: Stream, buf: seq<Cf>, out: array<Cf>, frameStart: int)
      requires out.Length >= HALF_FRAME_LENGTH
      requires -HISTORY_OFFSET <= frameStart && frameStart + HISTORY_OFFSET + HALF_FRAME_LENGTH <= |buf|
      requires Offers(input, buf)
      modifies out
      ensures out[..HALF_FRAME_LENGTH] == Window(input, itemsRead + frameStart)
    {
      forall i | 0 <= i < HALF_FRAME_LENGTH {
        out[i] := buf[CopyIndex(frameStart, i)];
      }
    }

    method MeanPsr() returns (r: real)
      requires Valid()
      ensures r == MA.Mean(H.SearchedPsrs(H.History(cfg, hist), H.LastReset(H.History(cfg, hist))))
    {
      H.PssMatchesHistory(cfg, hist);
      r := MA.ComputeMovingAvg(psrData, psrI, Run(cfg, hist).psrLog);
    }

    method MeanCfo() returns (r: real)
      requires Valid()
      ensures r == MA.Mean(H.TrackedCfos(cfg, H.History(cfg, hist), H.LastReset(H.History(cfg, hist))))
    {
      H.PssMatchesHistory(cfg, hist);
      r := MA.ComputeMovingAvg(cfoData, cfoI, Run(cfg, hist).cfoLog);
    }

    method MaxPsr() returns (r: real)
      requires Valid()
      ensures H.IsMaxPsr(H.History(cfg, hist), r)
    {
      H.PssMatchesHistory(cfg, hist);
      r := psrMax;
    }

    method TrackingScore() returns (r: int)
      requires Valid()
      ensures r == (var run := H.TrailingRun(H.History(cfg, hist));
                    if 1 <= cfg.trackAfter <= run then cfg.trackAfter else run)
    {
      H.PssMatchesHistory(cfg, hist);
      r := score;
    }

    method SetPsrThreshold(threshold: real)
      requires Valid()
      modifies this`psrThreshold
      ensures Valid() && psrThreshold == threshold
    {
      psrThreshold := threshold;
    }
  }
}
