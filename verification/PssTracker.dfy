// One call of the primary synchronisation block, on values.
//
// The two rings appear as the logs of values pushed since they last restarted. What
// the signal library computes (peak position, peak-to-side-lobe ratio, frequency
// offset) arrives as an arbitrary input of the call.

module PssTracker {
  import opened Radio
  import MA = MovingAverage

  datatype Params = Params(trackAfter: int, trackEvery: int)

  datatype Tracker = Tracker(
    score: int, timer: int, tracking: bool,
    psr: real, psrMax: real, peakPos: int,
    psrLog: seq<real>, cfoLog: seq<real>,
    cursor: int)

  // The threshold in force at the call and what the library would answer if asked.
  datatype Input = Input(threshold: real, peakPos: nat, psr: real, cfo: real)

  // An emitted half frame starts at an absolute position. It either carries the
  // tracking_lost tag or was corrected by a frequency.
  datatype Output = Dropped | Lost(start: int) | Locked(start: int, freq: real)

  const INIT := Tracker(0, 0, false, 0.0, 0.0, 0, [], [], 0)

  function Sync(cfg: Params, s: Tracker, x: Input): Tracker {
    if !s.tracking || s.timer == 0 then
      s.(timer := cfg.trackEvery, peakPos := x.peakPos, psr := x.psr, psrLog := s.psrLog + [x.psr])
    else
      s.(timer := s.timer - 1)
  }

  function IncrScore(cfg: Params, s: Tracker): Tracker {
    if s.tracking && s.score == cfg.trackAfter then s
    else s.(score := s.score + 1, tracking := s.tracking || s.score + 1 == cfg.trackAfter)
  }

  function ResetScore(s: Tracker): Tracker {
    if s.score == 0 then s
    else s.(score := 0, timer := 0, tracking := false, psrLog := [], cfoLog := [])
  }

  function Score(cfg: Params, s: Tracker, x: Input): Tracker {
    var u := if s.psr > x.threshold then IncrScore(cfg, s) else ResetScore(s);
    u.(psrMax := if s.psr > s.psrMax then s.psr else s.psrMax)
  }

  // The read cursor, the emitted window and the frequency it is corrected by.
  function Emit(s: Tracker, x: Input): (Tracker, Output) {
    var start := s.cursor + s.peakPos - SLOT_LENGTH;
    var moved := s.(peakPos := SLOT_LENGTH, cursor := start + HALF_FRAME_LENGTH);
    if s.tracking then
      var u := moved.(cfoLog := s.cfoLog + [x.cfo]);
      (u, Locked(start, -MA.Mean(u.cfoLog) / (SYMBOL_SIZE as real)))
    else
      (moved, Lost(start))
  }

  function Step(cfg: Params, s: Tracker, x: Input): (Tracker, Output) {
    var t := Sync(cfg, s, x);
    var u := Score(cfg, t, x);
    // the lock, or the score that was building up to one, is lost in this call
    var trackingLost := !(t.psr > x.threshold) && t.score != 0;
    if t.psr > x.threshold || trackingLost then Emit(u, x)
    else (u.(cursor := u.cursor + HALF_FRAME_LENGTH), Dropped)
  }

  function Run(cfg: Params, xs: seq<Input>): Tracker {
    if xs == [] then INIT
    else Step(cfg, Run(cfg, xs[..|xs| - 1]), xs[|xs| - 1]).0
  }

  lemma RunExtend(cfg: Params, xs: seq<Input>, x: Input)
    ensures Run(cfg, xs + [x]) == Step(cfg, Run(cfg, xs), x).0
  {
    assert (xs + [x])[..|xs|] == xs;
  }
}
