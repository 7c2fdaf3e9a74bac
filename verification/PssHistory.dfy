// What the primary synchronisation block should do, told from its history alone: no
// score, no timer, no ring, no cursor. The theorem PssMatchesHistory ties the running
// counters of PssTracker to these definitions after every run.

module PssHistory {
  import opened Radio
  import opened PssTracker
  import MA = MovingAverage

  // One past call: its input, whether it searched, and the ratio it went by.
  datatype Rec = Rec(x: Input, searched: bool, psr: real) {
    predicate Over() { psr > x.threshold }
  }

  // The length of the unbroken run of over-threshold calls that ends the history.
  function TrailingRun(tr: seq<Rec>): nat {
    if tr == [] || !tr[|tr| - 1].Over() then 0 else 1 + TrailingRun(tr[..|tr| - 1])
  }

  predicate Tracked(cfg: Params, tr: seq<Rec>) {
    1 <= cfg.trackAfter <= TrailingRun(tr)
  }

  // How many calls came after the last search.
  function SinceSearch(tr: seq<Rec>): nat {
    if tr == [] || tr[|tr| - 1].searched then 0 else 1 + SinceSearch(tr[..|tr| - 1])
  }

  function LastPsr(tr: seq<Rec>): real {
    if tr == [] then 0.0 else tr[|tr| - 1].psr
  }

  // Outside tracking every call searches; inside, one call in trackEvery + 1 does.
  function Observe(cfg: Params, tr: seq<Rec>, x: Input): Rec {
    var searched := !Tracked(cfg, tr) || SinceSearch(tr) == cfg.trackEvery;
    Rec(x, searched, if searched then x.psr else LastPsr(tr))
  }

  function History(cfg: Params, xs: seq<Input>): (tr: seq<Rec>)
    ensures |tr| == |xs|
    ensures forall i :: 0 <= i < |xs| ==> tr[i].x == xs[i]
  {
    if xs == [] then []
    else
      var tr := History(cfg, xs[..|xs| - 1]);
      tr + [Observe(cfg, tr, xs[|xs| - 1])]
  }

  // The last call was below threshold and ended a run.
  predicate Resets(tr: seq<Rec>) {
    |tr| > 1 && !tr[|tr| - 1].Over() && tr[|tr| - 2].Over()
  }

  // How many calls the history had when a run was last broken.
  function LastReset(tr: seq<Rec>): (n: nat)
    ensures n <= |tr|
  {
    if tr == [] then 0
    else if Resets(tr) then |tr|
    else LastReset(tr[..|tr| - 1])
  }

  // The ratios of the searches after the first n calls.
  function SearchedPsrs(tr: seq<Rec>, n: nat): seq<real> {
    if |tr| <= n then []
    else SearchedPsrs(tr[..|tr| - 1], n) + if tr[|tr| - 1].searched then [tr[|tr| - 1].psr] else []
  }

  // The frequency offsets measured while tracking after the first n calls.
  function TrackedCfos(cfg: Params, tr: seq<Rec>, n: nat): seq<real> {
    if |tr| <= n then []
    else TrackedCfos(cfg, tr[..|tr| - 1], n) + if Tracked(cfg, tr) then [tr[|tr| - 1].x.cfo] else []
  }

  ghost predicate IsMaxPsr(tr: seq<Rec>, m: real) {
    && (m == 0.0 || exists i :: 0 <= i < |tr| && tr[i].psr == m)
    && m >= 0.0
    && forall i :: 0 <= i < |tr| ==> tr[i].psr <= m
  }

  // A call passes its half frame on when it is over threshold or breaks a run.
  predicate Emits(tr: seq<Rec>) {
    tr != [] && (tr[|tr| - 1].Over() || Resets(tr))
  }

  // How far an emitted window starts from the read cursor: only a search moves it.
  function Shift(r: Rec): int {
    if r.searched then r.x.peakPos - SLOT_LENGTH else 0
  }

  function Cursor(tr: seq<Rec>): int {
    if tr == [] then 0
    else Cursor(tr[..|tr| - 1]) + HALF_FRAME_LENGTH + if Emits(tr) then Shift(tr[|tr| - 1]) else 0
  }

  function OutputOf(cfg: Params, tr: seq<Rec>): Output
    requires tr != []
  {
    var start := Cursor(tr) - HALF_FRAME_LENGTH;
    if !Emits(tr) then Dropped
    else if !Tracked(cfg, tr) then Lost(start)
    else Locked(start, -MA.Mean(TrackedCfos(cfg, tr, LastReset(tr))) / (SYMBOL_SIZE as real))
  }

  // The counters agree with the history.
  ghost predicate Agrees(cfg: Params, s: Tracker, tr: seq<Rec>) {
    && s.tracking == Tracked(cfg, tr)
    && s.score == (if 1 <= cfg.trackAfter <= TrailingRun(tr) then cfg.trackAfter else TrailingRun(tr))
    && (s.tracking ==> s.timer == cfg.trackEvery - SinceSearch(tr) && s.peakPos == SLOT_LENGTH)
    && s.psr == LastPsr(tr)
    && IsMaxPsr(tr, s.psrMax)
    && s.psrLog == SearchedPsrs(tr, LastReset(tr))
    && s.cfoLog == TrackedCfos(cfg, tr, LastReset(tr))
    && s.cursor == Cursor(tr)
  }

  lemma HistoryExtend(cfg: Params, xs: seq<Input>, x: Input)
    ensures History(cfg, xs + [x]) == History(cfg, xs) + [Observe(cfg, History(cfg, xs), x)]
  {
    assert (xs + [x])[..|xs|] == xs;
  }

  // What one more call does to each definition.
  lemma OneMore(cfg: Params, tr: seq<Rec>, r: Rec)
    ensures var tr' := tr + [r];
            && TrailingRun(tr') == (if r.Over() then TrailingRun(tr) + 1 else 0)
            && SinceSearch(tr') == (if r.searched then 0 else SinceSearch(tr) + 1)
            && (Resets(tr') <==> !r.Over() && TrailingRun(tr) > 0)
            && (Emits(tr') <==> r.Over() || TrailingRun(tr) > 0)
            && Cursor(tr') == Cursor(tr) + HALF_FRAME_LENGTH + if Emits(tr') then Shift(r) else 0
  {
    assert (tr + [r])[..|tr|] == tr;
  }

  lemma OneMoreLogs(cfg: Params, tr: seq<Rec>, r: Rec)
    ensures var tr' := tr + [r];
            var psrs := SearchedPsrs(tr, LastReset(tr)) + if r.searched then [r.psr] else [];
            var cfos := TrackedCfos(cfg, tr, LastReset(tr)) + if Tracked(cfg, tr') then [r.x.cfo] else [];
            && SearchedPsrs(tr', LastReset(tr')) == (if Resets(tr') then [] else psrs)
            && TrackedCfos(cfg, tr', LastReset(tr')) == (if Resets(tr') then [] else cfos)
  {
    assert (tr + [r])[..|tr|] == tr;
  }

  lemma OneMoreMax(tr: seq<Rec>, r: Rec, m: real)
    requires IsMaxPsr(tr, m)
    ensures IsMaxPsr(tr + [r], if r.psr > m then r.psr else m)
  {
    var tr' := tr + [r];
    assert tr'[|tr|] == r;
    if m != 0.0 {
      var i :| 0 <= i < |tr| && tr[i].psr == m;
      assert tr'[i] == tr[i];
    }
  }

  lemma SyncAgrees(cfg: Params, s: Tracker, tr: seq<Rec>, x: Input)
    requires Agrees(cfg, s, tr)
    ensures var t, r := Sync(cfg, s, x), Observe(cfg, tr, x);
            && t.psr == r.psr
            && t.psrLog == s.psrLog + (if r.searched then [r.psr] else [])
            && t == s.(timer := t.timer, peakPos := t.peakPos, psr := t.psr, psrLog := t.psrLog)
            && t.peakPos - SLOT_LENGTH == Shift(r)
            && t.timer == cfg.trackEvery - if r.searched then 0 else SinceSearch(tr) + 1
  {
  }

  lemma ScoreAgrees(cfg: Params, s: Tracker, tr: seq<Rec>, x: Input)
    requires Agrees(cfg, s, tr)
    ensures var r := Observe(cfg, tr, x);
            var tr' := tr + [r];
            var t := Sync(cfg, s, x);
            var u := Score(cfg, t, x);
            && u.tracking == Tracked(cfg, tr')
            && u.score == (if 1 <= cfg.trackAfter <= TrailingRun(tr') then cfg.trackAfter else TrailingRun(tr'))
            && (Resets(tr') <==> !r.Over() && t.score != 0)
            && (if Resets(tr') then u.psrLog == [] && u.cfoLog == [] else u.psrLog == t.psrLog && u.cfoLog == t.cfoLog)
            && (u.tracking ==> u.timer == t.timer)
            && u.psr == t.psr && u.peakPos == t.peakPos && u.cursor == t.cursor
  {
    SyncAgrees(cfg, s, tr, x);
    OneMore(cfg, tr, Observe(cfg, tr, x));
  }

  lemma StepAgrees(cfg: Params, s: Tracker, tr: seq<Rec>, x: Input)
    requires Agrees(cfg, s, tr)
    ensures Agrees(cfg, Step(cfg, s, x).0, tr + [Observe(cfg, tr, x)])
    ensures Step(cfg, s, x).1 == OutputOf(cfg, tr + [Observe(cfg, tr, x)])
  {
    var r := Observe(cfg, tr, x);
    SyncAgrees(cfg, s, tr, x);
    ScoreAgrees(cfg, s, tr, x);
    OneMore(cfg, tr, r);
    OneMoreLogs(cfg, tr, r);
    OneMoreMax(tr, r, s.psrMax);
  }

  // After any run, with any threshold at any call, every counter, ring log, maximum and
  // cursor of the block is the one its history defines, and so is the next output.
  lemma {:induction false} PssMatchesHistory(cfg: Params, xs: seq<Input>)
    ensures Agrees(cfg, Run(cfg, xs), History(cfg, xs))
    ensures xs != [] ==>
              Step(cfg, Run(cfg, xs[..|xs| - 1]), xs[|xs| - 1]).1 == OutputOf(cfg, History(cfg, xs))
  {
    if xs != [] {
      var front := xs[..|xs| - 1];
      PssMatchesHistory(cfg, front);
      StepAgrees(cfg, Run(cfg, front), History(cfg, front), xs[|xs| - 1]);
    }
  }
}
