// Properties of whole runs of the primary synchronisation block: which half frames are
// passed on as decodable, how often it searches, which samples it emits, and how fast
// it consumes its input.

module PssRuns {
  import opened Radio
  import opened PssTracker
  import opened PssHistory
  import MA = MovingAverage

  lemma {:induction false} HistoryPrefix(cfg: Params, xs: seq<Input>, n: nat)
    requires n <= |xs|
    ensures History(cfg, xs)[..n] == History(cfg, xs[..n])
  {
    if n < |xs| {
      HistoryPrefix(cfg, xs[..|xs| - 1], n);
      assert xs[..|xs| - 1][..n] == xs[..n];
      assert History(cfg, xs)[..n] == History(cfg, xs[..|xs| - 1])[..n];
    } else {
      assert xs[..n] == xs;
    }
  }

  lemma HistoryAt(cfg: Params, xs: seq<Input>, i: nat)
    requires i < |xs|
    ensures var tr := History(cfg, xs);
            tr[i] == Observe(cfg, tr[..i], xs[i]) && tr[..i + 1] == tr[..i] + [tr[i]]
  {
    HistoryPrefix(cfg, xs, i);
    HistoryPrefix(cfg, xs, i + 1);
    assert xs[..i + 1][..i] == xs[..i];
    var tr := History(cfg, xs);
    assert tr[..i + 1][i] == tr[i];
  }

  lemma {:induction false} TrailingRunMeans(tr: seq<Rec>, n: nat)
    ensures n <= TrailingRun(tr) <==> n <= |tr| && forall j :: |tr| - n <= j < |tr| ==> tr[j].Over()
  {
    if n > 0 && tr != [] {
      var front := tr[..|tr| - 1];
      TrailingRunMeans(front, n - 1);
      if n <= |tr| && tr[|tr| - 1].Over() && forall j :: |front| - (n - 1) <= j < |front| ==> front[j].Over() {
        forall j | |tr| - n <= j < |tr| ensures tr[j].Over() {
          if j < |front| { assert front[j].Over(); }
        }
      }
    }
  }

  // A call emits a half frame without the tracking_lost tag exactly when it is at least
  // the trackAfter-th of an unbroken run of calls whose ratio exceeds their threshold.
  lemma LockedExactly(cfg: Params, xs: seq<Input>, i: nat)
    requires i < |xs|
    ensures var tr := History(cfg, xs);
            OutputOf(cfg, tr[..i + 1]).Locked? <==>
            1 <= cfg.trackAfter <= i + 1
            && forall j :: i + 1 - cfg.trackAfter <= j <= i ==> tr[j].psr > xs[j].threshold
  {
    var whole := History(cfg, xs);
    var tr := whole[..i + 1];
    if cfg.trackAfter >= 1 {
      TrailingRunMeans(tr, cfg.trackAfter);
      forall j | 0 <= j <= i ensures tr[j] == whole[j] && (tr[j].Over() <==> whole[j].psr > xs[j].threshold) {}
      if cfg.trackAfter <= |tr| && forall j :: i + 1 - cfg.trackAfter <= j <= i ==> whole[j].psr > xs[j].threshold {
        forall j | |tr| - cfg.trackAfter <= j < |tr| ensures tr[j].Over() {
          assert whole[j].psr > xs[j].threshold;
        }
      }
    }
  }

  // A call passes a half frame on exactly when its ratio exceeds its threshold or that of
  // the call before it did. A call that does not drops 9600 samples.
  lemma EmitsExactly(cfg: Params, xs: seq<Input>, i: nat)
    requires i < |xs|
    ensures var tr := History(cfg, xs);
            && (!OutputOf(cfg, tr[..i + 1]).Dropped? <==>
                tr[i].psr > xs[i].threshold || (i > 0 && tr[i - 1].psr > xs[i - 1].threshold))
            && (OutputOf(cfg, tr[..i + 1]).Dropped? ==> Cursor(tr[..i + 1]) == Cursor(tr[..i]) + 9600)
  {
    HistoryAt(cfg, xs, i);
    var tr := History(cfg, xs);
    OneMore(cfg, tr[..i], tr[i]);
    if i > 0 {
      assert tr[..i][i - 1] == tr[i - 1];
    }
  }

  // The rings restart where a run was broken last: a call over its threshold was followed
  // by one that was not, and this did not happen again.
  lemma {:induction false} LastResetMeans(tr: seq<Rec>)
    ensures var n := LastReset(tr);
            && (n == 0 || (n >= 2 && tr[n - 2].Over() && !tr[n - 1].Over()))
            && forall j :: n <= j < |tr| && 0 < j && tr[j - 1].Over() ==> tr[j].Over()
  {
    if tr != [] && !Resets(tr) {
      LastResetMeans(tr[..|tr| - 1]);
    }
  }

  function Searches(tr: seq<Rec>): nat {
    if tr == [] then 0 else Searches(tr[..|tr| - 1]) + if tr[|tr| - 1].searched then 1 else 0
  }

  // The ratios behind the mean: the i-th search after the first n calls put its ratio at
  // its own place.
  lemma {:induction false} SearchedAt(tr: seq<Rec>, n: nat, i: nat)
    requires n <= i < |tr| && tr[i].searched
    ensures |SearchedPsrs(tr, n)| == Searches(tr[n..])
    ensures Searches(tr[n..i]) < |SearchedPsrs(tr, n)|
    ensures SearchedPsrs(tr, n)[Searches(tr[n..i])] == tr[i].psr
  {
    var front := tr[..|tr| - 1];
    SearchedCount(tr, n);
    SearchedCount(front, n);
    assert tr[n..][..|tr| - 1 - n] == front[n..];
    if i < |front| {
      SearchedAt(front, n, i);
      assert front[n..i] == tr[n..i];
    } else {
      assert front[n..] == tr[n..i];
    }
  }

  lemma {:induction false} SearchedCount(tr: seq<Rec>, n: nat)
    requires n <= |tr|
    ensures |SearchedPsrs(tr, n)| == Searches(tr[n..])
  {
    if n < |tr| {
      SearchedCount(tr[..|tr| - 1], n);
      assert tr[n..][..|tr| - 1 - n] == tr[..|tr| - 1][n..];
    }
  }

  // The offsets measured in the last m calls.
  function LastOffsets(xs: seq<Input>, m: nat): (s: seq<real>)
    requires m <= |xs|
    ensures |s| == m && forall i :: 0 <= i < m ==> s[i] == xs[|xs| - m + i].cfo
  {
    seq(m, i requires 0 <= i < m => xs[|xs| - m + i].cfo)
  }

  // How many calls the lock in force has lasted.
  function LockedCalls(cfg: Params, tr: seq<Rec>): nat {
    if Tracked(cfg, tr) then TrailingRun(tr) - cfg.trackAfter + 1 else 0
  }

  lemma LockOneMore(cfg: Params, tr: seq<Rec>, r: Rec)
    ensures LockedCalls(cfg, tr + [r]) == if Tracked(cfg, tr + [r]) then LockedCalls(cfg, tr) + 1 else 0
    ensures Tracked(cfg, tr + [r]) ==> !Resets(tr + [r])
    ensures !Tracked(cfg, tr + [r]) && !Resets(tr + [r]) ==> !Tracked(cfg, tr)
  {
    OneMore(cfg, tr, r);
  }

  lemma OffsetOneMore(xs: seq<Input>, x: Input, m: nat)
    requires m <= |xs|
    ensures LastOffsets(xs + [x], m + 1) == LastOffsets(xs, m) + [x.cfo]
  {
  }

  ghost predicate OffsetsAre(cfg: Params, xs: seq<Input>, tr: seq<Rec>) {
    && LockedCalls(cfg, tr) <= |xs|
    && TrackedCfos(cfg, tr, LastReset(tr)) == LastOffsets(xs, LockedCalls(cfg, tr))
  }

  lemma OffsetsExtend(cfg: Params, xs: seq<Input>, tr: seq<Rec>, r: Rec)
    requires OffsetsAre(cfg, xs, tr)
    ensures OffsetsAre(cfg, xs + [r.x], tr + [r])
  {
    LockOneMore(cfg, tr, r);
    OneMoreLogs(cfg, tr, r);
    OffsetOneMore(xs, r.x, LockedCalls(cfg, tr));
  }

  // The offsets behind the mean are those of the calls of the lock in force.
  lemma {:induction false} OffsetsOfLock(cfg: Params, xs: seq<Input>)
    ensures OffsetsAre(cfg, xs, History(cfg, xs))
  {
    if xs != [] {
      var front, x := xs[..|xs| - 1], xs[|xs| - 1];
      OffsetsOfLock(cfg, front);
      OffsetsExtend(cfg, front, History(cfg, front), Observe(cfg, History(cfg, front), x));
      assert front + [x] == xs;
    }
  }

  // The frequency a half frame is corrected by is minus one 128th of the mean of the
  // offsets measured in the calls of the lock in force, this one included.
  lemma CorrectionFrequency(cfg: Params, xs: seq<Input>)
    requires xs != [] && OutputOf(cfg, History(cfg, xs)).Locked?
    ensures var m := LockedCalls(cfg, History(cfg, xs));
            && 1 <= m <= |xs|
            && OutputOf(cfg, History(cfg, xs)).freq * 128.0 == -MA.Mean(LastOffsets(xs, m))
  {
    OffsetsOfLock(cfg, xs);
  }

  // The ratio a call goes by was measured by the latest search, and no call in between
  // measured another.
  lemma {:induction false} RatioOfLatestSearch(cfg: Params, xs: seq<Input>)
    requires xs != []
    ensures var tr := History(cfg, xs);
            var s := |xs| - 1 - SinceSearch(tr);
            && 0 <= s && tr[s].searched && tr[|xs| - 1].psr == xs[s].psr
            && forall j :: s < j < |xs| ==> !tr[j].searched
  {
    var i := |xs| - 1;
    var tr := History(cfg, xs);
    HistoryAt(cfg, xs, i);
    assert tr[..i + 1] == tr;
    if !tr[i].searched {
      assert Tracked(cfg, tr[..i]);
      OneMore(cfg, tr[..i], tr[i]);
      HistoryPrefix(cfg, xs, i);
      RatioOfLatestSearch(cfg, xs[..i]);
    }
  }

  // While the threshold is not raised, lock can be lost only by a search.
  lemma LossNeedsSearch(cfg: Params, xs: seq<Input>, i: nat)
    requires 0 < i < |xs|
    requires var tr := History(cfg, xs); Tracked(cfg, tr[..i]) && !Tracked(cfg, tr[..i + 1])
    requires xs[i].threshold <= xs[i - 1].threshold
    ensures History(cfg, xs)[i].searched
  {
    var tr := History(cfg, xs);
    HistoryAt(cfg, xs, i);
    OneMore(cfg, tr[..i], tr[i]);
    assert tr[..i][i - 1] == tr[i - 1];
  }

  lemma {:induction false} TimerInRange(cfg: Params, xs: seq<Input>)
    requires cfg.trackEvery >= 0
    ensures 0 <= Run(cfg, xs).timer <= cfg.trackEvery
  {
    if xs != [] {
      TimerInRange(cfg, xs[..|xs| - 1]);
    }
  }

  lemma NextMultiple(n: nat, p: int)
    requires p > 0
    ensures n % p + 1 == p ==> (n + 1) / p == n / p + 1 && (n + 1) % p == 0
    ensures n % p + 1 < p ==> (n + 1) / p == n / p && (n + 1) % p == n % p + 1
  {
    var q, r := n / p, n % p;
    assert n + 1 == q * p + (r + 1);
    if r + 1 == p {
      assert n + 1 == (q + 1) * p;
      QuotientIs(n + 1, p, q + 1, 0);
    } else {
      QuotientIs(n + 1, p, q, r + 1);
    }
  }

  lemma QuotientIs(n: nat, p: int, q: int, r: int)
    requires p > 0 && 0 <= r < p && n == q * p + r
    ensures n / p == q && n % p == r
  {
    var d := n / p - q;
    assert d * p == r - n % p;
    assert -p < d * p < p;
    assert d == 0;
  }

  // The calls a .. a + n are an unbroken tracking run that call a starts.
  ghost predicate TrackingRun(cfg: Params, tr: seq<Rec>, a: nat, n: nat) {
    && a + n < |tr|
    && !Tracked(cfg, tr[..a])
    && forall j :: a < j <= a + n + 1 ==> Tracked(cfg, tr[..j])
  }

  // One more call of a tracking run.
  lemma TickOrSearch(cfg: Params, xs: seq<Input>, i: nat)
    requires i < |xs| && Tracked(cfg, History(cfg, xs)[..i])
    ensures var tr := History(cfg, xs);
            && (tr[i].searched <==> SinceSearch(tr[..i]) == cfg.trackEvery)
            && SinceSearch(tr[..i + 1]) == if tr[i].searched then 0 else SinceSearch(tr[..i]) + 1
  {
    HistoryAt(cfg, xs, i);
    OneMore(cfg, History(cfg, xs)[..i], History(cfg, xs)[i]);
  }

  lemma FirstSearch(cfg: Params, xs: seq<Input>, i: nat)
    requires i < |xs| && !Tracked(cfg, History(cfg, xs)[..i])
    ensures History(cfg, xs)[i].searched && SinceSearch(History(cfg, xs)[..i + 1]) == 0
  {
    HistoryAt(cfg, xs, i);
    OneMore(cfg, History(cfg, xs)[..i], History(cfg, xs)[i]);
  }

  lemma {:induction false} SearchesInRun(cfg: Params, xs: seq<Input>, a: nat, n: nat)
    requires TrackingRun(cfg, History(cfg, xs), a, n)
    ensures var tr, p := History(cfg, xs), cfg.trackEvery + 1;
            && (tr[a + n].searched <==> n == 0 || (p > 0 && n % p == 0))
            && SinceSearch(tr[..a + n + 1]) == (if p > 0 then n % p else n)
  {
    var p := cfg.trackEvery + 1;
    if n == 0 {
      FirstSearch(cfg, xs, a);
      if p > 0 { QuotientIs(0, p, 0, 0); }
    } else {
      SearchesInRun(cfg, xs, a, n - 1);
      TickOrSearch(cfg, xs, a + n);
      if p > 0 { NextMultiple(n - 1, p); }
    }
  }

  lemma {:induction false} SearchCount(cfg: Params, xs: seq<Input>, a: nat, n: nat)
    requires TrackingRun(cfg, History(cfg, xs), a, n)
    ensures var p := cfg.trackEvery + 1;
            Searches(History(cfg, xs)[a + 1..a + n + 1]) == if p > 0 then n / p else 0
  {
    var tr, p := History(cfg, xs), cfg.trackEvery + 1;
    if n == 0 {
      if p > 0 { QuotientIs(0, p, 0, 0); }
    } else {
      SearchCount(cfg, xs, a, n - 1);
      SearchesInRun(cfg, xs, a, n);
      var calls := tr[a + 1..a + n + 1];
      assert calls[..n - 1] == tr[a + 1..a + n];
      if p > 0 { NextMultiple(n - 1, p); }
    }
  }

  // From the call that starts tracking, the searches of an unbroken run are exactly the
  // calls at multiples of trackEvery + 1; with a negative period there are none.
  lemma SearchCadence(cfg: Params, xs: seq<Input>, a: nat, n: nat)
    requires TrackingRun(cfg, History(cfg, xs), a, n)
    ensures var tr, p := History(cfg, xs), cfg.trackEvery + 1;
            && (forall m :: a < m <= a + n ==> (tr[m].searched <==> p > 0 && (m - a) % p == 0))
            && Searches(tr[a + 1..a + n + 1]) == if p > 0 then n / p else 0
  {
    SearchCount(cfg, xs, a, n);
    var tr, p := History(cfg, xs), cfg.trackEvery + 1;
    forall m | a < m <= a + n ensures tr[m].searched <==> p > 0 && (m - a) % p == 0 {
      SearchesInRun(cfg, xs, a, m - a);
    }
  }

  // Every sample written so far, before frequency correction.
  function Emitted(input: Stream, tr: seq<Rec>): seq<Cf> {
    if tr == [] then []
    else Emitted(input, tr[..|tr| - 1])
         + if Emits(tr) then Window(input, Cursor(tr) - HALF_FRAME_LENGTH) else []
  }

  lemma EmittedOneMore(input: Stream, tr: seq<Rec>, r: Rec)
    ensures Emitted(input, tr + [r]) ==
            Emitted(input, tr) + if Emits(tr + [r]) then Window(input, Cursor(tr + [r]) - HALF_FRAME_LENGTH) else []
  {
    assert (tr + [r])[..|tr|] == tr;
  }

  // A call that does not search emits the half frame at the read cursor.
  lemma UnsearchedCall(cfg: Params, input: Stream, xs: seq<Input>, i: nat)
    requires i < |xs| && !History(cfg, xs)[i].searched
    ensures var tr := History(cfg, xs);
            && Emits(tr[..i + 1])
            && Cursor(tr[..i + 1]) == Cursor(tr[..i]) + HALF_FRAME_LENGTH
            && Emitted(input, tr[..i + 1]) == Emitted(input, tr[..i]) + Window(input, Cursor(tr[..i]))
  {
    HistoryAt(cfg, xs, i);
    var tr, r := History(cfg, xs)[..i], History(cfg, xs)[i];
    OneMore(cfg, tr, r);
    EmittedOneMore(input, tr, r);
  }

  lemma ExtendPiece(input: Stream, before: seq<Cf>, from: int, m: nat, out: seq<Cf>)
    requires out == before + Slice(input, from, m)
    ensures out + Window(input, from + m) == before + Slice(input, from, m + HALF_FRAME_LENGTH)
  {
    SliceConcat(input, from, m, HALF_FRAME_LENGTH);
    assert out + Window(input, from + m) == before + (Slice(input, from, m) + Window(input, from + m));
  }

  ghost predicate NoSearch(tr: seq<Rec>, a: nat, b: nat) {
    a <= b <= |tr| && forall j :: a <= j < b ==> !tr[j].searched
  }

  lemma UnsearchedCursor(cfg: Params, xs: seq<Input>, i: nat)
    requires i < |xs| && !History(cfg, xs)[i].searched
    ensures var tr := History(cfg, xs);
            Cursor(tr[..i + 1]) == Cursor(tr[..i]) + HALF_FRAME_LENGTH
  {
    HistoryAt(cfg, xs, i);
    OneMore(cfg, History(cfg, xs)[..i], History(cfg, xs)[i]);
  }

  lemma {:induction false} CursorBetweenSearches(cfg: Params, xs: seq<Input>, a: nat, b: nat)
    requires NoSearch(History(cfg, xs), a, b)
    ensures var tr := History(cfg, xs);
            Cursor(tr[..b]) == Cursor(tr[..a]) + HALF_FRAME_LENGTH * (b - a)
  {
    if a < b {
      CursorBetweenSearches(cfg, xs, a, b - 1);
      UnsearchedCursor(cfg, xs, b - 1);
    }
  }

  // The calls a .. b - 1 wrote the input from the read cursor on.
  ghost predicate WrotePiece(input: Stream, tr: seq<Rec>, a: nat, b: nat)
    requires a <= b <= |tr|
  {
    Emitted(input, tr[..b]) ==
    Emitted(input, tr[..a]) + Slice(input, Cursor(tr[..a]), HALF_FRAME_LENGTH * (b - a))
  }

  lemma WroteOneMore(cfg: Params, input: Stream, xs: seq<Input>, a: nat, b: nat)
    requires a <= b < |xs| && !History(cfg, xs)[b].searched
    requires WrotePiece(input, History(cfg, xs), a, b)
    requires Cursor(History(cfg, xs)[..b]) == Cursor(History(cfg, xs)[..a]) + HALF_FRAME_LENGTH * (b - a)
    ensures WrotePiece(input, History(cfg, xs), a, b + 1)
  {
    var tr := History(cfg, xs);
    UnsearchedCall(cfg, input, xs, b);
    ExtendPiece(input, Emitted(input, tr[..a]), Cursor(tr[..a]), HALF_FRAME_LENGTH * (b - a), Emitted(input, tr[..b]));
    assert HALF_FRAME_LENGTH * (b - a) + HALF_FRAME_LENGTH == HALF_FRAME_LENGTH * (b + 1 - a);
  }

  // Between searches the output is one contiguous piece of the input that starts at the
  // read cursor: nothing is skipped or repeated.
  lemma {:induction false} ContiguousBetweenSearches(cfg: Params, input: Stream, xs: seq<Input>, a: nat, b: nat)
    requires NoSearch(History(cfg, xs), a, b)
    ensures WrotePiece(input, History(cfg, xs), a, b)
  {
    if a == b {
      var before := Emitted(input, History(cfg, xs)[..a]);
      assert before + Slice(input, Cursor(History(cfg, xs)[..a]), 0) == before;
    } else {
      ContiguousBetweenSearches(cfg, input, xs, a, b - 1);
      CursorBetweenSearches(cfg, xs, a, b - 1);
      WroteOneMore(cfg, input, xs, a, b - 1);
    }
  }

  lemma WindowOneMore(cfg: Params, input: Stream, tr: seq<Rec>, r: Rec)
    requires Emits(tr + [r])
    ensures var start := Cursor(tr) + Shift(r);
            && Cursor(tr + [r]) == start + HALF_FRAME_LENGTH
            && Emitted(input, tr + [r]) == Emitted(input, tr) + Window(input, start)
            && !OutputOf(cfg, tr + [r]).Dropped? && OutputOf(cfg, tr + [r]).start == start
  {
    OneMore(cfg, tr, r);
    EmittedOneMore(input, tr, r);
  }

  // A search moves the next emitted window by peakPos - 960 from the read cursor, and
  // the window ends at the new cursor.
  lemma SearchShiftsWindow(cfg: Params, input: Stream, xs: seq<Input>, i: nat)
    requires i < |xs|
    requires Emits(History(cfg, xs)[..i + 1])
    ensures var tr := History(cfg, xs);
            var start := Cursor(tr[..i]) + if tr[i].searched then xs[i].peakPos - SLOT_LENGTH else 0;
            && Cursor(tr[..i + 1]) == start + HALF_FRAME_LENGTH
            && Emitted(input, tr[..i + 1]) == Emitted(input, tr[..i]) + Window(input, start)
            && !OutputOf(cfg, tr[..i + 1]).Dropped? && OutputOf(cfg, tr[..i + 1]).start == start
  {
    HistoryAt(cfg, xs, i);
    WindowOneMore(cfg, input, History(cfg, xs)[..i], History(cfg, xs)[i]);
  }

  lemma CallAdvances(cfg: Params, xs: seq<Input>, i: nat)
    requires i < |xs|
    ensures var tr := History(cfg, xs);
            Cursor(tr[..i + 1]) >= Cursor(tr[..i]) + HALF_FRAME_LENGTH - SLOT_LENGTH
  {
    HistoryAt(cfg, xs, i);
    OneMore(cfg, History(cfg, xs)[..i], History(cfg, xs)[i]);
  }

  // Every call consumes at least 8640 samples.
  lemma {:induction false} Progress(cfg: Params, xs: seq<Input>, a: nat, b: nat)
    requires a <= b <= |xs|
    ensures var tr := History(cfg, xs);
            Cursor(tr[..b]) >= Cursor(tr[..a]) + (HALF_FRAME_LENGTH - SLOT_LENGTH) * (b - a)
  {
    if a < b {
      Progress(cfg, xs, a, b - 1);
      CallAdvances(cfg, xs, b - 1);
    }
  }

  // So a stream of n samples is exhausted after at most n / 8640 calls.
  lemma CallsBounded(cfg: Params, xs: seq<Input>, n: nat)
    requires Run(cfg, xs).cursor <= n
    ensures |xs| <= n / (HALF_FRAME_LENGTH - SLOT_LENGTH)
  {
    PssMatchesHistory(cfg, xs);
    Progress(cfg, xs, 0, |xs|);
    assert History(cfg, xs)[..|xs|] == History(cfg, xs);
  }

  // Two emitted half frames share at most one slot of input.
  lemma BoundedOverlap(cfg: Params, xs: seq<Input>, i: nat, j: nat)
    requires i < j < |xs|
    requires var tr := History(cfg, xs); Emits(tr[..i + 1]) && Emits(tr[..j + 1])
    ensures var tr := History(cfg, xs);
            OutputOf(cfg, tr[..j + 1]).start >=
            OutputOf(cfg, tr[..i + 1]).start + HALF_FRAME_LENGTH - SLOT_LENGTH
  {
    Progress(cfg, xs, i + 1, j + 1);
  }
}
