// One chain of the trigger: tracker, tagger and publisher joined by two queues of half
// frames. A queue is kept as everything ever written to it; what was read is a prefix.

module Chains {
  import opened Radio
  import opened TagStream
  import opened Messages
  import opened PssTracker
  import opened PssHistory
  import Sss
  import Mib

  // The samples of a half frame and the frequency they were corrected by.
  datatype Data = Data(samples: seq<Cf>, freq: real)

  // What a tagger call was answered, and what its output buffer held before.
  datatype Tagging = Tagging(answer: Sss.Detection, stale: Data)

  // batch bounds how many half frames the scheduler offers a publisher in one call.
  datatype Setup = Setup(cfg: Params, input: Stream, exitOnSuccess: bool, batch: nat)

  datatype Chain = Chain(
    threshold: real,
    hist: seq<Input>,            // the calls of the tracker
    pss: Tracker,
    emitted: seq<Frame<Data>>,   // half frames the tracker wrote
    tagged: seq<Frame<Data>>,    // half frames the tagger wrote
    taggings: seq<Tagging>,      // what it was answered for each of them
    visits: seq<Mib.Visit>,      // the calls of the publisher
    read: nat,                   // half frames it consumed
    mib: Mib.State,
    log: seq<Msg>,               // messages it sent
    sources: seq<nat>,           // for each announced cell, the half frame it was decoded from
    ends: seq<nat>)              // and how many were consumed when that call returned

  function Start(threshold: real): Chain {
    Chain(threshold, [], PssTracker.INIT, [], [], [], [], 0, Mib.INIT, [], [], [])
  }

  function Written(input: Stream, o: Output): seq<Frame<Data>> {
    match o
    case Dropped => []
    case Lost(start) => [Frame(Data(Window(input, start), 0.0), Head(true, [], []))]
    case Locked(start, freq) => [Frame(Data(Window(input, start), freq), Head(false, [], []))]
  }

  function PssCall(setup: Setup, c: Chain, peakPos: nat, psr: real, cfo: real): Chain {
    var x := Input(c.threshold, peakPos, psr, cfo);
    var (s, o) := Step(setup.cfg, c.pss, x);
    c.(hist := c.hist + [x], pss := s, emitted := c.emitted + Written(setup.input, o))
  }

  function SssCall(k: nat, c: Chain, a: Sss.Detection, stale: Data): Chain {
    if |c.tagged| >= |c.emitted| then c
    else c.(tagged := c.tagged + [Sss.Tagged(k, c.emitted[|c.tagged|], a, stale)],
            taggings := c.taggings + [Tagging(a, stale)])
  }

  // The scheduler may call the publisher with n half frames.
  predicate MibReady(setup: Setup, c: Chain, n: nat) {
    !c.mib.exited && 1 <= n <= setup.batch && c.read + n <= |c.tagged|
  }

  function MibCall(setup: Setup, k: nat, c: Chain, n: nat, a: Mib.Decoding): Chain {
    if !MibReady(setup, c, n) then c
    else
      var h := c.tagged[c.read].head;
      var o := Mib.Respond(setup.exitOnSuccess, k, c.mib, h, n, a);
      c.(visits := c.visits + [Mib.Visit(h, n, a)], mib := o.state, read := c.read + o.consumed, log := c.log + o.sent,
         sources := c.sources + (if Mib.Publishes(c.mib, h, a) then [c.read] else []),
         ends := c.ends + (if Mib.Publishes(c.mib, h, a) then [c.read + o.consumed] else []))
  }

  // Any call of one of the three blocks, with the answers of the signal library.
  datatype BlockCall =
    | TrackerCall(peakPos: nat, psr: real, cfo: real)
    | TaggerCall(group: Sss.Detection, stale: Data)
    | PublisherCall(n: nat, decoded: Mib.Decoding)

  function Turn(setup: Setup, k: nat, c: Chain, a: BlockCall): Chain {
    match a
    case TrackerCall(peakPos, psr, cfo) => PssCall(setup, c, peakPos, psr, cfo)
    case TaggerCall(group, stale) => SssCall(k, c, group, stale)
    case PublisherCall(n, decoded) => MibCall(setup, k, c, n, decoded)
  }

  function Trace(setup: Setup, c: Chain): seq<Rec> {
    History(setup.cfg, c.hist)
  }

  // ---- What the tracker wrote, from its history alone

  function Frames(cfg: Params, input: Stream, tr: seq<Rec>): seq<Frame<Data>> {
    if tr == [] then []
    else Frames(cfg, input, tr[..|tr| - 1]) + Written(input, OutputOf(cfg, tr))
  }

  // The calls that wrote a half frame.
  function Calls(tr: seq<Rec>): seq<nat> {
    if tr == [] then []
    else Calls(tr[..|tr| - 1]) + if Emits(tr) then [|tr| - 1] else []
  }

  lemma {:induction false} FrameOfCall(cfg: Params, input: Stream, tr: seq<Rec>, i: nat)
    requires i < |Frames(cfg, input, tr)|
    ensures i < |Calls(tr)|
    ensures var m := Calls(tr)[i];
            && m < |tr| && Emits(tr[..m + 1])
            && Written(input, OutputOf(cfg, tr[..m + 1])) == [Frames(cfg, input, tr)[i]]
  {
    SameCount(cfg, input, tr);
    var front := tr[..|tr| - 1];
    SameCount(cfg, input, front);
    if i < |Frames(cfg, input, front)| {
      FrameOfCall(cfg, input, front, i);
      var m := Calls(front)[i];
      assert front[..m + 1] == tr[..m + 1];
    } else {
      assert tr[..|tr| - 1 + 1] == tr;
    }
  }

  lemma {:induction false} SameCount(cfg: Params, input: Stream, tr: seq<Rec>)
    ensures |Calls(tr)| == |Frames(cfg, input, tr)|
  {
    if tr != [] {
      SameCount(cfg, input, tr[..|tr| - 1]);
    }
  }

  // The newest half frame tells whether the tracker is tracking.
  lemma {:induction false} NewestFrame(cfg: Params, input: Stream, tr: seq<Rec>)
    ensures var fs := Frames(cfg, input, tr);
            if fs == [] then !Tracked(cfg, tr)
            else fs[|fs| - 1].head == Head(!Tracked(cfg, tr), [], [])
  {
    if tr != [] {
      var front := tr[..|tr| - 1];
      NewestFrame(cfg, input, front);
      OneMore(cfg, front, tr[|tr| - 1]);
      assert front + [tr[|tr| - 1]] == tr;
    }
  }

  // Tracking in every call from the m-th on.
  ghost predicate TrackedSince(cfg: Params, tr: seq<Rec>, m: nat) {
    forall n :: m < n <= |tr| ==> Tracked(cfg, tr[..n])
  }

  lemma TrackedOneMore(cfg: Params, tr: seq<Rec>, m: nat)
    requires tr != [] && Tracked(cfg, tr)
    requires m == |tr| - 1 || TrackedSince(cfg, tr[..|tr| - 1], m)
    ensures TrackedSince(cfg, tr, m)
  {
    forall n | m < n <= |tr| ensures Tracked(cfg, tr[..n]) {
      if n == |tr| {
        assert tr[..n] == tr;
      } else {
        assert tr[..|tr| - 1][..n] == tr[..n];
      }
    }
  }

  ghost predicate NoLoss(fs: seq<Frame<Data>>, i: nat) {
    forall j :: i <= j < |fs| ==> !fs[j].head.lost
  }

  // When no half frame from the i-th on was written without lock, the tracker has been
  // tracking in every call since.
  lemma {:induction false} UnbrokenSince(cfg: Params, input: Stream, tr: seq<Rec>, i: nat)
    requires i < |Frames(cfg, input, tr)| == |Calls(tr)|
    requires NoLoss(Frames(cfg, input, tr), i)
    ensures TrackedSince(cfg, tr, Calls(tr)[i])
  {
    var front, fs := tr[..|tr| - 1], Frames(cfg, input, tr);
    NewestFrame(cfg, input, tr);
    OneMore(cfg, front, tr[|tr| - 1]);
    assert front + [tr[|tr| - 1]] == tr;
    SameCount(cfg, input, front);
    if i < |Calls(front)| {
      assert fs[..|Calls(front)|] == Frames(cfg, input, front);
      UnbrokenSince(cfg, input, front, i);
    }
    TrackedOneMore(cfg, tr, Calls(tr)[i]);
  }

  // Every half frame in the queue, by the call that wrote it: its samples are the window
  // of that call, and either it reports a loss or it carries its correction frequency.
  lemma WrittenFrame(cfg: Params, input: Stream, tr: seq<Rec>, i: nat)
    requires i < |Frames(cfg, input, tr)|
    ensures i < |Calls(tr)| && Calls(tr)[i] < |tr|
    ensures var f, m := Frames(cfg, input, tr)[i], Calls(tr)[i];
            var o := OutputOf(cfg, tr[..m + 1]);
            && !o.Dropped? && f.data.samples == Window(input, o.start)
            && f.head == Head(o.Lost?, [], []) && (o.Locked? ==> f.data.freq == o.freq)
  {
    FrameOfCall(cfg, input, tr, i);
    assert [Frames(cfg, input, tr)[i]][0] == Frames(cfg, input, tr)[i];
  }

  // A half frame written with lock: which call wrote it, and what it holds.
  lemma LockedFrame(cfg: Params, input: Stream, tr: seq<Rec>, i: nat)
    requires i < |Frames(cfg, input, tr)| && !Frames(cfg, input, tr)[i].head.lost
    ensures i < |Calls(tr)|
    ensures var m := Calls(tr)[i];
            && m < |tr| && Tracked(cfg, tr[..m + 1]) && tr[m].Over()
            && var o := OutputOf(cfg, tr[..m + 1]);
            && o.Locked? && Frames(cfg, input, tr)[i].data == Data(Window(input, o.start), o.freq)
  {
    FrameOfCall(cfg, input, tr, i);
    var m := Calls(tr)[i];
    assert [Frames(cfg, input, tr)[i]][0] == Frames(cfg, input, tr)[i];
    assert tr[..m + 1][m] == tr[m];
  }

  // ---- What every step of a chain keeps

  // A tagged half frame against the one it was made from and the answer of its call: a
  // loss report passes through, otherwise it carries the id and the prefix answered, or
  // nothing when no group was found and nothing was copied.
  ghost predicate Faithful(k: nat, f: Frame<Data>, g: Frame<Data>, t: Tagging) {
    && g.head.lost == f.head.lost
    && g.head.cellIds == (if f.head.lost || t.answer.group.None? then [] else [3 * t.answer.group.value + k])
    && g.head.cps == (if f.head.lost || t.answer.group.None? then [] else [t.answer.cp])
    && g.data == if !f.head.lost && t.answer.group.None? then t.stale else f.data
  }

  ghost predicate QueuesInv(setup: Setup, k: nat, c: Chain) {
    && c.pss == Run(setup.cfg, c.hist)
    && c.emitted == Frames(setup.cfg, setup.input, Trace(setup, c))
    && c.read <= |c.tagged| == |c.taggings| <= |c.emitted|
    && forall i :: 0 <= i < |c.tagged| ==> Faithful(k, c.emitted[i], c.tagged[i], c.taggings[i])
  }

  // The j-th announced cell and the half frame it was decoded from.
  ghost predicate Decoded(k: nat, c: Chain, cell: Cell, j: nat, source: nat) {
    && cell.handle == Handle(k, j)
    && source <= c.read && source < |c.tagged|
    && |c.tagged[source].head.cellIds| == 1 == |c.tagged[source].head.cps|
    && cell.dict.cellId == Some(c.tagged[source].head.cellIds[0])
    && cell.dict.cp == c.tagged[source].head.cps[0]
  }

  ghost predicate PublisherInv(k: nat, c: Chain) {
    && Mib.Consistent(c.mib, c.log)
    && |c.sources| == c.mib.serial == |Mib.Cells(c.log)|
    && forall j :: 0 <= j < |c.sources| ==> Decoded(k, c, Mib.Cells(c.log)[j], j, c.sources[j])
  }

  // Since the call that announced the open cell, the publisher looked at every half frame
  // it consumed, and none reported a loss.
  ghost predicate WatchInv(setup: Setup, c: Chain) {
    && |c.ends| == |c.sources|
    && (c.mib.published ==>
          && c.ends != []
          && var source, end := c.sources[|c.sources| - 1], c.ends[|c.ends| - 1];
          && source <= end <= c.read <= |c.tagged|
          && (setup.batch <= 1 ==> end <= source + 1)
          && forall i :: end <= i < c.read ==> !c.tagged[i].head.lost)
  }

  // The call that announced the open cell consumed a report of a loss unread.
  ghost predicate Overlooked(c: Chain) {
    && c.mib.published && 0 < |c.sources| == |c.ends|
    && exists i :: c.sources[|c.sources| - 1] < i < c.ends[|c.ends| - 1] && i < |c.tagged| && c.tagged[i].head.lost
  }

  // A publisher that exits on success has sent nothing before, and sends nothing after,
  // its first announcement. It never consumes the half frame it announced a cell from.
  ghost predicate ExitInv(setup: Setup, c: Chain) {
    if !setup.exitOnSuccess then !c.mib.exited
    else if c.mib.exited then
      |c.log| == 1 && c.log[0].Track? && c.mib.published && c.sources == [c.read] && c.read < |c.tagged|
    else c.log == []
  }

  ghost predicate ChainInv(setup: Setup, k: nat, c: Chain) {
    QueuesInv(setup, k, c) && PublisherInv(k, c) && WatchInv(setup, c) && ExitInv(setup, c)
  }

  lemma StartInv(setup: Setup, k: nat, threshold: real)
    ensures ChainInv(setup, k, Start(threshold))
  {
  }

  // Only the publisher touches what its invariants speak of; the tagger adds to its input.
  lemma PublisherUntouched(setup: Setup, k: nat, c: Chain, c': Chain)
    requires PublisherInv(k, c) && WatchInv(setup, c) && ExitInv(setup, c)
    requires c'.mib == c.mib && c'.log == c.log && c'.read == c.read
    requires c'.sources == c.sources && c'.ends == c.ends
    requires c.tagged <= c'.tagged
    ensures PublisherInv(k, c') && WatchInv(setup, c') && ExitInv(setup, c')
  {
    forall j | 0 <= j < |c'.sources| ensures Decoded(k, c', Mib.Cells(c'.log)[j], j, c'.sources[j]) {
      assert Decoded(k, c, Mib.Cells(c.log)[j], j, c.sources[j]);
      assert c'.tagged[c.sources[j]] == c.tagged[c.sources[j]];
    }
  }

  lemma PssKeepsQueues(setup: Setup, k: nat, c: Chain, peakPos: nat, psr: real, cfo: real)
    requires QueuesInv(setup, k, c)
    ensures QueuesInv(setup, k, PssCall(setup, c, peakPos, psr, cfo))
  {
    var x := Input(c.threshold, peakPos, psr, cfo);
    RunExtend(setup.cfg, c.hist, x);
    HistoryExtend(setup.cfg, c.hist, x);
    PssMatchesHistory(setup.cfg, c.hist + [x]);
    assert (c.hist + [x])[..|c.hist|] == c.hist;
    var tr' := History(setup.cfg, c.hist + [x]);
    assert tr'[..|tr'| - 1] == Trace(setup, c);
  }

  lemma PssKeepsInv(setup: Setup, k: nat, c: Chain, peakPos: nat, psr: real, cfo: real)
    requires ChainInv(setup, k, c)
    ensures ChainInv(setup, k, PssCall(setup, c, peakPos, psr, cfo))
  {
    PssKeepsQueues(setup, k, c, peakPos, psr, cfo);
    PublisherUntouched(setup, k, c, PssCall(setup, c, peakPos, psr, cfo));
  }

  lemma TaggedIsFaithful(k: nat, f: Frame<Data>, a: Sss.Detection, stale: Data)
    ensures Faithful(k, f, Sss.Tagged(k, f, a, stale), Tagging(a, stale))
  {
  }

  lemma SssKeepsInv(setup: Setup, k: nat, c: Chain, a: Sss.Detection, stale: Data)
    requires ChainInv(setup, k, c)
    ensures ChainInv(setup, k, SssCall(k, c, a, stale))
  {
    if |c.tagged| < |c.emitted| {
      var c' := SssCall(k, c, a, stale);
      TaggedIsFaithful(k, c.emitted[|c.tagged|], a, stale);
      PublisherUntouched(setup, k, c, c');
    }
  }

  lemma MibKeepsInv(setup: Setup, k: nat, c: Chain, n: nat, a: Mib.Decoding)
    requires ChainInv(setup, k, c)
    ensures ChainInv(setup, k, MibCall(setup, k, c, n, a))
  {
    if MibReady(setup, c, n) {
      var h := c.tagged[c.read].head;
      Mib.CallKeepsLog(setup.exitOnSuccess, k, c.mib, c.log, h, n, a);
      SourcesKept(setup, k, c, n, a);
      WatchKept(setup, k, c, n, a);
      ExitKept(setup, k, c, n, a);
    }
  }

  lemma ExitKept(setup: Setup, k: nat, c: Chain, n: nat, a: Mib.Decoding)
    requires PublisherInv(k, c) && ExitInv(setup, c) && MibReady(setup, c, n)
    ensures ExitInv(setup, MibCall(setup, k, c, n, a))
  {
    if setup.exitOnSuccess {
      assert Mib.Cells(c.log) == [];
    }
  }

  lemma SourcesKept(setup: Setup, k: nat, c: Chain, n: nat, a: Mib.Decoding)
    requires PublisherInv(k, c) && MibReady(setup, c, n)
    ensures var c' := MibCall(setup, k, c, n, a);
            && |c'.sources| == |Mib.Cells(c'.log)|
            && forall j :: 0 <= j < |c'.sources| ==> Decoded(k, c', Mib.Cells(c'.log)[j], j, c'.sources[j])
  {
    var c' := MibCall(setup, k, c, n, a);
    MibCells(setup.exitOnSuccess, k, c.mib, c.log, c.tagged[c.read].head, n, a);
    forall j | 0 <= j < |c'.sources| ensures Decoded(k, c', Mib.Cells(c'.log)[j], j, c'.sources[j]) {
      if j < |c.sources| {
        assert Decoded(k, c, Mib.Cells(c.log)[j], j, c.sources[j]);
      }
    }
  }

  lemma MibCells(exitOnSuccess: bool, k: nat, s: Mib.State, log: seq<Msg>, h: Head, n: nat, a: Mib.Decoding)
    ensures var o := Mib.Respond(exitOnSuccess, k, s, h, n, a);
            if Mib.Publishes(s, h, a) then
              Mib.Cells(log + o.sent) == Mib.Cells(log)
                + [Cell(Handle(k, s.serial), Dict(Some(h.cellIds[0]), h.cps[0], a.info))]
            else
              Mib.Cells(log + o.sent) == Mib.Cells(log) && o.state.serial == s.serial
  {
    var o := Mib.Respond(exitOnSuccess, k, s, h, n, a);
    if o.sent == [] {
      assert log + o.sent == log;
    } else {
      Mib.CellsExtend(log, o.sent[0]);
    }
  }

  lemma WatchKept(setup: Setup, k: nat, c: Chain, n: nat, a: Mib.Decoding)
    requires WatchInv(setup, c) && MibReady(setup, c, n)
    ensures WatchInv(setup, MibCall(setup, k, c, n, a))
  {
    var h, c' := c.tagged[c.read].head, MibCall(setup, k, c, n, a);
    if c'.mib.published && !Mib.Publishes(c.mib, h, a) {
      assert c'.read == c.read + 1 && !h.lost && c'.ends == c.ends && c'.sources == c.sources;
    }
  }

  // Exactly when a publisher call overlooks a loss: it announces a cell from the first of
  // several half frames and consumes the others unread, one of which reports a loss. What
  // an earlier call overlooked stays overlooked until the cell is withdrawn.
  lemma CallOverlooks(setup: Setup, k: nat, c: Chain, n: nat, a: Mib.Decoding)
    requires WatchInv(setup, c) && MibReady(setup, c, n)
    ensures var h := c.tagged[c.read].head;
            Overlooked(MibCall(setup, k, c, n, a)) <==>
            if Mib.Publishes(c.mib, h, a) then
              !setup.exitOnSuccess && exists i :: c.read < i < c.read + n && c.tagged[i].head.lost
            else
              Overlooked(c) && !h.lost
  {
    var h, c' := c.tagged[c.read].head, MibCall(setup, k, c, n, a);
    if Mib.Publishes(c.mib, h, a) {
      assert c'.sources[|c'.sources| - 1] == c.read;
      assert c'.ends[|c'.ends| - 1] == if setup.exitOnSuccess then c.read else c.read + n;
    } else {
      assert c'.sources == c.sources && c'.ends == c.ends;
    }
  }

  // ---- Every call of a chain

  lemma TurnKeepsInv(setup: Setup, k: nat, c: Chain, a: BlockCall)
    requires ChainInv(setup, k, c)
    ensures ChainInv(setup, k, Turn(setup, k, c, a))
  {
    match a
    case TrackerCall(peakPos, psr, cfo) => PssKeepsInv(setup, k, c, peakPos, psr, cfo);
    case TaggerCall(group, stale) => SssKeepsInv(setup, k, c, group, stale);
    case PublisherCall(n, decoded) => MibKeepsInv(setup, k, c, n, decoded);
  }

  // What the publisher has sent is never taken back.
  lemma TurnGrowsLog(setup: Setup, k: nat, c: Chain, a: BlockCall)
    ensures c.log <= Turn(setup, k, c, a).log
    ensures Mib.Cells(c.log) <= Mib.Cells(Turn(setup, k, c, a).log)
  {
    if a.PublisherCall? && MibReady(setup, c, a.n) {
      MibCells(setup.exitOnSuccess, k, c.mib, c.log, c.tagged[c.read].head, a.n, a.decoded);
    }
  }

  // Giving the tracker another threshold.
  lemma ThresholdKeepsInv(setup: Setup, k: nat, c: Chain, t: real)
    requires ChainInv(setup, k, c)
    ensures ChainInv(setup, k, c.(threshold := t))
  {
    PublisherUntouched(setup, k, c, c.(threshold := t));
  }

  lemma LookupAt(frames: seq<Frame<Data>>, i: nat)
    requires (forall j :: 0 <= j < |frames| ==> Single(frames[j].head)) && i < |frames|
    ensures HeadAt(StreamTags(frames, 0), HALF_FRAME_LENGTH * i) == frames[i].head
  {
    HeadIsFrameHead(frames, 0, i);
  }

  lemma HeadsAreSingle(setup: Setup, k: nat, c: Chain)
    requires QueuesInv(setup, k, c)
    ensures forall i :: 0 <= i < |c.tagged| ==> Single(c.tagged[i].head)
  {
    forall i | 0 <= i < |c.tagged| ensures Single(c.tagged[i].head) {
      assert Faithful(k, c.emitted[i], c.tagged[i], c.taggings[i]);
    }
  }

  // The publisher stands at the start of a half frame, and looking up its tags there
  // finds that half frame's head.
  lemma PublisherReadsHead(setup: Setup, k: nat, c: Chain)
    requires QueuesInv(setup, k, c) && c.read < |c.tagged|
    ensures forall i :: 0 <= i < |c.tagged| ==> Single(c.tagged[i].head)
    ensures HeadAt(StreamTags(c.tagged, 0), HALF_FRAME_LENGTH * c.read) == c.tagged[c.read].head
  {
    HeadsAreSingle(setup, k, c);
    LookupAt(c.tagged, c.read);
  }

  // ---- Loss of lock reaches the publisher

  // The open cell comes from a half frame that was written with lock.
  lemma OpenSource(setup: Setup, k: nat, c: Chain)
    requires ChainInv(setup, k, c) && c.mib.published
    ensures c.sources != [] && c.sources[|c.sources| - 1] < |c.tagged| <= |c.emitted| == |Calls(Trace(setup, c))|
    ensures !c.emitted[c.sources[|c.sources| - 1]].head.lost
  {
    var j := |c.sources| - 1;
    var source := c.sources[j];
    assert Decoded(k, c, Mib.Cells(c.log)[j], j, source);
    assert Faithful(k, c.emitted[source], c.tagged[source], c.taggings[source]);
    SameCount(setup.cfg, setup.input, Trace(setup, c));
  }

  lemma {:induction false} CallsIncrease(tr: seq<Rec>, i: nat, j: nat)
    requires i < j < |Calls(tr)|
    ensures Calls(tr)[i] < Calls(tr)[j] < |tr|
  {
    var front := tr[..|tr| - 1];
    if j < |Calls(front)| {
      CallsIncrease(front, i, j);
    } else {
      CallsBelow(front, i);
    }
  }

  lemma {:induction false} CallsBelow(tr: seq<Rec>, i: nat)
    requires i < |Calls(tr)|
    ensures Calls(tr)[i] < |tr|
  {
    if i < |Calls(tr[..|tr| - 1])| {
      CallsBelow(tr[..|tr| - 1], i);
    }
  }

  // While the tracker has been tracking since the call that wrote half frame i, no later
  // half frame reports a loss.
  lemma NoLossSince(cfg: Params, input: Stream, tr: seq<Rec>, i: nat, j: nat)
    requires i < j < |Frames(cfg, input, tr)| == |Calls(tr)|
    requires TrackedSince(cfg, tr, Calls(tr)[i])
    ensures !Frames(cfg, input, tr)[j].head.lost
  {
    CallsIncrease(tr, i, j);
    FrameOfCall(cfg, input, tr, j);
    var m := Calls(tr)[j];
    assert Tracked(cfg, tr[..m + 1]);
    assert [Frames(cfg, input, tr)[j]][0] == Frames(cfg, input, tr)[j];
  }

  // Once everything written was read, a published cell has been tracked in every call
  // since the one whose half frame was decoded, if and only if its announcement
  // overlooked no loss.
  lemma PublishedMeansTracking(setup: Setup, k: nat, c: Chain)
    requires ChainInv(setup, k, c) && c.mib.published && c.read == |c.emitted|
    ensures c.sources != [] && c.sources[|c.sources| - 1] < |Calls(Trace(setup, c))|
    ensures TrackedSince(setup.cfg, Trace(setup, c), Calls(Trace(setup, c))[c.sources[|c.sources| - 1]])
            <==> !Overlooked(c)
  {
    OpenSource(setup, k, c);
    if Overlooked(c) {
      OverlookedBreaksLock(setup, k, c);
    } else {
      var tr, source := Trace(setup, c), c.sources[|c.sources| - 1];
      forall i | source <= i < |c.emitted| ensures !c.emitted[i].head.lost {
        assert Faithful(k, c.emitted[i], c.tagged[i], c.taggings[i]);
      }
      UnbrokenSince(setup.cfg, setup.input, tr, source);
    }
  }

  // Every half frame the publisher consumed since the one it decoded carries the open
  // cell's id or none.
  ghost predicate OneId(c: Chain) {
    && c.sources != [] && c.read <= |c.tagged| && c.mib.current.Some?
    && forall i :: c.sources[|c.sources| - 1] <= i < c.read ==>
         var ids := c.tagged[i].head.cellIds;
         ids == [] || (|ids| == 1 && c.mib.current.value.dict.cellId == Some(ids[0]))
  }

  // The tagger answered no other group for any of those that were written with lock.
  ghost predicate OneGroup(c: Chain) {
    && c.sources != [] && c.sources[|c.sources| - 1] < |c.taggings| && c.read <= |c.taggings| <= |c.emitted|
    && var source := c.sources[|c.sources| - 1];
       forall i :: source <= i < c.read && !c.emitted[i].head.lost ==>
         c.taggings[i].answer.group.None? || c.taggings[i].answer.group == c.taggings[source].answer.group
  }

  lemma OpenCellId(setup: Setup, k: nat, c: Chain)
    requires ChainInv(setup, k, c) && c.mib.published
    ensures c.sources != [] && c.sources[|c.sources| - 1] < |c.tagged| == |c.taggings| && c.mib.current.Some?
    ensures var group := c.taggings[c.sources[|c.sources| - 1]].answer.group;
            group.Some? && c.mib.current.value.dict.cellId == Some(3 * group.value + k)
  {
    var j := |c.sources| - 1;
    var source := c.sources[j];
    assert Decoded(k, c, Mib.Cells(c.log)[j], j, source);
    assert Faithful(k, c.emitted[source], c.tagged[source], c.taggings[source]);
  }

  lemma TaggedIds(setup: Setup, k: nat, c: Chain, i: nat)
    requires QueuesInv(setup, k, c) && i < |c.tagged|
    ensures var group := c.taggings[i].answer.group;
            c.tagged[i].head.cellIds == if c.emitted[i].head.lost || group.None? then [] else [3 * group.value + k]
  {
    assert Faithful(k, c.emitted[i], c.tagged[i], c.taggings[i]);
  }

  lemma IdsAreGroups(k: nat, c: Chain, group: Sss.GroupId)
    requires c.sources != [] && c.sources[|c.sources| - 1] < |c.tagged|
    requires c.read <= |c.tagged| == |c.taggings| <= |c.emitted| && c.mib.current.Some?
    requires c.taggings[c.sources[|c.sources| - 1]].answer.group == Some(group)
    requires c.mib.current.value.dict.cellId == Some(3 * group + k)
    requires forall i :: c.sources[|c.sources| - 1] <= i < c.read ==>
               c.tagged[i].head.cellIds ==
               if c.emitted[i].head.lost || c.taggings[i].answer.group.None? then []
               else [3 * c.taggings[i].answer.group.value + k]
    ensures OneId(c) <==> OneGroup(c)
  {
  }

  // A publisher that has announced a cell stops reading ids. The open cell is still the
  // only one tagged since if and only if the tagger answered no other group since.
  lemma OneCellSince(setup: Setup, k: nat, c: Chain)
    requires ChainInv(setup, k, c) && c.mib.published
    ensures OneId(c) <==> OneGroup(c)
  {
    OpenCellId(setup, k, c);
    var source := c.sources[|c.sources| - 1];
    forall i | source <= i < c.read
      ensures c.tagged[i].head.cellIds ==
              if c.emitted[i].head.lost || c.taggings[i].answer.group.None? then []
              else [3 * c.taggings[i].answer.group.value + k]
    {
      TaggedIds(setup, k, c, i);
    }
    IdsAreGroups(k, c, c.taggings[source].answer.group.value);
  }

  lemma OverlookedBreaksLock(setup: Setup, k: nat, c: Chain)
    requires ChainInv(setup, k, c) && Overlooked(c)
    ensures c.sources[|c.sources| - 1] < |Calls(Trace(setup, c))|
    ensures !TrackedSince(setup.cfg, Trace(setup, c), Calls(Trace(setup, c))[c.sources[|c.sources| - 1]])
  {
    OpenSource(setup, k, c);
    var tr, source := Trace(setup, c), c.sources[|c.sources| - 1];
    var i :| source < i < c.ends[|c.ends| - 1] && i < |c.tagged| && c.tagged[i].head.lost;
    assert Faithful(k, c.emitted[i], c.tagged[i], c.taggings[i]);
    if TrackedSince(setup.cfg, tr, Calls(tr)[source]) {
      NoLossSince(setup.cfg, setup.input, tr, source, i);
    }
  }

  // The newest call of a tracker that has been tracking since an earlier one.
  lemma TrackingNow(setup: Setup, k: nat, c: Chain, m: nat)
    requires ChainInv(setup, k, c) && m < |c.hist| && TrackedSince(setup.cfg, Trace(setup, c), m)
    ensures c.pss.tracking
  {
    PssMatchesHistory(setup.cfg, c.hist);
    assert Trace(setup, c)[..|c.hist|] == Trace(setup, c);
  }

  lemma DrainedIsTracking(setup: Setup, k: nat, c: Chain)
    requires ChainInv(setup, k, c) && c.mib.published && c.read == |c.emitted| && !Overlooked(c)
    ensures c.pss.tracking
  {
    PublishedMeansTracking(setup, k, c);
    var source := c.sources[|c.sources| - 1];
    CallsBelow(Trace(setup, c), source);
    TrackingNow(setup, k, c, Calls(Trace(setup, c))[source]);
  }

  lemma NewestTellsLock(setup: Setup, k: nat, c: Chain)
    requires QueuesInv(setup, k, c)
    ensures if c.emitted == [] then !c.pss.tracking
            else c.emitted[|c.emitted| - 1].head.lost == !c.pss.tracking
  {
    PssMatchesHistory(setup.cfg, c.hist);
    NewestFrame(setup.cfg, setup.input, Trace(setup, c));
  }

  // A published cell while the tracker is not tracking: the newest half frame reports the
  // loss, and either it has not reached the publisher yet or the publisher overlooked one.
  lemma LossInFlight(setup: Setup, k: nat, c: Chain)
    requires ChainInv(setup, k, c) && c.mib.published && !c.pss.tracking
    ensures c.emitted != [] && c.emitted[|c.emitted| - 1].head.lost
    ensures c.read < |c.emitted| || Overlooked(c)
  {
    NewestTellsLock(setup, k, c);
    assert c.emitted != [] by {
      OpenSource(setup, k, c);
    }
    if c.read == |c.emitted| && !Overlooked(c) {
      DrainedIsTracking(setup, k, c);
    }
  }

  // ---- What an announced cell was decoded from

  // The ids of cells with this N_id_2.
  predicate IdOfChain(k: nat, dict: Dict) {
    dict.cellId.Some? && 0 <= dict.cellId.value <= 503 && dict.cellId.value % 3 == k
  }

  // The half frame a cell was decoded from: made unchanged from one written with lock, with
  // the id and the prefix that the tagger was answered for it.
  lemma SourceFrame(setup: Setup, k: nat, c: Chain, j: nat)
    requires QueuesInv(setup, k, c) && PublisherInv(k, c) && j < |c.sources| && k < 3
    ensures c.sources[j] < |c.tagged| == |c.taggings| <= |c.emitted|
    ensures var source, dict := c.sources[j], Mib.Cells(c.log)[j].dict;
            var answer := c.taggings[source].answer;
            && !c.emitted[source].head.lost && c.tagged[source].data == c.emitted[source].data
            && answer.group.Some? && dict.cellId == Some(3 * answer.group.value + k) && dict.cp == answer.cp
            && IdOfChain(k, dict)
  {
    var source := c.sources[j];
    assert Decoded(k, c, Mib.Cells(c.log)[j], j, source);
    assert Faithful(k, c.emitted[source], c.tagged[source], c.taggings[source]);
  }

  // Every announced cell was decoded from a half frame the tracker wrote in a call with
  // lock, whose samples reached the publisher unchanged. Its id and prefix are those the
  // tagger was answered for that half frame, and the id is that of a cell of this chain.
  lemma AnnouncedFrom(setup: Setup, k: nat, c: Chain, j: nat)
    requires ChainInv(setup, k, c) && j < |c.sources| && k < 3
    ensures j < |Mib.Cells(c.log)| && c.sources[j] < |c.tagged| == |c.taggings| <= |c.emitted|
    ensures var tr, dict, source := Trace(setup, c), Mib.Cells(c.log)[j].dict, c.sources[j];
            && source < |Calls(tr)|
            && var m := Calls(tr)[source];
            && m < |tr| && Tracked(setup.cfg, tr[..m + 1])
            && tr[m].psr > c.hist[m].threshold
            && var o := OutputOf(setup.cfg, tr[..m + 1]);
            && o.Locked? && c.tagged[source].data == Data(Window(setup.input, o.start), o.freq)
            && var answer := c.taggings[source].answer;
            && answer.group.Some? && dict.cellId == Some(3 * answer.group.value + k) && dict.cp == answer.cp
            && IdOfChain(k, dict)
  {
    SourceFrame(setup, k, c, j);
    LockedFrame(setup.cfg, setup.input, Trace(setup, c), c.sources[j]);
  }
}
