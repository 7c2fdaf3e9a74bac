// What the trackers, taggers and publishers of a run were asked, read off the list of
// actions alone: no counter, queue or field of the composed system. The theorem
// ChainFollowsActions shows that a chain did exactly what these lists define.

module Replay {
  import opened Radio
  import opened TagStream
  import opened PssTracker
  import opened PssHistory
  import opened Chains
  import opened Network
  import Mib
  import MH = MibHistory
  import Sss

  // ---- Threshold requests

  // How many trackers the last accepted request was not written to yet. A request made
  // while another one is being written is not accepted.
  function Owed(acts: seq<Action>): nat {
    if acts == [] then 0
    else
      var owed := Owed(acts[..|acts| - 1]);
      match acts[|acts| - 1]
      case SetThreshold(_) => if owed == 0 then 3 else owed
      case WriteThreshold => if owed > 0 then owed - 1 else 0
      case _ => owed
  }

  // The last accepted request, as it was made.
  function Requested(first: real, acts: seq<Action>): real {
    if acts == [] then first
    else
      var front, a := acts[..|acts| - 1], acts[|acts| - 1];
      if a.SetThreshold? && Owed(front) == 0 then a.t else Requested(first, front)
  }

  function Safe(t: real): real {
    if t > 1.5 then t else 1.5
  }

  // The threshold last given to tracker k.
  function Given(first: real, acts: seq<Action>, k: nat): real {
    if acts == [] then Safe(first)
    else
      var front := acts[..|acts| - 1];
      if acts[|acts| - 1].WriteThreshold? && Owed(front) + k == 3 && k < 3 then Safe(Requested(first, front))
      else Given(first, front, k)
  }

  // ---- Calls

  predicate CallOf(a: Action, k: nat) {
    a.ChainCall? && a.k == k
  }

  // The calls of tracker k: the answers of the signal library, and the threshold given to
  // it by then.
  function TrackerInputs(cfg: Config, acts: seq<Action>, k: nat): seq<Input> {
    if acts == [] then []
    else
      var front, a := acts[..|acts| - 1], acts[|acts| - 1];
      TrackerInputs(cfg, front, k)
      + if CallOf(a, k) && a.call.TrackerCall? then
          [Input(Given(cfg.psrThreshold, front, k), a.call.peakPos, a.call.psr, a.call.cfo)]
        else []
  }

  // The half frames it wrote.
  function Output(cfg: Config, acts: seq<Action>, k: nat): seq<Frame<Data>> {
    Frames(cfg.setup.cfg, cfg.setup.input, History(cfg.setup.cfg, TrackerInputs(cfg, acts, k)))
  }

  // The calls of tagger k that found a half frame to tag.
  function TaggerCalls(cfg: Config, acts: seq<Action>, k: nat): seq<Tagging> {
    if acts == [] then []
    else
      var front, a := acts[..|acts| - 1], acts[|acts| - 1];
      var before := TaggerCalls(cfg, front, k);
      before + if CallOf(a, k) && a.call.TaggerCall? && |before| < |Output(cfg, front, k)| then
                 [Tagging(a.call.group, a.call.stale)]
               else []
  }

  // The half frames tagged in those calls.
  function TaggedOutput(cfg: Config, acts: seq<Action>, k: nat): seq<Frame<Data>> {
    if acts == [] then []
    else
      var front, a := acts[..|acts| - 1], acts[|acts| - 1];
      var before := TaggedOutput(cfg, front, k);
      before + if CallOf(a, k) && a.call.TaggerCall? && |before| < |Output(cfg, front, k)| then
                 [Sss.Tagged(k, Output(cfg, front, k)[|before|], a.call.group, a.call.stale)]
               else []
  }

  // The scheduler can call publisher k: it has not exited, and as many half frames as it is
  // offered are waiting.
  predicate Callable(cfg: Config, before: seq<Mib.Visit>, waiting: nat, a: Action, k: nat) {
    && CallOf(a, k) && a.call.PublisherCall?
    && !(cfg.setup.exitOnSuccess && MH.CellsOf(k, before) != [])
    && 1 <= a.call.n <= cfg.setup.batch && MH.Consumed(cfg.setup.exitOnSuccess, before) + a.call.n <= waiting
  }

  // The calls of publisher k, each with the half frame it stood at.
  function PublisherCalls(cfg: Config, acts: seq<Action>, k: nat): seq<Mib.Visit> {
    if acts == [] then []
    else
      var front, a := acts[..|acts| - 1], acts[|acts| - 1];
      var before, waiting := PublisherCalls(cfg, front, k), TaggedOutput(cfg, front, k);
      before + if Callable(cfg, before, |waiting|, a, k) then
                 [Mib.Visit(waiting[MH.Consumed(cfg.setup.exitOnSuccess, before)].head, a.call.n, a.call.decoded)]
               else []
  }

  // ---- Every run follows these lists

  lemma {:induction false} ThresholdsFollow(cfg: Config, acts: seq<Action>)
    ensures var s := Exec(cfg, acts);
            && s.psrThreshold == Safe(Requested(cfg.psrThreshold, acts))
            && s.writing + Owed(acts) == 3
            && forall k :: 0 <= k < CHAINS ==> s.chains[k].threshold == Given(cfg.psrThreshold, acts, k)
  {
    if acts != [] {
      var front, a := acts[..|acts| - 1], acts[|acts| - 1];
      ThresholdsFollow(cfg, front);
      if a.ChainCall? && a.k < CHAINS {
        TurnKeepsThreshold(cfg.setup, a.k, Exec(cfg, front).chains[a.k], a.call);
      }
    }
  }

  lemma TurnKeepsThreshold(setup: Setup, k: nat, c: Chain, call: BlockCall)
    ensures Turn(setup, k, c, call).threshold == c.threshold
  {
  }

  // What one more action adds to each list.
  lemma InputsExtend(cfg: Config, acts: seq<Action>, a: Action, k: nat)
    ensures TrackerInputs(cfg, acts + [a], k) == TrackerInputs(cfg, acts, k)
            + if CallOf(a, k) && a.call.TrackerCall? then
                [Input(Given(cfg.psrThreshold, acts, k), a.call.peakPos, a.call.psr, a.call.cfo)]
              else []
  {
    assert (acts + [a])[..|acts|] == acts;
  }

  lemma TaggerCallsExtend(cfg: Config, acts: seq<Action>, a: Action, k: nat)
    ensures TaggerCalls(cfg, acts + [a], k) == TaggerCalls(cfg, acts, k)
            + if CallOf(a, k) && a.call.TaggerCall? && |TaggerCalls(cfg, acts, k)| < |Output(cfg, acts, k)| then
                [Tagging(a.call.group, a.call.stale)]
              else []
  {
    assert (acts + [a])[..|acts|] == acts;
  }

  lemma TaggedExtend(cfg: Config, acts: seq<Action>, a: Action, k: nat)
    ensures var before := TaggedOutput(cfg, acts, k);
            TaggedOutput(cfg, acts + [a], k) == before
            + if CallOf(a, k) && a.call.TaggerCall? && |before| < |Output(cfg, acts, k)| then
                [Sss.Tagged(k, Output(cfg, acts, k)[|before|], a.call.group, a.call.stale)]
              else []
  {
    assert (acts + [a])[..|acts|] == acts;
  }

  lemma PublisherCallsExtend(cfg: Config, acts: seq<Action>, a: Action, k: nat)
    ensures var before, waiting := PublisherCalls(cfg, acts, k), TaggedOutput(cfg, acts, k);
            PublisherCalls(cfg, acts + [a], k) == before
            + if Callable(cfg, before, |waiting|, a, k) then
                [Mib.Visit(waiting[MH.Consumed(cfg.setup.exitOnSuccess, before)].head, a.call.n, a.call.decoded)]
              else []
  {
    assert (acts + [a])[..|acts|] == acts;
  }

  // What a chain shows after its calls.
  ghost predicate Shows(setup: Setup, k: nat, c: Chain, inputs: seq<Input>, taggings: seq<Tagging>,
                        tagged: seq<Frame<Data>>, visits: seq<Mib.Visit>) {
    && c.hist == inputs && c.taggings == taggings && c.tagged == tagged && c.visits == visits
    && MH.Progress(c.mib, c.log, c.read) == MH.Run(setup.exitOnSuccess, k, c.visits)
  }

  ghost predicate Follows(cfg: Config, acts: seq<Action>, k: nat, c: Chain) {
    Shows(cfg.setup, k, c, TrackerInputs(cfg, acts, k), TaggerCalls(cfg, acts, k),
          TaggedOutput(cfg, acts, k), PublisherCalls(cfg, acts, k))
  }

  // The chain moved as the lists do, given the threshold and the output of its tracker.
  ghost predicate Moves(cfg: Config, a: Action, k: nat, c: Chain, c': Chain, given: real, output: seq<Frame<Data>>) {
    && c'.hist == c.hist
       + (if CallOf(a, k) && a.call.TrackerCall? then
            [Input(given, a.call.peakPos, a.call.psr, a.call.cfo)]
          else [])
    && c'.taggings == c.taggings
       + (if CallOf(a, k) && a.call.TaggerCall? && |c.taggings| < |output| then
            [Tagging(a.call.group, a.call.stale)]
          else [])
    && c'.tagged == c.tagged
       + (if CallOf(a, k) && a.call.TaggerCall? && |c.tagged| < |output| then
            [Sss.Tagged(k, output[|c.tagged|], a.call.group, a.call.stale)]
          else [])
    && c'.visits == c.visits
       + (if Callable(cfg, c.visits, |c.tagged|, a, k) then
            [Mib.Visit(c.tagged[MH.Consumed(cfg.setup.exitOnSuccess, c.visits)].head, a.call.n, a.call.decoded)]
          else [])
    && MH.Progress(c'.mib, c'.log, c'.read) == MH.Run(cfg.setup.exitOnSuccess, k, c'.visits)
  }

  lemma ListsExtend(cfg: Config, acts: seq<Action>, a: Action, k: nat, c: Chain, c': Chain)
    requires Follows(cfg, acts, k, c)
    requires Moves(cfg, a, k, c, c', Given(cfg.psrThreshold, acts, k), Output(cfg, acts, k))
    ensures Follows(cfg, acts + [a], k, c')
  {
    InputsExtend(cfg, acts, a, k);
    TaggerCallsExtend(cfg, acts, a, k);
    TaggedExtend(cfg, acts, a, k);
    PublisherCallsExtend(cfg, acts, a, k);
  }

  lemma OtherActionKeeps(cfg: Config, s: Net, a: Action, k: nat)
    requires Shape(s) && k < CHAINS && !CallOf(a, k)
    ensures var c' := Apply(cfg, s, a).chains[k]; c' == s.chains[k].(threshold := c'.threshold)
  {
  }

  lemma PublisherMoves(setup: Setup, k: nat, c: Chain, call: BlockCall)
    requires call.PublisherCall? && MH.Progress(c.mib, c.log, c.read) == MH.Run(setup.exitOnSuccess, k, c.visits)
    ensures var c' := Turn(setup, k, c, call);
            MH.Progress(c'.mib, c'.log, c'.read) == MH.Run(setup.exitOnSuccess, k, c'.visits)
  {
    if MibReady(setup, c, call.n) {
      MH.RunExtend(setup.exitOnSuccess, k, c.visits, Mib.Visit(c.tagged[c.read].head, call.n, call.decoded));
    }
  }

  // What a call adds to a chain.
  lemma TurnAdds(setup: Setup, k: nat, c: Chain, call: BlockCall)
    ensures var c' := Turn(setup, k, c, call);
            && c'.hist == c.hist
               + (if call.TrackerCall? then [Input(c.threshold, call.peakPos, call.psr, call.cfo)] else [])
            && c'.taggings == c.taggings
               + (if call.TaggerCall? && |c.tagged| < |c.emitted| then [Tagging(call.group, call.stale)] else [])
            && c'.tagged == c.tagged
               + (if call.TaggerCall? && |c.tagged| < |c.emitted| then
                    [Sss.Tagged(k, c.emitted[|c.tagged|], call.group, call.stale)]
                  else [])
            && c'.visits == c.visits
               + (if call.PublisherCall? && MibReady(setup, c, call.n) then
                    [Mib.Visit(c.tagged[c.read].head, call.n, call.decoded)]
                  else [])
            && (!call.PublisherCall? ==> c'.mib == c.mib && c'.log == c.log && c'.read == c.read)
  {
  }

  lemma ReadyMeans(setup: Setup, k: nat, c: Chain, n: nat)
    requires MH.Progress(c.mib, c.log, c.read) == MH.Run(setup.exitOnSuccess, k, c.visits)
    ensures c.read == MH.Consumed(setup.exitOnSuccess, c.visits)
    ensures MibReady(setup, c, n) <==>
            && !(setup.exitOnSuccess && MH.CellsOf(k, c.visits) != [])
            && 1 <= n <= setup.batch && c.read + n <= |c.tagged|
  {
    MH.MibMatchesHistory(setup.exitOnSuccess, k, c.visits);
  }

  lemma CallMoves(cfg: Config, k: nat, c: Chain, call: BlockCall)
    requires MH.Progress(c.mib, c.log, c.read) == MH.Run(cfg.setup.exitOnSuccess, k, c.visits)
    requires |c.taggings| == |c.tagged|
    ensures Moves(cfg, ChainCall(k, call), k, c, Turn(cfg.setup, k, c, call), c.threshold, c.emitted)
  {
    TurnAdds(cfg.setup, k, c, call);
    if call.PublisherCall? {
      PublisherMoves(cfg.setup, k, c, call);
      ReadyMeans(cfg.setup, k, c, call.n);
    }
  }

  lemma ChainOutput(cfg: Config, acts: seq<Action>, k: nat)
    requires k < CHAINS && Exec(cfg, acts).chains[k].hist == TrackerInputs(cfg, acts, k)
    ensures var c := Exec(cfg, acts).chains[k];
            c.emitted == Output(cfg, acts, k) && |c.taggings| == |c.tagged|
  {
    ReachableChain(cfg, acts, k);
  }

  lemma OwnActionFollows(cfg: Config, acts: seq<Action>, k: nat, call: BlockCall)
    requires k < CHAINS && Follows(cfg, acts, k, Exec(cfg, acts).chains[k])
    ensures Follows(cfg, acts + [ChainCall(k, call)], k, Turn(cfg.setup, k, Exec(cfg, acts).chains[k], call))
  {
    var c := Exec(cfg, acts).chains[k];
    ThresholdsFollow(cfg, acts);
    ChainOutput(cfg, acts, k);
    CallMoves(cfg, k, c, call);
    ListsExtend(cfg, acts, ChainCall(k, call), k, c, Turn(cfg.setup, k, c, call));
  }

  lemma OtherActionFollows(cfg: Config, acts: seq<Action>, a: Action, k: nat)
    requires k < CHAINS && Follows(cfg, acts, k, Exec(cfg, acts).chains[k]) && !CallOf(a, k)
    ensures Follows(cfg, acts + [a], k, Apply(cfg, Exec(cfg, acts), a).chains[k])
  {
    OtherActionKeeps(cfg, Exec(cfg, acts), a, k);
    ListsExtend(cfg, acts, a, k, Exec(cfg, acts).chains[k], Apply(cfg, Exec(cfg, acts), a).chains[k]);
  }

  lemma {:induction false} RunFollows(cfg: Config, acts: seq<Action>, k: nat)
    requires k < CHAINS
    ensures Follows(cfg, acts, k, Exec(cfg, acts).chains[k])
  {
    if acts != [] {
      var front, a := acts[..|acts| - 1], acts[|acts| - 1];
      RunFollows(cfg, front, k);
      assert acts == front + [a];
      ExecExtend(cfg, front, a);
      if CallOf(a, k) {
        OwnActionFollows(cfg, front, k, a.call);
      } else {
        OtherActionFollows(cfg, front, a, k);
      }
    }
  }

  // In every run, what each chain holds is defined by the list of actions: the threshold
  // and the calls of its tracker, the half frames it wrote, the half frames tagged and the
  // answers they were tagged by, and what the publisher consumed, sent and has open.
  lemma ChainFollowsActions(cfg: Config, acts: seq<Action>, k: nat)
    requires k < CHAINS
    ensures var c, visits := Exec(cfg, acts).chains[k], PublisherCalls(cfg, acts, k);
            && c.threshold == Given(cfg.psrThreshold, acts, k)
            && c.hist == TrackerInputs(cfg, acts, k) && c.emitted == Output(cfg, acts, k)
            && c.taggings == TaggerCalls(cfg, acts, k) && c.tagged == TaggedOutput(cfg, acts, k)
            && c.visits == visits
            && c.read == MH.Consumed(cfg.setup.exitOnSuccess, visits)
            && c.log == MH.MessagesOf(k, visits)
            && c.mib.published == MH.Open(visits)
  {
    RunFollows(cfg, acts, k);
    ThresholdsFollow(cfg, acts);
    ReachableChain(cfg, acts, k);
    MH.MibMatchesHistory(cfg.setup.exitOnSuccess, k, PublisherCalls(cfg, acts, k));
  }

  // The last accepted request, raised to 1.5 when it is lower, is the threshold of every
  // tracker it was written to, and of all three once it was written to all.
  lemma RequestReachesTrackers(cfg: Config, acts: seq<Action>, k: nat)
    requires k < CHAINS && k + Owed(acts) < 3
    ensures Exec(cfg, acts).chains[k].threshold == Safe(Requested(cfg.psrThreshold, acts))
  {
    ThresholdsFollow(cfg, acts);
    Reachable(cfg, acts);
  }

  // The i-th half frame tagged in a run: made from the i-th half frame written, with the
  // id and prefix answered in the i-th call that found one to tag.
  lemma TaggedByAnswer(cfg: Config, acts: seq<Action>, k: nat, i: nat)
    requires k < CHAINS && i < |Exec(cfg, acts).chains[k].tagged|
    ensures i < |Output(cfg, acts, k)| && i < |TaggerCalls(cfg, acts, k)|
    ensures var f, g := Output(cfg, acts, k)[i], Exec(cfg, acts).chains[k].tagged[i];
            var t := TaggerCalls(cfg, acts, k)[i];
            if f.head.lost then g == Frame(f.data, Head(true, [], []))
            else if t.answer.group.None? then g == Frame(t.stale, Head(false, [], []))
            else g == Frame(f.data, Head(false, [3 * t.answer.group.value + k], [t.answer.cp]))
  {
    ChainFollowsActions(cfg, acts, k);
    ReachableChain(cfg, acts, k);
    var c := Exec(cfg, acts).chains[k];
    assert Faithful(k, c.emitted[i], c.tagged[i], c.taggings[i]);
  }

  // What a tracker call does with a threshold. The ratio it goes by is the one it measures
  // when it searches and that of the latest search otherwise. It writes a half frame exactly
  // when that ratio exceeds the threshold, or the ratio of the call before exceeded its own;
  // the half frame starts peak_pos - 960 from the read cursor after a search and at the
  // cursor otherwise, and reports a loss exactly when the tracker does not track any more.
  ghost predicate Writes(input: Stream, c: Chain, c': Chain, threshold: real, peakPos: nat, psr: real) {
    var searches := !c.pss.tracking || c.pss.timer == 0;
    var ratio := if searches then psr else c.pss.psr;
    var start := c.pss.cursor + if searches then peakPos - 960 else 0;
    if ratio > threshold || (c.hist != [] && c.pss.psr > c.hist[|c.hist| - 1].threshold) then
      c'.emitted == c.emitted + [Frame(Data(Window(input, start), CorrectedBy(c')), Head(!c'.pss.tracking, [], []))]
    else
      c'.emitted == c.emitted
  }

  // The frequency the newest half frame was corrected by.
  function CorrectedBy(c: Chain): real {
    if c.emitted == [] then 0.0 else c.emitted[|c.emitted| - 1].data.freq
  }

  lemma StepEmits(cfg: Params, s: Tracker, tr: seq<Rec>, x: Input)
    requires Agrees(cfg, s, tr)
    ensures var t, o := Sync(cfg, s, x), Step(cfg, s, x).1;
            var start := s.cursor + if !s.tracking || s.timer == 0 then x.peakPos - 960 else 0;
            && t.psr == (if !s.tracking || s.timer == 0 then x.psr else s.psr)
            && (o.Dropped? <==> !(t.psr > x.threshold) && TrailingRun(tr) == 0)
            && (!o.Dropped? ==> o.start == start)
            && (!o.Dropped? ==> (o.Lost? <==> !Step(cfg, s, x).0.tracking))
  {
  }

  // A run was building when the last call was over its threshold.
  lemma LastRatio(tr: seq<Rec>)
    ensures TrailingRun(tr) > 0 <==> tr != [] && LastPsr(tr) > tr[|tr| - 1].x.threshold
  {
  }

  lemma CallWrites(setup: Setup, c: Chain, peakPos: nat, psr: real, cfo: real)
    requires c.pss == PssTracker.Run(setup.cfg, c.hist)
    ensures Writes(setup.input, c, PssCall(setup, c, peakPos, psr, cfo), c.threshold, peakPos, psr)
  {
    PssMatchesHistory(setup.cfg, c.hist);
    StepEmits(setup.cfg, c.pss, Trace(setup, c), Input(c.threshold, peakPos, psr, cfo));
    LastRatio(Trace(setup, c));
  }

  // In every run one more tracker call does this with the threshold last given to it.
  lemma TrackerCallWrites(cfg: Config, acts: seq<Action>, k: nat, peakPos: nat, psr: real, cfo: real)
    requires k < CHAINS
    ensures Writes(cfg.setup.input, Exec(cfg, acts).chains[k],
                   Exec(cfg, acts + [ChainCall(k, TrackerCall(peakPos, psr, cfo))]).chains[k],
                   Given(cfg.psrThreshold, acts, k), peakPos, psr)
  {
    ExecExtend(cfg, acts, ChainCall(k, TrackerCall(peakPos, psr, cfo)));
    ThresholdsFollow(cfg, acts);
    assert Exec(cfg, acts).chains[k].pss == PssTracker.Run(cfg.setup.cfg, Exec(cfg, acts).chains[k].hist) by {
      ReachableChain(cfg, acts, k);
    }
    CallWrites(cfg.setup, Exec(cfg, acts).chains[k], peakPos, psr, cfo);
  }
}
