// The whole trigger: three chains, the threshold they share and the store they feed.
//
// A run is any sequence of actions; an action that is not enabled changes nothing. Every
// answer of the signal library is part of an action, so a statement about all runs is a
// statement about all interleavings and all inputs.

module Network {
  import opened Radio
  import opened Messages
  import opened Chains
  import Mib
  import CellStore
  import D = Delivery

  const CHAINS: nat := 3
  const MIN_PSR_THRESHOLD: real := 1.5

  // ordered: the store handles the messages of a chain in the order they were sent.
  // Otherwise its two ports are served independently.
  datatype Config = Config(setup: Setup, ordered: bool, psrThreshold: real)

  datatype Net = Net(
    chains: seq<Chain>,
    psrThreshold: real,     // as last requested
    writing: nat,           // the next tracker to be given it; CHAINS when all were
    post: D.Post)

  datatype Action =
    | ChainCall(k: nat, call: BlockCall)
    | Deliver(k: nat, track: bool)
    | SetThreshold(t: real)
    | WriteThreshold

  function EnsureSafeThreshold(t: real): real {
    if t > MIN_PSR_THRESHOLD then t else MIN_PSR_THRESHOLD
  }

  predicate Shape(s: Net) {
    |s.chains| == |s.post.tracks| == |s.post.drops| == CHAINS
  }

  function Init(cfg: Config): (s: Net)
    ensures Shape(s)
  {
    var t := EnsureSafeThreshold(cfg.psrThreshold);
    Net([Start(t), Start(t), Start(t)], t, CHAINS, D.Post([0, 0, 0], [0, 0, 0], [], []))
  }

  // The message of chain k that a port of the store handles next: in the ordered mode
  // the next one of the chain if it is for this port, otherwise the first in the queue
  // of the port.
  function Pending(cfg: Config, s: Net, k: nat, track: bool): Option<Msg>
    requires Shape(s) && k < CHAINS
  {
    var log, t, d := s.chains[k].log, s.post.tracks[k], s.post.drops[k];
    if cfg.ordered then
      if t + d < |log| && log[t + d].Track? == track then Some(log[t + d]) else None
    else
      var queue, next := if track then Mib.Cells(log) else Mib.Withdrawn(log), if track then t else d;
      if next >= |queue| then None
      else if track then Some(Track(queue[next]))
      else Some(Drop(queue[next]))
  }

  function Apply(cfg: Config, s: Net, a: Action): (s': Net)
    requires Shape(s)
    ensures Shape(s')
  {
    match a
    case ChainCall(k, call) =>
      if k < CHAINS then s.(chains := s.chains[k := Turn(cfg.setup, k, s.chains[k], call)]) else s
    case Deliver(k, track) =>
      if k >= CHAINS || Pending(cfg, s, k, track).None? then s
      else
        var cell := Pending(cfg, s, k, track).value.cell;
        s.(post := if track then D.HandleTrack(s.post, k, cell) else D.HandleDrop(s.post, k, cell))
    case SetThreshold(t) =>
      if s.writing == CHAINS then s.(psrThreshold := EnsureSafeThreshold(t), writing := 0) else s
    case WriteThreshold =>
      if s.writing < CHAINS then
        s.(chains := s.chains[s.writing := s.chains[s.writing].(threshold := s.psrThreshold)],
           writing := s.writing + 1)
      else s
  }

  function ExecFrom(cfg: Config, s: Net, acts: seq<Action>): (s': Net)
    requires Shape(s)
    ensures Shape(s')
  {
    if acts == [] then s else Apply(cfg, ExecFrom(cfg, s, acts[..|acts| - 1]), acts[|acts| - 1])
  }

  function Exec(cfg: Config, acts: seq<Action>): (s: Net)
    ensures Shape(s)
  {
    ExecFrom(cfg, Init(cfg), acts)
  }

  // ---- What every action keeps

  // The cells each chain announced.
  function Announced(s: Net): (ann: seq<seq<Cell>>)
    ensures |ann| == |s.chains|
    ensures forall k :: 0 <= k < |ann| ==> ann[k] == Mib.Cells(s.chains[k].log)
  {
    seq(|s.chains|, k requires 0 <= k < |s.chains| => Mib.Cells(s.chains[k].log))
  }

  ghost predicate ChainsInv(cfg: Config, s: Net) {
    forall k :: 0 <= k < |s.chains| ==> ChainInv(cfg.setup, k, s.chains[k])
  }

  // The store has handled no withdrawal that was not sent.
  ghost predicate PostInv(cfg: Config, s: Net) {
    && Shape(s)
    && D.DeliveryInv(Announced(s), s.post)
    && (cfg.ordered ==> D.Ordered(s.post))
    && forall k :: 0 <= k < CHAINS ==> s.post.drops[k] <= |Mib.Withdrawn(s.chains[k].log)|
  }

  ghost predicate SafeThresholds(c: Chain) {
    c.threshold >= MIN_PSR_THRESHOLD && forall x :: x in c.hist ==> x.threshold >= MIN_PSR_THRESHOLD
  }

  // Every tracker works with a safe threshold at all times; those already written to
  // have the requested one.
  ghost predicate ThresholdInv(s: Net) {
    && s.writing <= CHAINS <= |s.chains| && s.psrThreshold >= MIN_PSR_THRESHOLD
    && (forall k :: 0 <= k < |s.chains| ==> SafeThresholds(s.chains[k]))
    && (forall k :: 0 <= k < s.writing ==> s.chains[k].threshold == s.psrThreshold)
  }

  lemma InitKeepsChains(cfg: Config)
    ensures ChainsInv(cfg, Init(cfg))
  {
    var t := EnsureSafeThreshold(cfg.psrThreshold);
    forall k | 0 <= k < CHAINS ensures ChainInv(cfg.setup, k, Start(t)) {
      StartInv(cfg.setup, k, t);
    }
    InitChains(cfg);
  }

  lemma InitChains(cfg: Config)
    ensures forall k :: 0 <= k < CHAINS ==> Init(cfg).chains[k] == Start(EnsureSafeThreshold(cfg.psrThreshold))
    ensures ThresholdInv(Init(cfg))
  {
  }

  lemma InitKeepsPost(cfg: Config)
    ensures PostInv(cfg, Init(cfg))
  {
    var s := Init(cfg);
    forall k | 0 <= k < CHAINS ensures s.chains[k].log == [] {}
  }

  lemma ChainReplaced(cfg: Config, s: Net, k: nat, c: Chain)
    requires ChainsInv(cfg, s) && k < |s.chains| && ChainInv(cfg.setup, k, c)
    ensures ChainsInv(cfg, s.(chains := s.chains[k := c]))
  {
  }

  lemma CallKeepsChains(cfg: Config, s: Net, k: nat, call: BlockCall)
    requires Shape(s) && ChainsInv(cfg, s) && k < CHAINS
    ensures ChainsInv(cfg, Apply(cfg, s, ChainCall(k, call)))
  {
    var c' := Turn(cfg.setup, k, s.chains[k], call);
    assert ChainInv(cfg.setup, k, c') by {
      TurnKeepsInv(cfg.setup, k, s.chains[k], call);
    }
    ChainReplaced(cfg, s, k, c');
  }

  lemma SameChains(cfg: Config, s: Net, s': Net)
    requires ChainsInv(cfg, s) && s'.chains == s.chains
    ensures ChainsInv(cfg, s')
  {
  }

  lemma ThresholdWritten(cfg: Config, s: Net, k: nat, t: real)
    requires ChainsInv(cfg, s) && k < |s.chains|
    ensures ChainsInv(cfg, s.(chains := s.chains[k := s.chains[k].(threshold := t)]))
  {
    assert ChainInv(cfg.setup, k, s.chains[k].(threshold := t)) by {
      ThresholdKeepsInv(cfg.setup, k, s.chains[k], t);
    }
    ChainReplaced(cfg, s, k, s.chains[k].(threshold := t));
  }

  lemma WriteKeepsChains(cfg: Config, s: Net)
    requires Shape(s) && ChainsInv(cfg, s) && s.writing < CHAINS
    ensures ChainsInv(cfg, Apply(cfg, s, WriteThreshold))
  {
    var written := s.(chains := s.chains[s.writing := s.chains[s.writing].(threshold := s.psrThreshold)]);
    ThresholdWritten(cfg, s, s.writing, s.psrThreshold);
    SameChains(cfg, written, Apply(cfg, s, WriteThreshold));
  }

  lemma ApplyKeepsChains(cfg: Config, s: Net, a: Action)
    requires Shape(s) && ChainsInv(cfg, s)
    ensures ChainsInv(cfg, Apply(cfg, s, a))
  {
    if a.ChainCall? && a.k < CHAINS {
      CallKeepsChains(cfg, s, a.k, a.call);
    } else if a.WriteThreshold? && s.writing < CHAINS {
      WriteKeepsChains(cfg, s);
    } else {
      SameChains(cfg, s, Apply(cfg, s, a));
    }
  }

  lemma TurnKeepsThresholds(setup: Setup, k: nat, c: Chain, a: BlockCall)
    requires SafeThresholds(c)
    ensures SafeThresholds(Turn(setup, k, c, a)) && Turn(setup, k, c, a).threshold == c.threshold
  {
  }

  lemma ApplyKeepsThresholds(cfg: Config, s: Net, a: Action)
    requires Shape(s) && ThresholdInv(s)
    ensures ThresholdInv(Apply(cfg, s, a))
  {
    if a.ChainCall? && a.k < CHAINS {
      TurnKeepsThresholds(cfg.setup, a.k, s.chains[a.k], a.call);
    }
  }

  // The messages of a chain: its announcements are new objects, and all but the open
  // one were withdrawn.
  ghost predicate Sent(k: nat, log: seq<Msg>, published: bool) {
    var cells := Mib.Cells(log);
    && log == Mib.Log(cells, published)
    && (published ==> cells != [])
    && Mib.Withdrawn(log) == cells[..|cells| - if published then 1 else 0]
    && forall j :: 0 <= j < |cells| ==> cells[j].handle == Handle(k, j) && CellStore.Acceptable(cells[j])
  }

  ghost predicate AllSent(s: Net) {
    forall k :: 0 <= k < |s.chains| ==> Sent(k, s.chains[k].log, s.chains[k].mib.published)
  }

  lemma ChainSent(setup: Setup, k: nat, c: Chain)
    requires ChainInv(setup, k, c) && k < CHAINS
    ensures Sent(k, c.log, c.mib.published)
  {
    var cells := Mib.Cells(c.log);
    Mib.WithdrawnOfLog(cells, c.mib.published);
    forall j | 0 <= j < |cells| ensures cells[j].handle == Handle(k, j) && CellStore.Acceptable(cells[j]) {
      assert Decoded(k, c, cells[j], j, c.sources[j]);
      AnnouncedFrom(setup, k, c, j);
    }
  }

  lemma ChainsSent(cfg: Config, s: Net)
    requires Shape(s) && ChainsInv(cfg, s)
    ensures AllSent(s) && D.Distinct(Announced(s))
  {
    forall k | 0 <= k < CHAINS ensures Sent(k, s.chains[k].log, s.chains[k].mib.published) {
      ChainSent(cfg.setup, k, s.chains[k]);
    }
  }

  lemma OrderedPendingIs(k: nat, log: seq<Msg>, published: bool, t: nat, d: nat)
    requires Sent(k, log, published) && d <= t <= d + 1 && t + d < |log|
    ensures var cells := Mib.Cells(log);
            && d < |cells| && log[t + d] == (if t == d then Track(cells[d]) else Drop(cells[d]))
            && (t != d ==> d < |Mib.Withdrawn(log)|)
  {
    Mib.NextInLog(Mib.Cells(log), published, t, d);
  }

  // In either mode the next message of a chain is its next announcement or its next
  // withdrawal; in the ordered mode they alternate.
  lemma PendingIs(cfg: Config, s: Net, k: nat, track: bool)
    requires AllSent(s) && Shape(s) && (cfg.ordered ==> D.Ordered(s.post))
    requires k < CHAINS && Pending(cfg, s, k, track).Some?
    ensures var cells, t, d := Announced(s)[k], s.post.tracks[k], s.post.drops[k];
            var next := if track then t else d;
            && next < |cells| && Pending(cfg, s, k, track).value.cell == cells[next]
            && (track || d < |Mib.Withdrawn(s.chains[k].log)|)
            && (cfg.ordered ==> t == if track then d else d + 1)
  {
    var c, t, d := s.chains[k], s.post.tracks[k], s.post.drops[k];
    if cfg.ordered {
      OrderedPendingIs(k, c.log, c.mib.published, t, d);
    }
  }

  lemma ApplyKeepsPost(cfg: Config, s: Net, a: Action)
    requires AllSent(s) && D.Distinct(Announced(s)) && PostInv(cfg, s)
    ensures PostInv(cfg, Apply(cfg, s, a))
  {
    if a.ChainCall? && a.k < CHAINS {
      TurnKeepsPost(cfg, s, a.k, a.call);
    } else if a.Deliver? && a.k < CHAINS && Pending(cfg, s, a.k, a.track).Some? {
      if a.track {
        DeliverTrackKeepsPost(cfg, s, a.k);
      } else {
        DeliverDropKeepsPost(cfg, s, a.k);
      }
    } else {
      SameLogsKeepPost(cfg, s, Apply(cfg, s, a));
    }
  }

  lemma SameLogsKeepPost(cfg: Config, s: Net, s': Net)
    requires PostInv(cfg, s) && Shape(s') && s'.post == s.post
    requires forall k :: 0 <= k < CHAINS ==> s'.chains[k].log == s.chains[k].log
    ensures PostInv(cfg, s')
  {
    assert Announced(s') == Announced(s);
  }

  lemma TurnKeepsPost(cfg: Config, s: Net, k: nat, call: BlockCall)
    requires PostInv(cfg, s) && k < CHAINS
    ensures PostInv(cfg, Apply(cfg, s, ChainCall(k, call)))
  {
    var s' := Apply(cfg, s, ChainCall(k, call));
    TurnGrowsLog(cfg.setup, k, s.chains[k], call);
    WithdrawnGrows(s.chains[k].log, s'.chains[k].log);
    D.GrowthKeepsInv(Announced(s), Announced(s'), s.post);
  }

  lemma {:induction false} WithdrawnGrows(log: seq<Msg>, log': seq<Msg>)
    requires log <= log'
    ensures |Mib.Withdrawn(log)| <= |Mib.Withdrawn(log')|
  {
    if |log| < |log'| {
      WithdrawnGrows(log, log'[..|log'| - 1]);
    } else {
      assert log == log';
    }
  }

  lemma DeliverTrackKeepsPost(cfg: Config, s: Net, k: nat)
    requires AllSent(s) && D.Distinct(Announced(s)) && PostInv(cfg, s)
    requires k < CHAINS && Pending(cfg, s, k, true).Some?
    ensures PostInv(cfg, Apply(cfg, s, Deliver(k, true)))
  {
    PendingIs(cfg, s, k, true);
    TrackedPost(cfg, s, k, Apply(cfg, s, Deliver(k, true)));
  }

  lemma TrackedPost(cfg: Config, s: Net, k: nat, s': Net)
    requires D.Distinct(Announced(s)) && PostInv(cfg, s)
    requires k < CHAINS && s.post.tracks[k] < |Announced(s)[k]|
    requires cfg.ordered ==> s.post.tracks[k] == s.post.drops[k]
    requires s' == s.(post := D.HandleTrack(s.post, k, Announced(s)[k][s.post.tracks[k]]))
    ensures PostInv(cfg, s')
  {
    D.TrackKeepsInv(Announced(s), s.post, k);
    if cfg.ordered {
      D.TrackKeepsOrder(Announced(s), s.post, k, Announced(s)[k][s.post.tracks[k]]);
    }
    assert Announced(s') == Announced(s);
  }

  lemma DeliverDropKeepsPost(cfg: Config, s: Net, k: nat)
    requires AllSent(s) && D.Distinct(Announced(s)) && PostInv(cfg, s)
    requires k < CHAINS && Pending(cfg, s, k, false).Some?
    ensures PostInv(cfg, Apply(cfg, s, Deliver(k, false)))
  {
    PendingIs(cfg, s, k, false);
    DroppedPost(cfg, s, k, Apply(cfg, s, Deliver(k, false)));
  }

  lemma DroppedPost(cfg: Config, s: Net, k: nat, s': Net)
    requires D.Distinct(Announced(s)) && PostInv(cfg, s)
    requires k < CHAINS && s.post.drops[k] < |Announced(s)[k]|
    requires s.post.drops[k] < |Mib.Withdrawn(s.chains[k].log)|
    requires cfg.ordered ==> s.post.tracks[k] == s.post.drops[k] + 1
    requires s' == s.(post := D.HandleDrop(s.post, k, Announced(s)[k][s.post.drops[k]]))
    ensures PostInv(cfg, s')
  {
    D.DropKeepsInv(Announced(s), s.post, k);
    if cfg.ordered {
      D.DropKeepsOrder(Announced(s), s.post, k);
    }
    assert Announced(s') == Announced(s);
  }

  // Every state of every run.
  lemma {:induction false} Reachable(cfg: Config, acts: seq<Action>)
    ensures var s := Exec(cfg, acts);
            ChainsInv(cfg, s) && PostInv(cfg, s) && ThresholdInv(s)
  {
    if acts == [] {
      InitKeepsChains(cfg);
      InitChains(cfg);
      InitKeepsPost(cfg);
    } else {
      var front, a := acts[..|acts| - 1], acts[|acts| - 1];
      Reachable(cfg, front);
      ApplyKeepsChains(cfg, Exec(cfg, front), a);
      ChainsSent(cfg, Exec(cfg, front));
      ApplyKeepsPost(cfg, Exec(cfg, front), a);
      ApplyKeepsThresholds(cfg, Exec(cfg, front), a);
    }
  }

  lemma ReachableChain(cfg: Config, acts: seq<Action>, k: nat)
    requires k < CHAINS
    ensures ChainInv(cfg.setup, k, Exec(cfg, acts).chains[k])
  {
    Reachable(cfg, acts);
  }

  lemma ReachableThresholds(cfg: Config, acts: seq<Action>, k: nat)
    requires k < CHAINS
    ensures SafeThresholds(Exec(cfg, acts).chains[k])
  {
    Reachable(cfg, acts);
  }

  lemma ExecExtend(cfg: Config, acts: seq<Action>, a: Action)
    ensures Exec(cfg, acts + [a]) == Apply(cfg, Exec(cfg, acts), a)
  {
    assert (acts + [a])[..|acts|] == acts;
  }
}
