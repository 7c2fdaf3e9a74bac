// What the trigger does when its trackers make no more calls: every schedule of the
// other blocks and of the store comes to rest, and what the store holds at rest.

module Settling {
  import opened Radio
  import opened TagStream
  import opened Messages
  import opened Chains
  import opened Network
  import Mib
  import Sss
  import D = Delivery
  import T = Theorems

  // A step of a tagger, a publisher or the store.
  predicate Quiet(a: Action) {
    a.Deliver? || (a.ChainCall? && !a.call.TrackerCall?)
  }

  predicate AllQuiet(acts: seq<Action>) {
    forall i :: 0 <= i < |acts| ==> Quiet(acts[i])
  }

  // Work a chain still causes: a half frame to tag, to read, a message to deliver, and
  // for a publisher that will exit the announcement it may still send.
  function ChainBacklog(setup: Setup, c: Chain, tracks: nat, drops: nat): int {
    3 * (|c.emitted| - |c.tagged|) + 2 * (|c.tagged| - c.read) + |c.log| - tracks - drops
    + if setup.exitOnSuccess && !c.mib.exited then 2 else 0
  }

  function Backlog(cfg: Config, s: Net): int
    requires Shape(s)
  {
    ChainBacklog(cfg.setup, s.chains[0], s.post.tracks[0], s.post.drops[0])
    + ChainBacklog(cfg.setup, s.chains[1], s.post.tracks[1], s.post.drops[1])
    + ChainBacklog(cfg.setup, s.chains[2], s.post.tracks[2], s.post.drops[2])
  }

  // What a chain's backlog depends on.
  ghost predicate Bounded(c: Chain, tracks: nat, drops: nat) {
    && c.read <= |c.tagged| <= |c.emitted|
    && tracks <= |Mib.Cells(c.log)| && drops <= |Mib.Withdrawn(c.log)|
    && (c.mib.exited ==> c.read < |c.tagged|)
  }

  ghost predicate AllBounded(s: Net) {
    && Shape(s)
    && forall k :: 0 <= k < CHAINS ==> Bounded(s.chains[k], s.post.tracks[k], s.post.drops[k])
  }

  lemma RunIsBounded(cfg: Config, acts: seq<Action>)
    ensures AllBounded(Exec(cfg, acts))
  {
    var s := Exec(cfg, acts);
    Reachable(cfg, acts);
    forall k | 0 <= k < CHAINS ensures Bounded(s.chains[k], s.post.tracks[k], s.post.drops[k]) {
      assert ChainInv(cfg.setup, k, s.chains[k]);
      assert Announced(s)[k] == Mib.Cells(s.chains[k].log);
    }
  }

  lemma BacklogBounded(cfg: Config, s: Net)
    requires AllBounded(s)
    ensures Backlog(cfg, s) >= 0
  {
    forall k | 0 <= k < CHAINS ensures ChainBacklog(cfg.setup, s.chains[k], s.post.tracks[k], s.post.drops[k]) >= 0 {
      Mib.LogLength(s.chains[k].log);
    }
  }

  // Everything tagged, read and delivered, except what a publisher that exited left unread.
  ghost predicate ChainAtRest(c: Chain, tracks: nat, drops: nat) {
    && |c.tagged| == |c.emitted| && (c.read == |c.tagged| || c.mib.exited)
    && tracks == |Mib.Cells(c.log)| && drops == |Mib.Withdrawn(c.log)|
  }

  ghost predicate AtRest(s: Net) {
    Shape(s) && forall k :: 0 <= k < CHAINS ==> ChainAtRest(s.chains[k], s.post.tracks[k], s.post.drops[k])
  }

  // Everything tagged, read and delivered.
  ghost predicate Settled(s: Net) {
    T.AllDelivered(s) && forall k :: 0 <= k < CHAINS ==> T.FramesDrained(s.chains[k])
  }

  predicate NoneExited(s: Net)
    requires Shape(s)
  {
    !s.chains[0].mib.exited && !s.chains[1].mib.exited && !s.chains[2].mib.exited
  }

  lemma SettledMeans(s: Net)
    requires AllBounded(s)
    ensures Settled(s) <==> AtRest(s) && NoneExited(s)
  {
    if Settled(s) {
      forall k | 0 <= k < CHAINS ensures !s.chains[k].mib.exited {
        assert Bounded(s.chains[k], s.post.tracks[k], s.post.drops[k]) && T.FramesDrained(s.chains[k]);
      }
    }
  }

  // ---- Every schedule comes to rest

  lemma TurnShrinks(setup: Setup, k: nat, c: Chain, a: BlockCall, t: nat, d: nat)
    requires !a.TrackerCall?
    ensures Turn(setup, k, c, a) == c || ChainBacklog(setup, Turn(setup, k, c, a), t, d) < ChainBacklog(setup, c, t, d)
    ensures Turn(setup, k, c, a).pss == c.pss
  {
  }

  // Every quiet step that does anything leaves less to do and no tracker touched.
  lemma QuietStepShrinks(cfg: Config, s: Net, a: Action)
    requires Shape(s) && Quiet(a)
    ensures Apply(cfg, s, a) == s || Backlog(cfg, Apply(cfg, s, a)) < Backlog(cfg, s)
    ensures forall k :: 0 <= k < CHAINS ==> Apply(cfg, s, a).chains[k].pss == s.chains[k].pss
  {
    if a.ChainCall? && a.k < CHAINS {
      TurnShrinks(cfg.setup, a.k, s.chains[a.k], a.call, s.post.tracks[a.k], s.post.drops[a.k]);
      if Turn(cfg.setup, a.k, s.chains[a.k], a.call) == s.chains[a.k] {
        assert s.chains[a.k := s.chains[a.k]] == s.chains;
      }
    }
  }

  // Work left on a chain can be taken up, without making a publisher exit.
  lemma ChainCanMove(cfg: Config, s: Net, k: nat) returns (a: Action)
    requires Shape(s) && k < CHAINS && cfg.setup.batch >= 1
    requires Bounded(s.chains[k], s.post.tracks[k], s.post.drops[k])
    requires !ChainAtRest(s.chains[k], s.post.tracks[k], s.post.drops[k])
    ensures Quiet(a) && Apply(cfg, s, a) != s
    ensures NoneExited(s) ==> NoneExited(Apply(cfg, s, a))
  {
    var c, t, d := s.chains[k], s.post.tracks[k], s.post.drops[k];
    if |c.tagged| < |c.emitted| {
      a := ChainCall(k, TaggerCall(Sss.Detection(None, Normal), Data([], 0.0)));
      assert |Apply(cfg, s, a).chains[k].tagged| == |c.tagged| + 1;
    } else if c.read < |c.tagged| && !c.mib.exited {
      a := ChainCall(k, PublisherCall(1, Mib.Decoding(false, false, MibInfo(0, 0, 0, 0))));
      assert Apply(cfg, s, a).chains[k].read == c.read + 1;
    } else {
      Mib.LogLength(c.log);
      a := Deliver(k, if cfg.ordered then c.log[t + d].Track? else t < |Mib.Cells(c.log)|);
      assert Pending(cfg, s, k, a.track).Some?;
      assert |Apply(cfg, s, a).post.delivered| == |s.post.delivered| + 1;
    }
  }

  // A chain at rest gives no quiet step anything to do.
  lemma RestingChain(cfg: Config, s: Net, k: nat, call: BlockCall, track: bool)
    requires Shape(s) && k < CHAINS && !call.TrackerCall?
    requires ChainAtRest(s.chains[k], s.post.tracks[k], s.post.drops[k])
    ensures Turn(cfg.setup, k, s.chains[k], call) == s.chains[k]
    ensures Pending(cfg, s, k, track) == None
  {
    Mib.LogLength(s.chains[k].log);
  }

  lemma RestIsQuiet(cfg: Config, s: Net, a: Action)
    requires AtRest(s) && Quiet(a)
    ensures Apply(cfg, s, a) == s
  {
    if a.ChainCall? && a.k < CHAINS {
      RestingChain(cfg, s, a.k, a.call, true);
      assert s.chains[a.k := s.chains[a.k]] == s.chains;
    } else if a.Deliver? && a.k < CHAINS {
      RestingChain(cfg, s, a.k, TaggerCall(Sss.Detection(None, Normal), Data([], 0.0)), a.track);
    }
  }

  // Every action of the continuation changes the state.
  ghost predicate Busy(cfg: Config, acts: seq<Action>, more: seq<Action>) {
    more == []
    || var front := more[..|more| - 1];
       Busy(cfg, acts, front) && Exec(cfg, acts + more) != Exec(cfg, acts + front)
  }

  lemma {:induction false} BusyShrinks(cfg: Config, acts: seq<Action>, more: seq<Action>)
    requires AllQuiet(more) && Busy(cfg, acts, more)
    ensures |more| + Backlog(cfg, Exec(cfg, acts + more)) <= Backlog(cfg, Exec(cfg, acts))
  {
    if more == [] {
      assert acts + more == acts;
    } else {
      var front, a := more[..|more| - 1], more[|more| - 1];
      BusyShrinks(cfg, acts, front);
      assert acts + more == (acts + front) + [a];
      ExecExtend(cfg, acts + front, a);
      QuietStepShrinks(cfg, Exec(cfg, acts + front), a);
    }
  }

  // From every state of every run, for every continuation of quiet steps that each change
  // something: it is no longer than the backlog, and it cannot be continued exactly when
  // it has brought the trigger to rest.
  lemma EveryScheduleRests(cfg: Config, acts: seq<Action>, more: seq<Action>)
    requires cfg.setup.batch >= 1
    requires AllQuiet(more) && Busy(cfg, acts, more)
    ensures |more| <= Backlog(cfg, Exec(cfg, acts))
    ensures var s := Exec(cfg, acts + more);
            (forall a :: Quiet(a) ==> Apply(cfg, s, a) == s) <==> AtRest(s)
  {
    var s := Exec(cfg, acts + more);
    BusyShrinks(cfg, acts, more);
    RunIsBounded(cfg, acts + more);
    BacklogBounded(cfg, s);
    if AtRest(s) {
      forall a | Quiet(a) ensures Apply(cfg, s, a) == s {
        RestIsQuiet(cfg, s, a);
      }
    } else {
      var k :| 0 <= k < CHAINS && !ChainAtRest(s.chains[k], s.post.tracks[k], s.post.drops[k]);
      var a := ChainCanMove(cfg, s, k);
    }
  }

  // ---- Which states can settle

  lemma {:induction false} ComesToRest(cfg: Config, acts: seq<Action>, n: nat) returns (more: seq<Action>)
    requires cfg.setup.batch >= 1
    requires Backlog(cfg, Exec(cfg, acts)) <= n
    ensures AllQuiet(more) && AtRest(Exec(cfg, acts + more))
    ensures NoneExited(Exec(cfg, acts)) ==> NoneExited(Exec(cfg, acts + more))
    decreases n
  {
    var s := Exec(cfg, acts);
    RunIsBounded(cfg, acts);
    if AtRest(s) {
      more := [];
      assert acts + more == acts;
    } else {
      var a := OneStep(cfg, acts);
      var rest := ComesToRest(cfg, acts + [a], n - 1);
      more := [a] + rest;
      QuietFirst(acts, a, rest);
    }
  }

  lemma QuietFirst(acts: seq<Action>, a: Action, rest: seq<Action>)
    requires Quiet(a) && AllQuiet(rest)
    ensures AllQuiet([a] + rest) && acts + ([a] + rest) == (acts + [a]) + rest
  {
  }

  lemma OneStep(cfg: Config, acts: seq<Action>) returns (a: Action)
    requires cfg.setup.batch >= 1 && !AtRest(Exec(cfg, acts))
    ensures Quiet(a) && 0 <= Backlog(cfg, Exec(cfg, acts + [a])) < Backlog(cfg, Exec(cfg, acts))
    ensures NoneExited(Exec(cfg, acts)) ==> NoneExited(Exec(cfg, acts + [a]))
  {
    var s := Exec(cfg, acts);
    RunIsBounded(cfg, acts);
    var k :| 0 <= k < CHAINS && !ChainAtRest(s.chains[k], s.post.tracks[k], s.post.drops[k]);
    a := ChainCanMove(cfg, s, k);
    QuietStepShrinks(cfg, s, a);
    ExecExtend(cfg, acts, a);
    RunIsBounded(cfg, acts + [a]);
    BacklogBounded(cfg, Exec(cfg, acts + [a]));
  }

  lemma ApplyKeepsExit(cfg: Config, s: Net, a: Action, k: nat)
    requires Shape(s) && k < CHAINS && s.chains[k].mib.exited
    ensures Apply(cfg, s, a).chains[k].mib.exited
  {
  }

  lemma {:induction false} ExitedForEver(cfg: Config, acts: seq<Action>, more: seq<Action>, k: nat)
    requires k < CHAINS && Exec(cfg, acts).chains[k].mib.exited
    ensures Exec(cfg, acts + more).chains[k].mib.exited
  {
    if more == [] {
      assert acts + more == acts;
    } else {
      var front, a := more[..|more| - 1], more[|more| - 1];
      ExitedForEver(cfg, acts, front, k);
      assert acts + more == (acts + front) + [a];
      ExecExtend(cfg, acts + front, a);
      ApplyKeepsExit(cfg, Exec(cfg, acts + front), a, k);
    }
  }

  // From a state of a run some continuation without tracker calls reads every half frame
  // and delivers every message, if and only if no publisher has exited. A publisher that
  // exits never consumes the half frame it announced a cell from.
  lemma SettlesUnlessExited(cfg: Config, acts: seq<Action>)
    requires cfg.setup.batch >= 1
    ensures (exists more :: AllQuiet(more) && Settled(Exec(cfg, acts + more))) <==> NoneExited(Exec(cfg, acts))
  {
    var s := Exec(cfg, acts);
    if NoneExited(s) {
      var b := Backlog(cfg, s);
      var more := ComesToRest(cfg, acts, if b > 0 then b else 0);
      RunIsBounded(cfg, acts + more);
      SettledMeans(Exec(cfg, acts + more));
    }
    if more :| AllQuiet(more) && Settled(Exec(cfg, acts + more)) {
      RunIsBounded(cfg, acts + more);
      SettledMeans(Exec(cfg, acts + more));
      if k :| 0 <= k < CHAINS && s.chains[k].mib.exited {
        ExitedForEver(cfg, acts, more, k);
      }
    }
  }

  // ---- What the store holds at rest

  // A published cell of a chain at rest whose tracker has no lock: nothing will withdraw it.
  lemma RestingWithoutLock(cfg: Config, acts: seq<Action>, k: nat)
    requires k < CHAINS && AtRest(Exec(cfg, acts)) && !Exec(cfg, acts).chains[k].pss.tracking
    ensures var c := Exec(cfg, acts).chains[k];
            c.mib.published <==> c.mib.exited || Overlooked(c)
  {
    var c := Exec(cfg, acts).chains[k];
    T.LossIsInFlight(cfg, acts, k);
    ReachableChain(cfg, acts, k);
    assert ExitInv(cfg.setup, c);
    assert ChainAtRest(c, Exec(cfg, acts).post.tracks[k], Exec(cfg, acts).post.drops[k]);
  }

  // The stored cells of a chain at rest.
  lemma RestingStore(cfg: Config, acts: seq<Action>, k: nat)
    requires k < CHAINS && AtRest(Exec(cfg, acts))
    ensures var s := Exec(cfg, acts);
            (exists c :: c in s.post.store && c.handle.chain == k) <==>
            s.chains[k].mib.published || exists c :: D.Overtaken(s.post.delivered, c) && c.handle.chain == k
  {
    var s := Exec(cfg, acts);
    Reachable(cfg, acts);
    ChainsSent(cfg, s);
    assert T.AllDelivered(s) by {
      forall l | 0 <= l < CHAINS ensures ChainAtRest(s.chains[l], s.post.tracks[l], s.post.drops[l]) {}
    }
    forall c ensures c in s.post.store <==> T.Published(s, c) || D.Overtaken(s.post.delivered, c) {
      T.StoreIsExact(cfg, acts, c);
    }
    forall l | 0 <= l < CHAINS && s.chains[l].mib.published
      ensures s.chains[l].mib.current.Some? && s.chains[l].mib.current.value.handle.chain == l
      ensures T.Published(s, s.chains[l].mib.current.value)
    {
      T.CurrentTellsChain(cfg, s, l);
    }
  }

  // A run that lost lock on a chain and made no tracker call since: however the rest was
  // scheduled, when it comes to rest the store has a cell of that chain if and only if its
  // publisher exited or overlooked a loss, or a withdrawal overtook its announcement.
  lemma LostCellLeavesStore(cfg: Config, acts: seq<Action>, more: seq<Action>, k: nat)
    requires k < CHAINS && AllQuiet(more) && AtRest(Exec(cfg, acts + more))
    requires !Exec(cfg, acts).chains[k].pss.tracking
    ensures var s := Exec(cfg, acts + more);
            (exists c :: c in s.post.store && c.handle.chain == k) <==>
            || s.chains[k].mib.exited || Overlooked(s.chains[k])
            || exists c :: D.Overtaken(s.post.delivered, c) && c.handle.chain == k
    ensures cfg.ordered && cfg.setup.batch <= 1 && !cfg.setup.exitOnSuccess ==>
              forall c :: c in Exec(cfg, acts + more).post.store ==> c.handle.chain != k
  {
    TrackersRest(cfg, acts, more, k);
    RestingWithoutLock(cfg, acts + more, k);
    RestingStore(cfg, acts + more, k);
    if cfg.ordered && cfg.setup.batch <= 1 && !cfg.setup.exitOnSuccess {
      NothingKeepsIt(cfg, acts + more, k);
    }
  }

  lemma NothingKeepsIt(cfg: Config, acts: seq<Action>, k: nat)
    requires k < CHAINS && cfg.ordered && cfg.setup.batch <= 1 && !cfg.setup.exitOnSuccess
    ensures var s := Exec(cfg, acts);
            !s.chains[k].mib.exited && !Overlooked(s.chains[k]) && forall c :: !D.Overtaken(s.post.delivered, c)
  {
    var s := Exec(cfg, acts);
    Reachable(cfg, acts);
    T.OneHalfFrameOverlooksNothing(cfg, acts, k);
    assert ExitInv(cfg.setup, s.chains[k]) by {
      ReachableChain(cfg, acts, k);
    }
    forall c ensures !D.Overtaken(s.post.delivered, c) {
      D.OrderedNeverOvertaken(Announced(s), s.post, c);
    }
  }

  lemma {:induction false} TrackersRest(cfg: Config, acts: seq<Action>, more: seq<Action>, k: nat)
    requires k < CHAINS && AllQuiet(more)
    ensures Exec(cfg, acts + more).chains[k].pss == Exec(cfg, acts).chains[k].pss
  {
    if more == [] {
      assert acts + more == acts;
    } else {
      var front, a := more[..|more| - 1], more[|more| - 1];
      assert acts + more == (acts + front) + [a];
      TrackersRest(cfg, acts, front, k);
      ExecExtend(cfg, acts + front, a);
      QuietCallKeepsTracker(cfg, Exec(cfg, acts + front), a, k);
    }
  }

  lemma QuietCallKeepsTracker(cfg: Config, s: Net, a: Action, k: nat)
    requires Shape(s) && Quiet(a) && k < CHAINS
    ensures Apply(cfg, s, a).chains[k].pss == s.chains[k].pss
  {
  }
}
