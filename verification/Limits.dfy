// Where the guarantees end: runs that break them when the publisher is offered several
// half frames at once, when the store serves its two ports independently, when a
// publisher exits on success, or when lock moves to another cell.

module Limits {
  import opened Radio
  import opened TagStream
  import opened Messages
  import opened Chains
  import opened Network
  import PssTracker
  import Mib
  import Sss
  import CellStore
  import D = Delivery
  import T = Theorems

  // Lock at the first over-threshold search, and search in every call.
  const EAGER := PssTracker.Params(1, 0)

  const LOCK := TrackerCall(960, 5.0, 0.0)
  const LOSS := TrackerCall(960, 1.0, 0.0)
  const TAG := TaggerCall(Sss.Detection(Some(0), Normal), Data([], 0.0))
  const OTHER_TAG := TaggerCall(Sss.Detection(Some(1), Normal), Data([], 0.0))
  const DECODED := Mib.Decoding(false, true, MibInfo(1, 6, 0, 0))

  // One more call on the first chain.
  lemma CallExtend(cfg: Config, acts: seq<Action>, call: BlockCall)
    ensures var s, s' := Exec(cfg, acts), Exec(cfg, acts + [ChainCall(0, call)]);
            && s'.chains[0] == Turn(cfg.setup, 0, s.chains[0], call)
            && s'.chains[1] == s.chains[1] && s'.chains[2] == s.chains[2] && s'.post == s.post
  {
    ExecExtend(cfg, acts, ChainCall(0, call));
  }

  // ---- Lock, loss, and both half frames tagged

  // The first chain has read everything, has no lock and publishes nothing.
  ghost predicate Idle(c: Chain) {
    && c.threshold == 4.0 && !c.pss.tracking && c.pss.score == 0
    && T.FramesDrained(c)
    && !c.mib.published && !c.mib.exited && c.mib.cellId == 0 && c.mib.cp == Normal
  }

  // It wrote two half frames more, one with lock and one without.
  ghost predicate TwoMore(c: Chain, frames: nat) {
    && c.threshold == 4.0 && !c.pss.tracking && c.pss.score == 0
    && |c.emitted| == frames + 2
    && c.emitted[frames].head == Head(false, [], []) && c.emitted[frames + 1].head == Head(true, [], [])
  }

  lemma LockAndLoss(setup: Setup, c: Chain)
    requires setup.cfg == EAGER && Idle(c)
    ensures var c' := Turn(setup, 0, Turn(setup, 0, c, LOCK), LOSS);
            && TwoMore(c', |c.emitted|)
            && c'.tagged == c.tagged && c'.read == c.read && c'.mib == c.mib && c'.log == c.log
  {
    var c1 := Turn(setup, 0, c, LOCK);
    assert c1.pss.tracking && c1.pss.score == 1 && c1.pss.timer == 0;
    assert |c1.emitted| == |c.emitted| + 1 && c1.emitted[|c.emitted|].head == Head(false, [], []);
  }

  // Both were tagged, none was read.
  ghost predicate Offered(c: Chain) {
    && c.threshold == 4.0 && !c.pss.tracking && c.pss.score == 0
    && c.read + 2 == |c.tagged| == |c.emitted|
    && c.tagged[c.read].head == Head(false, [0], [Normal]) && c.tagged[c.read + 1].head.lost
    && !c.mib.published && !c.mib.exited && c.mib.cellId == 0 && c.mib.cp == Normal
  }

  lemma BothTagged(setup: Setup, c: Chain)
    requires TwoMore(c, c.read) && |c.tagged| == c.read
    requires !c.mib.published && !c.mib.exited && c.mib.cellId == 0 && c.mib.cp == Normal
    ensures var c' := Turn(setup, 0, Turn(setup, 0, c, TAG), TAG);
            Offered(c') && c'.mib == c.mib && c'.log == c.log
  {
  }

  lemma TaggedRun(cfg: Config, acts: seq<Action>) returns (more: seq<Action>)
    requires cfg.setup.cfg == EAGER && Idle(Exec(cfg, acts).chains[0])
    ensures var s, s' := Exec(cfg, acts), Exec(cfg, more);
            && s'.chains[1] == s.chains[1] && s'.chains[2] == s.chains[2] && s'.post == s.post
            && Offered(s'.chains[0]) && s'.chains[0].mib == s.chains[0].mib && s'.chains[0].log == s.chains[0].log
  {
    var a1 := acts + [ChainCall(0, LOCK)];
    var a2 := a1 + [ChainCall(0, LOSS)];
    var a3 := a2 + [ChainCall(0, TAG)];
    more := a3 + [ChainCall(0, TAG)];
    CallExtend(cfg, acts, LOCK);
    CallExtend(cfg, a1, LOSS);
    LockAndLoss(cfg.setup, Exec(cfg, acts).chains[0]);
    CallExtend(cfg, a2, TAG);
    CallExtend(cfg, a3, TAG);
    BothTagged(cfg.setup, Exec(cfg, a2).chains[0]);
  }

  // ---- Several half frames per publisher call

  // Two half frames in one call are enough to overlook a loss: every half frame was
  // read, a cell is published and its tracker has no lock.
  lemma TwoHalfFramesHideALoss(input: Stream)
    ensures var cfg := Config(Setup(EAGER, input, false, 2), true, 4.0);
            exists acts :: var c := Exec(cfg, acts).chains[0];
              T.FramesDrained(c) && c.mib.published && !c.pss.tracking
  {
    var cfg := Config(Setup(EAGER, input, false, 2), true, 4.0);
    var a4 := TaggedRun(cfg, []);
    var a5 := a4 + [ChainCall(0, PublisherCall(2, DECODED))];
    CallExtend(cfg, a4, PublisherCall(2, DECODED));
    var c := Exec(cfg, a5).chains[0];
    assert T.FramesDrained(c) && c.mib.published && !c.pss.tracking;
  }

  // ---- Independent ports

  // n cells of the first chain came and went, and all of them are still stored.
  ghost predicate Stranded(s: Net, n: nat) {
    && Shape(s) && s.chains[1] == Start(4.0) && s.chains[2] == Start(4.0)
    && Idle(s.chains[0])
    && s.post.tracks == [n, 0, 0] == s.post.drops && |s.post.store| == n
    && |Mib.Cells(s.chains[0].log)| == n == |Mib.Withdrawn(s.chains[0].log)|
  }

  lemma BothRead(setup: Setup, c: Chain)
    requires setup.batch >= 1 && !setup.exitOnSuccess && Offered(c)
    ensures var c' := Turn(setup, 0, Turn(setup, 0, c, PublisherCall(1, DECODED)), PublisherCall(1, DECODED));
            var cell := Cell(Handle(0, c.mib.serial), Dict(Some(0), Normal, DECODED.info));
            Idle(c') && c'.log == c.log + [Track(cell)] + [Drop(cell)]
  {
    var c1 := Turn(setup, 0, c, PublisherCall(1, DECODED));
    assert c1.mib.published && c1.mib.current.Some? && c1.read == c.read + 1;
  }

  lemma OneCellMore(log: seq<Msg>, cell: Cell)
    ensures var log' := log + [Track(cell)] + [Drop(cell)];
            Mib.Cells(log') == Mib.Cells(log) + [cell] && Mib.Withdrawn(log') == Mib.Withdrawn(log) + [cell]
  {
    Mib.CellsExtend(log, Track(cell));
    Mib.CellsExtend(log + [Track(cell)], Drop(cell));
    Mib.WithdrawnExtend(log, Track(cell));
    Mib.WithdrawnExtend(log + [Track(cell)], Drop(cell));
  }

  // Handling the withdrawal first leaves one cell more in the store.
  lemma WithdrawnFirst(cfg: Config, s: Net, n: nat, cell: Cell)
    requires Shape(s) && !cfg.ordered && CellStore.Acceptable(cell)
    requires s.post.tracks == [n, 0, 0] == s.post.drops
    requires var log := s.chains[0].log;
             && |Mib.Cells(log)| == n + 1 == |Mib.Withdrawn(log)|
             && Mib.Cells(log)[n] == cell == Mib.Withdrawn(log)[n]
    requires forall i :: 0 <= i < |s.post.store| ==> s.post.store[i].handle != cell.handle
    ensures var s' := Apply(cfg, Apply(cfg, s, Deliver(0, false)), Deliver(0, true));
            && s'.chains == s.chains && s'.post.store == s.post.store + [cell]
            && s'.post.tracks == [n + 1, 0, 0] == s'.post.drops
  {
    assert Pending(cfg, s, 0, false) == Some(Drop(cell));
    CellStore.RemoveAbsent(s.post.store, cell);
    var s1 := Apply(cfg, s, Deliver(0, false));
    assert s1.chains == s.chains && s1.post.store == s.post.store;
    assert Pending(cfg, s1, 0, true) == Some(Track(cell));
  }

  // A cell that was not delivered yet is under no handle of the store.
  lemma NotYetStored(cfg: Config, acts: seq<Action>, n: nat, i: nat)
    requires Exec(cfg, acts).post.tracks == [n, 0, 0] && i < |Exec(cfg, acts).post.store|
    ensures Exec(cfg, acts).post.store[i].handle != Handle(0, n)
  {
    var s := Exec(cfg, acts);
    Reachable(cfg, acts);
    ChainsSent(cfg, s);
    var c := s.post.store[i];
    D.StoredWasAnnounced(Announced(s), s.post, c);
    D.StoreContents(Announced(s), s.post, c.handle.chain, c.handle.serial);
  }

  lemma StrandOneMore(cfg: Config, acts: seq<Action>, n: nat) returns (more: seq<Action>)
    requires cfg.setup.cfg == EAGER && cfg.setup.batch >= 1 && !cfg.setup.exitOnSuccess && !cfg.ordered
    requires Stranded(Exec(cfg, acts), n)
    ensures Stranded(Exec(cfg, more), n + 1)
  {
    var a4 := TaggedRun(cfg, acts);
    var a5 := a4 + [ChainCall(0, PublisherCall(1, DECODED))];
    var a6 := a5 + [ChainCall(0, PublisherCall(1, DECODED))];
    CallExtend(cfg, a4, PublisherCall(1, DECODED));
    CallExtend(cfg, a5, PublisherCall(1, DECODED));
    var c := Exec(cfg, a4).chains[0];
    BothRead(cfg.setup, c);
    var cell := Cell(Handle(0, c.mib.serial), Dict(Some(0), Normal, DECODED.info));
    OneCellMore(c.log, cell);
    SerialCounts(cfg, a4);
    forall i | 0 <= i < |Exec(cfg, a6).post.store| ensures Exec(cfg, a6).post.store[i].handle != cell.handle {
      NotYetStored(cfg, a6, n, i);
    }
    WithdrawnFirst(cfg, Exec(cfg, a6), n, cell);
    var a7 := a6 + [Deliver(0, false)];
    ExecExtend(cfg, a6, Deliver(0, false));
    ExecExtend(cfg, a7, Deliver(0, true));
    more := a7 + [Deliver(0, true)];
  }

  lemma SerialCounts(cfg: Config, acts: seq<Action>)
    ensures Exec(cfg, acts).chains[0].mib.serial == |Mib.Cells(Exec(cfg, acts).chains[0].log)|
  {
    ReachableChain(cfg, acts, 0);
  }

  lemma {:induction false} StrandedRun(cfg: Config, n: nat) returns (acts: seq<Action>)
    requires cfg.setup.cfg == EAGER && cfg.setup.batch >= 1 && !cfg.setup.exitOnSuccess
    requires !cfg.ordered && cfg.psrThreshold == 4.0
    ensures Stranded(Exec(cfg, acts), n)
  {
    if n == 0 {
      acts := [];
    } else {
      var front := StrandedRun(cfg, n - 1);
      acts := StrandOneMore(cfg, front, n - 1);
    }
  }

  // With independent ports the store has no limit: for every n some run comes to rest with
  // n cells stored, although no cell is published and no tracker has lock.
  lemma IndependentPortsStrandCells(input: Stream, n: nat)
    ensures var cfg := Config(Setup(EAGER, input, false, 1), false, 4.0);
            exists acts :: var s := Exec(cfg, acts);
              && |s.post.store| == n && T.AllDelivered(s)
              && forall k :: 0 <= k < CHAINS ==>
                   T.FramesDrained(s.chains[k]) && !s.chains[k].mib.published && !s.chains[k].pss.tracking
  {
    var cfg := Config(Setup(EAGER, input, false, 1), false, 4.0);
    var acts := StrandedRun(cfg, n);
    var s := Exec(cfg, acts);
    assert |s.post.store| == n && T.AllDelivered(s);
  }

  // And an overtaken cell stays there whatever happens next.
  lemma StrandedForEver(cfg: Config, acts: seq<Action>, n: nat, c: Cell)
    requires n <= |acts| && D.Overtaken(Exec(cfg, acts[..n]).post.delivered, c)
    ensures c in Exec(cfg, acts).post.store
  {
    DeliveredGrows(cfg, acts, n);
    var early, late := Exec(cfg, acts[..n]).post.delivered, Exec(cfg, acts).post.delivered;
    var i, j :| 0 <= i < j < |early| && early[i] == Drop(c) && early[j] == Track(c);
    assert late[i] == Drop(c) && late[j] == Track(c);
    Reachable(cfg, acts);
    ChainsSent(cfg, Exec(cfg, acts));
    T.OvertakenIsStored(Announced(Exec(cfg, acts)), Exec(cfg, acts).post, c);
  }

  lemma {:induction false} DeliveredGrows(cfg: Config, acts: seq<Action>, n: nat)
    requires n <= |acts|
    ensures Exec(cfg, acts[..n]).post.delivered <= Exec(cfg, acts).post.delivered
  {
    if n == |acts| {
      assert acts[..n] == acts;
    } else {
      var front, a := acts[..|acts| - 1], acts[|acts| - 1];
      assert front[..n] == acts[..n];
      DeliveredGrows(cfg, front, n);
      assert acts == front + [a];
      ExecExtend(cfg, front, a);
    }
  }

  // ---- Exit on success

  lemma ExitingSendsNoWithdrawal(cfg: Config, acts: seq<Action>, k: nat)
    requires cfg.setup.exitOnSuccess && k < CHAINS
    ensures Pending(cfg, Exec(cfg, acts), k, false).None?
  {
    var s := Exec(cfg, acts);
    Reachable(cfg, acts);
    ChainsSent(cfg, s);
    T.ExitsAfterFirst(cfg, acts, k);
    assert Sent(k, s.chains[k].log, s.chains[k].mib.published);
    if Pending(cfg, s, k, false).Some? {
      PendingIs(cfg, s, k, false);
    }
  }

  // With exit_on_success no stored cell ever leaves the store, in any order of delivery.
  lemma {:induction false} ExitingStoreOnlyGrows(cfg: Config, acts: seq<Action>, n: nat)
    requires cfg.setup.exitOnSuccess && n <= |acts|
    ensures Exec(cfg, acts[..n]).post.store <= Exec(cfg, acts).post.store
  {
    if n == |acts| {
      assert acts[..n] == acts;
    } else {
      var front, a := acts[..|acts| - 1], acts[|acts| - 1];
      assert front[..n] == acts[..n];
      ExitingStoreOnlyGrows(cfg, front, n);
      assert acts == front + [a];
      ExecExtend(cfg, front, a);
      if a.Deliver? && !a.track && a.k < CHAINS {
        ExitingSendsNoWithdrawal(cfg, front, a.k);
      }
    }
  }

  // So a cell outlives the lock it was announced for: a run after which the store holds
  // the cell of a publisher that exited, its tracker has lost lock, and the cell is stored
  // after every continuation.
  lemma ExitKeepsALostCell(input: Stream)
    ensures var cfg := Config(Setup(EAGER, input, true, 1), true, 4.0);
            exists acts, c :: var s := Exec(cfg, acts);
              && c in s.post.store && c.handle.chain == 0
              && s.chains[0].mib.exited && !s.chains[0].pss.tracking
              && forall more :: c in Exec(cfg, acts + more).post.store
  {
    var cfg := Config(Setup(EAGER, input, true, 1), true, 4.0);
    var a4 := TaggedRun(cfg, []);
    var a5 := a4 + [ChainCall(0, PublisherCall(1, DECODED))];
    CallExtend(cfg, a4, PublisherCall(1, DECODED));
    var cell := Cell(Handle(0, 0), Dict(Some(0), Normal, DECODED.info));
    var s5 := Exec(cfg, a5);
    assert s5.chains[0].log == [] + [Track(cell)];
    var acts := a5 + [Deliver(0, true)];
    ExecExtend(cfg, a5, Deliver(0, true));
    assert Pending(cfg, s5, 0, true) == Some(Track(cell));
    assert Exec(cfg, acts).post.store == [cell];
    forall more ensures cell in Exec(cfg, acts + more).post.store {
      ExitingStoreOnlyGrows(cfg, acts + more, |acts|);
      assert (acts + more)[..|acts|] == acts;
      assert Exec(cfg, acts + more).post.store[0] == cell;
    }
  }

  // ---- Lock moves to another cell

  // With lock, one half frame of group 0 read and its cell announced.
  ghost predicate Following(c: Chain) {
    && c.threshold == 4.0 && c.pss.tracking && c.pss.score == 1 && c.pss.timer == 0
    && |c.emitted| == |c.tagged| == |c.taggings| == c.read == 1
    && c.mib.published && c.mib.current.Some? && c.mib.current.value.dict.cellId == Some(0) && !c.mib.exited
  }

  lemma FirstFollowed(setup: Setup)
    requires setup.cfg == EAGER && setup.batch == 1 && !setup.exitOnSuccess
    ensures Following(Turn(setup, 0, Turn(setup, 0, Turn(setup, 0, Start(4.0), LOCK), TAG), PublisherCall(1, DECODED)))
  {
    var c := Turn(setup, 0, Start(4.0), LOCK);
    assert c.pss.tracking && c.pss.score == 1 && c.pss.timer == 0;
    assert |c.emitted| == 1 && c.emitted[0].head == Head(false, [], []);
  }

  lemma OtherFollows(setup: Setup, c: Chain)
    requires setup.cfg == EAGER && setup.batch == 1 && Following(c)
    ensures var c' := Turn(setup, 0, Turn(setup, 0, Turn(setup, 0, c, LOCK), OTHER_TAG), PublisherCall(1, DECODED));
            && T.FramesDrained(c') && |c'.tagged| == 2 && c'.tagged[1].head.cellIds == [3]
            && c'.pss.tracking && c'.mib == c.mib
  {
    var c1 := Turn(setup, 0, c, LOCK);
    assert c1.pss.tracking && |c1.emitted| == 2 && !c1.emitted[1].head.lost;
  }

  lemma FollowingRun(cfg: Config) returns (acts: seq<Action>)
    requires cfg.setup.cfg == EAGER && cfg.setup.batch == 1 && !cfg.setup.exitOnSuccess && cfg.psrThreshold == 4.0
    ensures Following(Exec(cfg, acts).chains[0])
  {
    var a1 := [] + [ChainCall(0, LOCK)];
    var a2 := a1 + [ChainCall(0, TAG)];
    acts := a2 + [ChainCall(0, PublisherCall(1, DECODED))];
    CallExtend(cfg, [], LOCK);
    CallExtend(cfg, a1, TAG);
    CallExtend(cfg, a2, PublisherCall(1, DECODED));
    FirstFollowed(cfg.setup);
  }

  // The open cell is 0, and the newest half frame was read and carries 3.
  ghost predicate Moved(c: Chain) {
    && T.FramesDrained(c) && c.pss.tracking
    && c.mib.published && c.mib.current.Some? && c.mib.current.value.dict.cellId == Some(0)
    && c.tagged != [] && c.tagged[|c.tagged| - 1].head.cellIds == [3]
  }

  lemma MovedRun(cfg: Config) returns (acts: seq<Action>)
    requires cfg.setup.cfg == EAGER && cfg.setup.batch == 1 && !cfg.setup.exitOnSuccess && cfg.psrThreshold == 4.0
    ensures Moved(Exec(cfg, acts).chains[0])
  {
    var a3 := FollowingRun(cfg);
    var a4 := a3 + [ChainCall(0, LOCK)];
    var a5 := a4 + [ChainCall(0, OTHER_TAG)];
    acts := a5 + [ChainCall(0, PublisherCall(1, DECODED))];
    CallExtend(cfg, a3, LOCK);
    CallExtend(cfg, a4, OTHER_TAG);
    CallExtend(cfg, a5, PublisherCall(1, DECODED));
    OtherFollows(cfg.setup, Exec(cfg, a3).chains[0]);
  }

  // One half frame per publisher call, lock never lost and everything read: a published
  // cell with id 0, although the newest half frame was tagged with id 3.
  lemma LockMovesUnnoticed(input: Stream)
    ensures var cfg := Config(Setup(EAGER, input, false, 1), true, 4.0);
            exists acts :: Moved(Exec(cfg, acts).chains[0]) && T.LockHeld(cfg, Exec(cfg, acts).chains[0])
  {
    var cfg := Config(Setup(EAGER, input, false, 1), true, 4.0);
    var acts := MovedRun(cfg);
    T.PublishedIsTracked(cfg, acts, 0);
    T.OneHalfFrameOverlooksNothing(cfg, acts, 0);
  }
}
