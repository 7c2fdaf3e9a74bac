// What the trigger guarantees in every state of every run, and where its guarantees end.

module Theorems {
  import opened Radio
  import opened Messages
  import opened Chains
  import opened Network
  import H = PssHistory
  import Mib
  import CellStore
  import D = Delivery
  import MH = MibHistory
  import R = Replay

  // Every half frame was tagged and read.
  predicate FramesDrained(c: Chain) {
    c.read == |c.tagged| == |c.emitted|
  }

  // Every message sent was handled by the store.
  ghost predicate AllDelivered(s: Net) {
    && Shape(s)
    && forall k :: 0 <= k < CHAINS ==>
         s.post.tracks[k] == |Mib.Cells(s.chains[k].log)| && s.post.drops[k] == |Mib.Withdrawn(s.chains[k].log)|
  }

  ghost predicate Published(s: Net, c: Cell) {
    exists k :: 0 <= k < |s.chains| && s.chains[k].mib.published && s.chains[k].mib.current == Some(c)
  }

  // ---- A lost lock reaches the store

  // With one half frame per publisher call no report of a loss is ever overlooked.
  lemma OneHalfFrameOverlooksNothing(cfg: Config, acts: seq<Action>, k: nat)
    requires cfg.setup.batch <= 1 && k < CHAINS
    ensures !Overlooked(Exec(cfg, acts).chains[k])
  {
    ReachableChain(cfg, acts, k);
    assert WatchInv(cfg.setup, Exec(cfg, acts).chains[k]);
  }

  // While a cell is published and its tracker has no lock, the newest half frame of the
  // chain reports the loss and is still on its way to the publisher, unless the call that
  // announced the cell overlooked a loss.
  lemma LossIsInFlight(cfg: Config, acts: seq<Action>, k: nat)
    requires k < CHAINS
    ensures var c := Exec(cfg, acts).chains[k];
            c.mib.published && !c.pss.tracking ==>
              && c.emitted != [] && c.emitted[|c.emitted| - 1].head.lost
              && (c.read < |c.emitted| || Overlooked(c))
  {
    ReachableChain(cfg, acts, k);
    var c := Exec(cfg, acts).chains[k];
    if c.mib.published && !c.pss.tracking {
      LossInFlight(cfg.setup, k, c);
    }
  }

  // The tracker had lock in every call since the one whose half frame the open cell was
  // decoded from.
  ghost predicate LockHeld(cfg: Config, c: Chain) {
    && c.sources != []
    && var tr, source := Trace(cfg.setup, c), c.sources[|c.sources| - 1];
       source < |Calls(tr)| && TrackedSince(cfg.setup.cfg, tr, Calls(tr)[source])
  }

  // Once the queues of a chain are empty, its tracker had lock in every call since the one
  // whose half frame the published cell was decoded from, if and only if the call that
  // announced the cell overlooked no loss. Lock is not all: the publisher reads no ids once
  // it has announced a cell. Every id tagged since is the published one if and only if, in
  // addition, the tagger answered no other group.
  lemma PublishedIsTracked(cfg: Config, acts: seq<Action>, k: nat)
    requires k < CHAINS
    ensures var c := Exec(cfg, acts).chains[k];
            c.mib.published && FramesDrained(c) ==>
              && (LockHeld(cfg, c) <==> !Overlooked(c))
              && (LockHeld(cfg, c) ==> c.pss.tracking)
              && (OneId(c) <==> OneGroup(c))
  {
    ReachableChain(cfg, acts, k);
    var c := Exec(cfg, acts).chains[k];
    if c.mib.published && FramesDrained(c) {
      PublishedMeansTracking(cfg.setup, k, c);
      OneCellSince(cfg.setup, k, c);
      if !Overlooked(c) {
        DrainedIsTracking(cfg.setup, k, c);
      }
    }
  }

  // ---- What the store holds

  // The current cell of a chain is the last one it announced, the only one it has not
  // withdrawn.
  lemma OpenMeans(cfg: Config, s: Net, c: Cell)
    requires Shape(s) && AllSent(s) && ChainsInv(cfg, s)
    ensures Published(s, c) <==>
            exists k :: 0 <= k < CHAINS && IsOpenOf(s, k, c)
  {
    forall k | 0 <= k < CHAINS
      ensures IsOpenOf(s, k, c) <==> s.chains[k].mib.published && s.chains[k].mib.current == Some(c)
    {
      assert Sent(k, s.chains[k].log, s.chains[k].mib.published);
      assert ChainInv(cfg.setup, k, s.chains[k]);
    }
  }

  // When every message was delivered, through ports served in any order, the store holds
  // exactly the published cells and those whose withdrawal overtook their announcement.
  lemma StoreIsExact(cfg: Config, acts: seq<Action>, c: Cell)
    requires AllDelivered(Exec(cfg, acts))
    ensures var s := Exec(cfg, acts);
            c in s.post.store <==> Published(s, c) || D.Overtaken(s.post.delivered, c)
  {
    var s := Exec(cfg, acts);
    Reachable(cfg, acts);
    ChainsSent(cfg, s);
    OpenMeans(cfg, s, c);
    StoreByCounts(s, c);
  }

  // The cell of chain k that is announced and not withdrawn, if there is one.
  ghost predicate IsOpenOf(s: Net, k: nat, c: Cell)
    requires Shape(s) && k < CHAINS
  {
    var open := |Mib.Withdrawn(s.chains[k].log)|;
    open < |Announced(s)[k]| && c == Announced(s)[k][open]
  }

  lemma StoreByCounts(s: Net, c: Cell)
    requires AllDelivered(s) && AllSent(s) && D.DeliveryInv(Announced(s), s.post) && D.Distinct(Announced(s))
    ensures c in s.post.store <==>
            D.Overtaken(s.post.delivered, c) || exists k :: 0 <= k < CHAINS && IsOpenOf(s, k, c)
  {
    if c in s.post.store {
      StoredByCounts(s, c);
    }
    if D.Overtaken(s.post.delivered, c) {
      OvertakenIsStored(Announced(s), s.post, c);
    }
    if k :| 0 <= k < CHAINS && IsOpenOf(s, k, c) {
      D.StoreContents(Announced(s), s.post, k, |Mib.Withdrawn(s.chains[k].log)|);
    }
  }

  lemma StoredByCounts(s: Net, c: Cell)
    requires AllDelivered(s) && AllSent(s) && D.DeliveryInv(Announced(s), s.post) && D.Distinct(Announced(s))
    requires c in s.post.store
    ensures D.Overtaken(s.post.delivered, c) || (c.handle.chain < CHAINS && IsOpenOf(s, c.handle.chain, c))
  {
    D.StoredWasAnnounced(Announced(s), s.post, c);
    var k, j := c.handle.chain, c.handle.serial;
    D.StoreContents(Announced(s), s.post, k, j);
    assert Sent(k, s.chains[k].log, s.chains[k].mib.published);
  }

  lemma OvertakenIsStored(ann: seq<seq<Cell>>, p: D.Post, c: Cell)
    requires D.DeliveryInv(ann, p) && D.Distinct(ann) && D.Overtaken(p.delivered, c)
    ensures c in p.store
  {
    var i, l :| 0 <= i < l < |p.delivered| && p.delivered[i] == Drop(c) && p.delivered[l] == Track(c);
    assert D.Counted(ann, p, p.delivered[l]);
    D.StoreContents(ann, p, c.handle.chain, c.handle.serial);
  }

  // The store holds exactly the published cells if and only if no withdrawal overtook
  // its announcement.
  lemma ExactUnlessOvertaken(cfg: Config, acts: seq<Action>)
    requires AllDelivered(Exec(cfg, acts))
    ensures var s := Exec(cfg, acts);
            (forall c :: c in s.post.store <==> Published(s, c)) <==> !exists c :: D.Overtaken(s.post.delivered, c)
  {
    var s := Exec(cfg, acts);
    forall c ensures c in s.post.store <==> Published(s, c) || D.Overtaken(s.post.delivered, c) {
      StoreIsExact(cfg, acts, c);
    }
    if c :| D.Overtaken(s.post.delivered, c) {
      Reachable(cfg, acts);
      ChainsSent(cfg, s);
      OvertakenIsClosed(cfg, s, c);
      assert c in s.post.store && !Published(s, c);
    }
  }

  lemma OvertakenIsClosed(cfg: Config, s: Net, c: Cell)
    requires ChainsInv(cfg, s) && AllSent(s) && PostInv(cfg, s) && D.Distinct(Announced(s))
    requires D.Overtaken(s.post.delivered, c)
    ensures !Published(s, c)
  {
    var i, l :| 0 <= i < l < |s.post.delivered| && s.post.delivered[i] == Drop(c) && s.post.delivered[l] == Track(c);
    assert D.Counted(Announced(s), s.post, s.post.delivered[i]);
    OpenMeans(cfg, s, c);
  }

  // A cell that some chain publishes and has followed ever since: lock in every call and
  // no other id.
  ghost predicate Followed(cfg: Config, s: Net, c: Cell) {
    exists k :: 0 <= k < |s.chains| && s.chains[k].mib.published && s.chains[k].mib.current == Some(c)
                && LockHeld(cfg, s.chains[k]) && OneId(s.chains[k])
  }

  // No loss overlooked and no other group answered.
  ghost predicate Undisturbed(c: Chain) {
    c.mib.published ==> !Overlooked(c) && OneGroup(c)
  }

  lemma CurrentTellsChain(cfg: Config, s: Net, k: nat)
    requires Shape(s) && AllSent(s) && ChainsInv(cfg, s) && k < CHAINS && s.chains[k].mib.published
    ensures s.chains[k].mib.current.Some? && s.chains[k].mib.current.value.handle.chain == k
  {
    var c := s.chains[k];
    assert Sent(k, c.log, c.mib.published) && ChainInv(cfg.setup, k, c);
  }

  lemma FollowedChain(cfg: Config, acts: seq<Action>, k: nat)
    requires k < CHAINS && Exec(cfg, acts).chains[k].mib.published && FramesDrained(Exec(cfg, acts).chains[k])
    ensures var s := Exec(cfg, acts);
            && s.chains[k].mib.current.Some?
            && (Followed(cfg, s, s.chains[k].mib.current.value) <==> Undisturbed(s.chains[k]))
  {
    var s := Exec(cfg, acts);
    Reachable(cfg, acts);
    ChainsSent(cfg, s);
    CurrentTellsChain(cfg, s, k);
    PublishedIsTracked(cfg, acts, k);
    var c := s.chains[k].mib.current.value;
    if Followed(cfg, s, c) {
      var l :| 0 <= l < |s.chains| && s.chains[l].mib.published && s.chains[l].mib.current == Some(c)
               && LockHeld(cfg, s.chains[l]) && OneId(s.chains[l]);
      CurrentTellsChain(cfg, s, l);
    }
  }

  // At rest, with ports served in any order and any number of half frames per call, every
  // stored cell is one that its chain has followed ever since it was decoded, if and only
  // if no withdrawal overtook its announcement and every chain was left undisturbed.
  lemma DrainedStoreIsFollowed(cfg: Config, acts: seq<Action>)
    requires var s := Exec(cfg, acts);
             AllDelivered(s) && forall k :: 0 <= k < CHAINS ==> FramesDrained(s.chains[k])
    ensures var s := Exec(cfg, acts);
            (forall c :: c in s.post.store ==> Followed(cfg, s, c))
            <==>
            && (forall c :: !D.Overtaken(s.post.delivered, c))
            && (forall k :: 0 <= k < CHAINS ==> Undisturbed(s.chains[k]))
  {
    var s := Exec(cfg, acts);
    forall c ensures c in s.post.store <==> Published(s, c) || D.Overtaken(s.post.delivered, c) {
      StoreIsExact(cfg, acts, c);
    }
    forall c | D.Overtaken(s.post.delivered, c) ensures !Followed(cfg, s, c) {
      Reachable(cfg, acts);
      ChainsSent(cfg, s);
      OvertakenIsClosed(cfg, s, c);
    }
    forall k | 0 <= k < CHAINS && s.chains[k].mib.published
      ensures && s.chains[k].mib.current.Some?
              && Published(s, s.chains[k].mib.current.value)
              && (Followed(cfg, s, s.chains[k].mib.current.value) <==> Undisturbed(s.chains[k]))
    {
      FollowedChain(cfg, acts, k);
    }
  }

  // So under ordered delivery and with one half frame per publisher call, at rest, a cell
  // is stored exactly when some chain publishes it, and the tracker of that chain has lock.
  lemma DrainedStoreIsTracked(cfg: Config, acts: seq<Action>, c: Cell)
    requires cfg.ordered && cfg.setup.batch <= 1
    requires var s := Exec(cfg, acts);
             AllDelivered(s) && forall k :: 0 <= k < CHAINS ==> FramesDrained(s.chains[k])
    ensures var s := Exec(cfg, acts);
            c in s.post.store <==>
            exists k :: 0 <= k < CHAINS && s.chains[k].mib.published && s.chains[k].mib.current == Some(c)
                        && s.chains[k].pss.tracking
  {
    var s := Exec(cfg, acts);
    Reachable(cfg, acts);
    StoreIsExact(cfg, acts, c);
    D.OrderedNeverOvertaken(Announced(s), s.post, c);
    if Published(s, c) {
      var k :| 0 <= k < |s.chains| && s.chains[k].mib.published && s.chains[k].mib.current == Some(c);
      PublishedIsTracked(cfg, acts, k);
      OneHalfFrameOverlooksNothing(cfg, acts, k);
    }
  }

  // ---- How many cells the store holds

  // The chains that publish a cell, among the first n.
  function Publishing(s: Net, n: nat): nat
    requires n <= |s.chains|
  {
    if n == 0 then 0 else Publishing(s, n - 1) + if s.chains[n - 1].mib.published then 1 else 0
  }

  lemma {:induction false} OutstandingIsPublishing(s: Net, n: nat)
    requires AllDelivered(s) && AllSent(s) && n <= CHAINS
    ensures D.Outstanding(s.post, n) == Publishing(s, n)
  {
    if n > 0 {
      OutstandingIsPublishing(s, n - 1);
      assert Sent(n - 1, s.chains[n - 1].log, s.chains[n - 1].mib.published);
    }
  }

  // In every state of every run, with ports served in any order: one stored cell for every
  // handled announcement whose withdrawal was not handled, and one for every withdrawal
  // that overtook its announcement.
  lemma StoreSize(cfg: Config, acts: seq<Action>)
    ensures var s := Exec(cfg, acts);
            |s.post.store| == D.Outstanding(s.post, CHAINS) + |D.OvertakenCells(s.post.delivered)|
  {
    Reachable(cfg, acts);
    ChainsSent(cfg, Exec(cfg, acts));
    D.StoreCount(Announced(Exec(cfg, acts)), Exec(cfg, acts).post);
  }

  // When every message was delivered, the store keeps its limit of three cells if and only
  // if there are no more overtaken cells than chains that publish nothing.
  lemma StoreLimit(cfg: Config, acts: seq<Action>)
    requires AllDelivered(Exec(cfg, acts))
    ensures var s := Exec(cfg, acts);
            && |s.post.store| == Publishing(s, CHAINS) + |D.OvertakenCells(s.post.delivered)|
            && (|s.post.store| <= CHAINS <==> |D.OvertakenCells(s.post.delivered)| <= CHAINS - Publishing(s, CHAINS))
  {
    Reachable(cfg, acts);
    ChainsSent(cfg, Exec(cfg, acts));
    StoreSize(cfg, acts);
    OutstandingIsPublishing(Exec(cfg, acts), CHAINS);
  }

  // The id of a cell tells its chain.
  lemma StoredId(cfg: Config, s: Net, c: Cell)
    requires Shape(s) && ChainsInv(cfg, s) && D.DeliveryInv(Announced(s), s.post) && c in s.post.store
    ensures c.handle.chain < CHAINS
    ensures c.dict.cellId.Some? && 0 <= c.dict.cellId.value <= 503
    ensures c.dict.cellId.value % 3 == c.handle.chain
  {
    D.StoredWasAnnounced(Announced(s), s.post, c);
    assert ChainInv(cfg.setup, c.handle.chain, s.chains[c.handle.chain]);
    AnnouncedFrom(cfg.setup, c.handle.chain, s.chains[c.handle.chain], c.handle.serial);
  }

  // Under ordered delivery, in every state, the store holds at most one cell per chain,
  // so at most three, with different ids, listed in the order of their announcements.
  lemma AtMostOneCellPerChain(cfg: Config, acts: seq<Action>)
    requires cfg.ordered
    ensures var store := Exec(cfg, acts).post.store;
            && |store| <= CHAINS
            && store == CellStore.Open(Exec(cfg, acts).post.delivered)
            && forall i, j :: 0 <= i < j < |store| ==>
                 store[i].handle.chain != store[j].handle.chain && store[i].dict.cellId != store[j].dict.cellId
  {
    var s := Exec(cfg, acts);
    Reachable(cfg, acts);
    ChainsSent(cfg, s);
    CellStore.StoreIsOpen(s.post.delivered);
    StoreDistinct(cfg, s);
    AtMostThree(s.post.store);
  }

  lemma AtMostThree(store: seq<Cell>)
    requires forall i :: 0 <= i < |store| ==> store[i].handle.chain < CHAINS
    requires forall i, j :: 0 <= i < j < |store| ==> store[i].handle.chain != store[j].handle.chain
    ensures |store| <= CHAINS
  {
    var chains := seq(|store|, i requires 0 <= i < |store| => store[i].handle.chain);
    D.AtMostOnePerChain(chains, CHAINS);
  }

  lemma StoreDistinct(cfg: Config, s: Net)
    requires Shape(s) && ChainsInv(cfg, s) && D.DeliveryInv(Announced(s), s.post) && D.Distinct(Announced(s))
    requires D.Ordered(s.post)
    ensures forall i :: 0 <= i < |s.post.store| ==> s.post.store[i].handle.chain < CHAINS
    ensures forall i, j :: 0 <= i < j < |s.post.store| ==>
              s.post.store[i].handle.chain != s.post.store[j].handle.chain
              && s.post.store[i].dict.cellId != s.post.store[j].dict.cellId
  {
    var store := s.post.store;
    forall i | 0 <= i < |store| ensures store[i].handle.chain < CHAINS {
      StoredId(cfg, s, store[i]);
    }
    D.StoreNoRepeats(s.post);
    forall i, j | 0 <= i < j < |store|
      ensures store[i].handle.chain != store[j].handle.chain && store[i].dict.cellId != store[j].dict.cellId
    {
      StoredDiffer(cfg, s, store[i], store[j]);
    }
  }

  lemma StoredDiffer(cfg: Config, s: Net, a: Cell, b: Cell)
    requires Shape(s) && ChainsInv(cfg, s) && D.DeliveryInv(Announced(s), s.post) && D.Distinct(Announced(s))
    requires D.Ordered(s.post) && a in s.post.store && b in s.post.store && a != b
    ensures a.handle.chain != b.handle.chain && a.dict.cellId != b.dict.cellId
  {
    D.OrderedContents(Announced(s), s.post, a);
    D.OrderedContents(Announced(s), s.post, b);
    StoredId(cfg, s, a);
    StoredId(cfg, s, b);
  }

  lemma RemoveStored(store: seq<Cell>, c: Cell)
    requires c in store
    requires forall i, j :: 0 <= i < j < |store| ==>
               store[i].handle.chain != store[j].handle.chain && store[i].dict.cellId != store[j].dict.cellId
    ensures CellStore.Remove(store, c) == CellStore.RemoveEqual(store, c)
    ensures exists i :: 0 <= i < |store| && store[i] == c && CellStore.Remove(store, c) == store[..i] + store[i + 1..]
  {
    var i :| 0 <= i < |store| && store[i] == c;
    forall l | 0 <= l < |store| && l != i
      ensures store[l].handle != c.handle && store[l].dict != c.dict
    {
      var lo, hi := if l < i then l else i, if l < i then i else l;
      assert store[lo].handle.chain != store[hi].handle.chain && store[lo].dict.cellId != store[hi].dict.cellId;
    }
    CellStore.RemoveOnly(store, i);
  }

  lemma WithdrawnIsStored(cfg: Config, acts: seq<Action>, k: nat)
    requires cfg.ordered && k < CHAINS && Pending(cfg, Exec(cfg, acts), k, false).Some?
    ensures Pending(cfg, Exec(cfg, acts), k, false).value.cell in Exec(cfg, acts).post.store
  {
    var s := Exec(cfg, acts);
    Reachable(cfg, acts);
    ChainsSent(cfg, s);
    PendingIs(cfg, s, k, false);
    D.OrderedContents(Announced(s), s.post, Announced(s)[k][s.post.drops[k]]);
  }

  // A withdrawal handled in order removes exactly one cell and leaves the others in
  // place, whether cells are compared by identity or by content.
  lemma RemovalByIdentityOrContent(cfg: Config, acts: seq<Action>, k: nat)
    requires cfg.ordered && k < CHAINS && Pending(cfg, Exec(cfg, acts), k, false).Some?
    ensures var store, c := Exec(cfg, acts).post.store, Pending(cfg, Exec(cfg, acts), k, false).value.cell;
            && CellStore.Remove(store, c) == CellStore.RemoveEqual(store, c)
            && exists i :: 0 <= i < |store| && store[i] == c
                           && CellStore.Remove(store, c) == store[..i] + store[i + 1..]
  {
    WithdrawnIsStored(cfg, acts, k);
    AtMostOneCellPerChain(cfg, acts);
    RemoveStored(Exec(cfg, acts).post.store, Pending(cfg, Exec(cfg, acts), k, false).value.cell);
  }

  // ---- Where announced cells come from

  lemma SafeCall(c: Chain, m: nat)
    requires SafeThresholds(c) && m < |c.hist|
    ensures c.hist[m].threshold >= 1.5
  {
    assert c.hist[m] in c.hist;
  }

  lemma ChainAnnouncesAbove(setup: Setup, k: nat, c: Chain, j: nat)
    requires ChainInv(setup, k, c) && SafeThresholds(c) && k < CHAINS && j < |c.sources|
    ensures c.sources[j] < |c.tagged|
    ensures var tr, source := Trace(setup, c), c.sources[j];
            && source < |Calls(tr)|
            && var m := Calls(tr)[source];
            && m < |tr| && tr[m].psr > 1.5
            && var o := H.OutputOf(setup.cfg, tr[..m + 1]);
            && o.Locked? && c.tagged[source].data == Data(Window(setup.input, o.start), o.freq)
  {
    AnnouncedFrom(setup, k, c, j);
    SafeCall(c, Calls(Trace(setup, c))[c.sources[j]]);
  }

  // Every announced cell was decoded from a half frame that the tracker emitted with lock
  // at a ratio above 1.5, and that no block altered on the way.
  lemma AnnouncedAboveMinimum(cfg: Config, acts: seq<Action>, k: nat, j: nat)
    requires k < CHAINS && j < |Announced(Exec(cfg, acts))[k]|
    ensures var c := Exec(cfg, acts).chains[k];
            && j < |c.sources| && c.sources[j] < |c.tagged|
            && var tr, source := Trace(cfg.setup, c), c.sources[j];
            && source < |Calls(tr)|
            && var m := Calls(tr)[source];
            && m < |tr| && tr[m].psr > 1.5
            && var o := H.OutputOf(cfg.setup.cfg, tr[..m + 1]);
            && o.Locked? && c.tagged[source].data == Data(Window(cfg.setup.input, o.start), o.freq)
  {
    ReachableChain(cfg, acts, k);
    ReachableThresholds(cfg, acts, k);
    ChainAnnouncesAbove(cfg.setup, k, Exec(cfg, acts).chains[k], j);
  }

  // In every run the threshold of a tracker is at least 1.5, and it is the last accepted
  // request, raised to 1.5 when it is lower, once that was written to this tracker.
  lemma ThresholdsAgree(cfg: Config, acts: seq<Action>, k: nat)
    requires k < CHAINS
    ensures var s, request := Exec(cfg, acts), R.Requested(cfg.psrThreshold, acts);
            && s.psrThreshold == (if request > 1.5 then request else 1.5)
            && s.chains[k].threshold >= 1.5
            && (k < s.writing ==> s.chains[k].threshold == s.psrThreshold)
            && s.writing + R.Owed(acts) == CHAINS
  {
    ReachableThresholds(cfg, acts, k);
    R.ThresholdsFollow(cfg, acts);
    Reachable(cfg, acts);
  }

  // Every half frame a publisher consumed in a run was the first of its call, or it was
  // consumed in a call that decoded a cell.
  lemma EveryHalfFrameIsLookedAt(cfg: Config, acts: seq<Action>, k: nat, f: nat)
    requires k < CHAINS && f < Exec(cfg, acts).chains[k].read
    ensures exists i: nat :: MH.ConsumedBy(cfg.setup.exitOnSuccess, R.PublisherCalls(cfg, acts, k), i, f)
  {
    R.ChainFollowsActions(cfg, acts, k);
    MH.ConsumedInCall(cfg.setup.exitOnSuccess, R.PublisherCalls(cfg, acts, k), f);
  }

  // ---- What the store is sent

  // A delivery handles the next message its port has of the chain, if there is one: the
  // next announcement or the next withdrawal, in the ordered mode only when it is the
  // chain's next message.
  ghost predicate Delivers(cfg: Config, s: Net, k: nat, track: bool, m: Msg)
    requires Shape(s) && k < CHAINS
  {
    var log, t, d := s.chains[k].log, s.post.tracks[k], s.post.drops[k];
    if cfg.ordered then t + d < |log| && m == log[t + d] && m.Track? == track
    else if track then t < |Mib.Cells(log)| && m == Track(Mib.Cells(log)[t])
    else d < |Mib.Withdrawn(log)| && m == Drop(Mib.Withdrawn(log)[d])
  }

  lemma DeliversNext(cfg: Config, s: Net, k: nat, track: bool)
    requires Shape(s) && k < CHAINS
    ensures var s' := Apply(cfg, s, Deliver(k, track));
            && (forall m :: Delivers(cfg, s, k, track, m) ==> s'.post.delivered == s.post.delivered + [m])
            && ((exists m :: Delivers(cfg, s, k, track, m)) ==>
                  && s'.post.tracks == (if track then s.post.tracks[k := s.post.tracks[k] + 1] else s.post.tracks)
                  && s'.post.drops == (if track then s.post.drops else s.post.drops[k := s.post.drops[k] + 1]))
            && ((forall m :: !Delivers(cfg, s, k, track, m)) ==> s' == s)
  {
    if Pending(cfg, s, k, track).Some? {
      assert Delivers(cfg, s, k, track, Pending(cfg, s, k, track).value);
    }
  }

  // The messages of chain k that the store has handled so far.
  ghost predicate Fifo(cfg: Config, s: Net, k: nat)
    requires Shape(s) && k < CHAINS
  {
    var log, t, d := s.chains[k].log, s.post.tracks[k], s.post.drops[k];
    && t <= |Mib.Cells(log)| && D.TracksOf(k, s.post.delivered) == Mib.Cells(log)[..t]
    && d <= |Mib.Withdrawn(log)| && D.DropsOf(k, s.post.delivered) == Mib.Withdrawn(log)[..d]
    && (cfg.ordered ==> t + d <= |log| && D.MessagesOf(k, s.post.delivered) == log[..t + d])
  }

  lemma {:induction false} LogGrows(log: seq<Msg>, log': seq<Msg>)
    requires log <= log'
    ensures Mib.Cells(log) <= Mib.Cells(log') && Mib.Withdrawn(log) <= Mib.Withdrawn(log')
  {
    if |log| < |log'| {
      LogGrows(log, log'[..|log'| - 1]);
    } else {
      assert log == log';
    }
  }

  lemma GrowthKeepsFifo(cfg: Config, s: Net, s': Net, k: nat)
    requires Shape(s) && Shape(s') && k < CHAINS && Fifo(cfg, s, k)
    requires s'.post == s.post && s.chains[k].log <= s'.chains[k].log
    ensures Fifo(cfg, s', k)
  {
    LogGrows(s.chains[k].log, s'.chains[k].log);
  }

  // The next message of a port is the next announcement or withdrawal of the chain, in the
  // ordered mode too.
  ghost predicate NextOfPort(s: Net, l: nat, track: bool, m: Msg)
    requires Shape(s) && l < CHAINS
  {
    var log, t, d := s.chains[l].log, s.post.tracks[l], s.post.drops[l];
    && m.cell.handle.chain == l
    && if track then t < |Mib.Cells(log)| && m == Track(Mib.Cells(log)[t])
       else d < |Mib.Withdrawn(log)| && m == Drop(Mib.Withdrawn(log)[d])
  }

  lemma DeliveredIsNext(cfg: Config, s: Net, l: nat, track: bool, m: Msg)
    requires AllSent(s) && Shape(s) && (cfg.ordered ==> D.Ordered(s.post)) && l < CHAINS
    requires Delivers(cfg, s, l, track, m)
    ensures NextOfPort(s, l, track, m)
  {
    assert Pending(cfg, s, l, track) == Some(m);
    PendingIs(cfg, s, l, track);
    assert Sent(l, s.chains[l].log, s.chains[l].mib.published);
  }

  lemma DeliveryKeepsFifo(cfg: Config, s: Net, l: nat, track: bool, m: Msg, k: nat)
    requires Shape(s) && l < CHAINS && k < CHAINS && Fifo(cfg, s, k)
    requires Delivers(cfg, s, l, track, m) && NextOfPort(s, l, track, m)
    ensures Fifo(cfg, Apply(cfg, s, Deliver(l, track)), k)
  {
    DeliversNext(cfg, s, l, track);
    D.OneMoreMessage(k, s.post.delivered, m);
    if k == l {
      DeliveredPrefixes(cfg, s, k, track, m);
    }
  }

  lemma DeliveredPrefixes(cfg: Config, s: Net, k: nat, track: bool, m: Msg)
    requires Shape(s) && k < CHAINS && Delivers(cfg, s, k, track, m) && NextOfPort(s, k, track, m)
    ensures var log, t, d := s.chains[k].log, s.post.tracks[k], s.post.drops[k];
            && (if track then Mib.Cells(log)[..t + 1] == Mib.Cells(log)[..t] + [m.cell]
                else Mib.Withdrawn(log)[..d + 1] == Mib.Withdrawn(log)[..d] + [m.cell])
            && (cfg.ordered ==> log[..t + d + 1] == log[..t + d] + [m])
  {
    var log, t, d := s.chains[k].log, s.post.tracks[k], s.post.drops[k];
    if track {
      OneLonger(Mib.Cells(log), t);
    } else {
      OneLonger(Mib.Withdrawn(log), d);
    }
    if cfg.ordered {
      OneLonger(log, t + d);
    }
  }

  lemma OneLonger<T>(queue: seq<T>, n: nat)
    requires n < |queue|
    ensures queue[..n] + [queue[n]] == queue[..n + 1]
  {
  }

  lemma ActionKeepsFifo(cfg: Config, s: Net, a: Action, k: nat)
    requires AllSent(s) && PostInv(cfg, s) && k < CHAINS && Fifo(cfg, s, k)
    ensures Fifo(cfg, Apply(cfg, s, a), k)
  {
    if a.Deliver? && a.k < CHAINS {
      DeliversNext(cfg, s, a.k, a.track);
      if m :| Delivers(cfg, s, a.k, a.track, m) {
        DeliveredIsNext(cfg, s, a.k, a.track, m);
        DeliveryKeepsFifo(cfg, s, a.k, a.track, m, k);
      }
    } else {
      OtherActionGrows(cfg, s, a, k);
      GrowthKeepsFifo(cfg, s, Apply(cfg, s, a), k);
    }
  }

  lemma OtherActionGrows(cfg: Config, s: Net, a: Action, k: nat)
    requires Shape(s) && k < CHAINS && !(a.Deliver? && a.k < CHAINS)
    ensures Apply(cfg, s, a).post == s.post && s.chains[k].log <= Apply(cfg, s, a).chains[k].log
  {
    if a.ChainCall? && a.k < CHAINS {
      TurnGrowsLog(cfg.setup, a.k, s.chains[a.k], a.call);
    }
  }

  // In every run each port has handled the announcements, or the withdrawals, of every
  // chain in the order in which they were sent, none left out and none twice. In the
  // ordered mode so has the store with all messages of the chain.
  lemma {:induction false} PortsAreFifo(cfg: Config, acts: seq<Action>, k: nat)
    requires k < CHAINS
    ensures Fifo(cfg, Exec(cfg, acts), k)
  {
    if acts != [] {
      var front := acts[..|acts| - 1];
      PortsAreFifo(cfg, front, k);
      Reachable(cfg, front);
      ChainsSent(cfg, Exec(cfg, front));
      ActionKeepsFifo(cfg, Exec(cfg, front), acts[|acts| - 1], k);
    }
  }

  // The messages of a chain alternate: an announcement, then the withdrawal of the same
  // object; the last announcement is open exactly while the cell is published.
  lemma MessagesAlternate(cfg: Config, acts: seq<Action>, k: nat, i: nat)
    requires k < CHAINS && i < |Exec(cfg, acts).chains[k].log|
    ensures var c := Exec(cfg, acts).chains[k];
            && c.log[i].Track? == (i % 2 == 0)
            && (i % 2 == 1 ==> c.log[i].cell == c.log[i - 1].cell)
            && c.log[i].cell.handle == Handle(k, i / 2)
            && (c.mib.published <==> |c.log| % 2 == 1)
            && (c.mib.published ==> c.mib.current == Some(c.log[|c.log| - 1].cell))
  {
    Reachable(cfg, acts);
    var s := Exec(cfg, acts);
    var c := s.chains[k];
    ChainsSent(cfg, s);
    assert Sent(k, c.log, c.mib.published) && ChainInv(cfg.setup, k, c);
    Mib.LogShape(c.mib, c.log, i);
    Mib.OpenEnd(c.mib, c.log);
    assert Mib.Cells(c.log)[i / 2].handle == Handle(k, i / 2);
  }

  // With exit_on_success a publisher sends at most one message, the announcement it exits
  // after.
  lemma ExitsAfterFirst(cfg: Config, acts: seq<Action>, k: nat)
    requires cfg.setup.exitOnSuccess && k < CHAINS
    ensures var c := Exec(cfg, acts).chains[k];
            && |c.log| <= 1
            && (c.log != [] <==> c.mib.exited)
            && (c.log != [] ==> c.log[0].Track? && c.mib.published)
  {
    ReachableChain(cfg, acts, k);
    var c := Exec(cfg, acts).chains[k];
    if c.log != [] {
      Mib.OpenEnd(c.mib, c.log);
    }
  }
}
