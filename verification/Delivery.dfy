// How the store sees the messages of several publishers: each publisher announces cells
// and withdraws them in the same order, and the store handles announcements and
// withdrawals through two ports.

module Delivery {
  import opened Messages
  import CellStore

  // What the store handled: for each chain how many announcements and withdrawals, and
  // all messages in the order in which they were handled.
  datatype Post = Post(tracks: seq<nat>, drops: seq<nat>, delivered: seq<Msg>, store: seq<Cell>)

  function HandleTrack(p: Post, k: nat, c: Cell): Post
    requires k < |p.tracks|
  {
    p.(tracks := p.tracks[k := p.tracks[k] + 1], delivered := p.delivered + [Track(c)],
       store := CellStore.HandleMsg(p.store, Track(c)))
  }

  function HandleDrop(p: Post, k: nat, c: Cell): Post
    requires k < |p.drops|
  {
    p.(drops := p.drops[k := p.drops[k] + 1], delivered := p.delivered + [Drop(c)],
       store := CellStore.HandleMsg(p.store, Drop(c)))
  }

  // The cells each chain announced so far: every one is a new object.
  ghost predicate Distinct(ann: seq<seq<Cell>>) {
    forall k, j :: 0 <= k < |ann| && 0 <= j < |ann[k]| ==>
      ann[k][j].handle == Handle(k, j) && CellStore.Acceptable(ann[k][j])
  }

  // A handled message is one that was sent and counted.
  ghost predicate Counted(ann: seq<seq<Cell>>, p: Post, m: Msg)
    requires |ann| == |p.tracks| == |p.drops|
  {
    var k, j := m.cell.handle.chain, m.cell.handle.serial;
    && k < |ann| && j < |ann[k]| && m.cell == ann[k][j]
    && j < if m.Track? then p.tracks[k] else p.drops[k]
  }

  ghost predicate DeliveryInv(ann: seq<seq<Cell>>, p: Post) {
    && |ann| == |p.tracks| == |p.drops|
    && p.store == CellStore.After(p.delivered)
    && (forall k :: 0 <= k < |ann| ==> p.tracks[k] <= |ann[k]| && p.drops[k] <= |ann[k]|)
    && (forall i :: 0 <= i < |p.delivered| ==> Counted(ann, p, p.delivered[i]))
    && (forall k, j :: 0 <= k < |ann| && 0 <= j < p.tracks[k] ==> Track(ann[k][j]) in p.delivered)
    && (forall k, j :: 0 <= k < |ann| && 0 <= j < p.drops[k] ==> Drop(ann[k][j]) in p.delivered)
    && (forall i, j :: 0 <= i < j < |p.delivered| ==> p.delivered[i] != p.delivered[j])
  }

  // The withdrawal of a cell was handled before its announcement.
  ghost predicate Overtaken(delivered: seq<Msg>, c: Cell) {
    exists i, j :: 0 <= i < j < |delivered| && delivered[i] == Drop(c) && delivered[j] == Track(c)
  }

  // Each chain's messages were handled in the order in which they were sent.
  ghost predicate Ordered(p: Post) {
    && |p.tracks| == |p.drops|
    && (forall k :: 0 <= k < |p.tracks| ==> p.drops[k] <= p.tracks[k] <= p.drops[k] + 1)
    && (forall i :: 0 <= i < |p.delivered| && p.delivered[i].Drop? ==>
          Track(p.delivered[i].cell) in p.delivered[..i])
  }

  // A handled message that was not counted before and that accounts for every count that
  // grew.
  lemma MessageKeepsInv(ann: seq<seq<Cell>>, p: Post, p': Post, m: Msg)
    requires DeliveryInv(ann, p) && |ann| == |p'.tracks| == |p'.drops|
    requires p'.delivered == p.delivered + [m] && p'.store == CellStore.HandleMsg(p.store, m)
    requires !Counted(ann, p, m) && Counted(ann, p', m)
    requires forall k :: 0 <= k < |ann| ==> p.tracks[k] <= p'.tracks[k] <= |ann[k]|
    requires forall k :: 0 <= k < |ann| ==> p.drops[k] <= p'.drops[k] <= |ann[k]|
    requires forall k, j :: 0 <= k < |ann| && p.tracks[k] <= j < p'.tracks[k] ==> m == Track(ann[k][j])
    requires forall k, j :: 0 <= k < |ann| && p.drops[k] <= j < p'.drops[k] ==> m == Drop(ann[k][j])
    ensures DeliveryInv(ann, p')
  {
    assert p'.delivered[..|p.delivered|] == p.delivered;
    forall i | 0 <= i < |p.delivered| ensures Counted(ann, p', p.delivered[i]) && p.delivered[i] != m {
      assert Counted(ann, p, p.delivered[i]);
    }
  }

  lemma TrackKeepsInv(ann: seq<seq<Cell>>, p: Post, k: nat)
    requires DeliveryInv(ann, p) && Distinct(ann)
    requires k < |ann| && p.tracks[k] < |ann[k]|
    ensures DeliveryInv(ann, HandleTrack(p, k, ann[k][p.tracks[k]]))
  {
    var c := ann[k][p.tracks[k]];
    MessageKeepsInv(ann, p, HandleTrack(p, k, c), Track(c));
  }

  lemma DropKeepsInv(ann: seq<seq<Cell>>, p: Post, k: nat)
    requires DeliveryInv(ann, p) && Distinct(ann)
    requires k < |ann| && p.drops[k] < |ann[k]|
    ensures DeliveryInv(ann, HandleDrop(p, k, ann[k][p.drops[k]]))
  {
    var c := ann[k][p.drops[k]];
    MessageKeepsInv(ann, p, HandleDrop(p, k, c), Drop(c));
  }

  lemma TrackKeepsOrder(ann: seq<seq<Cell>>, p: Post, k: nat, c: Cell)
    requires DeliveryInv(ann, p) && Ordered(p) && k < |ann| && p.tracks[k] == p.drops[k]
    ensures Ordered(HandleTrack(p, k, c))
  {
    var p' := HandleTrack(p, k, c);
    forall i | 0 <= i < |p'.delivered| && p'.delivered[i].Drop?
      ensures Track(p'.delivered[i].cell) in p'.delivered[..i]
    {
      assert p'.delivered[i] == p.delivered[i] && p'.delivered[..i] == p.delivered[..i];
    }
  }

  lemma DropKeepsOrder(ann: seq<seq<Cell>>, p: Post, k: nat)
    requires DeliveryInv(ann, p) && Ordered(p) && k < |ann| && p.tracks[k] == p.drops[k] + 1
    ensures Ordered(HandleDrop(p, k, ann[k][p.drops[k]]))
  {
    var p' := HandleDrop(p, k, ann[k][p.drops[k]]);
    forall i | 0 <= i < |p'.delivered| && p'.delivered[i].Drop?
      ensures Track(p'.delivered[i].cell) in p'.delivered[..i]
    {
      assert p'.delivered[..i] == p.delivered[..i];
    }
  }

  // Announcing more cells changes nothing that was delivered.
  lemma GrowthKeepsInv(ann: seq<seq<Cell>>, ann': seq<seq<Cell>>, p: Post)
    requires DeliveryInv(ann, p) && |ann'| == |ann|
    requires forall k :: 0 <= k < |ann| ==> ann[k] <= ann'[k]
    ensures DeliveryInv(ann', p)
  {
    forall i | 0 <= i < |p.delivered| ensures Counted(ann', p, p.delivered[i]) {
      assert Counted(ann, p, p.delivered[i]);
    }
  }

  lemma StoredMeans(ann: seq<seq<Cell>>, p: Post, k: nat, j: nat)
    requires DeliveryInv(ann, p) && Distinct(ann) && k < |ann| && j < |ann[k]|
    requires ann[k][j] in p.store
    ensures j < p.tracks[k] && (j >= p.drops[k] || Overtaken(p.delivered, ann[k][j]))
  {
    var c, d := ann[k][j], p.delivered;
    CellStore.StoreIsOpen(d);
    CellStore.InOpen(d, c);
    var i :| 0 <= i < |d| && d[i] == Track(c) && !CellStore.Dropped(c, d[i + 1..]);
    assert Counted(ann, p, d[i]);
    CellStore.NotDroppedLater(c, d, i);
    if j < p.drops[k] {
      assert Drop(c) in d;
      var l :| 0 <= l < |d| && d[l] == Drop(c);
      assert l < i;
    }
  }

  lemma StoredWhen(ann: seq<seq<Cell>>, p: Post, k: nat, j: nat)
    requires DeliveryInv(ann, p) && Distinct(ann) && k < |ann| && j < |ann[k]|
    requires j < p.tracks[k] && (j >= p.drops[k] || Overtaken(p.delivered, ann[k][j]))
    ensures ann[k][j] in p.store
  {
    var c, d := ann[k][j], p.delivered;
    assert Track(c) in d;
    var i :| 0 <= i < |d| && d[i] == Track(c);
    var later := d[i + 1..];
    forall l | 0 <= l < |later| ensures !(later[l].Drop? && later[l].cell.handle == c.handle) {
      assert Counted(ann, p, d[i + 1 + l]);
    }
    CellStore.StoreIsOpen(d);
    CellStore.InOpen(d, c);
  }

  // What is stored, in any order of delivery: the cells announced and not yet withdrawn,
  // and those whose withdrawal came too early.
  lemma StoreContents(ann: seq<seq<Cell>>, p: Post, k: nat, j: nat)
    requires DeliveryInv(ann, p) && Distinct(ann) && k < |ann| && j < |ann[k]|
    ensures ann[k][j] in p.store <==>
            j < p.tracks[k] && (j >= p.drops[k] || Overtaken(p.delivered, ann[k][j]))
  {
    if ann[k][j] in p.store {
      StoredMeans(ann, p, k, j);
    } else if j < p.tracks[k] && (j >= p.drops[k] || Overtaken(p.delivered, ann[k][j])) {
      StoredWhen(ann, p, k, j);
    }
  }

  // Nothing else is stored.
  lemma StoredWasAnnounced(ann: seq<seq<Cell>>, p: Post, c: Cell)
    requires DeliveryInv(ann, p) && c in p.store
    ensures var k, j := c.handle.chain, c.handle.serial;
            k < |ann| && j < |ann[k]| && c == ann[k][j]
  {
    CellStore.StoreIsOpen(p.delivered);
    CellStore.InOpen(p.delivered, c);
    var i :| 0 <= i < |p.delivered| && p.delivered[i] == Track(c);
    assert Counted(ann, p, p.delivered[i]);
  }

  lemma OrderedNeverOvertaken(ann: seq<seq<Cell>>, p: Post, c: Cell)
    requires DeliveryInv(ann, p) && Ordered(p)
    ensures !Overtaken(p.delivered, c)
  {
  }

  // Under ordered delivery each chain has at most one stored cell, the one announced last.
  lemma OrderedContents(ann: seq<seq<Cell>>, p: Post, c: Cell)
    requires DeliveryInv(ann, p) && Distinct(ann) && Ordered(p)
    ensures c in p.store <==>
            exists k :: 0 <= k < |ann| && p.tracks[k] == p.drops[k] + 1 && c == ann[k][p.drops[k]]
  {
    if c in p.store {
      StoredWasAnnounced(ann, p, c);
      StoreContents(ann, p, c.handle.chain, c.handle.serial);
      OrderedNeverOvertaken(ann, p, c);
    }
    if k :| 0 <= k < |ann| && p.tracks[k] == p.drops[k] + 1 && c == ann[k][p.drops[k]] {
      StoreContents(ann, p, k, p.drops[k]);
    }
  }

  lemma {:induction false} OpenIsDistinct(msgs: seq<Msg>)
    requires forall i, j :: 0 <= i < j < |msgs| ==> msgs[i] != msgs[j]
    ensures forall i, j :: 0 <= i < j < |CellStore.Open(msgs)| ==> CellStore.Open(msgs)[i] != CellStore.Open(msgs)[j]
  {
    if msgs != [] {
      OpenIsDistinct(msgs[1..]);
      var rest := CellStore.Open(msgs[1..]);
      forall j | 0 <= j < |rest| ensures msgs[0] != Track(rest[j]) {
        CellStore.InOpen(msgs[1..], rest[j]);
      }
    }
  }

  // ---- In which order messages were handled

  // The announcements, the withdrawals and all messages of chain k, as they were handled.
  function TracksOf(k: nat, msgs: seq<Msg>): seq<Cell> {
    if msgs == [] then []
    else
      var m := msgs[|msgs| - 1];
      TracksOf(k, msgs[..|msgs| - 1]) + if m.Track? && m.cell.handle.chain == k then [m.cell] else []
  }

  function DropsOf(k: nat, msgs: seq<Msg>): seq<Cell> {
    if msgs == [] then []
    else
      var m := msgs[|msgs| - 1];
      DropsOf(k, msgs[..|msgs| - 1]) + if m.Drop? && m.cell.handle.chain == k then [m.cell] else []
  }

  function MessagesOf(k: nat, msgs: seq<Msg>): seq<Msg> {
    if msgs == [] then []
    else
      var m := msgs[|msgs| - 1];
      MessagesOf(k, msgs[..|msgs| - 1]) + if m.cell.handle.chain == k then [m] else []
  }

  lemma OneMoreMessage(k: nat, msgs: seq<Msg>, m: Msg)
    ensures TracksOf(k, msgs + [m]) ==
            TracksOf(k, msgs) + if m.Track? && m.cell.handle.chain == k then [m.cell] else []
    ensures DropsOf(k, msgs + [m]) ==
            DropsOf(k, msgs) + if m.Drop? && m.cell.handle.chain == k then [m.cell] else []
    ensures MessagesOf(k, msgs + [m]) ==
            MessagesOf(k, msgs) + if m.cell.handle.chain == k then [m] else []
  {
    assert (msgs + [m])[..|msgs|] == msgs;
  }

  // ---- How many cells are stored

  // A handled message is never handled again, so no cell is stored twice.
  lemma StoreNoRepeats(p: Post)
    requires p.store == CellStore.After(p.delivered)
    requires forall i, j :: 0 <= i < j < |p.delivered| ==> p.delivered[i] != p.delivered[j]
    ensures forall i, j :: 0 <= i < j < |p.store| ==> p.store[i] != p.store[j]
  {
    CellStore.StoreIsOpen(p.delivered);
    OpenIsDistinct(p.delivered);
  }

  ghost function OvertakenCells(delivered: seq<Msg>): (cells: set<Cell>)
    ensures forall c :: c in cells <==> Overtaken(delivered, c)
  {
    set j | 0 <= j < |delivered| && delivered[j].Track? && Overtaken(delivered, delivered[j].cell)
      :: delivered[j].cell
  }

  // How many announcements of the first n chains were handled whose withdrawals were not.
  function Outstanding(p: Post, n: nat): nat
    requires n <= |p.tracks| && n <= |p.drops|
  {
    if n == 0 then 0
    else Outstanding(p, n - 1) + if p.drops[n - 1] < p.tracks[n - 1] then p.tracks[n - 1] - p.drops[n - 1] else 0
  }

  ghost function Stretch(cells: seq<Cell>, from: nat, to: nat): set<Cell>
    requires to <= |cells|
  {
    set j | from <= j < to :: cells[j]
  }

  lemma {:induction false} StretchSize(cells: seq<Cell>, from: nat, to: nat)
    requires to <= |cells|
    requires forall j :: 0 <= j < |cells| ==> cells[j].handle.serial == j
    ensures |Stretch(cells, from, to)| == if from < to then to - from else 0
  {
    if from < to {
      StretchSize(cells, from, to - 1);
      assert Stretch(cells, from, to) == Stretch(cells, from, to - 1) + {cells[to - 1]};
    }
  }

  // The chains' cells as far as their announcements were handled.
  ghost predicate Reached(ann: seq<seq<Cell>>, p: Post) {
    && |ann| == |p.tracks| == |p.drops|
    && forall k :: 0 <= k < |ann| ==> p.tracks[k] <= |ann[k]|
  }

  // A cell of the first n chains whose announcement was handled and whose withdrawal was
  // not.
  ghost predicate IsOutstanding(ann: seq<seq<Cell>>, p: Post, n: nat, c: Cell)
    requires Reached(ann, p) && n <= |ann|
  {
    var k, j := c.handle.chain, c.handle.serial;
    k < n && p.drops[k] <= j < p.tracks[k] && c == ann[k][j]
  }

  lemma {:induction false} OutstandingCount(ann: seq<seq<Cell>>, p: Post, n: nat) returns (cells: set<Cell>)
    requires Reached(ann, p) && Distinct(ann) && n <= |ann|
    ensures |cells| == Outstanding(p, n)
    ensures forall c :: c in cells <==> IsOutstanding(ann, p, n, c)
  {
    if n == 0 {
      cells := {};
    } else {
      var rest := OutstandingCount(ann, p, n - 1);
      var last := Stretch(ann[n - 1], p.drops[n - 1], p.tracks[n - 1]);
      StretchSize(ann[n - 1], p.drops[n - 1], p.tracks[n - 1]);
      forall c ensures c in last <==> IsOutstanding(ann, p, n, c) && c.handle.chain == n - 1 {}
      assert rest !! last;
      cells := rest + last;
    }
  }

  lemma {:induction false} SetOfDistinct(cells: seq<Cell>)
    requires forall i, j :: 0 <= i < j < |cells| ==> cells[i] != cells[j]
    ensures |set c | c in cells| == |cells|
  {
    if cells != [] {
      var front, last := cells[..|cells| - 1], cells[|cells| - 1];
      SetOfDistinct(front);
      assert cells == front + [last];
      assert (set c | c in cells) == (set c | c in front) + {last};
    }
  }

  lemma OvertakenIsWithdrawn(ann: seq<seq<Cell>>, p: Post, c: Cell)
    requires DeliveryInv(ann, p) && Distinct(ann) && Overtaken(p.delivered, c)
    ensures var k, j := c.handle.chain, c.handle.serial;
            k < |ann| && j < |ann[k]| && c == ann[k][j] && j < p.tracks[k] && j < p.drops[k]
  {
    var i, l :| 0 <= i < l < |p.delivered| && p.delivered[i] == Drop(c) && p.delivered[l] == Track(c);
    assert Counted(ann, p, p.delivered[i]) && Counted(ann, p, p.delivered[l]);
  }

  lemma StoredIsCounted(ann: seq<seq<Cell>>, p: Post, c: Cell)
    requires DeliveryInv(ann, p) && Distinct(ann) && Reached(ann, p)
    ensures c in p.store <==> Overtaken(p.delivered, c) || IsOutstanding(ann, p, |ann|, c)
    ensures !(Overtaken(p.delivered, c) && IsOutstanding(ann, p, |ann|, c))
  {
    if c in p.store {
      StoredWasAnnounced(ann, p, c);
      StoreContents(ann, p, c.handle.chain, c.handle.serial);
    } else if IsOutstanding(ann, p, |ann|, c) {
      StoreContents(ann, p, c.handle.chain, c.handle.serial);
    }
    if Overtaken(p.delivered, c) {
      OvertakenIsWithdrawn(ann, p, c);
      StoreContents(ann, p, c.handle.chain, c.handle.serial);
    }
  }

  lemma DisjointCount(store: seq<Cell>, a: set<Cell>, b: set<Cell>)
    requires forall i, j :: 0 <= i < j < |store| ==> store[i] != store[j]
    requires forall c :: (c in store <==> c in a || c in b) && !(c in a && c in b)
    ensures |store| == |a| + |b|
  {
    SetOfDistinct(store);
    assert (set c | c in store) == a + b && a !! b;
  }

  // In any order of delivery and in every state the store holds as many cells as there
  // are handled announcements without a handled withdrawal, and overtaken cells.
  lemma StoreCount(ann: seq<seq<Cell>>, p: Post)
    requires DeliveryInv(ann, p) && Distinct(ann)
    ensures |p.store| == Outstanding(p, |ann|) + |OvertakenCells(p.delivered)|
  {
    assert Reached(ann, p);
    StoreNoRepeats(p);
    var outstanding := OutstandingCount(ann, p, |ann|);
    var overtaken := OvertakenCells(p.delivered);
    forall c
      ensures (c in p.store <==> c in outstanding || c in overtaken) && !(c in outstanding && c in overtaken)
    {
      StoredIsCounted(ann, p, c);
    }
    DisjointCount(p.store, outstanding, overtaken);
  }

  lemma {:induction false} AtMostOnePerChain(chains: seq<nat>, n: nat)
    requires forall i :: 0 <= i < |chains| ==> chains[i] < n
    requires forall i, j :: 0 <= i < j < |chains| ==> chains[i] != chains[j]
    ensures |chains| <= n
  {
    assert |chains| > 0 ==> chains[0] < n;
    if n == 0 {
    } else if i :| 0 <= i < |chains| && chains[i] == n - 1 {
      var rest := chains[..i] + chains[i + 1..];
      AtMostOnePerChain(rest, n - 1);
    } else {
      AtMostOnePerChain(chains, n - 1);
    }
  }
}
