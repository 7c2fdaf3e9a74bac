// The store of tracked cells: a list changed by two message handlers.

module CellStore {
  import opened Radio
  import opened Messages

  // std::list::remove compares pointers, so it removes by identity.
  function Remove(cells: seq<Cell>, c: Cell): seq<Cell> {
    if cells == [] then []
    else (if cells[0].handle == c.handle then [] else [cells[0]]) + Remove(cells[1..], c)
  }

  // Removal by content: the cells whose dictionaries are equal go.
  function RemoveEqual(cells: seq<Cell>, c: Cell): seq<Cell> {
    if cells == [] then []
    else (if cells[0].dict == c.dict then [] else [cells[0]]) + RemoveEqual(cells[1..], c)
  }

  // A message without a cell id, or with the sentinel, is refused.
  const BAD_CELL_ID: int := 1000

  predicate Acceptable(c: Cell) {
    c.dict.cellId.Some? && c.dict.cellId.value != BAD_CELL_ID
  }

  function HandleMsg(cells: seq<Cell>, m: Msg): seq<Cell> {
    match m
    case Track(c) => if Acceptable(c) then cells + [c] else cells
    case Drop(c) => Remove(cells, c)
  }

  // The store after handling messages in this order.
  function After(msgs: seq<Msg>): seq<Cell> {
    if msgs == [] then [] else HandleMsg(After(msgs[..|msgs| - 1]), msgs[|msgs| - 1])
  }

  predicate Dropped(c: Cell, msgs: seq<Msg>) {
    exists i :: 0 <= i < |msgs| && msgs[i].Drop? && msgs[i].cell.handle == c.handle
  }

  // The cells that were announced and not withdrawn afterwards, in the order in which
  // they were announced.
  function Open(msgs: seq<Msg>): seq<Cell> {
    if msgs == [] then []
    else
      (if msgs[0].Track? && Acceptable(msgs[0].cell) && !Dropped(msgs[0].cell, msgs[1..])
       then [msgs[0].cell] else [])
      + Open(msgs[1..])
  }

  lemma {:induction false} RemoveConcat(a: seq<Cell>, b: seq<Cell>, c: Cell)
    ensures Remove(a + b, c) == Remove(a, c) + Remove(b, c)
  {
    if a == [] {
      assert a + b == b;
    } else {
      assert (a + b)[1..] == a[1..] + b;
      RemoveConcat(a[1..], b, c);
    }
  }

  lemma DroppedExtend(c: Cell, msgs: seq<Msg>, m: Msg)
    ensures Dropped(c, msgs + [m]) <==> Dropped(c, msgs) || (m.Drop? && m.cell.handle == c.handle)
  {
    if Dropped(c, msgs) {
      var i :| 0 <= i < |msgs| && msgs[i].Drop? && msgs[i].cell.handle == c.handle;
      assert (msgs + [m])[i] == msgs[i];
    }
    assert (msgs + [m])[|msgs|] == m;
  }

  lemma NotDroppedLater(c: Cell, msgs: seq<Msg>, i: nat)
    requires i < |msgs| && !Dropped(c, msgs[i + 1..])
    ensures forall q :: i < q < |msgs| ==> msgs[q] != Drop(c)
  {
    forall q | i < q < |msgs| ensures msgs[q] != Drop(c) {
      assert msgs[i + 1..][q - i - 1] == msgs[q];
    }
  }

  lemma {:induction false} OpenExtend(msgs: seq<Msg>, m: Msg)
    ensures Open(msgs + [m]) == HandleMsg(Open(msgs), m)
  {
    if msgs == [] {
      assert [m][1..] == [];
    } else {
      var first, rest := msgs[0], msgs[1..];
      assert (msgs + [m])[1..] == rest + [m];
      OpenExtend(rest, m);
      DroppedExtend(first.cell, rest, m);
      if m.Drop? {
        var head := if first.Track? && Acceptable(first.cell) && !Dropped(first.cell, rest) then [first.cell] else [];
        RemoveConcat(head, Open(rest), m.cell);
      }
    }
  }

  // Whatever the order of delivery, the list is the announced cells that no later
  // message withdrew, oldest first.
  lemma {:induction false} StoreIsOpen(msgs: seq<Msg>)
    ensures After(msgs) == Open(msgs)
  {
    if msgs != [] {
      var front := msgs[..|msgs| - 1];
      StoreIsOpen(front);
      OpenExtend(front, msgs[|msgs| - 1]);
      assert front + [msgs[|msgs| - 1]] == msgs;
    }
  }

  lemma {:induction false} InOpen(msgs: seq<Msg>, c: Cell)
    ensures c in Open(msgs) <==>
            Acceptable(c) && exists i :: 0 <= i < |msgs| && msgs[i] == Track(c) && !Dropped(c, msgs[i + 1..])
  {
    if msgs != [] {
      InOpen(msgs[1..], c);
      forall i | 0 <= i < |msgs| - 1 ensures msgs[1..][i] == msgs[i + 1] && msgs[1..][i + 1..] == msgs[i + 2..] {}
      if c in Open(msgs[1..]) {
        var i :| 0 <= i < |msgs[1..]| && msgs[1..][i] == Track(c) && !Dropped(c, msgs[1..][i + 1..]);
        assert msgs[i + 1] == Track(c) && !Dropped(c, msgs[i + 2..]);
      }
      if i :| 0 <= i < |msgs| && msgs[i] == Track(c) && !Dropped(c, msgs[i + 1..]) {
        if i > 0 {
          assert msgs[1..][i - 1] == Track(c) && msgs[1..][i..] == msgs[i + 1..];
        }
      }
    }
  }

  // What stays after a removal: the cells under other handles.
  // Message i announced a cell that no later message withdrew.
  predicate Stands(msgs: seq<Msg>, i: nat)
    requires i < |msgs|
  {
    msgs[i].Track? && Acceptable(msgs[i].cell) && !Dropped(msgs[i].cell, msgs[i + 1..])
  }

  ghost predicate StandsLast(msgs: seq<Msg>, i: nat) {
    i < |msgs| && Stands(msgs, i) && forall q :: i < q < |msgs| ==> !Stands(msgs, q)
  }

  // The last cell of the list is that of the last announcement that stands; the list is
  // empty when none does.
  lemma {:induction false} LatestMeans(msgs: seq<Msg>)
    ensures if Open(msgs) == [] then forall i :: 0 <= i < |msgs| ==> !Stands(msgs, i)
            else exists i: nat :: StandsLast(msgs, i) && Open(msgs)[|Open(msgs)| - 1] == msgs[i].cell
  {
    if msgs != [] {
      var rest := msgs[1..];
      LatestMeans(rest);
      forall i | 0 < i < |msgs| ensures Stands(msgs, i) <==> Stands(rest, i - 1) {
        assert rest[i..] == msgs[i + 1..];
      }
      if Open(rest) != [] {
        var i: nat :| StandsLast(rest, i) && Open(rest)[|Open(rest)| - 1] == rest[i].cell;
        assert StandsLast(msgs, i + 1);
      } else if Stands(msgs, 0) {
        assert StandsLast(msgs, 0);
      }
    }
  }

  lemma {:induction false} RemoveMeans(cells: seq<Cell>, c: Cell)
    ensures forall x :: x in Remove(cells, c) <==> x in cells && x.handle != c.handle
  {
    if cells != [] {
      RemoveMeans(cells[1..], c);
      assert cells == [cells[0]] + cells[1..];
    }
  }

  lemma {:induction false} RemoveAbsent(cells: seq<Cell>, c: Cell)
    ensures (forall l :: 0 <= l < |cells| ==> cells[l].handle != c.handle) ==> Remove(cells, c) == cells
    ensures (forall l :: 0 <= l < |cells| ==> cells[l].dict != c.dict) ==> RemoveEqual(cells, c) == cells
  {
    if cells != [] {
      RemoveAbsent(cells[1..], c);
    }
  }

  // Removing a cell that no other resembles.
  lemma {:induction false} RemoveOnly(cells: seq<Cell>, i: nat)
    requires i < |cells|
    requires forall l :: 0 <= l < |cells| && l != i ==>
               cells[l].handle != cells[i].handle && cells[l].dict != cells[i].dict
    ensures Remove(cells, cells[i]) == RemoveEqual(cells, cells[i]) == cells[..i] + cells[i + 1..]
  {
    if i == 0 {
      RemoveAbsent(cells[1..], cells[0]);
    } else {
      RemoveOnly(cells[1..], i - 1);
    }
  }

  class Store {
    var cells: seq<Cell>

    // every message handled so far
    ghost var handled: seq<Msg>

    ghost predicate Valid()
      reads this
    {
      cells == After(handled)
    }

    constructor ()
      ensures Valid() && handled == []
    {
      cells, handled := [], [];
    }

    // False where the handler throws.
    method TrackCell(msg: Cell) returns (ok: bool)
      requires Valid()
      modifies this
      ensures Valid() && handled == old(handled) + [Track(msg)]
      ensures ok <==> msg.dict.cellId.Some? && msg.dict.cellId.value != 1000
      ensures cells == if ok then old(cells) + [msg] else old(cells)
    {
      handled := handled + [Track(msg)];
      var cellId := if msg.dict.cellId.Some? then msg.dict.cellId.value else BAD_CELL_ID;
      if cellId == BAD_CELL_ID {
        return false;
      }
      cells := cells + [msg];
      ok := true;
    }

    // No cell under the handle stays, every other does, and what stays is listed in the
    // order of the announcements.
    method DropCell(msg: Cell)
      requires Valid()
      modifies this
      ensures Valid() && handled == old(handled) + [Drop(msg)]
      ensures forall c :: c in cells <==> c in old(cells) && c.handle != msg.handle
      ensures cells == Open(handled)
    {
      RemoveMeans(cells, msg);
      handled := handled + [Drop(msg)];
      cells := Remove(cells, msg);
      StoreIsOpen(handled);
    }

    method Cells() returns (r: seq<Cell>)
      requires Valid()
      ensures r == Open(handled)
    {
      StoreIsOpen(handled);
      r := cells;
    }

    method Tracking() returns (r: bool)
      requires Valid()
      ensures r <==> Open(handled) != []
    {
      StoreIsOpen(handled);
      r := cells != [];
    }

    // The cell announced last among those still open.
    method LatestCell() returns (r: Option<Cell>)
      requires Valid()
      ensures r == if Open(handled) == [] then None else Some(Open(handled)[|Open(handled)| - 1])
      ensures if r.None? then forall i :: 0 <= i < |handled| ==> !Stands(handled, i)
              else exists i: nat :: StandsLast(handled, i) && r == Some(handled[i].cell)
    {
      StoreIsOpen(handled);
      LatestMeans(handled);
      r := if cells == [] then None else Some(cells[|cells| - 1]);
    }
  }
}
