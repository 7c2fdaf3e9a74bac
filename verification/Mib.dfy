// The publisher of a chain: it announces a cell once it has decoded its broadcast
// channel and withdraws it when the tracker reports that lock was lost.

module Mib {
  import opened Radio
  import opened TagStream
  import opened Messages

  // What the signal library answers in one call.
  datatype Decoding = Decoding(initFails: bool, found: bool, info: MibInfo)

  datatype State = State(
    published: bool, current: Option<Cell>,
    cellId: int, cp: CpType,   // the cell the decoder is set up for
    serial: nat,               // message objects made so far
    exited: bool)

  const INIT := State(false, None, 0, Normal, 0, false)

  // The state after a call, the messages sent and the number of half frames consumed.
  datatype Outcome = Outcome(state: State, sent: seq<Msg>, consumed: nat)

  predicate Reinits(s: State, h: Head)
    requires |h.cellIds| == 1 && |h.cps| == 1
  {
    h.cellIds[0] != s.cellId || h.cps[0] != s.cp
  }

  // A call that is offered n half frames reads the tags of the first one only.
  function Respond(exitOnSuccess: bool, chain: nat, s: State, h: Head, n: nat, a: Decoding): Outcome {
    if h.lost then
      Outcome(s.(published := false, current := None),
              if s.published && s.current.Some? then [Drop(s.current.value)] else [], 1)
    else if s.published || |h.cellIds| != 1 || |h.cps| != 1 then
      Outcome(s, [], 1)
    else
      var t := s.(cellId := h.cellIds[0], cp := h.cps[0]);
      if Reinits(s, h) && a.initFails then Outcome(t, [], 1)
      else if !a.found then Outcome(t, [], n)
      else
        var cell := Cell(Handle(chain, s.serial), Dict(Some(t.cellId), t.cp, a.info));
        Outcome(t.(published := true, current := Some(cell), serial := s.serial + 1,
                    exited := s.exited || exitOnSuccess),
                [Track(cell)], if exitOnSuccess then 0 else n)
  }

  // A call that takes up the cell its tags name.
  predicate Looks(s: State, h: Head) {
    !h.lost && !s.published && |h.cellIds| == 1 && |h.cps| == 1
  }

  // A call that announces a cell.
  predicate Publishes(s: State, h: Head, a: Decoding) {
    Looks(s, h) && !(Reinits(s, h) && a.initFails) && a.found
  }

  // A call that gets as far as decoding: it looks at a cell that the decoder was set up
  // for, or setting it up succeeds.
  predicate Attempts(s: State, h: Head, a: Decoding) {
    Looks(s, h) && ((h.cellIds[0] == s.cellId && h.cps[0] == s.cp) || !a.initFails)
  }

  // What a call consumes. It passes its first half frame only when it gets as far as
  // decoding. Then it consumes all it was offered, or nothing when it exits.
  lemma ConsumesWhatItDecodes(exitOnSuccess: bool, chain: nat, s: State, h: Head, n: nat, a: Decoding)
    ensures var o := Respond(exitOnSuccess, chain, s, h, n, a);
            o.consumed ==
            if !Attempts(s, h, a) then 1 else if a.found && exitOnSuccess then 0 else n
  {
  }

  // A failed initialisation for another cell, or for another prefix of the same cell,
  // announces nothing and leaves the decoder set up for the tags.
  lemma FailedInitAnnouncesNothing(exitOnSuccess: bool, chain: nat, s: State, h: Head, n: nat, a: Decoding)
    requires !h.lost && !s.published && |h.cellIds| == 1 && |h.cps| == 1
    requires (h.cellIds[0] != s.cellId || h.cps[0] != s.cp) && a.initFails
    ensures Respond(exitOnSuccess, chain, s, h, n, a) == Outcome(s.(cellId := h.cellIds[0], cp := h.cps[0]), [], 1)
  {
  }

  datatype Visit = Visit(head: Head, n: nat, answer: Decoding)

  // The publisher after these calls.
  function Visited(exitOnSuccess: bool, chain: nat, s: State, visits: seq<Visit>): State {
    if visits == [] then s
    else
      var t, v := Visited(exitOnSuccess, chain, s, visits[..|visits| - 1]), visits[|visits| - 1];
      Respond(exitOnSuccess, chain, t, v.head, v.n, v.answer).state
  }

  ghost predicate NoneLooks(exitOnSuccess: bool, chain: nat, s: State, visits: seq<Visit>) {
    forall i :: 0 <= i < |visits| ==> !Looks(Visited(exitOnSuccess, chain, s, visits[..i]), visits[i].head)
  }

  lemma {:induction false} UnlookedKeepsDecoder(exitOnSuccess: bool, chain: nat, s: State, visits: seq<Visit>)
    requires NoneLooks(exitOnSuccess, chain, s, visits)
    ensures var t := Visited(exitOnSuccess, chain, s, visits); t.cellId == s.cellId && t.cp == s.cp
  {
    if visits != [] {
      var front := visits[..|visits| - 1];
      forall i | 0 <= i < |front| ensures !Looks(Visited(exitOnSuccess, chain, s, front[..i]), front[i].head) {
        assert front[..i] == visits[..i];
      }
      UnlookedKeepsDecoder(exitOnSuccess, chain, s, front);
      assert !Looks(Visited(exitOnSuccess, chain, s, visits[..|front|]), visits[|front|].head);
    }
  }

  // A failed initialisation is not tried again for the same cell. Whatever the call that
  // looked at a cell was answered, and whatever calls came in between as long as none of
  // them looked at a cell, the next look at the same cell decodes: it announces exactly
  // when the cell is found, even if another initialisation would fail.
  lemma SecondLookDecodes(exitOnSuccess: bool, chain: nat, s: State, first: Visit, visits: seq<Visit>, next: Visit)
    requires Looks(s, first.head)
    requires var t := Respond(exitOnSuccess, chain, s, first.head, first.n, first.answer).state;
             && NoneLooks(exitOnSuccess, chain, t, visits)
             && Looks(Visited(exitOnSuccess, chain, t, visits), next.head)
    requires next.head.cellIds == first.head.cellIds && next.head.cps == first.head.cps
    ensures var t := Respond(exitOnSuccess, chain, s, first.head, first.n, first.answer).state;
            var u := Visited(exitOnSuccess, chain, t, visits);
            Publishes(u, next.head, next.answer) <==> next.answer.found
  {
    UnlookedKeepsDecoder(exitOnSuccess, chain,
                         Respond(exitOnSuccess, chain, s, first.head, first.n, first.answer).state, visits);
  }

  // The log of a publisher that announced these cells, the last one still open or not.
  function Log(cells: seq<Cell>, open: bool): seq<Msg> {
    if cells == [] then []
    else Log(cells[..|cells| - 1], false) + [Track(cells[|cells| - 1])]
         + if open then [] else [Drop(cells[|cells| - 1])]
  }

  function Cells(log: seq<Msg>): seq<Cell> {
    if log == [] then []
    else Cells(log[..|log| - 1]) + if log[|log| - 1].Track? then [log[|log| - 1].cell] else []
  }

  function Withdrawn(log: seq<Msg>): seq<Cell> {
    if log == [] then []
    else Withdrawn(log[..|log| - 1]) + if log[|log| - 1].Drop? then [log[|log| - 1].cell] else []
  }

  // published, the current cell and the log of messages tell the same story, in which
  // announcements and withdrawals of the same object alternate.
  ghost predicate Consistent(s: State, log: seq<Msg>) {
    && log == Log(Cells(log), s.published)
    && s.serial == |Cells(log)|
    && (s.published <==> s.current.Some?)
    && (s.published ==> Cells(log) != [] && s.current.value == Cells(log)[s.serial - 1])
  }

  lemma CellsExtend(log: seq<Msg>, m: Msg)
    ensures Cells(log + [m]) == if m.Track? then Cells(log) + [m.cell] else Cells(log)
  {
    assert (log + [m])[..|log|] == log;
  }

  lemma LogClose(cells: seq<Cell>)
    requires cells != []
    ensures Log(cells, true) + [Drop(cells[|cells| - 1])] == Log(cells, false)
  {
  }

  lemma LogOpen(cells: seq<Cell>, c: Cell)
    ensures Log(cells, false) + [Track(c)] == Log(cells + [c], true)
  {
    assert (cells + [c])[..|cells|] == cells;
  }

  // Every call keeps the log alternating; the object withdrawn is the one announced
  // just before.
  lemma CallKeepsLog(exitOnSuccess: bool, chain: nat, s: State, log: seq<Msg>, h: Head, n: nat, a: Decoding)
    requires Consistent(s, log)
    ensures var o := Respond(exitOnSuccess, chain, s, h, n, a);
            Consistent(o.state, log + o.sent)
  {
    var o := Respond(exitOnSuccess, chain, s, h, n, a);
    var cells := Cells(log);
    if o.sent == [] {
      assert log + o.sent == log;
    } else {
      CellsExtend(log, o.sent[0]);
      if h.lost {
        LogClose(cells);
      } else {
        LogOpen(cells, o.sent[0].cell);
      }
    }
  }

  // Position by position: message 2j announces the j-th cell and message 2j + 1, if it
  // was sent, withdraws it.
  lemma {:induction false} LogAlternates(cells: seq<Cell>, open: bool, j: nat)
    requires j < |cells|
    ensures |Log(cells, open)| == 2 * |cells| - if open then 1 else 0
    ensures Log(cells, open)[2 * j] == Track(cells[j])
    ensures j + 1 < |cells| || !open ==> Log(cells, open)[2 * j + 1] == Drop(cells[j])
  {
    var front := cells[..|cells| - 1];
    if front != [] {
      LogAlternates(front, false, if j < |front| then j else 0);
    }
  }

  // The same by position in the log of a publisher.
  lemma LogShape(s: State, log: seq<Msg>, i: nat)
    requires Consistent(s, log) && i < |log|
    ensures i / 2 < |Cells(log)|
    ensures log[i] == if i % 2 == 0 then Track(Cells(log)[i / 2]) else Drop(Cells(log)[i / 2])
    ensures i % 2 == 1 ==> log[i - 1] == Track(Cells(log)[i / 2])
  {
    var cells, j := Cells(log), i / 2;
    assert cells != [];
    LogAlternates(cells, s.published, |cells| - 1);
    assert i == 2 * j || i == 2 * j + 1;
    LogAlternates(cells, s.published, j);
  }

  lemma OpenEnd(s: State, log: seq<Msg>)
    requires Consistent(s, log)
    ensures s.published <==> |log| % 2 == 1
    ensures s.published ==> s.current == Some(log[|log| - 1].cell)
  {
    var cells := Cells(log);
    if cells != [] {
      LogAlternates(cells, s.published, |cells| - 1);
    }
  }

  // Every message announces or withdraws.
  lemma {:induction false} LogLength(log: seq<Msg>)
    ensures |Cells(log)| + |Withdrawn(log)| == |log|
  {
    if log != [] {
      LogLength(log[..|log| - 1]);
    }
  }

  lemma WithdrawnExtend(log: seq<Msg>, m: Msg)
    ensures Withdrawn(log + [m]) == if m.Drop? then Withdrawn(log) + [m.cell] else Withdrawn(log)
  {
    assert (log + [m])[..|log|] == log;
  }

  lemma {:induction false} AllWithdrawn(cells: seq<Cell>)
    ensures Withdrawn(Log(cells, false)) == cells
  {
    if cells != [] {
      var front, last := cells[..|cells| - 1], cells[|cells| - 1];
      AllWithdrawn(front);
      WithdrawnExtend(Log(front, false), Track(last));
      WithdrawnExtend(Log(front, false) + [Track(last)], Drop(last));
      assert front + [last] == cells;
    }
  }

  // Every announced cell but the open one was withdrawn, in the same order.
  lemma WithdrawnOfLog(cells: seq<Cell>, open: bool)
    requires open ==> cells != []
    ensures Withdrawn(Log(cells, open)) == cells[..|cells| - if open then 1 else 0]
  {
    if open {
      var front, last := cells[..|cells| - 1], cells[|cells| - 1];
      AllWithdrawn(front);
      WithdrawnExtend(Log(front, false), Track(last));
      assert Log(front, false) + [Track(last)] + [] == Log(front, false) + [Track(last)];
    } else {
      AllWithdrawn(cells);
    }
  }

  // A reader of the log that has seen t announcements and d withdrawals, in order.
  lemma NextInLog(cells: seq<Cell>, open: bool, t: nat, d: nat)
    requires d <= t <= d + 1 && t + d < |Log(cells, open)|
    ensures d < |cells|
    ensures Log(cells, open)[t + d] == if t == d then Track(cells[d]) else Drop(cells[d])
    ensures t != d ==> d < |cells| - if open then 1 else 0
  {
    assert cells != [];
    LogAlternates(cells, open, 0);
    LogAlternates(cells, open, d);
  }

  class MibBlock {
    const exitOnSuccess: bool
    const chain: nat

    var cellPublished: bool
    var currentTrackingCell: Option<Cell>
    var cellId: int
    var cp: CpType
    var trackingLostTags: seq<Tag>
    var cellIdTags: seq<int>
    var cpTypeTags: seq<CpType>
    var made: nat
    var done: bool

    // every message sent so far
    ghost var log: seq<Msg>

    ghost function Abs(): State
      reads this
    {
      State(cellPublished, currentTrackingCell, cellId, cp, made, done)
    }

    ghost predicate Valid()
      reads this
    {
      Consistent(Abs(), log)
    }

    constructor (chain: nat, exitOnSuccess: bool)
      ensures Valid() && Abs() == INIT && log == []
      ensures this.chain == chain && this.exitOnSuccess == exitOnSuccess
    {
      this.chain, this.exitOnSuccess := chain, exitOnSuccess;
      cellPublished, currentTrackingCell := false, None;
      cellId, cp := 0, Normal;
      trackingLostTags, cellIdTags, cpTypeTags := [], [], [];
      made, done := 0, false;
      log := [];
    }

    // A new message object.
    method PackCell(info: MibInfo) returns (cell: Cell)
      modifies this`made
      ensures made == old(made) + 1
      ensures cell == Cell(Handle(chain, old(made)), Dict(Some(cellId), cp, info))
    {
      cell := Cell(Handle(chain, made), Dict(Some(cellId), cp, info));
      made := made + 1;
    }

    // One call with the read position at an item and n half frames on offer.
    method GeneralWork(tags: seq<Tag>, read: nat, n: nat, a: Decoding) returns (sent: seq<Msg>, consumed: nat)
      requires Valid() && n > 0
      modifies this
      ensures Valid() && log == old(log) + sent
      ensures Outcome(Abs(), sent, consumed) ==
              Respond(exitOnSuccess, chain, old(Abs()), HeadAt(tags, read), n, a)
      ensures consumed == if !Attempts(old(Abs()), HeadAt(tags, read), a) then 1
                          else if a.found && exitOnSuccess then 0
                          else n
    {
      ConsumesWhatItDecodes(exitOnSuccess, chain, Abs(), HeadAt(tags, read), n, a);
      CallKeepsLog(exitOnSuccess, chain, Abs(), log, HeadAt(tags, read), n, a);
      sent, consumed := Decide(tags, read, n, a);
      log := log + sent;
    }

    method Decide(tags: seq<Tag>, read: nat, n: nat, a: Decoding) returns (sent: seq<Msg>, consumed: nat)
      requires cellPublished <==> currentTrackingCell.Some?
      modifies this`cellPublished, this`currentTrackingCell, this`cellId, this`cp, this`made, this`done,
               this`trackingLostTags, this`cellIdTags, this`cpTypeTags
      ensures Outcome(Abs(), sent, consumed) ==
              Respond(exitOnSuccess, chain, old(Abs()), HeadAt(tags, read), n, a)
    {
      sent := [];
      trackingLostTags := At(tags, read);
      if AnyLost(trackingLostTags) {
        if cellPublished {
          sent := [Drop(currentTrackingCell.value)];
        }
        cellPublished := false;
        currentTrackingCell := None;
        trackingLostTags := [];
        return sent, 1;
      }
      if cellPublished {
        return sent, 1;
      }
      cellIdTags := CellIds(At(tags, read));
      cpTypeTags := Cps(At(tags, read));
      if |cellIdTags| != 1 || |cpTypeTags| != 1 {
        return sent, 1;
      }
      var id, cpType := cellIdTags[0], cpTypeTags[0];
      cellIdTags, cpTypeTags := [], [];
      if id != cellId || cpType != cp {
        cellId := id;
        cp := cpType;
        if a.initFails {
          return sent, 1;
        }
      }
      if a.found {
        var cell := PackCell(a.info);
        currentTrackingCell := Some(cell);
        sent := [Track(cell)];
        cellPublished := true;
        if exitOnSuccess {
          done := true;
          return sent, 0;
        }
      }
      consumed := n;
    }
  }
}
