// What the publisher should do, told from the calls it was given: no flag, no current
// cell, no decoder fields. The theorem MibMatchesHistory ties its fields, its messages
// and what it consumed to these definitions after every run.

module MibHistory {
  import opened Radio
  import opened TagStream
  import opened Messages
  import opened Mib

  predicate OneCell(h: Head) {
    !h.lost && |h.cellIds| == 1 && |h.cps| == 1
  }

  // A cell is open: some call announced one, and no half frame looked at since reported a
  // loss (OpenMeans).
  predicate Open(vs: seq<Visit>)
    decreases |vs|, 3
  {
    vs != [] && !vs[|vs| - 1].head.lost && (Open(vs[..|vs| - 1]) || Announces(vs))
  }

  // The last call looked at the cell its tags name.
  predicate LooksAt(vs: seq<Visit>)
    decreases |vs|, 0
  {
    vs != [] && OneCell(vs[|vs| - 1].head) && !Open(vs[..|vs| - 1])
  }

  // The tags of the latest look; the decoder starts with cell 0 and the normal prefix.
  function LastLook(vs: seq<Visit>): (int, CpType)
    decreases |vs|, 2
  {
    if vs == [] then (0, Normal)
    else if LooksAt(vs) then (vs[|vs| - 1].head.cellIds[0], vs[|vs| - 1].head.cps[0])
    else LastLook(vs[..|vs| - 1])
  }

  // It decoded: nothing had to be initialised, or that succeeded.
  predicate Decodes(vs: seq<Visit>): (b: bool)
    ensures b ==> vs != [] && OneCell(vs[|vs| - 1].head)
    decreases |vs|, 1
  {
    && LooksAt(vs)
    && var v := vs[|vs| - 1];
       (v.head.cellIds[0], v.head.cps[0]) == LastLook(vs[..|vs| - 1]) || !v.answer.initFails
  }

  predicate Announces(vs: seq<Visit>): (b: bool)
    ensures b ==> vs != [] && OneCell(vs[|vs| - 1].head)
    decreases |vs|, 2
  {
    Decodes(vs) && vs[|vs| - 1].answer.found
  }

  // The cells announced: new objects, with the tags and the answer of their calls.
  function CellsOf(chain: nat, vs: seq<Visit>): seq<Cell> {
    if vs == [] then []
    else
      var before, v := CellsOf(chain, vs[..|vs| - 1]), vs[|vs| - 1];
      if Announces(vs) then
        before + [Cell(Handle(chain, |before|), Dict(Some(v.head.cellIds[0]), v.head.cps[0], v.answer.info))]
      else before
  }

  // A loss report withdraws the open cell, which is the one announced last.
  function MessagesOf(chain: nat, vs: seq<Visit>): seq<Msg> {
    if vs == [] then []
    else
      var front := vs[..|vs| - 1];
      var cells := CellsOf(chain, vs);
      MessagesOf(chain, front)
      + if Announces(vs) then [Track(cells[|cells| - 1])]
        else if vs[|vs| - 1].head.lost && Open(front) && cells != [] then [Drop(cells[|cells| - 1])]
        else []
  }

  // A call that decoded consumes all it was offered, or nothing when it exits; any other
  // consumes one half frame.
  function Consumed(exitOnSuccess: bool, vs: seq<Visit>): nat {
    if vs == [] then 0
    else
      Consumed(exitOnSuccess, vs[..|vs| - 1])
      + if !Decodes(vs) then 1 else if exitOnSuccess && Announces(vs) then 0 else vs[|vs| - 1].n
  }

  // ---- The publisher as it runs

  datatype Progress = Progress(state: State, log: seq<Msg>, read: nat)

  function Run(exitOnSuccess: bool, chain: nat, vs: seq<Visit>): Progress {
    if vs == [] then Progress(INIT, [], 0)
    else
      var p, v := Run(exitOnSuccess, chain, vs[..|vs| - 1]), vs[|vs| - 1];
      var o := Respond(exitOnSuccess, chain, p.state, v.head, v.n, v.answer);
      Progress(o.state, p.log + o.sent, p.read + o.consumed)
  }

  lemma RunExtend(exitOnSuccess: bool, chain: nat, vs: seq<Visit>, v: Visit)
    ensures var p := Run(exitOnSuccess, chain, vs);
            var o := Respond(exitOnSuccess, chain, p.state, v.head, v.n, v.answer);
            Run(exitOnSuccess, chain, vs + [v]) == Progress(o.state, p.log + o.sent, p.read + o.consumed)
  {
    assert (vs + [v])[..|vs|] == vs;
  }

  ghost predicate FieldsAgree(exitOnSuccess: bool, chain: nat, s: State, vs: seq<Visit>) {
    var cells := CellsOf(chain, vs);
    && s.published == Open(vs)
    && (Open(vs) ==> cells != [])
    && s.current == (if Open(vs) then Some(cells[|cells| - 1]) else None)
    && (s.cellId, s.cp) == LastLook(vs)
    && s.serial == |cells|
    && s.exited == (exitOnSuccess && cells != [])
  }

  ghost predicate Agrees(exitOnSuccess: bool, chain: nat, p: Progress, vs: seq<Visit>) {
    && FieldsAgree(exitOnSuccess, chain, p.state, vs)
    && p.log == MessagesOf(chain, vs)
    && p.read == Consumed(exitOnSuccess, vs)
  }

  // What one more call does to each definition.
  lemma OneMore(vs: seq<Visit>, v: Visit)
    ensures var vs' := vs + [v];
            && (LooksAt(vs') <==> OneCell(v.head) && !Open(vs))
            && (Decodes(vs') <==>
                LooksAt(vs') && ((v.head.cellIds[0], v.head.cps[0]) == LastLook(vs) || !v.answer.initFails))
            && (Announces(vs') <==> Decodes(vs') && v.answer.found)
            && (Open(vs') <==> !v.head.lost && (Open(vs) || Announces(vs')))
            && LastLook(vs') == (if LooksAt(vs') then (v.head.cellIds[0], v.head.cps[0]) else LastLook(vs))
  {
    assert (vs + [v])[..|vs|] == vs;
  }

  lemma OneMoreCell(exitOnSuccess: bool, chain: nat, vs: seq<Visit>, v: Visit)
    ensures var vs', before := vs + [v], CellsOf(chain, vs);
            && CellsOf(chain, vs') == before
               + (if Announces(vs') then
                    [Cell(Handle(chain, |before|), Dict(Some(v.head.cellIds[0]), v.head.cps[0], v.answer.info))]
                  else [])
            && MessagesOf(chain, vs') == MessagesOf(chain, vs)
               + (if Announces(vs') then [Track(CellsOf(chain, vs')[|before|])]
                  else if v.head.lost && Open(vs) && before != [] then [Drop(before[|before| - 1])]
                  else [])
            && Consumed(exitOnSuccess, vs') == Consumed(exitOnSuccess, vs)
               + if !Decodes(vs') then 1 else if exitOnSuccess && Announces(vs') then 0 else v.n
  {
    assert (vs + [v])[..|vs|] == vs;
  }

  // The call against what it should do, in the terms of one more call.
  lemma CallDoes(exitOnSuccess: bool, chain: nat, s: State, vs: seq<Visit>, v: Visit)
    requires FieldsAgree(exitOnSuccess, chain, s, vs)
    ensures LooksAt(vs + [v]) <==> Looks(s, v.head)
    ensures Decodes(vs + [v]) <==> Attempts(s, v.head, v.answer)
    ensures Announces(vs + [v]) <==> Publishes(s, v.head, v.answer)
  {
    OneMore(vs, v);
  }

  lemma FieldsFollow(exitOnSuccess: bool, chain: nat, s: State, vs: seq<Visit>, v: Visit)
    requires FieldsAgree(exitOnSuccess, chain, s, vs)
    ensures FieldsAgree(exitOnSuccess, chain, Respond(exitOnSuccess, chain, s, v.head, v.n, v.answer).state, vs + [v])
  {
    CallDoes(exitOnSuccess, chain, s, vs, v);
    OneMore(vs, v);
    OneMoreCell(exitOnSuccess, chain, vs, v);
  }

  lemma OutputFollows(exitOnSuccess: bool, chain: nat, s: State, vs: seq<Visit>, v: Visit)
    requires FieldsAgree(exitOnSuccess, chain, s, vs)
    ensures var o := Respond(exitOnSuccess, chain, s, v.head, v.n, v.answer);
            && MessagesOf(chain, vs + [v]) == MessagesOf(chain, vs) + o.sent
            && Consumed(exitOnSuccess, vs + [v]) == Consumed(exitOnSuccess, vs) + o.consumed
  {
    CallDoes(exitOnSuccess, chain, s, vs, v);
    OneMoreCell(exitOnSuccess, chain, vs, v);
  }

  lemma CallAgrees(exitOnSuccess: bool, chain: nat, p: Progress, vs: seq<Visit>, v: Visit)
    requires Agrees(exitOnSuccess, chain, p, vs)
    ensures var o := Respond(exitOnSuccess, chain, p.state, v.head, v.n, v.answer);
            Agrees(exitOnSuccess, chain, Progress(o.state, p.log + o.sent, p.read + o.consumed), vs + [v])
  {
    FieldsFollow(exitOnSuccess, chain, p.state, vs, v);
    OutputFollows(exitOnSuccess, chain, p.state, vs, v);
  }

  // After any calls, with any half frames, offers and answers, the fields of the
  // publisher, its messages and what it consumed are the ones defined by those calls.
  lemma {:induction false} MibMatchesHistory(exitOnSuccess: bool, chain: nat, vs: seq<Visit>)
    ensures Agrees(exitOnSuccess, chain, Run(exitOnSuccess, chain, vs), vs)
  {
    if vs != [] {
      var front := vs[..|vs| - 1];
      MibMatchesHistory(exitOnSuccess, chain, front);
      CallAgrees(exitOnSuccess, chain, Run(exitOnSuccess, chain, front), front, vs[|vs| - 1]);
      assert front + [vs[|vs| - 1]] == vs;
    }
  }

  // ---- What the definitions say

  ghost predicate OpenSince(vs: seq<Visit>, i: nat) {
    i < |vs| && Announces(vs[..i + 1]) && forall j :: i < j < |vs| ==> !vs[j].head.lost
  }

  // A cell is open exactly when some call announced one and no later call looked at a
  // report of a loss.
  lemma {:induction false} OpenMeans(vs: seq<Visit>)
    ensures Open(vs) <==> exists i: nat :: OpenSince(vs, i)
  {
    if vs != [] {
      var front, m := vs[..|vs| - 1], |vs| - 1;
      OpenMeans(front);
      assert vs[..m + 1] == vs;
      if Open(front) && !vs[m].head.lost {
        var i: nat :| OpenSince(front, i);
        assert front[..i + 1] == vs[..i + 1];
        assert OpenSince(vs, i);
      } else if Announces(vs) {
        assert OpenSince(vs, m);
      }
      if i: nat :| OpenSince(vs, i) {
        if i < m {
          assert front[..i + 1] == vs[..i + 1];
          assert OpenSince(front, i);
        }
      }
    }
  }

  // Half frame f was consumed in call i, as its first or because the call decoded.
  ghost predicate ConsumedBy(exitOnSuccess: bool, vs: seq<Visit>, i: nat, f: nat) {
    && i < |vs|
    && Consumed(exitOnSuccess, vs[..i]) <= f < Consumed(exitOnSuccess, vs[..i + 1])
    && (f == Consumed(exitOnSuccess, vs[..i]) || Decodes(vs[..i + 1]))
  }

  // Every half frame a publisher consumed was the first of its call, or it was consumed in
  // a call that decoded a cell.
  lemma {:induction false} ConsumedInCall(exitOnSuccess: bool, vs: seq<Visit>, f: nat)
    requires f < Consumed(exitOnSuccess, vs)
    ensures exists i: nat :: ConsumedBy(exitOnSuccess, vs, i, f)
  {
    var front, m := vs[..|vs| - 1], |vs| - 1;
    assert vs[..m + 1] == vs;
    if f < Consumed(exitOnSuccess, front) {
      ConsumedInCall(exitOnSuccess, front, f);
      var i: nat :| ConsumedBy(exitOnSuccess, front, i, f);
      assert front[..i] == vs[..i] && front[..i + 1] == vs[..i + 1];
      assert ConsumedBy(exitOnSuccess, vs, i, f);
    } else {
      assert ConsumedBy(exitOnSuccess, vs, m, f);
    }
  }
}
