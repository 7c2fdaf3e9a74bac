// The secondary synchronisation block: one half frame in, one half frame out.

module Sss {
  import opened Radio
  import opened TagStream

  // A cell identity group, section 6.11 of 3GPP TS 36.211.
  type GroupId = n: int | 0 <= n < 168

  // What the signal library answers: no group when the two halves of the signal do not
  // match.
  datatype Detection = Detection(group: Option<GroupId>, cp: CpType)

  // The half frame that leaves the block. When the group is not found the block writes
  // nothing: the output keeps whatever the buffer held, and no tag is added.
  function Tagged<D>(nId2: nat, f: Frame<D>, a: Detection, stale: D): Frame<D> {
    if f.head.lost then Frame(f.data, Head(true, [], []))
    else if a.group.None? then Frame(stale, Head(false, [], []))
    else Frame(f.data, Head(false, [3 * a.group.value + nId2], [a.cp]))
  }

  // A half frame is passed on unchanged and keeps a loss report; it gains exactly one
  // cell id and one cyclic prefix, both readable back, or none; without a group nothing
  // is copied.
  lemma TaggedMeans<D>(nId2: nat, f: Frame<D>, a: Detection, stale: D)
    requires nId2 < 3
    ensures var g := Tagged(nId2, f, a, stale);
            && g.head.lost == f.head.lost
            && (g.head.lost || a.group.Some? ==> g.data == f.data)
            && (!g.head.lost && a.group.None? ==> g.data == stale)
            && (|g.head.cellIds| == 1 <==> !g.head.lost && a.group.Some?)
            && |g.head.cellIds| == |g.head.cps| <= 1
            && (|g.head.cellIds| == 1 ==>
                  && g.head.cellIds[0] / 3 == a.group.value && g.head.cellIds[0] % 3 == nId2
                  && g.head.cps[0] == a.cp)
  {
    if !f.head.lost && a.group.Some? {
      assert (3 * a.group.value + nId2) / 3 == a.group.value;
    }
  }

  class SssBlock {
    const nId2: nat
    var subframeIdx: int
    var trackingLostTags: seq<Tag>
    var itemsRead: nat
    var itemsWritten: nat

    ghost predicate Valid()
      reads this
    {
      itemsRead == itemsWritten && itemsRead % HALF_FRAME_LENGTH == 0 && subframeIdx == -1
    }

    constructor (nId2: nat)
      ensures Valid() && this.nId2 == nId2
    {
      this.nId2 := nId2;
      subframeIdx := -1;
      trackingLostTags := [];
      itemsRead, itemsWritten := 0, 0;
    }

    // One call. The scheduler itself forwards the tags of the half frame; added are the
    // ones the block puts on its output.
    method Work(inp: array<Cf>, tags: seq<Tag>, out: array<Cf>, a: Detection)
      returns (produced: nat, added: seq<Tag>)
      requires Valid() && inp != out
      requires inp.Length >= HALF_FRAME_LENGTH && out.Length >= HALF_FRAME_LENGTH
      modifies this, out
      ensures Valid() && produced == HALF_FRAME_LENGTH && itemsWritten == old(itemsWritten) + produced
      ensures var f := Frame(inp[..HALF_FRAME_LENGTH], HeadAt(tags, old(itemsRead)));
              var g := Tagged(nId2, f, a, old(out[..HALF_FRAME_LENGTH]));
              && out[..HALF_FRAME_LENGTH] == g.data
              && added == TagsOf(g.head.(lost := false), old(itemsWritten))
    {
      added := [];
      produced := HALF_FRAME_LENGTH;
      trackingLostTags := At(tags, itemsRead);
      itemsRead := itemsRead + HALF_FRAME_LENGTH;
      var offset := itemsWritten;
      itemsWritten := itemsWritten + HALF_FRAME_LENGTH;
      if AnyLost(trackingLostTags) {
        subframeIdx := -1;
        trackingLostTags := [];
        forall i | 0 <= i < HALF_FRAME_LENGTH { out[i] := inp[i]; }
        return;
      }
      if a.group.None? {
        return;
      }
      var cellId := 3 * a.group.value + nId2;
      added := added + [CellId(offset, cellId)];
      added := added + [CyclicPrefix(offset, a.cp)];
      forall i | 0 <= i < HALF_FRAME_LENGTH { out[i] := inp[i]; }
    }
  }
}
