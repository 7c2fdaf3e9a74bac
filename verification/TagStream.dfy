// Stream tags. Blocks put them at absolute item offsets and look them up at their read
// position only; the model of the pipeline works with one head per half frame. The
// lemma HeadIsFrameHead shows that the two views agree as long as every tag is put at
// the start of a half frame and the reader stands at one.

module TagStream {
  import opened Radio

  datatype CpType = Normal | Extended

  datatype Tag =
    | TrackingLost(offset: nat)
    | CellId(offset: nat, id: int)
    | CyclicPrefix(offset: nat, cp: CpType)

  // What a lookup at one item finds.
  datatype Head = Head(lost: bool, cellIds: seq<int>, cps: seq<CpType>)

  // A half frame and the tags at its first item.
  datatype Frame<+D> = Frame(data: D, head: Head)

  // get_tags_in_window(..., 0, 1, ...) keeps the tags at the read position.
  function At(tags: seq<Tag>, read: nat): seq<Tag> {
    if tags == [] then []
    else (if tags[0].offset == read then [tags[0]] else []) + At(tags[1..], read)
  }

  predicate AnyLost(tags: seq<Tag>) {
    tags != [] && (tags[0].TrackingLost? || AnyLost(tags[1..]))
  }

  function CellIds(tags: seq<Tag>): seq<int> {
    if tags == [] then []
    else (if tags[0].CellId? then [tags[0].id] else []) + CellIds(tags[1..])
  }

  function Cps(tags: seq<Tag>): seq<CpType> {
    if tags == [] then []
    else (if tags[0].CyclicPrefix? then [tags[0].cp] else []) + Cps(tags[1..])
  }

  function HeadAt(tags: seq<Tag>, read: nat): Head {
    var found := At(tags, read);
    Head(AnyLost(found), CellIds(found), Cps(found))
  }

  // The three blocks put at most one tag of a kind on a half frame.
  predicate Single(h: Head) {
    |h.cellIds| <= 1 && |h.cps| <= 1
  }

  function TagsOf(h: Head, offset: nat): seq<Tag>
    requires Single(h)
  {
    (if h.lost then [TrackingLost(offset)] else [])
    + (if h.cellIds == [] then [] else [CellId(offset, h.cellIds[0])])
    + (if h.cps == [] then [] else [CyclicPrefix(offset, h.cps[0])])
  }

  // The tags of a stream of half frames that starts at an offset.
  function StreamTags<D>(frames: seq<Frame<D>>, offset: nat): seq<Tag>
    requires forall i :: 0 <= i < |frames| ==> Single(frames[i].head)
  {
    if frames == [] then []
    else TagsOf(frames[0].head, offset) + StreamTags(frames[1..], offset + HALF_FRAME_LENGTH)
  }

  lemma {:induction false} AtConcat(a: seq<Tag>, b: seq<Tag>, read: nat)
    ensures At(a + b, read) == At(a, read) + At(b, read)
  {
    if a == [] {
      assert a + b == b;
    } else {
      assert (a + b)[1..] == a[1..] + b;
      AtConcat(a[1..], b, read);
    }
  }

  lemma {:induction false} AtNone(tags: seq<Tag>, read: nat)
    requires forall i :: 0 <= i < |tags| ==> tags[i].offset != read
    ensures At(tags, read) == []
  {
    if tags != [] {
      AtNone(tags[1..], read);
    }
  }

  lemma {:induction false} AtAll(tags: seq<Tag>, read: nat)
    requires forall i :: 0 <= i < |tags| ==> tags[i].offset == read
    ensures At(tags, read) == tags
  {
    if tags != [] {
      AtAll(tags[1..], read);
    }
  }

  lemma {:induction false} IdsConcat(a: seq<Tag>, b: seq<Tag>)
    ensures CellIds(a + b) == CellIds(a) + CellIds(b)
  {
    if a == [] {
      assert a + b == b;
    } else {
      assert (a + b)[1..] == a[1..] + b;
      IdsConcat(a[1..], b);
    }
  }

  lemma {:induction false} CpsConcat(a: seq<Tag>, b: seq<Tag>)
    ensures Cps(a + b) == Cps(a) + Cps(b)
  {
    if a == [] {
      assert a + b == b;
    } else {
      assert (a + b)[1..] == a[1..] + b;
      CpsConcat(a[1..], b);
    }
  }

  lemma {:induction false} LostConcat(a: seq<Tag>, b: seq<Tag>)
    ensures AnyLost(a + b) <==> AnyLost(a) || AnyLost(b)
  {
    if a == [] {
      assert a + b == b;
    } else {
      assert (a + b)[1..] == a[1..] + b;
      LostConcat(a[1..], b);
    }
  }

  // The tags of a head, kind by kind.
  lemma ReadBack(lost: seq<Tag>, ids: seq<Tag>, cps: seq<Tag>, h: Head, offset: nat)
    requires Single(h)
    requires lost == if h.lost then [TrackingLost(offset)] else []
    requires ids == if h.cellIds == [] then [] else [CellId(offset, h.cellIds[0])]
    requires cps == if h.cps == [] then [] else [CyclicPrefix(offset, h.cps[0])]
    ensures AnyLost(lost + ids + cps) == h.lost
    ensures CellIds(lost + ids + cps) == h.cellIds
    ensures Cps(lost + ids + cps) == h.cps
  {
    LostConcat(lost + ids, cps);
    LostConcat(lost, ids);
    IdsConcat(lost + ids, cps);
    IdsConcat(lost, ids);
    CpsConcat(lost + ids, cps);
    CpsConcat(lost, ids);
    assert AnyLost(lost) == h.lost && CellIds(lost) == [] && Cps(lost) == [];
    assert !AnyLost(ids) && CellIds(ids) == h.cellIds && Cps(ids) == [];
    assert !AnyLost(cps) && CellIds(cps) == [] && Cps(cps) == h.cps;
  }

  lemma HeadOfTags(h: Head, offset: nat)
    requires Single(h)
    ensures At(TagsOf(h, offset), offset) == TagsOf(h, offset)
    ensures HeadAt(TagsOf(h, offset), offset) == h
  {
    AtAll(TagsOf(h, offset), offset);
    ReadBack(if h.lost then [TrackingLost(offset)] else [],
             if h.cellIds == [] then [] else [CellId(offset, h.cellIds[0])],
             if h.cps == [] then [] else [CyclicPrefix(offset, h.cps[0])], h, offset);
  }

  lemma {:induction false} StreamTagOffsets<D>(frames: seq<Frame<D>>, offset: nat)
    requires forall i :: 0 <= i < |frames| ==> Single(frames[i].head)
    ensures forall t :: t in StreamTags(frames, offset) ==>
              t.offset >= offset && (t.offset - offset) % HALF_FRAME_LENGTH == 0
  {
    if frames != [] {
      StreamTagOffsets(frames[1..], offset + HALF_FRAME_LENGTH);
      forall t | t in StreamTags(frames[1..], offset + HALF_FRAME_LENGTH)
        ensures (t.offset - offset) % HALF_FRAME_LENGTH == 0
      {
        assert t.offset - offset == (t.offset - (offset + HALF_FRAME_LENGTH)) + HALF_FRAME_LENGTH;
      }
    }
  }

  lemma LaterTagsNotFound<D>(frames: seq<Frame<D>>, offset: nat, read: nat)
    requires forall j :: 0 <= j < |frames| ==> Single(frames[j].head)
    requires read < offset
    ensures At(StreamTags(frames, offset), read) == []
  {
    StreamTagOffsets(frames, offset);
    var tags := StreamTags(frames, offset);
    forall k | 0 <= k < |tags| ensures tags[k].offset != read {
      assert tags[k] in tags;
    }
    AtNone(tags, read);
  }

  lemma {:induction false} AtFrame<D>(frames: seq<Frame<D>>, offset: nat, i: nat)
    requires forall j :: 0 <= j < |frames| ==> Single(frames[j].head)
    requires i < |frames|
    ensures At(StreamTags(frames, offset), offset + HALF_FRAME_LENGTH * i) ==
            TagsOf(frames[i].head, offset + HALF_FRAME_LENGTH * i)
  {
    var next := offset + HALF_FRAME_LENGTH;
    var first, rest := TagsOf(frames[0].head, offset), StreamTags(frames[1..], next);
    if i == 0 {
      AtConcat(first, rest, offset);
      LaterTagsNotFound(frames[1..], next, offset);
      HeadOfTags(frames[0].head, offset);
      assert first + [] == first;
    } else {
      var read := next + HALF_FRAME_LENGTH * (i - 1);
      AtConcat(first, rest, read);
      AtNone(first, read);
      AtFrame(frames[1..], next, i - 1);
      assert [] + At(rest, read) == At(rest, read);
      assert read == offset + HALF_FRAME_LENGTH * i;
    }
  }

  // A reader that stands at the start of half frame i finds that half frame's head, and
  // nothing of any other.
  lemma HeadIsFrameHead<D>(frames: seq<Frame<D>>, offset: nat, i: nat)
    requires forall j :: 0 <= j < |frames| ==> Single(frames[j].head)
    requires i < |frames|
    ensures HeadAt(StreamTags(frames, offset), offset + HALF_FRAME_LENGTH * i) == frames[i].head
  {
    AtFrame(frames, offset, i);
    HeadOfTags(frames[i].head, offset + HALF_FRAME_LENGTH * i);
  }
}
