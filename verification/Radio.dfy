// Sample streams and the frame geometry shared by the three blocks of a chain.

module Radio {

  const SLOT_LENGTH: int := 960
  const HALF_FRAME_LENGTH: int := 9600  // ten slots
  const SYMBOL_SIZE: int := 128

  datatype Option<+T> = None | Some(value: T)

  datatype Cf = Cf(re: real, im: real)

  // The samples offered to a block, by absolute position. Position 0 is the first
  // sample received; negative positions are the padding the scheduler puts in front
  // of a stream whose reader asked for history.
  type Stream = int -> Cf

  function Slice(input: Stream, start: int, n: nat): (s: seq<Cf>)
    ensures |s| == n
    ensures forall i :: 0 <= i < n ==> s[i] == input(start + i)
  {
    seq(n, i => input(start + i))
  }

  // The half frame that starts at an absolute position.
  function Window(input: Stream, start: int): (s: seq<Cf>)
    ensures |s| == HALF_FRAME_LENGTH
  {
    Slice(input, start, HALF_FRAME_LENGTH)
  }

  lemma SliceConcat(input: Stream, start: int, m: nat, n: nat)
    ensures Slice(input, start, m) + Slice(input, start + m, n) == Slice(input, start, m + n)
  {
    var whole := Slice(input, start, m + n);
    forall i | 0 <= i < m + n
      ensures (Slice(input, start, m) + Slice(input, start + m, n))[i] == whole[i]
    {
      assert whole[i] == input(start + i);
    }
  }
}
