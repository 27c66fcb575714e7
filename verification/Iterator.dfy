/** QProtobufSelfcheckIterator: a position in a byte array whose moves throw on a bad bound. */
module SelfcheckIterator {
  import opened Wire

  class Iterator {
    const data: Bytes
    var sizeLeft: int
    var containerSize: int
    var pos: int

    ghost predicate Valid()
      reads this
    {
      containerSize == |data| && 0 <= sizeLeft <= containerSize && pos == containerSize - sizeLeft
    }

    /** The bytes in front of the iterator. */
    ghost function Rest(): (r: Bytes)
      requires Valid()
      reads this
      ensures Suffix(r, data) && |r| == sizeLeft <= |data| && pos == |data| - |r|
    {
      data[pos..]
    }

    constructor (container: Bytes)
      ensures Valid() && data == container && Rest() == container
    {
      data := container;
      sizeLeft := |container|;
      containerSize := |container|;
      pos := 0;
    }

    /** operator *. The byte array is followed by a terminating zero. */
    method Peek() returns (b: Byte)
      requires Valid()
      ensures b == if Rest() == [] then 0 else Rest()[0]
    {
      b := if pos < |data| then data[pos] else 0;
    }

    /** operator ++, false when it throws out_of_range. */
    method Next() returns (ok: bool)
      requires Valid()
      modifies this
      ensures ok <==> old(Rest()) != []
      ensures ok ==> Valid() && Rest() == old(Rest())[1..]
      ensures pos == if ok then old(pos) + 1 else old(pos)
    {
      sizeLeft := sizeLeft - 1;
      ok := sizeLeft >= 0;
      if ok {
        pos := pos + 1;
      }
    }

    /**
     operator +=, false when it throws out_of_range. The bound is checked on one side
     only: a negative count is accepted, and the invariant survives it exactly when the
     iterator does not leave the front of the container.
     */
    method Advance(count: int) returns (ok: bool)
      requires Valid()
      modifies this
      ensures ok <==> count <= old(sizeLeft)
      ensures ok ==> (Valid() <==> old(pos) + count >= 0)
      ensures ok && count >= 0 ==> Valid() && Rest() == old(Rest())[count..]
      ensures pos == if ok then old(pos) + count else old(pos)
      ensures sizeLeft == old(sizeLeft) - count && containerSize == old(containerSize)
    {
      sizeLeft := sizeLeft - count;
      ok := sizeLeft >= 0;
      if ok {
        pos := pos + count;
      }
    }

    /** operator +, false when the move or the copy of its result throws out_of_range. */
    method Plus(count: int) returns (ok: bool, there: Iterator)
      requires Valid()
      ensures ok <==> -pos <= count <= sizeLeft
      ensures fresh(there) && there.data == data
      ensures ok ==> there.Valid() && there.pos == pos + count
    {
      there := new Iterator(data);
      there.sizeLeft := sizeLeft;
      there.pos := pos;
      ok := there.Advance(count);
      ok := ok && there.sizeLeft <= there.containerSize;
    }
  }
}
