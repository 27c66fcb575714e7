/**
 The decoding that QProtobufSerializer performs, as functions of the bytes in
 front of the iterator and, where the iterator may step back, of the container it
 runs over. The functions are total: they say what happens on every byte string, for
 every registry, recursive types included; Endless is a result like any other.
 */
module Decoder {
  import opened Wire
  import opened Messages

  /** Two to the number of bits in which the varint of a basic type is read. */
  function Modulus(kind: Kind): (m: nat)
    ensures m == TWO32 || m == TWO64
  {
    if kind in {Int32, UInt32, SInt32, Bool} then TWO32 else TWO64
  }

  /** The number a varint of the given type stands for. */
  function FromWire(kind: Kind, u: nat): int
    requires IsVarint(kind) && u < Modulus(kind)
  {
    match kind
    case Int32 => ToSigned(u, TWO32)
    case Int64 => ToSigned(u, TWO64)
    case Enum => ToSigned(u % TWO32, TWO32)
    case SInt32 => UnZigZag(u, TWO32)
    case SInt64 => UnZigZag(u, TWO64)
    case UInt32 => u
    case UInt64 => u
    case Bool => if u != 0 then 1 else 0
  }

  /** deserializeBasic<V> */
  function ReadScalar(kind: Kind, bytes: Bytes): (r: Read<Scalar>)
    ensures r.Got? ==> |r.rest| < |bytes| && Suffix(r.rest, bytes)
  {
    if IsVarint(kind) then
      match ReadVarint(bytes, Modulus(kind))
      case Got(u, rest) => Got(Num(FromWire(kind, u)), rest)
      case Throw(e) => Throw(e)
    else
      match if kind == Blob then ReadPrefixed(bytes) else Take(bytes, if kind == Fixed32 then 4 else 8)
      case Got(data, rest) => Got(Block(data), rest)
      case Throw(e) => Throw(e)
  }

  /**
   The end of a block whose length is in front of the iterator, as the number of bytes
   that remain there. A length above INT_MAX is a step back, which throws only where it
   leaves the front of the container of `size` bytes.
   */
  function BlockEnd(size: nat, bytes: Bytes): (r: Read<nat>)
    ensures r.Got? ==> |r.rest| < |bytes| && Suffix(r.rest, bytes) && (r.value <= |r.rest| || r.value <= size)
  {
    match ReadVarint(bytes, TWO32)
    case Throw(e) => Throw(e)
    case Got(n, rest) =>
      var end := |rest| - ToSigned(n, TWO32);
      if end < 0 || (end > |rest| && end > size) then Throw(OutOfRange) else Got(end, rest)
  }

  /** The loop of deserializeList: elements until exactly `end` bytes remain, or until it throws. */
  function ReadElements(kind: Kind, bytes: Bytes, end: nat, out: seq<Scalar>): (r: Read<seq<Scalar>>)
    ensures r.Got? ==> Suffix(r.rest, bytes) && |r.rest| == end
    decreases |bytes|
  {
    if |bytes| == end then Got(out, bytes)
    else
      match ReadScalar(kind, bytes)
      case Throw(e) => Throw(e)
      case Got(s, rest) => ReadElements(kind, rest, end, out + [s])
  }

  /** deserializeList<V> for the packed types, appending to `out`. */
  function ReadList(size: nat, kind: Kind, out: seq<Scalar>, bytes: Bytes): (r: Read<seq<Scalar>>)
    ensures r.Got? ==> |r.rest| < |bytes| && Suffix(r.rest, bytes)
  {
    match BlockEnd(size, bytes)
    case Throw(e) => Throw(e)
    case Got(end, rest) =>
      var r := ReadElements(kind, rest, end, out);
      if r.Got? then SuffixTrans(r.rest, rest, bytes); r else r
  }

  /**
   A step of the iterator from `rest` over `count` bytes of the container. Back it goes
   unchecked, and out of the front without a defined meaning.
   */
  function Move(data: Bytes, rest: Bytes, count: int): (r: Read<()>)
    requires Suffix(rest, data)
    ensures r.Got? ==> Suffix(r.rest, data) && |r.rest| == |rest| - count
    ensures r.Got? && count >= 0 ==> Suffix(r.rest, rest)
  {
    var left := |rest| - count;
    if left < 0 then Throw(OutOfRange)
    else if left > |data| then Throw(Undefined)
    else Got((), data[|data| - left..])
  }

  /** skipSerializedFieldBytes: the length of a delimited field is taken for an int. */
  function Skip(wire: nat, data: Bytes, bytes: Bytes): (r: Read<()>)
    requires Suffix(bytes, data)
    ensures r.Got? ==> Suffix(r.rest, data)
  {
    if wire == VARINT then
      var r := SkipVarint(bytes);
      if r.Got? then SuffixTrans(r.rest, bytes, data); r else r
    else if wire == FIXED32 then Move(data, bytes, 4)
    else if wire == FIXED64 then Move(data, bytes, 8)
    else if wire == DELIMITED then
      match ReadVarint(bytes, TWO32)
      case Throw(e) => Throw(e)
      case Got(n, rest) =>
        SuffixTrans(rest, bytes, data);
        Move(data, rest, ToSigned(n, TWO32))
    else Throw(InvalidArgument)
  }

  function ScalarsOf(v: Value): seq<Scalar> { if v.Many? then v.ss else [] }

  function ChildrenOf(v: Value): seq<Lazy> { if v.Children? then v.ps else [] }

  function PairsOf(v: Value): seq<Pair> { if v.Pairs? then v.entries else [] }

  /** QMap::operator[] followed by an assignment. */
  function Insert(es: seq<Pair>, e: Pair): seq<Pair>
  {
    if es == [] then [e]
    else if es[0].key == e.key then [e] + es[1..]
    else [es[0]] + Insert(es[1..], e)
  }

  /**
   The deserializer of a property type: `prior` is the value read from the object,
   the result the value to be written back. Packed lists of basic types replace
   the old value; enum lists, byte array lists, message lists and maps extend it.
   */
  function ReadValue(reg: Registry, size: nat, ty: FieldType, prior: Value, bytes: Bytes): (r: Read<Value>)
    ensures r.Got? ==> |r.rest| < |bytes| && Suffix(r.rest, bytes)
    decreases |bytes|, 3
  {
    match ty
    case Single(kind) => (
      match ReadScalar(kind, bytes)
      case Got(s, rest) => Got(One(s), rest)
      case Throw(e) => Throw(e))
    case Packed(kind) => (
      if !PackedKind(kind) then Throw(BadFunctionCall) else
      match ReadList(size, kind, if kind == Enum then ScalarsOf(prior) else [], bytes)
      case Got(ss, rest) => Got(Many(ss), rest)
      case Throw(e) => Throw(e))
    case Blobs => (
      match ReadPrefixed(bytes)
      case Got(data, rest) => Got(Many(ScalarsOf(prior) + [Block(data)]), rest)
      case Throw(e) => Throw(e))
    case Message(name) => (
      match ReadChild(reg, name, bytes)
      case Got(m, rest) => Got(Child(Held(m)), rest)
      case Throw(e) => Throw(e))
    case Messages(name) => (
      match ReadChild(reg, name, bytes)
      case Got(m, rest) => Got(Children(ChildrenOf(prior) + [Held(m)]), rest)
      case Throw(e) => Throw(e))
    case MapOf(key, value) => (
      match ReadEntry(reg, size, key, value, bytes)
      case Got(e, rest) => Got(Pairs(Insert(PairsOf(prior), e)), rest)
      case Throw(e) => Throw(e))
  }

  /** deserializeMapPair, on a default key and a default value. */
  function ReadEntry(reg: Registry, size: nat, key: Kind, value: FieldType, bytes: Bytes): (r: Read<Pair>)
    ensures r.Got? ==> |r.rest| < |bytes| && Suffix(r.rest, bytes)
    decreases |bytes|, 2
  {
    match BlockEnd(size, bytes)
    case Throw(e) => Throw(e)
    case Got(end, rest) =>
      var r := ReadPair(reg, size, key, value, Pair(DefaultScalar(key), Default(value)), rest, end);
      if r.Got? then SuffixTrans(r.rest, rest, bytes); r else r
  }

  /** deserializeObject: a new object filled from a length-delimited block. */
  function ReadChild(reg: Registry, name: Name, bytes: Bytes): (r: Read<Msg>)
    ensures r.Got? ==> |r.rest| < |bytes| && Suffix(r.rest, bytes)
    decreases |bytes|, 2
  {
    if name !in reg then Throw(BadFunctionCall)
    else
      match ReadPrefixed(bytes)
      case Throw(e) => Throw(e)
      case Got(data, rest) =>
        match Decode(reg, reg[name], data)
        case Done(m) => Got(m, rest)
        case Failed(e, _) => Throw(e)
  }

  /**
   The loop inside deserializeMapPair. Field 1 is the key, every other field number
   the value, and the verdict of decodeHeader is not looked at.
   */
  function ReadPair(reg: Registry, size: nat, key: Kind, value: FieldType, e: Pair, bytes: Bytes, end: nat): (r: Read<Pair>)
    ensures r.Got? ==> Suffix(r.rest, bytes) && |r.rest| == end
    decreases |bytes|, 4
  {
    if |bytes| == end then Got(e, bytes)
    else
      match ReadTag(bytes)
      case Throw(x) => Throw(x)
      case Got(t, rest) =>
        if t.number == 1 then
          if key == Enum then Throw(OutOfRange)
          else
            match ReadScalar(key, rest)
            case Throw(x) => Throw(x)
            case Got(k, rest') =>
              SuffixTrans(rest', rest, bytes);
              ReadPair(reg, size, key, value, Pair(k, e.val), rest', end)
        else
          match ReadValue(reg, size, value, e.val, rest)
          case Throw(x) => Throw(x)
          case Got(v, rest') =>
            SuffixTrans(rest', rest, bytes);
            ReadPair(reg, size, key, value, Pair(e.key, v), rest', end)
  }

  /** deserializeProperty: one record, written to the object only when all of it was read. */
  function ReadRecord(reg: Registry, fields: Fields, obj: Msg, data: Bytes, bytes: Bytes): (r: Read<Msg>)
    requires Suffix(bytes, data)
    ensures r.Got? ==> bytes != [] && Suffix(r.rest, data)
    decreases |bytes|, 0
  {
    match ReadTag(bytes)
    case Throw(e) => Throw(e)
    case Got(t, rest) =>
      SuffixTrans(rest, bytes, data);
      if !TagAllowed(t) then Throw(InvalidArgument)
      else if !HasField(fields, t.number) then
        match Skip(t.wire, data, rest)
        case Got(_, rest') => Got(obj, rest')
        case Throw(e) => Throw(e)
      else
        var ty := TypeOf(fields, t.number);
        var prior := if t.number in obj.fields then obj.fields[t.number] else Default(ty);
        match ReadValue(reg, |data|, ty, prior, rest)
        case Got(v, rest') => SuffixTrans(rest', rest, data); Got(Msg(obj.fields[t.number := v]), rest')
        case Throw(e) => Throw(e)
  }

  /**
   How a message was decoded: completely, or up to an exception that left `obj` behind.
   Where the error is Endless, the object keeps changing for ever.
   */
  datatype Outcome = Done(obj: Msg) | Failed(error: Error, obj: Msg)

  /**
   deserializeMessage, followed for `n` records. A loop that has read as many records as
   its container has bytes has come to some record start twice, and goes on for ever.
   */
  function ReadFields(reg: Registry, fields: Fields, obj: Msg, data: Bytes, bytes: Bytes, n: nat): (r: Outcome)
    requires Suffix(bytes, data)
    decreases |data|, 1, n
  {
    if bytes == [] then Done(obj)
    else if n == 0 then Failed(Endless, obj)
    else
      match ReadRecord(reg, fields, obj, data, bytes)
      case Throw(e) => Failed(e, obj)
      case Got(obj', rest) => ReadFields(reg, fields, obj', data, rest, n - 1)
  }

  /** deserialize<T>: the target gets what was decoded, also when an exception is rethrown. */
  function Decode(reg: Registry, fields: Fields, data: Bytes): Outcome
    decreases |data|, 2
  {
    ReadFields(reg, fields, DefaultMsg(fields), data, data, |data|)
  }
}
