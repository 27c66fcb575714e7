/** The bytes that QProtobufSerializer writes, as functions of message type and message. */
module Encoder {
  import opened Wire
  import opened Messages

  /** The unsigned value whose varint represents `n`. */
  function ToWire(kind: Kind, n: int): (u: nat)
    requires IsVarint(kind) && InRange(kind, n)
    ensures u < TWO64
  {
    match kind
    case Int32 => ToUnsigned(n, TWO32)
    case Int64 => ToUnsigned(n, TWO64)
    case Enum => ToUnsigned(n, TWO64)
    case SInt32 => ZigZag(n, TWO32)
    case SInt64 => ZigZag(n, TWO64)
    case UInt32 => n
    case UInt64 => n
    case Bool => n
  }

  /** One value of a basic type, zero included. */
  function Element(kind: Kind, s: Scalar): (r: Bytes)
    requires ScalarOk(kind, s)
    ensures |r| >= 1
  {
    if IsVarint(kind) then Varint(ToWire(kind, s.n))
    else if kind == Blob then Prefixed(s.data)
    else s.data
  }

  /** Integers that are zero are not written. */
  predicate Omitted(kind: Kind, s: Scalar)
  {
    IsVarint(kind) && s == Num(0)
  }

  function Elements(kind: Kind, ss: seq<Scalar>): Bytes
    requires forall i :: 0 <= i < |ss| ==> ScalarOk(kind, ss[i])
  {
    if ss == [] then [] else Element(kind, ss[0]) + Elements(kind, ss[1..])
  }

  function Flat(parts: seq<Bytes>): Bytes
  {
    if parts == [] then [] else parts[0] + Flat(parts[1..])
  }

  /** The records of a field, each with its header in front. */
  function Records(number: nat, wire: nat, bodies: seq<Bytes>): (recs: seq<Bytes>)
    ensures |recs| == |bodies|
    ensures forall i :: 0 <= i < |bodies| ==> recs[i] == Header(number, wire) + bodies[i]
  {
    seq(|bodies|, i requires 0 <= i < |bodies| => Header(number, wire) + bodies[i])
  }

  /**
   What follows the header in each record of a field: no record for an omitted
   value, one for a single value or a packed list, one per element of any other
   list and per pair of a map. Null list elements and null map values are skipped.
   */
  function Bodies(reg: Registry, ty: FieldType, v: Value): seq<Bytes>
    requires Encodable(reg, ty, v)
    decreases v, 0, 0
  {
    match ty
    case Single(kind) => ScalarBodies(kind, v.s)
    case Packed(kind) => if v.ss == [] then [] else [Prefixed(Elements(kind, v.ss))]
    case Blobs => BlobBodies(v.ss)
    case Message(name) => [ChildBody(reg, name, v.p)]
    case Messages(name) => ChildBodies(reg, name, v.ps)
    case MapOf(key, value) => PairBodies(reg, key, value, v.entries)
  }

  function ScalarBodies(kind: Kind, s: Scalar): seq<Bytes>
    requires ScalarOk(kind, s)
  {
    if Omitted(kind, s) then [] else [Element(kind, s)]
  }

  function BlobBodies(ss: seq<Scalar>): seq<Bytes>
    requires forall i :: 0 <= i < |ss| ==> ScalarOk(Blob, ss[i])
  {
    if ss == [] then [] else [Element(Blob, ss[0])] + BlobBodies(ss[1..])
  }

  function ChildBodies(reg: Registry, name: Name, ps: seq<Lazy>): seq<Bytes>
    requires name in reg
    requires forall i :: 0 <= i < |ps| && ps[i].Held? ==> EncodableMsg(reg, reg[name], ps[i].msg)
    decreases ps, 0, 0
  {
    if ps == [] then []
    else if ps[0].Null? then ChildBodies(reg, name, ps[1..])
    else [ChildBody(reg, name, ps[0])] + ChildBodies(reg, name, ps[1..])
  }

  function ChildBody(reg: Registry, name: Name, p: Lazy): Bytes
    requires name in reg && p.Held? && EncodableMsg(reg, reg[name], p.msg)
    decreases p, 0, 0
  {
    Prefixed(Encode(reg, reg[name], p.msg))
  }

  /** A map entry: the key as field 1 and the value as field 2 of a nested message. */
  function Entry(reg: Registry, key: Kind, value: FieldType, e: Pair): Bytes
    requires ScalarOk(key, e.key) && Encodable(reg, value, e.val)
    decreases e, 0, 0
  {
    Flat(Records(1, KindWire(key), ScalarBodies(key, e.key))) +
    Flat(Records(2, WireOf(value), Bodies(reg, value, e.val)))
  }

  function PairBodies(reg: Registry, key: Kind, value: FieldType, es: seq<Pair>): seq<Bytes>
    requires forall i :: 0 <= i < |es| ==>
      ScalarOk(key, es[i].key) && (IsNull(es[i].val) || Encodable(reg, value, es[i].val))
    decreases es, 0, 0
  {
    if es == [] then []
    else if IsNull(es[0].val) then PairBodies(reg, key, value, es[1..])
    else [Prefixed(Entry(reg, key, value, es[0]))] + PairBodies(reg, key, value, es[1..])
  }

  /** serializeProperty, as the list of the records it writes. */
  function FieldRecords(reg: Registry, f: Field, v: Value): seq<Bytes>
    requires Encodable(reg, f.ty, v)
    decreases v, 1, 0
  {
    Records(f.number, WireOf(f.ty), Bodies(reg, f.ty, v))
  }

  /** The records of the fields from the i-th on. */
  function RecordsFrom(reg: Registry, fields: Fields, m: Msg, i: nat): seq<Bytes>
    requires EncodableMsg(reg, fields, m) && i <= |fields|
    decreases m, 0, |fields| - i
  {
    if i == |fields| then []
    else FieldRecords(reg, fields[i], m.fields[fields[i].number]) + RecordsFrom(reg, fields, m, i + 1)
  }

  /** serializeMessage */
  function Encode(reg: Registry, fields: Fields, m: Msg): Bytes
    requires EncodableMsg(reg, fields, m)
    decreases m, 1, 0
  {
    Flat(RecordsFrom(reg, fields, m, 0))
  }

  lemma {:induction false} FlatConcat(a: seq<Bytes>, b: seq<Bytes>)
    ensures Flat(a + b) == Flat(a) + Flat(b)
  {
    if a == [] {
      assert a + b == b;
    } else {
      FlatConcat(a[1..], b);
      assert (a + b)[1..] == a[1..] + b;
      assert a[0] + (Flat(a[1..]) + Flat(b)) == a[0] + Flat(a[1..]) + Flat(b);
    }
  }

  lemma {:induction false} PartFits(parts: seq<Bytes>, i: nat)
    requires i < |parts|
    ensures |parts[i]| <= |Flat(parts)|
  {
    if i > 0 {
      PartFits(parts[1..], i - 1);
    }
  }
}
