/**
 The encoding loops of QProtobufSerializer, each of which appends to a result
 buffer what the functions of module Encoder describe.
 */
module Serializer {
  import opened Wire
  import opened Messages
  import opened Encoder

  // ------------------------------------------------------------------ varints

  /** The loop shared by serializeVarintCommon and serializeBasic: groups with the mark "not last". */
  method AppendGroups(value: nat) returns (result: Bytes)
    ensures result == MarkedGroups(value)
  {
    var varint := value;
    result := [];
    while varint != 0
      invariant result + MarkedGroups(varint) == MarkedGroups(value)
      decreases varint
    {
      result := result + [varint % 128 + 128];
      varint := varint / 128;
    }
  }

  /** serializeVarintCommon: zero becomes one zero byte. */
  method SerializeVarint(value: nat) returns (result: Bytes)
    ensures result == Varint(value)
  {
    result := AppendGroups(value);
    if result == [] {
      assert value == 0;
      result := [0];
    } else {
      ClearedGroupsAreVarint(value);
      result := ClearLastMark(result);
    }
  }

  /** serializeBasic for unsigned types: nothing is written for zero, and the field index is invalidated. */
  method SerializeUnsigned(value: nat) returns (result: Bytes, used: bool)
    ensures used <==> value != 0
    ensures result == if used then Varint(value) else []
  {
    result := AppendGroups(value);
    used := result != [];
    if used {
      ClearedGroupsAreVarint(value);
      result := ClearLastMark(result);
    }
  }

  method EncodeHeader(number: nat, wire: nat) returns (result: Bytes)
    ensures result == Header(number, wire)
  {
    result := SerializeVarint(number * 8 + wire);
  }

  method PrependSize(data: Bytes) returns (result: Bytes)
    ensures result == Prefixed(data)
  {
    result := SerializeVarint(|data| % TWO32);
    result := result + data;
  }

  // ------------------------------------------------------------- basic values

  lemma {:induction false} OmittedIsZero(kind: Kind, n: int)
    requires IsVarint(kind) && InRange(kind, n)
    ensures ToWire(kind, n) == 0 <==> n == 0
  {
    if kind == SInt32 || kind == SInt64 {
      ZigZagMeaning(n, if kind == SInt32 then TWO32 else TWO64);
    }
  }

  /** serializeBasic<V>; `used` tells whether the field index stays valid. */
  method SerializeBasic(kind: Kind, s: Scalar) returns (result: Bytes, used: bool)
    requires ScalarOk(kind, s)
    ensures used <==> !Omitted(kind, s)
    ensures result == if used then Element(kind, s) else []
  {
    if IsVarint(kind) {
      OmittedIsZero(kind, s.n);
      result, used := SerializeUnsigned(ToWire(kind, s.n));
    } else if kind == Blob {
      used := true;
      result := PrependSize(s.data);
    } else {
      result, used := s.data, true;
    }
  }

  /** serializeListType<V>: elements in order, an omitted zero replaced by a zero byte. */
  method SerializeList(kind: Kind, ss: seq<Scalar>) returns (result: Bytes)
    requires forall i :: 0 <= i < |ss| ==> ScalarOk(kind, ss[i])
    ensures result == Prefixed(Elements(kind, ss))
  {
    hide Element, ScalarOk, Prefixed;
    var list := [];
    var i := 0;
    while i < |ss|
      invariant i <= |ss| && list + Elements(kind, ss[i..]) == Elements(kind, ss)
    {
      var element, used := SerializeBasic(kind, ss[i]);
      if !used {
        element := [0];
        OmittedElement(kind, ss[i]);
      }
      assert ss[i..][1..] == ss[i + 1..];
      assert list + (element + Elements(kind, ss[i + 1..])) == list + element + Elements(kind, ss[i + 1..]);
      list := list + element;
      i := i + 1;
    }
    assert list == list + Elements(kind, ss[i..]);
    result := PrependSize(list);
  }

  lemma {:induction false} OmittedElement(kind: Kind, s: Scalar)
    requires ScalarOk(kind, s) && Omitted(kind, s)
    ensures Element(kind, s) == [0]
  {
    OmittedIsZero(kind, s.n);
  }

  // ------------------------------------------------------------------- records

  /** One record in front of those still to come. */
  lemma {:induction false} RecordsCons(number: nat, wire: nat, body: Bytes, bodies: seq<Bytes>)
    ensures Flat(Records(number, wire, [body] + bodies)) ==
            Header(number, wire) + body + Flat(Records(number, wire, bodies))
  {
    var recs := Records(number, wire, [body] + bodies);
    assert recs[1..] == Records(number, wire, bodies);
  }

  /** A header and the record's body appended to a buffer. */
  method AppendRecord(buffer: Bytes, number: nat, wire: nat, body: Bytes, ghost bodies: seq<Bytes>) returns (result: Bytes)
    ensures result + Flat(Records(number, wire, bodies)) == buffer + Flat(Records(number, wire, [body] + bodies))
  {
    var header := EncodeHeader(number, wire);
    result := buffer + header + body;
    RecordsCons(number, wire, body, bodies);
    assert result + Flat(Records(number, wire, bodies)) ==
      buffer + (header + body + Flat(Records(number, wire, bodies)));
  }

  /** Bytes of a field that has the given bodies: none, or one record. */
  lemma {:induction false} FewRecords(number: nat, wire: nat, body: Bytes)
    ensures Flat(Records(number, wire, [])) == []
    ensures Flat(Records(number, wire, [body])) == Header(number, wire) + body
  {
    assert [body] + [] == [body];
    RecordsCons(number, wire, body, []);
  }

  // ---------------------------------------------------------------- properties

  /** serializeMessage */
  method SerializeMessage(reg: Registry, fields: Fields, m: Msg) returns (result: Bytes)
    requires EncodableMsg(reg, fields, m)
    ensures result == Encode(reg, fields, m)
    decreases m, 1
  {
    hide Encodable, FieldRecords;
    result := [];
    var i := 0;
    while i < |fields|
      invariant i <= |fields|
      invariant result + Flat(RecordsFrom(reg, fields, m, i)) == Encode(reg, fields, m)
    {
      var f := fields[i];
      var bytes := SerializeProperty(reg, f, m.fields[f.number]);
      FlatConcat(FieldRecords(reg, f, m.fields[f.number]), RecordsFrom(reg, fields, m, i + 1));
      assert result + (bytes + Flat(RecordsFrom(reg, fields, m, i + 1))) ==
        result + bytes + Flat(RecordsFrom(reg, fields, m, i + 1));
      result := result + bytes;
      i := i + 1;
    }
  }

  /** serializeProperty, with the serializer that is registered for the type of the property. */
  method SerializeProperty(reg: Registry, f: Field, v: Value) returns (result: Bytes)
    requires Encodable(reg, f.ty, v)
    ensures result == Flat(FieldRecords(reg, f, v))
    decreases v, 1
  {
    hide Element, ScalarOk, Header, Prefixed, EncodableMsg;
    result := [];
    match f.ty {
      case Single(kind) =>
        var body, used := SerializeBasic(kind, v.s);
        FewRecords(f.number, WireOf(f.ty), body);
        if used {
          var header := EncodeHeader(f.number, WireOf(f.ty));
          result := header + body;
        }
      case Packed(kind) =>
        var body := [];
        if v.ss != [] {
          body := SerializeList(kind, v.ss);
          var header := EncodeHeader(f.number, DELIMITED);
          result := header + body;
        }
        FewRecords(f.number, DELIMITED, body);
      case Blobs =>
        result := SerializeBlobs(f.number, v.ss);
      case Message(name) =>
        var body := SerializeObject(reg, name, v.p);
        FewRecords(f.number, DELIMITED, body);
        var header := EncodeHeader(f.number, DELIMITED);
        result := header + body;
      case Messages(name) =>
        result := SerializeObjects(reg, f.number, name, v.ps);
      case MapOf(key, value) =>
        result := SerializeMap(reg, f.number, key, value, v.entries);
    }
  }

  /** serializeObject, after its header. */
  method SerializeObject(reg: Registry, name: Name, p: Lazy) returns (result: Bytes)
    requires name in reg && p.Held? && EncodableMsg(reg, reg[name], p.msg)
    ensures result == ChildBody(reg, name, p)
    decreases p, 0
  {
    result := SerializeMessage(reg, reg[name], p.msg);
    result := PrependSize(result);
  }

  /** serializeListType<QByteArray> and serializeListType<QString> */
  method SerializeBlobs(number: nat, ss: seq<Scalar>) returns (result: Bytes)
    requires forall i :: 0 <= i < |ss| ==> ScalarOk(Blob, ss[i])
    ensures result == Flat(Records(number, DELIMITED, BlobBodies(ss)))
  {
    hide Records, Element;
    result := [];
    var i := 0;
    while i < |ss|
      invariant i <= |ss|
      invariant result + Flat(Records(number, DELIMITED, BlobBodies(ss[i..]))) ==
                Flat(Records(number, DELIMITED, BlobBodies(ss)))
    {
      var body, used := SerializeBasic(Blob, ss[i]);
      assert ss[i..][1..] == ss[i + 1..];
      result := AppendRecord(result, number, DELIMITED, body, BlobBodies(ss[i + 1..]));
      i := i + 1;
    }
    assert Records(number, DELIMITED, []) == [];
  }

  /** serializeList<V> for messages: null pointers are passed over. */
  method SerializeObjects(reg: Registry, number: nat, name: Name, ps: seq<Lazy>) returns (result: Bytes)
    requires name in reg
    requires forall i :: 0 <= i < |ps| && ps[i].Held? ==> EncodableMsg(reg, reg[name], ps[i].msg)
    ensures result == Flat(Records(number, DELIMITED, ChildBodies(reg, name, ps)))
    decreases ps, 0
  {
    hide Records, EncodableMsg, ChildBody;
    result := [];
    var i := 0;
    while i < |ps|
      invariant i <= |ps|
      invariant result + Flat(Records(number, DELIMITED, ChildBodies(reg, name, ps[i..]))) ==
                Flat(Records(number, DELIMITED, ChildBodies(reg, name, ps)))
    {
      assert ps[i..][0] == ps[i] && ps[i..][1..] == ps[i + 1..];
      if ps[i].Held? {
        var body := SerializeObject(reg, name, ps[i]);
        result := AppendRecord(result, number, DELIMITED, body, ChildBodies(reg, name, ps[i + 1..]));
      }
      i := i + 1;
    }
    assert Records(number, DELIMITED, []) == [];
  }

  /** serializeMapPair, after its header. */
  method SerializeMapPair(reg: Registry, key: Kind, value: FieldType, e: Pair) returns (result: Bytes)
    requires ScalarOk(key, e.key) && Encodable(reg, value, e.val)
    ensures result == Prefixed(Entry(reg, key, value, e))
    decreases e, 0
  {
    var first, used := SerializeBasic(key, e.key);
    FewRecords(1, KindWire(key), first);
    if used {
      var header := EncodeHeader(1, KindWire(key));
      first := header + first;
    }
    var second := SerializeProperty(reg, Field(2, value), e.val);
    result := PrependSize(first + second);
  }

  /** serializeMap<K, V>: null message values are passed over. */
  method SerializeMap(reg: Registry, number: nat, key: Kind, value: FieldType, es: seq<Pair>) returns (result: Bytes)
    requires forall i :: 0 <= i < |es| ==>
      ScalarOk(key, es[i].key) && (IsNull(es[i].val) || Encodable(reg, value, es[i].val))
    ensures result == Flat(Records(number, DELIMITED, PairBodies(reg, key, value, es)))
    decreases es, 0
  {
    hide Records, Encodable, Entry, Prefixed, ScalarOk;
    result := [];
    var i := 0;
    while i < |es|
      invariant i <= |es|
      invariant result + Flat(Records(number, DELIMITED, PairBodies(reg, key, value, es[i..]))) ==
                Flat(Records(number, DELIMITED, PairBodies(reg, key, value, es)))
    {
      assert es[i..][0] == es[i] && es[i..][1..] == es[i + 1..];
      if !IsNull(es[i].val) {
        var body := SerializeMapPair(reg, key, value, es[i]);
        result := AppendRecord(result, number, DELIMITED, body, PairBodies(reg, key, value, es[i + 1..]));
      }
      i := i + 1;
    }
    assert Records(number, DELIMITED, []) == [];
  }
}
