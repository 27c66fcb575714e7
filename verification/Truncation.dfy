/** Decoding the beginning of an encoding: complete records count, the rest throws. */
module Truncation {
  import opened Wire
  import opened Messages
  import opened Encoder
  import opened Decoder
  import opened RoundTrip
  import opened Evolution

  /** A complete record whose wire type is the one under which the reader expects the field. */
  ghost predicate RecordOf(r: Registry, fields: Fields, number: nat, wire: nat, body: Bytes, rec: Bytes)
  {
    && rec == Header(number, wire) + body
    && 0 < number <= MAX_FIELD && wire in {VARINT, FIXED64, FIXED32, DELIMITED} && Complete(wire, body)
    && (HasField(fields, number) ==>
          WireOf(TypeOf(fields, number)) == wire && TypeOk(TypeOf(fields, number)) && TypeRegistered(r, TypeOf(fields, number)))
  }

  ghost predicate IsRecord(r: Registry, fields: Fields, rec: Bytes)
  {
    exists number: nat, wire: nat, body: Bytes :: RecordOf(r, fields, number, wire, body, rec)
  }

  // -------------------------------------------------------- a record cut short

  lemma {:induction false} CutScalarThrows(kind: Kind, body: Bytes, n: nat)
    requires Complete(KindWire(kind), body) && n < |body|
    ensures ReadScalar(kind, body[..n]) == Throw(OutOfRange)
  {
    if IsVarint(kind) {
      var u: nat :| u < TWO64 && body == Varint(u);
      VarintFits(u);
      CutVarintThrows(u, n, 0);
    } else if kind == Blob {
      var data: Bytes :| |data| <= INT_MAX && body == Prefixed(data);
      CutPrefixedThrows(data, n);
    }
  }

  lemma {:induction false} CutSkipThrows(wire: nat, data: Bytes, body: Bytes, n: nat)
    requires Complete(wire, body) && n < |body| && Suffix(body[..n], data)
    ensures Skip(wire, data, body[..n]) == Throw(OutOfRange)
  {
    if wire == VARINT {
      var u: nat :| u < TWO64 && body == Varint(u);
      VarintFits(u);
      CutVarintThrows(u, n, 0);
    } else if wire == DELIMITED {
      var block: Bytes :| |block| <= INT_MAX && body == Prefixed(block);
      CutPrefixedThrows(block, n);
    }
  }

  /** Whatever the property type, the deserializer notices that the body is not complete. */
  lemma {:induction false} CutValueThrows(r: Registry, size: nat, ty: FieldType, prior: Value, body: Bytes, n: nat)
    requires Complete(WireOf(ty), body) && TypeOk(ty) && TypeRegistered(r, ty) && n < |body|
    ensures ReadValue(r, size, ty, prior, body[..n]) == Throw(OutOfRange)
  {
    if ty.Single? {
      CutScalarThrows(ty.kind, body, n);
    } else {
      var data: Bytes :| |data| <= INT_MAX && body == Prefixed(data);
      CutPrefixedThrows(data, n);
    }
  }

  lemma {:induction false} CutRecordThrows(r: Registry, fields: Fields, obj: Msg, data: Bytes, rec: Bytes, n: nat)
    requires IsRecord(r, fields, rec) && n < |rec| && Suffix(rec[..n], data)
    ensures ReadRecord(r, fields, obj, data, rec[..n]) == Throw(OutOfRange)
  {
    hide ReadValue, Skip, Complete, Header, ReadTag;
    var number: nat, wire: nat, body: Bytes :| RecordOf(r, fields, number, wire, body, rec);
    var h := |Header(number, wire)|;
    if n < h {
      assert rec[..n] == Header(number, wire)[..n];
      CutHeaderThrows(number, wire, n);
    } else {
      assert rec[..n] == Header(number, wire) + body[..n - h];
      HeaderRoundTrip(number, wire, body[..n - h]);
      if HasField(fields, number) {
        var ty := TypeOf(fields, number);
        var prior := if number in obj.fields then obj.fields[number] else Default(ty);
        CutValueThrows(r, |data|, ty, prior, body, n - h);
      } else {
        SuffixTail(data, Header(number, wire), body[..n - h]);
        CutSkipThrows(wire, data, body, n - h);
      }
    }
  }

  // ------------------------------------------------------------ a chain cut short

  lemma {:induction false} CutChain(
      r: Registry, fields: Fields, recs: seq<Bytes>, objs: seq<Msg>, cut: nat, data: Bytes, n: nat) returns (k: nat)
    requires Chain(r, fields, recs, objs) && cut <= |Flat(recs)| && Suffix(Flat(recs)[..cut], data) && n >= cut
    requires forall i :: 0 <= i < |recs| ==> IsRecord(r, fields, recs[i])
    ensures k <= |recs| && |Flat(recs[..k])| <= cut
    ensures cut != |Flat(recs[..k])| ==> k < |recs| && cut < |Flat(recs[..k])| + |recs[k]|
    ensures ReadFields(r, fields, objs[0], data, Flat(recs)[..cut], n) ==
            if cut == |Flat(recs[..k])| then Done(objs[k]) else Failed(OutOfRange, objs[k])
    decreases |recs|
  {
    hide ReadRecord, IsRecord;
    if recs == [] {
      k := 0;
    } else if cut < |recs[0]| {
      k := 0;
      assert recs[..0] == [] && Flat(recs)[..cut] == recs[0][..cut];
      CutRecordThrows(r, fields, objs[0], data, recs[0], cut);
    } else {
      var rest := Flat(recs[1..])[..cut - |recs[0]|];
      assert Flat(recs)[..cut] == recs[0] + rest;
      SuffixTail(data, recs[0], rest);
      RecordNotEmpty(r, fields, recs, objs);
      assert ReadRecord(r, fields, objs[0], data, recs[0] + rest) == Got(objs[1], rest);
      assert Chain(r, fields, recs[1..], objs[1..]);
      var j := CutChain(r, fields, recs[1..], objs[1..], cut - |recs[0]|, data, n - 1);
      k := j + 1;
      assert recs[..k][1..] == recs[1..][..j] && recs[..k][0] == recs[0];
    }
  }

  lemma {:induction false} FieldRecordsAreRecords(w: Registry, r: Registry, fields: Fields, f: Field, v: Value, k: nat)
    requires 0 < f.number <= MAX_FIELD && TypeOk(f.ty) && Encodable(w, f.ty, v)
    requires HasField(fields, f.number) ==> TypeOf(fields, f.number) == f.ty && TypeRegistered(r, f.ty)
    requires |Flat(FieldRecords(w, f, v))| <= INT_MAX && k < |FieldRecords(w, f, v)|
    ensures IsRecord(r, fields, FieldRecords(w, f, v)[k])
  {
    hide Encodable, Bodies, Header, Complete;
    var bodies := Bodies(w, f.ty, v);
    RecordsShort(f.number, WireOf(f.ty), bodies);
    BodyComplete(w, f.ty, v, k);
    assert RecordOf(r, fields, f.number, WireOf(f.ty), bodies[k], FieldRecords(w, f, v)[k]);
  }

  lemma {:induction false} EncodedRecords(w: Registry, r: Registry, name: Name, m: Msg, i: nat, k: nat)
    requires Compatible(w, r) && name in w && name in r && EncodableMsg(w, w[name], m) && i <= |w[name]|
    requires |Flat(RecordsFrom(w, w[name], m, i))| <= INT_MAX && k < |RecordsFrom(w, w[name], m, i)|
    ensures IsRecord(r, r[name], RecordsFrom(w, w[name], m, i)[k])
    decreases |w[name]| - i
  {
    hide FieldRecords, IsRecord, Encodable;
    var f := w[name][i];
    var recs := FieldRecords(w, f, m.fields[f.number]);
    FlatConcat(recs, RecordsFrom(w, w[name], m, i + 1));
    if k < |recs| {
      if HasField(r[name], f.number) {
        var j :| 0 <= j < |r[name]| && r[name][j].number == f.number;
        TypeOfField(r[name], j);
      }
      FieldRecordsAreRecords(w, r, r[name], f, m.fields[f.number], k);
    } else {
      EncodedRecords(w, r, name, m, i + 1, k - |recs|);
    }
  }

  /**
   An encoding cut at any point, read by any compatible version of the types: the
   cut is on a boundary between top-level records, or decoding throws out_of_range.
   In both cases the target holds exactly what the complete records before the cut
   decode to.
   */
  lemma {:induction false} DecodeOfCut(w: Registry, r: Registry, name: Name, m: Msg, cut: nat) returns (k: nat)
    requires Compatible(w, r) && name in w && name in r && EncodableMsg(w, w[name], m)
    requires |Encode(w, w[name], m)| <= INT_MAX && cut <= |Encode(w, w[name], m)|
    ensures
      var recs := RecordsFrom(w, w[name], m, 0);
      && k <= |recs| && |Flat(recs[..k])| <= cut
      && (cut != |Flat(recs[..k])| ==> k < |recs| && cut < |Flat(recs[..k])| + |recs[k]|)
      && Decode(r, r[name], Flat(recs[..k])).Done?
      && Decode(r, r[name], Encode(w, w[name], m)[..cut]) ==
         var before := Decode(r, r[name], Flat(recs[..k]));
         if cut == |Flat(recs[..k])| then before else Failed(OutOfRange, before.obj)
  {
    hide RecordsFrom, EncodableMsg, IsRecord, ReadRecord, View;
    var recs := RecordsFrom(w, w[name], m, 0);
    var objs := MessageChain(w, r, name, m);
    forall i | 0 <= i < |recs| ensures IsRecord(r, r[name], recs[i])
    {
      EncodedRecords(w, r, name, m, 0, i);
    }
    k := CutChain(r, r[name], recs, objs, cut, Flat(recs)[..cut], cut);
    assert Chain(r, r[name], recs[..k], objs[..k + 1]);
    ChainDecodes(r, r[name], recs[..k], objs[..k + 1]);
  }
}
