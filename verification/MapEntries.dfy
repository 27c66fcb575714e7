/**
 A map entry on the wire is an ordinary message with the key as field 1 and the value as
 field 2, so any reader that declares such a message type understands it.
 */
module MapEntries {
  import opened Wire
  import opened Messages
  import opened Encoder
  import opened Decoder
  import opened RoundTrip
  import opened Evolution
  import opened Identity

  function EntryFields(key: Kind, value: FieldType): Fields
  {
    [Field(1, Single(key)), Field(2, value)]
  }

  function EntryMsg(e: Pair): Msg
  {
    Msg(map[1 := One(e.key), 2 := e.val])
  }

  lemma {:induction false} EntryIsMessage(reg: Registry, key: Kind, value: FieldType, e: Pair)
    requires ScalarOk(key, e.key) && Encodable(reg, value, e.val)
    ensures EncodableMsg(reg, [Field(1, Single(key)), Field(2, value)], Msg(map[1 := One(e.key), 2 := e.val]))
    ensures Entry(reg, key, value, e) ==
            Encode(reg, [Field(1, Single(key)), Field(2, value)], Msg(map[1 := One(e.key), 2 := e.val]))
  {
    hide Encodable, Records, Flat;
    var fields, m := EntryFields(key, value), EntryMsg(e);
    assert m.fields.Keys == {1, 2} == Numbers(fields) by {
      assert fields[0].number == 1 && fields[1].number == 2;
    }
    assert Encodable(reg, Single(key), One(e.key)) by { KeyEncodable(reg, key, e.key); }
    assert RecordsFrom(reg, fields, m, 2) == [];
    var recs1, recs2 := FieldRecords(reg, fields[0], One(e.key)), FieldRecords(reg, fields[1], e.val);
    assert RecordsFrom(reg, fields, m, 1) == recs2 + [];
    assert RecordsFrom(reg, fields, m, 0) == recs1 + (recs2 + []);
    assert recs2 + [] == recs2;
    FlatConcat(recs1, recs2);
    KeyBodies(reg, key, e.key);
  }

  lemma {:induction false} KeyEncodable(reg: Registry, key: Kind, k: Scalar)
    requires ScalarOk(key, k)
    ensures Encodable(reg, Single(key), One(k))
  {
  }

  lemma {:induction false} KeyBodies(reg: Registry, key: Kind, k: Scalar)
    requires ScalarOk(key, k)
    ensures Encodable(reg, Single(key), One(k)) && Bodies(reg, Single(key), One(k)) == ScalarBodies(key, k)
    ensures WireOf(Single(key)) == KindWire(key)
  {
  }

  /** `fields` are the two fields of an entry, in either order. */
  predicate DeclaresEntry(fields: Fields, key: Kind, value: FieldType)
  {
    fields == [Field(1, Single(key)), Field(2, value)] || fields == [Field(2, value), Field(1, Single(key))]
  }

  lemma {:induction false} EntryVersions(r: Registry, fields: Fields, key: Kind, value: FieldType)
    requires DeclaresEntry(fields, key, value)
    requires TypeOk(MapOf(key, value)) && TypeRegistered(r, MapOf(key, value))
    ensures Versions(r, EntryFields(key, value), fields)
  {
  }

  lemma {:induction false} EntryFieldTypes(fields: Fields, key: Kind, value: FieldType)
    requires DeclaresEntry(fields, key, value)
    ensures Numbers(fields) == {1, 2} && HasField(fields, 1) && HasField(fields, 2)
    ensures TypeOf(fields, 1) == Single(key) && TypeOf(fields, 2) == value
  {
    assert fields[0].number in {1, 2} && fields[1].number in {1, 2};
    assert TypeOf(fields[1..], fields[1].number) == fields[1].ty;
  }

  /**
   Decoding an entry as a message of such a type, with its two fields in either order,
   gives the key and the reader's view of the value, which is the value itself exactly
   when it holds no null elements.
   */
  lemma {:induction false} EntryDecodes(w: Registry, r: Registry, fields: Fields, key: Kind, value: FieldType, e: Pair)
    requires Compatible(w, r) && DeclaresEntry(fields, key, value)
    requires TypeOk(MapOf(key, value)) && TypeRegistered(r, MapOf(key, value))
    requires ScalarOk(key, e.key) && Encodable(w, value, e.val) && |Entry(w, key, value, e)| <= INT_MAX
    ensures Decode(r, fields, Entry(w, key, value, e)) ==
            Done(Msg(map[1 := One(e.key), 2 := ViewValue(r, value, e.val)]))
    ensures Reordered(w, r) ==>
      (Decode(r, fields, Entry(w, key, value, e)) == Done(Msg(map[1 := One(e.key), 2 := e.val]))
       <==> NoNullsIn(e.val))
  {
    hide Decode, Entry, Encode, Encodable, EncodableMsg, ViewValue, Versions, Compatible;
    EntryIsMessage(w, key, value, e);
    EntryVersions(r, fields, key, value);
    DecodeOfFields(w, r, EntryFields(key, value), fields, EntryMsg(e));
    EntryFieldTypes(fields, key, value);
    assert ViewValue(r, Single(key), One(e.key)) == One(e.key) by { KeyView(r, key, e.key); }
    assert View(r, fields, EntryMsg(e)).fields == map[1 := One(e.key), 2 := ViewValue(r, value, e.val)];
    if Reordered(w, r) {
      ViewOfValue(w, r, value, e.val);
      EntryMsgEqual(e.key, ViewValue(r, value, e.val), e.val);
    }
  }

  lemma {:induction false} EntryMsgEqual(k: Scalar, a: Value, b: Value)
    ensures Msg(map[1 := One(k), 2 := a]) == Msg(map[1 := One(k), 2 := b]) <==> a == b
  {
    var x: map<nat, Value>, y: map<nat, Value> := map[1 := One(k), 2 := a], map[1 := One(k), 2 := b];
    assert x[2] == a && y[2] == b;
  }

  lemma {:induction false} KeyView(r: Registry, key: Kind, k: Scalar)
    ensures ViewValue(r, Single(key), One(k)) == One(k)
  {
  }
}
