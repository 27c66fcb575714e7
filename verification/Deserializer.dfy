/**
 The decoding loops of QProtobufSerializer over the checking iterator. Each method
 does what the function of module Decoder says of the bytes in front of the iterator.
 Where the source would go on for ever, a method returns Threw(Endless).
 */
module Deserializer {
  import opened Wire
  import opened Messages
  import opened Decoder
  import opened SelfcheckIterator

  datatype Status = Normal | Threw(error: Error)

  // ------------------------------------------------------------------ varints

  lemma {:induction false} AddModulo(exact: nat, x: nat, modulus: nat)
    requires modulus == TWO32 || modulus == TWO64
    ensures (exact % modulus + x % TWO64) % modulus == (exact + x) % modulus
  {
    var q, s := exact / modulus, x / TWO64;
    assert exact == q * modulus + exact % modulus && x == s * TWO64 + x % TWO64;
    if modulus == TWO32 {
      assert exact + x == exact % modulus + x % TWO64 + (q + s * TWO32) * TWO32;
    }
  }

  /** `exact` is the value of the `k` groups read so far: what remains decides the result. */
  ghost predicate Resumes(start: Bytes, rest: Bytes, k: nat, exact: nat)
  {
    match ReadGroups(rest, k)
    case Got(v, end) => ReadGroups(start, 0) == Got(exact + v * Pow128(k), end)
    case Throw(e) => ReadGroups(start, 0) == Throw(e)
  }

  lemma {:induction false} ResumeStep(start: Bytes, rest: Bytes, k: nat, exact: nat)
    requires Resumes(start, rest, k, exact) && k < 10 && rest != [] && rest[0] >= 128
    ensures Resumes(start, rest[1..], k + 1, exact + (rest[0] - 128) * Pow128(k))
  {
    hide Pow128;
    if ReadGroups(rest[1..], k + 1).Got? {
      var v := ReadGroups(rest[1..], k + 1).value;
      GroupValue(rest[0] - 128, v, k);
      assert ReadGroups(rest, k).value == rest[0] - 128 + 128 * v;
    }
  }

  lemma {:induction false} ResumesAtStart(start: Bytes)
    ensures Resumes(start, start, 0, 0)
  {
  }

  lemma {:induction false} ResumesAtEnd(start: Bytes, rest: Bytes, k: nat, exact: nat)
    requires Resumes(start, rest, k, exact)
    ensures k >= 10 ==> ReadGroups(start, 0) == Throw(Undefined)
    ensures k < 10 && rest == [] ==> ReadGroups(start, 0) == Throw(OutOfRange)
    ensures k < 10 && rest != [] && rest[0] < 128 ==>
      ReadGroups(start, 0) == Got(exact + rest[0] * Pow128(k), rest[1..])
  {
  }

  lemma {:induction false} GroupValue(b: nat, v: nat, k: nat)
    ensures (b + 128 * v) * Pow128(k) == b * Pow128(k) + v * Pow128(k + 1)
  {
    var p := Pow128(k);
    assert Pow128(k + 1) == 128 * p;
    assert (128 * v) * p == v * (128 * p);
  }

  /** deserializeVarintCommon<V>, with 2^width(V) = modulus. */
  method DeserializeVarint(it: Iterator, modulus: nat) returns (st: Status, value: nat)
    requires it.Valid() && (modulus == TWO32 || modulus == TWO64)
    modifies it
    ensures st.Normal? ==> it.Valid() && ReadVarint(old(it.Rest()), modulus) == Got(value, it.Rest())
    ensures st.Threw? ==> ReadVarint(old(it.Rest()), modulus) == Throw(st.error)
  {
    hide Resumes;
    ghost var start := it.Rest();
    ghost var exact: nat := 0;
    ResumesAtStart(start);
    value := 0;
    var k := 0;
    while true
      invariant it.Valid() && k <= 10 && Resumes(start, it.Rest(), k, exact) && value == exact % modulus
      invariant k > 0 || it.Rest() == start
      decreases 10 - k
    {
      ghost var rest := it.Rest();
      ResumesAtEnd(start, rest, k, exact);
      if k == 10 {
        return Threw(Undefined), 0;
      }
      var byte := it.Peek();
      var group := byte % 128 * Pow128(k);
      value := (value + group % TWO64) % modulus;
      AddModulo(exact, group, modulus);
      var ok := it.Next();
      if !ok {
        return Threw(OutOfRange), 0;
      }
      if byte < 128 {
        return Normal, value;
      }
      ResumeStep(start, rest, k, exact);
      exact := exact + group;
      k := k + 1;
    }
  }

  /** skipVarint */
  method SkipVarintBytes(it: Iterator) returns (st: Status)
    requires it.Valid()
    modifies it
    ensures st.Normal? ==> it.Valid() && SkipVarint(old(it.Rest())) == Got((), it.Rest())
    ensures st.Threw? ==> SkipVarint(old(it.Rest())) == Throw(st.error)
  {
    var byte := it.Peek();
    while byte >= 128
      invariant it.Valid() && SkipVarint(it.Rest()) == SkipVarint(old(it.Rest()))
      invariant byte == if it.Rest() == [] then 0 else it.Rest()[0]
      decreases it.sizeLeft
    {
      var ok := it.Next();
      byte := it.Peek();
    }
    var ok := it.Next();
    st := if ok then Normal else Threw(OutOfRange);
  }

  // ------------------------------------------------------------- basic values

  /** deserializeLengthDelimited */
  method DeserializeLengthDelimited(it: Iterator) returns (st: Status, bytes: Bytes)
    requires it.Valid()
    modifies it
    ensures st.Normal? ==> it.Valid() && ReadPrefixed(old(it.Rest())) == Got(bytes, it.Rest())
    ensures st.Threw? ==> ReadPrefixed(old(it.Rest())) == Throw(st.error)
  {
    bytes := [];
    var length;
    st, length := DeserializeVarint(it, TWO32);
    if st.Normal? {
      st, bytes := TakeBytes(it, length);
    }
  }

  /** A block of `length` bytes copied from the iterator, followed by the step over it. */
  method TakeBytes(it: Iterator, length: nat) returns (st: Status, bytes: Bytes)
    requires it.Valid()
    modifies it
    ensures st.Normal? ==> it.Valid() && Take(old(it.Rest()), length) == Got(bytes, it.Rest())
    ensures st.Threw? ==> Take(old(it.Rest()), length) == Throw(st.error)
  {
    bytes := [];
    if length > INT_MAX {
      return Threw(Undefined), bytes;
    }
    var from := it.pos;
    ghost var rest := it.Rest();
    var ok := it.Advance(length);
    if ok {
      st, bytes := Normal, it.data[from..from + length];
      assert bytes == rest[..length];
    } else {
      st := Threw(OutOfRange);
    }
  }

  /** deserializeBasic<V> */
  method DeserializeBasic(kind: Kind, it: Iterator) returns (st: Status, s: Scalar)
    requires it.Valid()
    modifies it
    ensures st.Normal? ==> it.Valid() && ReadScalar(kind, old(it.Rest())) == Got(s, it.Rest())
    ensures st.Threw? ==> ReadScalar(kind, old(it.Rest())) == Throw(st.error)
  {
    if IsVarint(kind) {
      var u;
      st, u := DeserializeVarint(it, Modulus(kind));
      s := if st.Normal? then Num(FromWire(kind, u)) else Num(0);
    } else {
      var bytes;
      if kind == Blob {
        st, bytes := DeserializeLengthDelimited(it);
      } else {
        st, bytes := TakeBytes(it, if kind == Fixed32 then 4 else 8);
      }
      s := Block(bytes);
    }
  }

  /** operator += on the iterator itself, with a count that may be negative. */
  method Step(it: Iterator, count: int) returns (st: Status)
    requires it.Valid()
    modifies it
    ensures st.Normal? ==> it.Valid() && Move(it.data, old(it.Rest()), count) == Got((), it.Rest())
    ensures st.Threw? ==> Move(it.data, old(it.Rest()), count) == Throw(st.error)
  {
    var ok := it.Advance(count);
    st := if !ok then Threw(OutOfRange) else if it.pos < 0 then Threw(Undefined) else Normal;
  }

  /** skipSerializedFieldBytes */
  method SkipField(it: Iterator, wire: nat) returns (st: Status)
    requires it.Valid()
    modifies it
    ensures st.Normal? ==> it.Valid() && Skip(wire, it.data, old(it.Rest())) == Got((), it.Rest())
    ensures st.Threw? ==> Skip(wire, it.data, old(it.Rest())) == Throw(st.error)
  {
    hide Move, ReadVarint;
    if wire == VARINT {
      st := SkipVarintBytes(it);
    } else if wire == FIXED32 {
      st := Step(it, 4);
    } else if wire == FIXED64 {
      st := Step(it, 8);
    } else if wire == DELIMITED {
      var length;
      st, length := DeserializeVarint(it, TWO32);
      if st.Normal? {
        st := Step(it, ToSigned(length, TWO32));
      }
    } else {
      st := Threw(InvalidArgument);
    }
  }

  /** The length of a block and the iterator at its end, which may lie behind this one. */
  method BlockEndOf(it: Iterator) returns (st: Status, last: Iterator)
    requires it.Valid()
    modifies it
    ensures fresh(last)
    ensures st.Normal? ==>
      it.Valid() && last.Valid() && last.data == it.data &&
      BlockEnd(|it.data|, old(it.Rest())) == Got(last.sizeLeft, it.Rest())
    ensures st.Threw? ==> BlockEnd(|it.data|, old(it.Rest())) == Throw(st.error)
  {
    last := new Iterator([]);
    var count;
    st, count := DeserializeVarint(it, TWO32);
    if st.Normal? {
      var ok;
      ok, last := it.Plus(ToSigned(count, TWO32));
      if !ok {
        st := Threw(OutOfRange);
      }
    }
  }

  /** deserializeList<V> for the packed types. */
  method DeserializeList(kind: Kind, prior: seq<Scalar>, it: Iterator) returns (st: Status, out: seq<Scalar>)
    requires it.Valid()
    modifies it
    ensures st.Normal? ==> it.Valid() && ReadList(|it.data|, kind, prior, old(it.Rest())) == Got(out, it.Rest())
    ensures st.Threw? ==> ReadList(|it.data|, kind, prior, old(it.Rest())) == Throw(st.error)
  {
    hide ReadElements, BlockEnd;
    out := prior;
    var last;
    st, last := BlockEndOf(it);
    if st.Normal? {
      st, out := DeserializeElements(kind, prior, it, last);
    }
  }

  /** Its loop: elements until the iterator meets the end of the block. */
  method DeserializeElements(kind: Kind, prior: seq<Scalar>, it: Iterator, last: Iterator)
    returns (st: Status, out: seq<Scalar>)
    requires it.Valid() && last.Valid() && last.data == it.data && it != last
    modifies it
    ensures st.Normal? ==> it.Valid() && ReadElements(kind, old(it.Rest()), last.sizeLeft, prior) == Got(out, it.Rest())
    ensures st.Threw? ==> ReadElements(kind, old(it.Rest()), last.sizeLeft, prior) == Throw(st.error)
  {
    hide ReadScalar;
    st, out := Normal, prior;
    while it.pos != last.pos
      invariant st.Normal? && it.Valid() && last.Valid()
      invariant ReadElements(kind, it.Rest(), last.sizeLeft, out) ==
                ReadElements(kind, old(it.Rest()), last.sizeLeft, prior)
      decreases it.sizeLeft
    {
      var s;
      st, s := DeserializeBasic(kind, it);
      if st.Threw? {
        return;
      }
      out := out + [s];
    }
  }

  // ------------------------------------------------------------------- objects

  /** A message object whose properties are written one by one. */
  class MessageObject {
    var fields: map<nat, Value>

    ghost function Value(): Msg
      reads this
    {
      Msg(fields)
    }

    constructor (type_: Fields)
      ensures Value() == DefaultMsg(type_)
    {
      fields := DefaultMsg(type_).fields;
    }
  }

  /**
   deserialize<T>: the target receives what was decoded also when the exception goes on,
   and nothing from a decoding that does not end.
   */
  method Deserialize(reg: Registry, type_: Fields, target: MessageObject, data: Bytes) returns (st: Status)
    modifies target
    ensures st.Normal? ==> Decode(reg, type_, data) == Done(target.Value())
    ensures st.Threw? && st.error != Endless ==> Decode(reg, type_, data) == Failed(st.error, target.Value())
    ensures st == Threw(Endless) <==> Decode(reg, type_, data).Failed? && Decode(reg, type_, data).error == Endless
    ensures st == Threw(Endless) ==> target.Value() == old(target.Value())
  {
    hide ReadFields;
    var newValue := new MessageObject(type_);
    st := DeserializeMessage(reg, type_, newValue, data);
    if st != Threw(Endless) {
      target.fields := newValue.fields;
    }
  }

  /** With `n` records to go, what is left to be read decides the result. */
  ghost predicate Leads(reg: Registry, type_: Fields, whole: Outcome, obj: Msg, data: Bytes, bytes: Bytes, n: nat)
    requires Suffix(bytes, data)
  {
    ReadFields(reg, type_, obj, data, bytes, n) == whole
  }

  lemma {:induction false} NextRecord(
      reg: Registry, type_: Fields, whole: Outcome, obj: Msg, data: Bytes, bytes: Bytes, n: nat)
    requires Suffix(bytes, data) && Leads(reg, type_, whole, obj, data, bytes, n)
    ensures bytes == [] ==> whole == Done(obj)
    ensures bytes != [] && n == 0 ==> whole == Failed(Endless, obj)
    ensures bytes != [] && n > 0 ==>
      match ReadRecord(reg, type_, obj, data, bytes)
      case Throw(e) => whole == Failed(e, obj)
      case Got(obj', rest) => Leads(reg, type_, whole, obj', data, rest, n - 1)
  {
    hide ReadRecord;
  }

  /** deserializeMessage */
  method DeserializeMessage(reg: Registry, type_: Fields, obj: MessageObject, data: Bytes) returns (st: Status)
    modifies obj
    ensures ReadFields(reg, type_, old(obj.Value()), data, data, |data|) ==
            if st.Normal? then Done(obj.Value()) else Failed(st.error, obj.Value())
    decreases |data|, 4
  {
    hide ReadFields;
    var it := new Iterator(data);
    ghost var whole := ReadFields(reg, type_, obj.Value(), data, data, |data|);
    st := DeserializeRecords(reg, type_, obj, it, whole);
  }

  /** Its loop, left after as many records as there are bytes: from there it repeats itself. */
  method DeserializeRecords(reg: Registry, type_: Fields, obj: MessageObject, it: Iterator, ghost whole: Outcome)
    returns (st: Status)
    requires it.Valid() && Leads(reg, type_, whole, obj.Value(), it.data, it.Rest(), |it.data|)
    modifies obj, it
    ensures whole == if st.Normal? then Done(obj.Value()) else Failed(st.error, obj.Value())
    decreases |it.data|, 3
  {
    hide *;
    var n := |it.data|;
    st := Normal;
    while it.pos != |it.data|
      invariant st.Normal? && it.Valid() && n >= 0
      invariant Leads(reg, type_, whole, obj.Value(), it.data, it.Rest(), n)
      decreases n
    {
      ghost var o, b := obj.Value(), it.Rest();
      NextRecord(reg, type_, whole, o, it.data, b, n);
      if n == 0 {
        return Threw(Endless);
      }
      n := n - 1;
      st := DeserializeProperty(reg, type_, obj, it);
      if st.Threw? {
        return;
      }
    }
    NextRecord(reg, type_, whole, obj.Value(), it.data, it.Rest(), n);
  }

  /** deserializeProperty */
  method DeserializeProperty(reg: Registry, type_: Fields, obj: MessageObject, it: Iterator) returns (st: Status)
    requires it.Valid()
    modifies obj, it
    ensures st.Normal? ==>
      it.Valid() && ReadRecord(reg, type_, old(obj.Value()), it.data, old(it.Rest())) == Got(obj.Value(), it.Rest())
    ensures st.Threw? ==>
      && ReadRecord(reg, type_, old(obj.Value()), it.data, old(it.Rest())) == Throw(st.error)
      && obj.Value() == old(obj.Value())
    decreases it.sizeLeft, 2
  {
    hide ReadValue, Skip, ReadTag;
    var t;
    st, t := DecodeHeader(it);
    if st.Threw? {
      return;
    }
    if !TagAllowed(t) {
      return Threw(InvalidArgument);
    }
    if !HasField(type_, t.number) {
      st := SkipField(it, t.wire);
      return;
    }
    var ty := TypeOf(type_, t.number);
    var prior := if t.number in obj.fields then obj.fields[t.number] else Default(ty);
    var v;
    st, v := DeserializeValue(reg, ty, prior, it);
    if st.Normal? {
      obj.fields := obj.fields[t.number := v];
    }
  }

  /** decodeHeader, its verdict left to the caller. */
  method DecodeHeader(it: Iterator) returns (st: Status, t: Tag)
    requires it.Valid()
    modifies it
    ensures st.Normal? ==> it.Valid() && ReadTag(old(it.Rest())) == Got(t, it.Rest()) && it.sizeLeft < old(it.sizeLeft)
    ensures st.Threw? ==> ReadTag(old(it.Rest())) == Throw(st.error)
  {
    var h;
    st, h := DeserializeVarint(it, TWO32);
    t := Tag(h / 8, h % 8);
  }

  /** The deserializer registered for a property type. */
  method DeserializeValue(reg: Registry, ty: FieldType, prior: Value, it: Iterator) returns (st: Status, v: Value)
    requires it.Valid()
    modifies it
    ensures st.Normal? ==> it.Valid() && ReadValue(reg, |it.data|, ty, prior, old(it.Rest())) == Got(v, it.Rest())
    ensures st.Threw? ==> ReadValue(reg, |it.data|, ty, prior, old(it.Rest())) == Throw(st.error)
    decreases it.sizeLeft, 3
  {
    hide ReadScalar, ReadList, ReadChild, ReadEntry, ReadPrefixed, Insert;
    v := prior;
    match ty {
      case Single(kind) =>
        var s;
        st, s := DeserializeBasic(kind, it);
        v := One(s);
      case Packed(kind) =>
        if !PackedKind(kind) {
          return Threw(BadFunctionCall), v;
        }
        var ss;
        st, ss := DeserializeList(kind, if kind == Enum then ScalarsOf(prior) else [], it);
        v := Many(ss);
      case Blobs =>
        var bytes;
        st, bytes := DeserializeLengthDelimited(it);
        v := Many(ScalarsOf(prior) + [Block(bytes)]);
      case Message(name) =>
        var m;
        st, m := DeserializeObject(reg, name, it);
        v := Child(Held(m));
      case Messages(name) =>
        var m;
        st, m := DeserializeObject(reg, name, it);
        v := Children(ChildrenOf(prior) + [Held(m)]);
      case MapOf(key, value) =>
        var e;
        st, e := DeserializeMapPair(reg, key, value, it);
        v := Pairs(Insert(PairsOf(prior), e));
    }
  }

  /** deserializeObject: a new object filled from a length-delimited block. */
  method DeserializeObject(reg: Registry, name: Name, it: Iterator) returns (st: Status, m: Msg)
    requires it.Valid()
    modifies it
    ensures st.Normal? ==> it.Valid() && ReadChild(reg, name, old(it.Rest())) == Got(m, it.Rest())
    ensures st.Threw? ==> ReadChild(reg, name, old(it.Rest())) == Throw(st.error)
    decreases it.sizeLeft, 2
  {
    hide ReadPrefixed, ReadFields;
    m := Msg(map[]);
    if name !in reg {
      return Threw(BadFunctionCall), m;
    }
    var obj := new MessageObject(reg[name]);
    var bytes;
    st, bytes := DeserializeLengthDelimited(it);
    if st.Normal? {
      st := DeserializeMessage(reg, reg[name], obj, bytes);
      m := Msg(obj.fields);
    }
  }

  /** deserializeMapPair */
  method DeserializeMapPair(reg: Registry, key: Kind, value: FieldType, it: Iterator) returns (st: Status, e: Pair)
    requires it.Valid()
    modifies it
    ensures st.Normal? ==> it.Valid() && ReadEntry(reg, |it.data|, key, value, old(it.Rest())) == Got(e, it.Rest())
    ensures st.Threw? ==> ReadEntry(reg, |it.data|, key, value, old(it.Rest())) == Throw(st.error)
    decreases it.sizeLeft, 2
  {
    hide BlockEnd, ReadPair, Default, DefaultScalar, Suffix, ScalarOk;
    e := Pair(DefaultScalar(key), Default(value));
    var last;
    st, last := BlockEndOf(it);
    if st.Normal? {
      st, e := DeserializePairFields(reg, key, value, e, it, last);
    }
  }

  /** Its loop: key and value fields until the iterator meets the end of the entry. */
  method DeserializePairFields(reg: Registry, key: Kind, value: FieldType, e0: Pair, it: Iterator, last: Iterator)
    returns (st: Status, e: Pair)
    requires it.Valid() && last.Valid() && last.data == it.data && it != last
    modifies it
    ensures st.Normal? ==> it.Valid() && ReadPair(reg, |it.data|, key, value, e0, old(it.Rest()), last.sizeLeft) == Got(e, it.Rest())
    ensures st.Threw? ==> ReadPair(reg, |it.data|, key, value, e0, old(it.Rest()), last.sizeLeft) == Throw(st.error)
    decreases it.sizeLeft, 4
  {
    hide ReadScalar, ReadValue, ReadTag;
    st, e := Normal, e0;
    while it.pos != last.pos
      invariant st.Normal? && it.Valid() && last.Valid() && it.sizeLeft <= old(it.sizeLeft)
      invariant ReadPair(reg, |it.data|, key, value, e, it.Rest(), last.sizeLeft) ==
                ReadPair(reg, |it.data|, key, value, e0, old(it.Rest()), last.sizeLeft)
      decreases it.sizeLeft
    {
      var t;
      st, t := DecodeHeader(it);
      if st.Threw? {
        return;
      }
      if t.number == 1 {
        if key == Enum {
          return Threw(OutOfRange), e;
        }
        var k;
        st, k := DeserializeBasic(key, it);
        e := Pair(k, e.val);
      } else {
        var v;
        st, v := DeserializeValue(reg, value, e.val, it);
        e := Pair(e.key, v);
      }
      if st.Threw? {
        return;
      }
    }
  }
}
