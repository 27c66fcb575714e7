/**
 The bytes themselves, spelled out with the numbers of the protobuf encoding: what each
 kind of field looks like on the wire, what a number on the wire means to each type, and
 what is not written at all.
 */
module WireFormat {
  import opened Wire
  import opened Messages
  import opened Encoder
  import opened Decoder
  import opened RoundTrip

  // ------------------------------------------------------------------ varints

  /** u >> (7 * i) */
  function Shifted(u: nat, i: nat): nat
  {
    if i == 0 then u else Shifted(u / 128, i - 1)
  }

  /** Seven bits to a byte, the lowest first; all bytes but the last are marked, and none is left over. */
  lemma {:induction false} VarintDigits(u: nat, i: nat)
    requires i < |Varint(u)|
    ensures Varint(u)[i] == Shifted(u, i) % 128 + if i + 1 < |Varint(u)| then 128 else 0
    ensures Shifted(u, |Varint(u)|) == 0
    ensures |Varint(u)| > 1 ==> Shifted(u, |Varint(u)| - 1) > 0
    decreases u
  {
    if u >= 128 {
      VarintDigits(u / 128, if i == 0 then 0 else i - 1);
    } else {
      assert Shifted(u / 128, 0) == 0;
    }
  }

  // ------------------------------------------------- what the encoder writes

  /** The wire type of a field, as the number in the low three bits of its header. */
  function WireNumber(ty: FieldType): nat
  {
    match ty
    case Single(kind) => (
      match kind
      case Fixed32 => 5
      case Fixed64 => 1
      case Blob => 2
      case _ => 0)
    case _ => 2
  }

  /** The number written for an integer: two's complement in 32 or 64 bits, or zig-zag. */
  function NumberOnWire(kind: Kind, n: int): int
  {
    match kind
    case Int32 => if n < 0 then 4294967296 + n else n
    case Int64 => if n < 0 then 18446744073709551616 + n else n
    case Enum => if n < 0 then 18446744073709551616 + n else n
    case SInt32 => if n < 0 then -2 * n - 1 else 2 * n
    case SInt64 => if n < 0 then -2 * n - 1 else 2 * n
    case _ => n
  }

  /** A value of a basic type on the wire: a varint, the bytes themselves, or a counted block. */
  lemma {:induction false} ElementBytes(kind: Kind, s: Scalar)
    requires ScalarOk(kind, s)
    ensures
      match s
      case Num(n) => NumberOnWire(kind, n) >= 0 && Element(kind, s) == Varint(NumberOnWire(kind, n))
      case Block(data) => (
        && Element(kind, s) == (if kind == Blob then Varint(|data| % 4294967296) + data else data)
        && (kind == Fixed32 ==> |data| == 4) && (kind == Fixed64 ==> |data| == 8))
  {
    if kind == SInt32 || kind == SInt64 { ZigZagMeaning(s.n, if kind == SInt32 then TWO32 else TWO64); }
  }

  /** Every record of a field starts with eight times its number plus its wire type. */
  lemma {:induction false} RecordStarts(reg: Registry, f: Field, v: Value, k: nat)
    requires Encodable(reg, f.ty, v) && k < |FieldRecords(reg, f, v)|
    ensures k < |Bodies(reg, f.ty, v)|
    ensures FieldRecords(reg, f, v)[k] == Varint(8 * f.number + WireNumber(f.ty)) + Bodies(reg, f.ty, v)[k]
  {
    hide Bodies, Encodable;
  }

  lemma {:induction false} NoRecords()
    ensures Flat([]) == []
  {
  }

  lemma {:induction false} OneFlat(recs: seq<Bytes>)
    requires |recs| == 1
    ensures Flat(recs) == recs[0]
  {
    assert recs[1..] == [] && Flat(recs[1..]) == [];
    assert Flat(recs) == recs[0] + [];
  }

  /**
   A field of a basic type: nothing for an integer that is zero, else one record, also for
   empty strings and for fixed-width zeros.
   */
  lemma {:induction false} SingleFieldBytes(reg: Registry, number: nat, kind: Kind, s: Scalar)
    requires ScalarOk(kind, s)
    ensures Encodable(reg, Single(kind), One(s))
    ensures
      var bytes := Flat(FieldRecords(reg, Field(number, Single(kind)), One(s)));
      match s
      case Num(n) => NumberOnWire(kind, n) >= 0 &&
        bytes == (if n == 0 then [] else Varint(8 * number) + Varint(NumberOnWire(kind, n)))
      case Block(data) =>
        bytes == (match kind
                  case Fixed32 => Varint(8 * number + 5) + data
                  case Fixed64 => Varint(8 * number + 1) + data
                  case _ => Varint(8 * number + 2) + (Varint(|data| % 4294967296) + data))
  {
    hide Element, Varint, Flat;
    ElementBytes(kind, s);
    var recs := FieldRecords(reg, Field(number, Single(kind)), One(s));
    assert recs == [] ==> Flat(recs) == [] by { NoRecords(); }
    assert |recs| == |Bodies(reg, Single(kind), One(s))| <= 1;
    if recs != [] { OneFlat(recs); }
  }

  /** A packed list is one counted block of its elements, and an empty one is nothing. */
  lemma {:induction false} PackedFieldBytes(reg: Registry, number: nat, kind: Kind, ss: seq<Scalar>)
    requires PackedKind(kind) && forall i :: 0 <= i < |ss| ==> ScalarOk(kind, ss[i])
    ensures Encodable(reg, Packed(kind), Many(ss))
    ensures
      var block := Elements(kind, ss);
      Flat(FieldRecords(reg, Field(number, Packed(kind)), Many(ss))) ==
        if ss == [] then [] else Varint(8 * number + 2) + (Varint(|block| % 4294967296) + block)
  {
    hide Elements, Varint, ScalarOk, Flat;
    var recs := FieldRecords(reg, Field(number, Packed(kind)), Many(ss));
    assert recs == [] ==> Flat(recs) == [] by { NoRecords(); }
    assert |recs| == |Bodies(reg, Packed(kind), Many(ss))| <= 1;
    if recs != [] { OneFlat(recs); }
  }

  // ---------------------------------------------------------- what is not written

  /** No record is written for the value. */
  predicate Nothing(ty: FieldType, v: Value)
  {
    match v
    case One(s) => s == Num(0)
    case Many(ss) => ss == []
    case Child(_) => false
    case Children(ps) => forall i :: 0 <= i < |ps| ==> ps[i].Null?
    case Pairs(es) => forall i :: 0 <= i < |es| ==> es[i].val == Child(Null)
  }

  lemma {:induction false} NoBlobs(ss: seq<Scalar>)
    requires forall i :: 0 <= i < |ss| ==> ScalarOk(Blob, ss[i])
    ensures BlobBodies(ss) == [] <==> ss == []
  {
  }

  lemma {:induction false} NoChildren(reg: Registry, name: Name, ps: seq<Lazy>)
    requires name in reg
    requires forall i :: 0 <= i < |ps| && ps[i].Held? ==> EncodableMsg(reg, reg[name], ps[i].msg)
    ensures ChildBodies(reg, name, ps) == [] <==> forall i :: 0 <= i < |ps| ==> ps[i].Null?
    decreases |ps|
  {
    hide EncodableMsg, ChildBody;
    if ps != [] {
      var tail := ps[1..];
      assert forall i :: 0 <= i < |tail| ==> tail[i] == ps[i + 1];
      NoChildren(reg, name, tail);
      if ps[0].Null? {
        assert (forall i :: 0 <= i < |tail| ==> tail[i].Null?) ==> forall i :: 0 <= i < |ps| ==> ps[i].Null?
        by { TailAndHead(ps); }
      }
    }
  }

  lemma {:induction false} TailAndHead(ps: seq<Lazy>)
    requires ps != [] && ps[0].Null?
    ensures (forall i :: 0 <= i < |ps[1..]| ==> ps[1..][i].Null?) ==> forall i :: 0 <= i < |ps| ==> ps[i].Null?
  {
    if forall i :: 0 <= i < |ps[1..]| ==> ps[1..][i].Null? {
      forall i | 0 <= i < |ps| ensures ps[i].Null? {
        if i > 0 { assert ps[1..][i - 1] == ps[i]; }
      }
    }
  }

  lemma {:induction false} NoPairs(reg: Registry, key: Kind, value: FieldType, es: seq<Pair>)
    requires forall i :: 0 <= i < |es| ==>
      ScalarOk(key, es[i].key) && (IsNull(es[i].val) || Encodable(reg, value, es[i].val))
    ensures PairBodies(reg, key, value, es) == [] <==> forall i :: 0 <= i < |es| ==> es[i].val == Child(Null)
    decreases |es|
  {
    hide Encodable, Entry, ScalarOk;
    if es != [] {
      var tail := es[1..];
      assert forall i :: 0 <= i < |tail| ==> tail[i] == es[i + 1];
      NoPairs(reg, key, value, tail);
      if es[0].val == Child(Null) && (forall i :: 0 <= i < |tail| ==> tail[i].val == Child(Null)) {
        forall i | 0 <= i < |es| ensures es[i].val == Child(Null) {
          if i > 0 { assert tail[i - 1] == es[i]; }
        }
      }
    }
  }

  lemma {:induction false} NothingIff(reg: Registry, ty: FieldType, v: Value)
    requires Encodable(reg, ty, v)
    ensures Bodies(reg, ty, v) == [] <==> Nothing(ty, v)
  {
    hide EncodableMsg;
    match ty
    case Blobs => NoBlobs(v.ss);
    case Messages(name) => NoChildren(reg, name, v.ps);
    case MapOf(key, value) => NoPairs(reg, key, value, v.entries);
    case _ =>
  }

  /** Nothing is left behind by records: each has at least its header. */
  lemma {:induction false} SomeRecord(number: nat, wire: nat, bodies: seq<Bytes>)
    ensures Flat(Records(number, wire, bodies)) == [] <==> bodies == []
  {
    if bodies != [] {
      PartFits(Records(number, wire, bodies), 0);
    }
  }

  lemma {:induction false} EmptyFrom(reg: Registry, fields: Fields, m: Msg, i: nat)
    requires EncodableMsg(reg, fields, m) && i <= |fields|
    ensures Flat(RecordsFrom(reg, fields, m, i)) == [] <==>
            forall j :: i <= j < |fields| ==> Nothing(fields[j].ty, m.fields[fields[j].number])
    decreases |fields| - i
  {
    hide Encodable, Records, Bodies, Nothing;
    if i < |fields| {
      var f := fields[i];
      var v := m.fields[f.number];
      NothingIff(reg, f.ty, v);
      SomeRecord(f.number, WireOf(f.ty), Bodies(reg, f.ty, v));
      FlatConcat(FieldRecords(reg, f, v), RecordsFrom(reg, fields, m, i + 1));
      EmptyFrom(reg, fields, m, i + 1);
    }
  }

  /** A message is encoded as no bytes at all exactly when every property is such a value. */
  lemma {:induction false} EncodesToNothingIff(reg: Registry, fields: Fields, m: Msg)
    requires EncodableMsg(reg, fields, m)
    ensures Encode(reg, fields, m) == [] <==>
            forall j :: 0 <= j < |fields| ==> Nothing(fields[j].ty, m.fields[fields[j].number])
  {
    hide EncodableMsg, RecordsFrom, Nothing;
    EmptyFrom(reg, fields, m, 0);
  }

  // ------------------------------------------------- what the decoder makes of it

  /** What a number on the wire means to each integer type, whatever wrote it. */
  predicate Means(kind: Kind, u: nat, n: int)
  {
    match kind
    case Int32 => -2147483648 <= n < 2147483648 && (n - u) % 4294967296 == 0
    case Enum => -2147483648 <= n < 2147483648 && (n - u) % 4294967296 == 0
    case UInt32 => 0 <= n < 4294967296 && (n - u) % 4294967296 == 0
    case Int64 => -9223372036854775808 <= n < 9223372036854775808 && (n - u) % 18446744073709551616 == 0
    case UInt64 => 0 <= n < 18446744073709551616 && (n - u) % 18446744073709551616 == 0
    case SInt32 => (if n < 0 then -2 * n - 1 else 2 * n) == u % 4294967296
    case SInt64 => (if n < 0 then -2 * n - 1 else 2 * n) == u % 18446744073709551616
    case Bool => n == if u % 4294967296 == 0 then 0 else 1
    case _ => false
  }

  lemma {:induction false} FromWireMeans(kind: Kind, u: nat)
    requires IsVarint(kind) && u < TWO64
    ensures Means(kind, u, FromWire(kind, u % Modulus(kind)))
  {
    var r := u % Modulus(kind);
    assert u == u / Modulus(kind) * Modulus(kind) + r;
    match kind
    case Int32 => SameModulo(u, r, FromWire(kind, r), TWO32);
    case UInt32 => SameModulo(u, r, r, TWO32);
    case Enum => EnumMeans(u);
    case SInt32 => ZigZagMeaning(UnZigZag(r, TWO32), TWO32); ZigZagBijection(0, r, TWO32);
    case SInt64 => ZigZagMeaning(UnZigZag(r, TWO64), TWO64); ZigZagBijection(0, r, TWO64);
    case Bool =>
    case _ =>
  }

  lemma {:induction false} EnumMeans(u: nat)
    requires u < TWO64
    ensures Means(Enum, u, FromWire(Enum, u))
  {
    assert u == u / TWO32 * TWO32 + u % TWO32;
    SameModulo(u, u % TWO32, FromWire(Enum, u), TWO32);
  }

  lemma {:induction false} SameModulo(u: nat, r: nat, n: int, m: nat)
    requires m > 0 && r == u % m && (n == r || n == r - m)
    ensures (n - u) % m == 0
  {
    var q := u / m;
    assert u == q * m + r;
    var k := if n == r then -q else -q - 1;
    assert n - u == k * m by {
      assert -(q * m) == (-q) * m;
      assert (-q - 1) * m == (-q) * m - m;
    }
    MultipleIsZero(k, m);
  }

  lemma {:induction false} Multiples(d: int, m: nat)
    ensures d >= 1 ==> m * d >= m
    ensures d <= -1 ==> m * d <= 0 - m
  {
    if d >= 1 {
      assert m * d == m + m * (d - 1);
      NotNegative(m, d - 1);
    } else if d <= -1 {
      assert m * d == 0 - m - m * (-d - 1);
      NotNegative(m, -d - 1);
    }
  }

  lemma {:induction false} NotNegative(a: nat, b: nat)
    ensures a * b >= 0
  {
  }

  lemma {:induction false} MultipleIsZero(k: int, m: nat)
    requires m > 0
    ensures k * m % m == 0
  {
    var x := k * m;
    var d := x / m - k;
    assert x == m * (x / m) + x % m;
    assert m * (x / m) - k * m == m * d;
    assert x % m == -(m * d);
    Multiples(d, m);
  }

  /** Every number of at most 64 bits, read as any integer type. */
  lemma {:induction false} NumberMeans(kind: Kind, u: nat, rest: Bytes)
    requires IsVarint(kind) && u < TWO64
    ensures
      var r := ReadScalar(kind, Varint(u) + rest);
      r.Got? && r.rest == rest && r.value.Num? && Means(kind, u, r.value.n)
  {
    hide FromWire, Means, Varint, ReadVarint;
    VarintRoundTrip(u, Modulus(kind), rest);
    FromWireMeans(kind, u);
  }

  /** Each number has one meaning. */
  lemma {:induction false} MeansOne(kind: Kind, u: nat, a: int, b: int)
    requires IsVarint(kind) && Means(kind, u, a) && Means(kind, u, b)
    ensures a == b
  {
    if kind in {Int32, Enum, UInt32} {
      Congruent(a - u, b - u, 4294967296);
    } else if kind in {Int64, UInt64} {
      Congruent(a - u, b - u, 18446744073709551616);
    }
  }

  lemma {:induction false} Congruent(x: int, y: int, m: nat)
    requires m > 0 && x % m == 0 && y % m == 0 && -(m as int) < x - y < m
    ensures x == y
  {
    var p, q := x / m, y / m;
    assert x == m * p + x % m && y == m * q + y % m;
    assert m * p - m * q == m * (p - q);
    Multiples(p - q, m);
  }

  /** Decoding no bytes: zeros, empty strings, empty lists and maps, and no submessages. */
  lemma {:induction false} DecodeOfNothing(reg: Registry, fields: Fields, n: nat)
    requires HasField(fields, n)
    ensures
      var r := Decode(reg, fields, []);
      && r.Done? && n in r.obj.fields
      && var v := r.obj.fields[n];
         match TypeOf(fields, n)
         case Single(kind) => (
           match kind
           case Fixed32 => v == One(Block([0, 0, 0, 0]))
           case Fixed64 => v == One(Block([0, 0, 0, 0, 0, 0, 0, 0]))
           case Blob => v == One(Block([]))
           case _ => v == One(Num(0)))
         case Packed(_) => v == Many([])
         case Blobs => v == Many([])
         case Message(_) => v == Child(Null)
         case Messages(_) => v == Children([])
         case MapOf(_, _) => v == Pairs([])
  {
    assert n in Numbers(fields);
  }

  /** What 32-bit lengths the iterator takes for negative: exactly those above INT_MAX. */
  lemma {:induction false} NegativeLengths32(n: nat)
    requires n < 4294967296
    ensures n > INT_MAX <==> n >= 2147483648
    ensures ToSigned(n, TWO32) == if n >= 2147483648 then n - 4294967296 else n
  {
  }

  /**
   A header is refused exactly when the field number in it is zero or its wire type is
   3, 4, 6 or 7; no number that fits in it is too large.
   */
  lemma {:induction false} HeaderRefused(reg: Registry, fields: Fields, obj: Msg, h: nat, rest: Bytes)
    requires h < TWO32
    ensures
      var data := Varint(h) + rest;
      && (h / 8 == 0 || h % 8 in {3, 4, 6, 7} ==> ReadRecord(reg, fields, obj, data, data) == Throw(InvalidArgument))
      && (h / 8 != 0 && h % 8 in {0, 1, 2, 5} && !HasField(fields, h / 8) ==>
            ReadRecord(reg, fields, obj, data, data) != Throw(InvalidArgument))
  {
    hide Varint, ReadTag, ReadVarint, SkipVarint, ReadValue;
    ReadTagOfVarint(h, rest);
    assert h / 8 <= MAX_FIELD;
    var data := Varint(h) + rest;
    assert Suffix(rest, data) by { SuffixTail(data, Varint(h), rest); }
    if h % 8 in {0, 1, 2, 5} { SkipNeverRefuses(h % 8, data, rest); }
  }

  lemma {:induction false} SkipNeverRefuses(wire: nat, data: Bytes, bytes: Bytes)
    requires Suffix(bytes, data) && wire in {0, 1, 2, 5}
    ensures Skip(wire, data, bytes) != Throw(InvalidArgument)
  {
    NumbersNotRefused(bytes, 0);
  }

  lemma {:induction false} NumbersNotRefused(bytes: Bytes, k: nat)
    ensures ReadGroups(bytes, k) != Throw(InvalidArgument) && SkipVarint(bytes) != Throw(InvalidArgument)
  {
    if bytes != [] && bytes[0] >= 128 {
      NumbersNotRefused(bytes[1..], k + 1);
    }
  }

  /** Without a handler for the type, reading throws bad_function_call before any byte is taken. */
  lemma {:induction false} MissingHandlers(reg: Registry, size: nat, name: Name, prior: Value, bytes: Bytes)
    requires name !in reg
    ensures ReadValue(reg, size, Message(name), prior, bytes) == Throw(BadFunctionCall)
    ensures ReadValue(reg, size, Messages(name), prior, bytes) == Throw(BadFunctionCall)
    ensures ReadValue(reg, size, Packed(Bool), prior, bytes) == Throw(BadFunctionCall)
  {
  }

  /** Only the wire types 0, 1, 2 and 5 can be skipped. */
  lemma {:induction false} SkipRefuses(wire: nat, data: Bytes, bytes: Bytes)
    requires Suffix(bytes, data) && wire !in {0, 1, 2, 5}
    ensures Skip(wire, data, bytes) == Throw(InvalidArgument)
  {
  }

  /** A varint with ten marked bytes has no defined value. */
  lemma {:induction false} TooLong(bytes: Bytes, k: nat)
    requires k <= 10 && |bytes| >= 10 - k && forall i :: 0 <= i < 10 - k ==> bytes[i] >= 128
    ensures ReadGroups(bytes, k) == Throw(Undefined)
    decreases 10 - k
  {
    if k < 10 {
      TooLong(bytes[1..], k + 1);
    }
  }

  /** A length n in front of a string or submessage: the copy is not defined from 2^31 on. */
  lemma {:induction false} CopiedLength(n: nat, rest: Bytes)
    requires n < 4294967296
    ensures ReadPrefixed(Varint(n) + rest) ==
            if n >= 2147483648 then Throw(Undefined)
            else if n > |rest| then Throw(OutOfRange)
            else Got(rest[..n], rest[n..])
  {
    hide Varint, ReadVarint;
    VarintRoundTrip(n, TWO32, rest);
  }

  /**
   A length n of a skipped field: a step forward in the container, and from 2^31 on a step
   back, with no meaning before the front.
   */
  lemma {:induction false} SkippedLength(data: Bytes, n: nat, rest: Bytes)
    requires n < 4294967296 && Suffix(Varint(n) + rest, data)
    ensures
      var left := |rest| - if n >= 2147483648 then n - 4294967296 else n;
      Skip(2, data, Varint(n) + rest) ==
        if left < 0 then Throw(OutOfRange)
        else if left > |data| then Throw(Undefined)
        else Got((), data[|data| - left..])
  {
    var bytes := Varint(n) + rest;
    SuffixTail(data, Varint(n), rest);
    assert ReadVarint(bytes, TWO32) == Got(n, rest) by { VarintRoundTrip(n, TWO32, rest); }
    NegativeLengths32(n);
    hide Varint, ReadVarint, Suffix, ToSigned;
  }

  /**
   A length n of a list or map entry: the end is where the step would lead, and it throws
   where that is outside of a container of `size` bytes.
   */
  lemma {:induction false} BlockLength(size: nat, n: nat, rest: Bytes)
    requires n < 4294967296 && |rest| <= size
    ensures
      var left := |rest| - if n >= 2147483648 then n - 4294967296 else n;
      BlockEnd(size, Varint(n) + rest) == if left < 0 || left > size then Throw(OutOfRange) else Got(left, rest)
  {
    hide Varint, ReadVarint;
    VarintRoundTrip(n, TWO32, rest);
    NegativeLengths32(n);
  }

  /**
   One field inside a map entry, whatever its wire type: number 1 is read into the key, and
   every other number, zero included, into the value.
   */
  lemma {:induction false} EntryField(
      reg: Registry, size: nat, key: Kind, value: FieldType, e: Pair, h: nat, rest: Bytes, end: nat)
    requires h < 4294967296 && end != |Varint(h) + rest|
    ensures
      var whole := ReadPair(reg, size, key, value, e, Varint(h) + rest, end);
      if h / 8 == 1 then
        if key == Enum then whole == Throw(OutOfRange)
        else
          match ReadScalar(key, rest)
          case Throw(x) => whole == Throw(x)
          case Got(k, more) => whole == ReadPair(reg, size, key, value, Pair(k, e.val), more, end)
      else
        match ReadValue(reg, size, value, e.val, rest)
        case Throw(x) => whole == Throw(x)
        case Got(v, more) => whole == ReadPair(reg, size, key, value, Pair(e.key, v), more, end)
  {
    hide Varint, ReadTag, ReadScalar, ReadValue;
    ReadTagOfVarint(h, rest);
  }
}
