/**
 What a reader gets from the bytes of a writer, when the two were built from
 different versions of the message types. Fields the reader does not know are
 skipped, fields the writer does not know keep their defaults, and the order in
 which either side iterates over its fields does not matter.
 */
module RoundTrip {
  import opened Wire
  import opened Messages
  import opened Encoder
  import opened Decoder

  /** Two versions of the message types that agree on the fields they share. */
  ghost predicate Compatible(w: Registry, r: Registry)
  {
    && RegistryOk(w) && RegistryOk(r)
    && forall name, i, j ::
         (name in w && name in r && 0 <= i < |w[name]| && 0 <= j < |r[name]|
          && w[name][i].number == r[name][j].number) ==> w[name][i].ty == r[name][j].ty
  }

  // --------------------------------------------------------------- projection

  /** The message as a reader with these fields sees it. */
  function View(r: Registry, fields: Fields, m: Msg): Msg
    decreases m, 1
  {
    Msg(map n | n in Numbers(fields) ::
      if n in m.fields then ViewValue(r, TypeOf(fields, n), m.fields[n]) else Default(TypeOf(fields, n)))
  }

  function ViewValue(r: Registry, ty: FieldType, v: Value): Value
    decreases v, 1
  {
    match v
    case Child(Held(c)) => if ty.Message? && ty.name in r then Child(Held(View(r, r[ty.name], c))) else v
    case Children(ps) => if ty.Messages? && ty.name in r then Children(ViewChildren(r, ty.name, ps)) else v
    case Pairs(es) => if ty.MapOf? then Pairs(ViewPairs(r, ty.value, es)) else v
    case _ => v
  }

  /** Null elements are not transmitted. */
  function ViewChildren(r: Registry, name: Name, ps: seq<Lazy>): seq<Lazy>
    requires name in r
    decreases ps, 1
  {
    if ps == [] then []
    else if ps[0].Null? then ViewChildren(r, name, ps[1..])
    else [ViewLazy(r, name, ps[0])] + ViewChildren(r, name, ps[1..])
  }

  function ViewLazy(r: Registry, name: Name, p: Lazy): Lazy
    requires name in r && p.Held?
    decreases p, 1
  {
    Held(View(r, r[name], p.msg))
  }

  function ViewPairs(r: Registry, value: FieldType, es: seq<Pair>): seq<Pair>
    decreases es, 1
  {
    if es == [] then []
    else if IsNull(es[0].val) then ViewPairs(r, value, es[1..])
    else [ViewPair(r, value, es[0])] + ViewPairs(r, value, es[1..])
  }

  function ViewPair(r: Registry, value: FieldType, e: Pair): Pair
    decreases e, 1
  {
    Pair(e.key, ViewValue(r, value, e.val))
  }

  // ------------------------------------------------------------ basic values

  lemma {:induction false} EnumFromWire(n: int)
    requires SignedRange(n, TWO32)
    ensures ToSigned(ToUnsigned(n, TWO64) % TWO32, TWO32) == n
  {
    var u := ToUnsigned(n, TWO64);
    assert u % TWO32 == if n < 0 then TWO32 + n else n;
  }

  lemma {:induction false} FromWireToWire(kind: Kind, n: int)
    requires IsVarint(kind) && InRange(kind, n)
    ensures ToWire(kind, n) < Modulus(kind) && FromWire(kind, ToWire(kind, n)) == n
    ensures ToWire(kind, n) == 0 <==> n == 0
  {
    if kind == SInt32 || kind == SInt64 {
      ZigZagBijection(n, 0, Modulus(kind));
      ZigZagMeaning(n, Modulus(kind));
    } else if kind == Enum {
      EnumFromWire(n);
    }
  }

  /** Every basic value is read back from its bytes, and nothing beyond them is consumed. */
  lemma {:induction false} ScalarRoundTrip(kind: Kind, s: Scalar, rest: Bytes)
    requires ScalarOk(kind, s) && (kind == Blob ==> |Element(kind, s)| <= INT_MAX)
    ensures ReadScalar(kind, Element(kind, s) + rest) == Got(s, rest)
  {
    hide ToWire, FromWire, InRange;
    if IsVarint(kind) {
      var u := ToWire(kind, s.n);
      FromWireToWire(kind, s.n);
      VarintRoundTrip(u, Modulus(kind), rest);
      assert u % Modulus(kind) == u;
    } else if kind == Blob {
      PrefixedRoundTrip(s.data, rest);
    } else {
      var bytes := s.data + rest;
      assert bytes[..|s.data|] == s.data && bytes[|s.data|..] == rest;
    }
  }

  lemma {:induction false} LowHalf(n: int)
    requires -TWO32 <= n < 0
    ensures (TWO64 + n) % TWO32 == TWO32 + n
  {
    assert TWO64 + n == (TWO32 - 1) * TWO32 + (TWO32 + n);
  }

  lemma {:induction false} NegativeLengths(n: int)
    requires SignedRange(n, TWO32) && n < 0
    ensures |Varint(TWO64 + n)| == 10 && |Varint(TWO32 + n)| == 5
  {
    assert Pow128(4) == 128 * 128 * 128 * 128;
    assert Pow128(8) == 128 * 128 * 128 * 128 * Pow128(4);
    assert Pow128(9) == 128 * Pow128(8);
    VarintLengthAbove(TWO64 + n, 9);
    VarintLengthAbove(TWO32 + n, 4);
    VarintFits(TWO64 + n);
    VarintFits(TWO32 + n);
  }

  /**
   A negative int32 arrives in two forms: sign-extended to ten bytes, as other
   implementations write it, and in five bytes, as this encoder does. Both read as it.
   */
  lemma {:induction false} NegativeInt32Forms(n: int, rest: Bytes)
    requires SignedRange(n, TWO32) && n < 0
    ensures |Varint(TWO64 + n)| == 10 && |Element(Int32, Num(n))| == 5
    ensures ReadScalar(Int32, Varint(TWO64 + n) + rest) == Got(Num(n), rest)
    ensures ReadScalar(Int32, Element(Int32, Num(n)) + rest) == Got(Num(n), rest)
  {
    hide Varint, ReadVarint;
    NegativeLengths(n);
    ScalarRoundTrip(Int32, Num(n), rest);
    VarintRoundTrip(TWO64 + n, TWO32, rest);
    assert (TWO64 + n) % TWO32 == TWO32 + n by { LowHalf(n); }
  }

  /** Packed elements are self-delimiting: the loop meets the end of the block exactly. */
  lemma {:induction false} ElementsRoundTrip(kind: Kind, ss: seq<Scalar>, out: seq<Scalar>, rest: Bytes)
    requires kind != Blob && forall i :: 0 <= i < |ss| ==> ScalarOk(kind, ss[i])
    ensures ReadElements(kind, Elements(kind, ss) + rest, |rest|, out) == Got(out + ss, rest)
    decreases |ss|
  {
    hide ReadScalar, Element, ScalarOk;
    var bytes := Elements(kind, ss) + rest;
    if ss == [] {
      assert bytes == rest && out + ss == out;
    } else {
      var tail := Elements(kind, ss[1..]) + rest;
      assert bytes == Element(kind, ss[0]) + tail;
      ScalarRoundTrip(kind, ss[0], tail);
      assert ReadElements(kind, bytes, |rest|, out) == ReadElements(kind, tail, |rest|, out + [ss[0]]);
      ElementsRoundTrip(kind, ss[1..], out + [ss[0]], rest);
      assert out + [ss[0]] + ss[1..] == out + ss;
    }
  }

  /** The end of a block that was written with its length. */
  lemma {:induction false} BlockEndOfPrefixed(size: nat, block: Bytes, rest: Bytes)
    requires |block| <= INT_MAX
    ensures BlockEnd(size, Prefixed(block) + rest) == Got(|rest|, block + rest)
  {
    hide ReadVarint, Prefixed;
    PrefixedRoundTrip(block, rest);
  }

  // ------------------------------------------------------- records and skips

  /** What can follow a header of the given wire type in a record. */
  ghost predicate Complete(wire: nat, body: Bytes)
  {
    if wire == VARINT then exists u: nat :: u < TWO64 && body == Varint(u)
    else if wire == FIXED32 then |body| == 4
    else if wire == FIXED64 then |body| == 8
    else wire == DELIMITED && exists data: Bytes :: |data| <= INT_MAX && body == Prefixed(data)
  }

  lemma {:induction false} CompleteIsSkipped(wire: nat, data: Bytes, body: Bytes, rest: Bytes)
    requires Complete(wire, body) && Suffix(body + rest, data)
    ensures Skip(wire, data, body + rest) == Got((), rest)
  {
    SuffixTail(data, body, rest);
    if wire == VARINT {
      var u: nat :| u < TWO64 && body == Varint(u);
      VarintFits(u);
      ReadGroupsVarint(u, 0, rest);
      SkipConsumesWhatReadingDoes(body + rest, 0);
    } else if wire == DELIMITED {
      var block: Bytes :| |block| <= INT_MAX && body == Prefixed(block);
      PrefixedRoundTrip(block, rest);
    }
  }

  lemma {:induction false} SuffixTail(data: Bytes, body: Bytes, rest: Bytes)
    requires Suffix(body + rest, data)
    ensures Suffix(rest, data)
  {
    assert rest == (body + rest)[|body|..];
  }

  lemma {:induction false} ElementIsComplete(kind: Kind, s: Scalar)
    requires ScalarOk(kind, s) && (kind == Blob ==> |s.data| <= INT_MAX)
    ensures Complete(KindWire(kind), Element(kind, s))
  {
  }

  /** A record of a field the reader does not have leaves the object as it is. */
  lemma {:induction false} UnknownRecord(
      r: Registry, fields: Fields, obj: Msg, number: nat, wire: nat, body: Bytes, data: Bytes, rest: Bytes)
    requires 0 < number <= MAX_FIELD && wire in {VARINT, FIXED64, FIXED32, DELIMITED}
    requires !HasField(fields, number) && Complete(wire, body) && Suffix(Header(number, wire) + body + rest, data)
    ensures ReadRecord(r, fields, obj, data, Header(number, wire) + body + rest) == Got(obj, rest)
  {
    hide Complete, Header, ReadTag, Skip;
    assert Header(number, wire) + body + rest == Header(number, wire) + (body + rest);
    SuffixTail(data, Header(number, wire), body + rest);
    HeaderRoundTrip(number, wire, body + rest);
    CompleteIsSkipped(wire, data, body, rest);
  }

  /** A record of a known field replaces the value of the property by what its deserializer makes of it. */
  lemma {:induction false} KnownRecord(
      r: Registry, fields: Fields, obj: Msg, number: nat, wire: nat, body: Bytes, v: Value, data: Bytes, rest: Bytes)
    requires 0 < number <= MAX_FIELD && wire in {VARINT, FIXED64, FIXED32, DELIMITED}
    requires HasField(fields, number) && number in obj.fields && Suffix(Header(number, wire) + body + rest, data)
    requires ReadValue(r, |data|, TypeOf(fields, number), obj.fields[number], body + rest) == Got(v, rest)
    ensures ReadRecord(r, fields, obj, data, Header(number, wire) + body + rest) ==
            Got(Msg(obj.fields[number := v]), rest)
  {
    hide ReadValue, Header, ReadTag;
    assert Header(number, wire) + body + rest == Header(number, wire) + (body + rest);
    HeaderRoundTrip(number, wire, body + rest);
  }
}
