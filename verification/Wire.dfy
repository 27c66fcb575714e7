/**
 The lowest layer of the protobuf binary format as QProtobufSerializerPrivate
 implements it: base-128 varints, ZigZag, two's complement, field headers.

 A read is described on the bytes that are left in front of the iterator. It
 either yields a value and the remaining bytes or throws.
 */
module Wire {

  type Byte = x: int | 0 <= x < 256

  type Bytes = seq<Byte>

  const INT_MAX := 0x7FFF_FFFF
  const TWO32 := 0x1_0000_0000
  const TWO64 := 0x1_0000_0000_0000_0000
  const MAX_FIELD := 0x1FFF_FFFF

  /** Wire types, numbered as in the WireTypes enumeration. */
  const VARINT := 0
  const FIXED64 := 1
  const DELIMITED := 2
  const FIXED32 := 5

  /**
   What keeps a decoding from its result. OutOfRange, InvalidArgument and BadFunctionCall
   are the exceptions of the source. Undefined stands for what has no defined meaning in
   C++: a varint that is still unfinished after ten bytes (a shift by 70), the copy of a
   block whose declared length is above INT_MAX, and a step over a skipped block that
   leaves the front of the container. Endless stands for a call that never returns.
   */
  datatype Error = OutOfRange | InvalidArgument | BadFunctionCall | Undefined | Endless

  datatype Read<+T> = Got(value: T, rest: Bytes) | Throw(error: Error)

  /** `rest` is what remains of `bytes` after a prefix was consumed. */
  ghost predicate Suffix(rest: Bytes, bytes: Bytes)
  {
    |rest| <= |bytes| && rest == bytes[|bytes| - |rest|..]
  }

  lemma {:induction false} SuffixTrans(a: Bytes, b: Bytes, c: Bytes)
    requires Suffix(a, b) && Suffix(b, c)
    ensures Suffix(a, c)
  {
  }

  // ------------------------------------------------------------------ varints

  /** The varint of an unsigned value: little-endian groups of seven bits. */
  function Varint(u: nat): (r: Bytes)
    ensures |r| >= 1
  {
    if u < 128 then [u] else [u % 128 + 128] + Varint(u / 128)
  }

  /** The groups as the encoding loops first append them, every one marked "not last". */
  function MarkedGroups(u: nat): (r: Bytes)
    ensures u != 0 ==> |r| >= 1
  {
    if u == 0 then [] else [u % 128 + 128] + MarkedGroups(u / 128)
  }

  /** Clears the continuation mark of the last byte. */
  function ClearLastMark(s: Bytes): (r: Bytes)
    requires s != []
  {
    s[|s| - 1 := s[|s| - 1] % 128]
  }

  lemma {:induction false} ClearedGroupsAreVarint(u: nat)
    requires u != 0
    ensures ClearLastMark(MarkedGroups(u)) == Varint(u)
  {
    if u >= 128 {
      ClearedGroupsAreVarint(u / 128);
      var tail := MarkedGroups(u / 128);
      assert MarkedGroups(u) == [u % 128 + 128] + tail;
      assert ClearLastMark([u % 128 + 128] + tail) == [u % 128 + 128] + ClearLastMark(tail);
    } else {
      assert MarkedGroups(u / 128) == [];
    }
  }

  /** The base-128 value in front of the iterator, `k` groups having been read already. */
  function ReadGroups(bytes: Bytes, k: nat): (r: Read<nat>)
    ensures r.Got? ==> |r.rest| < |bytes| && Suffix(r.rest, bytes)
  {
    if k >= 10 then Throw(Undefined)
    else if bytes == [] then Throw(OutOfRange)
    else if bytes[0] < 128 then Got(bytes[0], bytes[1..])
    else
      match ReadGroups(bytes[1..], k + 1)
      case Got(v, rest) => Got(bytes[0] - 128 + 128 * v, rest)
      case Throw(e) => Throw(e)
  }

  /** deserializeVarintCommon<V>, with `modulus` two to the width of V. */
  function ReadVarint(bytes: Bytes, modulus: nat): (r: Read<nat>)
    requires modulus > 0
    ensures r.Got? ==> r.value < modulus && |r.rest| < |bytes| && Suffix(r.rest, bytes)
  {
    match ReadGroups(bytes, 0)
    case Got(v, rest) => Got(v % modulus, rest)
    case Throw(e) => Throw(e)
  }

  /** skipVarint: no limit on the number of bytes. */
  function SkipVarint(bytes: Bytes): (r: Read<()>)
    ensures r.Got? ==> |r.rest| < |bytes| && Suffix(r.rest, bytes)
  {
    if bytes == [] then Throw(OutOfRange)
    else if bytes[0] < 128 then Got((), bytes[1..])
    else SkipVarint(bytes[1..])
  }

  function Pow128(n: nat): nat
  {
    if n == 0 then 1 else 128 * Pow128(n - 1)
  }

  lemma {:induction false} Pow128Limits()
    ensures Pow128(5) >= TWO32 && Pow128(10) >= TWO64
  {
    assert Pow128(4) == 128 * 128 * 128 * 128;
    assert Pow128(8) == 128 * 128 * 128 * 128 * Pow128(4);
    assert Pow128(10) == 128 * 128 * Pow128(8);
  }

  lemma {:induction false} VarintLength(u: nat, n: nat)
    requires n >= 1 && u < Pow128(n)
    ensures |Varint(u)| <= n
  {
    if u >= 128 {
      assert n >= 2;
      VarintLength(u / 128, n - 1);
    }
  }

  /** At most five bytes for 32 bits and ten for 64. */
  lemma {:induction false} VarintFits(u: nat)
    ensures u < TWO32 ==> |Varint(u)| <= 5
    ensures u < TWO64 ==> |Varint(u)| <= 10
  {
    Pow128Limits();
    if u < TWO32 { VarintLength(u, 5); }
    if u < TWO64 { VarintLength(u, 10); }
  }

  lemma {:induction false} VarintLengthAbove(u: nat, n: nat)
    requires u >= Pow128(n)
    ensures |Varint(u)| > n
  {
    if n > 0 {
      Pow128Positive(n - 1);
      VarintLengthAbove(u / 128, n - 1);
    }
  }

  lemma {:induction false} Pow128Positive(n: nat)
    ensures Pow128(n) >= 1
  {
    if n > 0 { Pow128Positive(n - 1); }
  }

  lemma {:induction false} ReadGroupsVarint(u: nat, k: nat, rest: Bytes)
    requires k + |Varint(u)| <= 10
    ensures ReadGroups(Varint(u) + rest, k) == Got(u, rest)
  {
    var bytes := Varint(u) + rest;
    if u < 128 {
      assert bytes[1..] == rest;
    } else {
      ReadGroupsVarint(u / 128, k + 1, rest);
      assert bytes[1..] == Varint(u / 128) + rest;
    }
  }

  /** Decoding inverts encoding, modulo the width the reader uses. */
  lemma {:induction false} VarintRoundTrip(u: nat, modulus: nat, rest: Bytes)
    requires u < TWO64 && modulus > 0
    ensures ReadVarint(Varint(u) + rest, modulus) == Got(u % modulus, rest)
  {
    VarintFits(u);
    ReadGroupsVarint(u, 0, rest);
  }

  /** No byte string that reads as `u` is shorter than the one the encoder emits. */
  lemma {:induction false} VarintIsShortest(bytes: Bytes, k: nat)
    requires ReadGroups(bytes, k).Got?
    ensures |Varint(ReadGroups(bytes, k).value)| <= |bytes| - |ReadGroups(bytes, k).rest|
  {
    if bytes[0] >= 128 {
      VarintIsShortest(bytes[1..], k + 1);
    }
  }

  /** Skipping consumes exactly the bytes that reading consumes. */
  lemma {:induction false} SkipConsumesWhatReadingDoes(bytes: Bytes, k: nat)
    ensures ReadGroups(bytes, k).Got? ==> SkipVarint(bytes) == Got((), ReadGroups(bytes, k).rest)
  {
    if k < 10 && bytes != [] && bytes[0] >= 128 {
      SkipConsumesWhatReadingDoes(bytes[1..], k + 1);
    }
  }

  /** A varint cut short throws out_of_range, whether it is read or skipped. */
  lemma {:induction false} CutVarintThrows(u: nat, n: nat, k: nat)
    requires n < |Varint(u)| && k + |Varint(u)| <= 10
    ensures ReadGroups(Varint(u)[..n], k) == Throw(OutOfRange)
    ensures SkipVarint(Varint(u)[..n]) == Throw(OutOfRange)
  {
    if n > 0 {
      CutVarintThrows(u / 128, n - 1, k + 1);
      assert Varint(u)[..n][1..] == Varint(u / 128)[..n - 1];
    }
  }

  // ------------------------------------------------- signed values and ZigZag

  /** Conversion of an integer to the unsigned type with `m` values, for the range that occurs. */
  function ToUnsigned(n: int, m: int): (u: nat)
    requires -m <= n < m
    ensures u < m && (u == n || u == n + m)
  {
    if n < 0 then n + m else n
  }

  /** Conversion of an unsigned value to the signed type with `m` values. */
  function ToSigned(u: nat, m: int): (n: int)
    requires u < m
    ensures -m <= 2 * n < m + 1 && (n == u || n == u - m)
  {
    if 2 * u < m then u else u - m
  }

  /**
   Exclusive or with a sign mask: 0 leaves a two's complement value alone and
   -1 (all ones) complements it.
   */
  function XorMask(x: int, mask: int): (r: int)
    requires mask == 0 || mask == -1
    ensures mask == 0 ==> r == x
    ensures mask == -1 ==> r == -1 - x
  {
    if mask == 0 then x else -1 - x
  }

  /** `n` is a value of the signed type with `m` values. */
  predicate SignedRange(n: int, m: int)
  {
    m % 2 == 0 && -m <= 2 * n < m
  }

  lemma {:induction false} TwosComplementRoundTrip(n: int, m: int)
    requires SignedRange(n, m)
    ensures ToSigned(ToUnsigned(n, m), m) == n
  {
  }

  /** (value << 1) ^ (value >> (N - 1)), kept in N bits, with m = 2^N. */
  function ZigZag(n: int, m: int): (u: nat)
    requires SignedRange(n, m)
    ensures u < m
  {
    var shifted := ToSigned(ToUnsigned(2 * n, m), m);
    var mask := if n < 0 then -1 else 0;
    ToUnsigned(XorMask(shifted, mask), m)
  }

  /** (u >> 1) ^ (-1 * (u & 1)) in N-bit unsigned arithmetic, then cast to signed. */
  function UnZigZag(u: nat, m: int): (n: int)
    requires m % 2 == 0 && u < m
    ensures SignedRange(n, m)
  {
    ToSigned(if u % 2 == 0 then u / 2 else m - 1 - u / 2, m)
  }

  /** The arithmetic meaning of the bit trick: 2n for n >= 0 and -2n-1 otherwise. */
  lemma {:induction false} ZigZagMeaning(n: int, m: int)
    requires SignedRange(n, m)
    ensures ZigZag(n, m) == if n >= 0 then 2 * n else -2 * n - 1
  {
    var u := ToUnsigned(2 * n, m);
    assert 2 * u < m || 2 * u >= m;
  }

  /** ZigZag is a bijection between the signed and the unsigned N-bit values. */
  lemma {:induction false} ZigZagBijection(n: int, u: nat, m: int)
    requires SignedRange(n, m) && u < m
    ensures UnZigZag(ZigZag(n, m), m) == n
    ensures ZigZag(UnZigZag(u, m), m) == u
  {
    ZigZagMeaning(n, m);
    ZigZagMeaning(UnZigZag(u, m), m);
  }

  // ------------------------------------------------------------------ headers

  /** encodeHeader */
  function Header(number: nat, wire: nat): Bytes
  {
    Varint(number * 8 + wire)
  }

  datatype Tag = Tag(number: nat, wire: nat)

  /** decodeHeader, without the test of what was decoded. */
  function ReadTag(bytes: Bytes): (r: Read<Tag>)
    ensures r.Got? ==> |r.rest| < |bytes| && Suffix(r.rest, bytes)
  {
    match ReadVarint(bytes, TWO32)
    case Got(h, rest) => Got(Tag(h / 8, h % 8), rest)
    case Throw(e) => Throw(e)
  }

  /** The value decodeHeader returns: whether field number and wire type are allowed. */
  predicate TagAllowed(t: Tag)
  {
    0 < t.number <= MAX_FIELD && t.wire in {VARINT, FIXED64, FIXED32, DELIMITED}
  }

  lemma {:induction false} HeaderArithmetic(number: nat, wire: nat)
    requires number <= MAX_FIELD && wire < 8
    ensures number * 8 + wire < TWO32 && (number * 8 + wire) % TWO32 == number * 8 + wire
    ensures (number * 8 + wire) / 8 == number && (number * 8 + wire) % 8 == wire
  {
  }

  lemma {:induction false} ReadTagOfVarint(h: nat, rest: Bytes)
    requires h < TWO32
    ensures ReadTag(Varint(h) + rest) == Got(Tag(h / 8, h % 8), rest)
  {
    var bytes := Varint(h) + rest;
    assert ReadVarint(bytes, TWO32) == Got(h, rest) by {
      VarintRoundTrip(h, TWO32, rest);
    }
  }

  lemma {:induction false} HeaderRoundTrip(number: nat, wire: nat, rest: Bytes)
    requires number <= MAX_FIELD && wire < 8
    ensures ReadTag(Header(number, wire) + rest) == Got(Tag(number, wire), rest)
  {
    HeaderArithmetic(number, wire);
    ReadTagOfVarint(number * 8 + wire, rest);
  }

  lemma {:induction false} CutHeaderThrows(number: nat, wire: nat, n: nat)
    requires number <= MAX_FIELD && wire < 8 && n < |Header(number, wire)|
    ensures ReadTag(Header(number, wire)[..n]) == Throw(OutOfRange)
  {
    VarintFits(number * 8 + wire);
    CutVarintThrows(number * 8 + wire, n, 0);
  }

  // ---------------------------------------------------------- length prefixes

  /** prependLengthDelimitedSize */
  function Prefixed(data: Bytes): Bytes
  {
    Varint(|data| % TWO32) + data
  }

  /** A block of `n` bytes copied from the iterator, and the step over it. */
  function Take(bytes: Bytes, n: nat): (r: Read<Bytes>)
    ensures r.Got? ==> |r.value| == n && bytes == r.value + r.rest && Suffix(r.rest, bytes)
    ensures r.Got? <==> n <= INT_MAX && n <= |bytes|
  {
    if n > INT_MAX then Throw(Undefined)
    else if n > |bytes| then Throw(OutOfRange)
    else Got(bytes[..n], bytes[n..])
  }

  /** deserializeLengthDelimited */
  function ReadPrefixed(bytes: Bytes): (r: Read<Bytes>)
    ensures r.Got? ==> |r.value| + |r.rest| < |bytes| && Suffix(r.rest, bytes)
  {
    match ReadVarint(bytes, TWO32)
    case Throw(e) => Throw(e)
    case Got(n, rest) =>
      var r := Take(rest, n);
      if r.Got? then SuffixTrans(r.rest, rest, bytes); r else r
  }

  lemma {:induction false} PrefixedRoundTrip(data: Bytes, rest: Bytes)
    requires |data| <= INT_MAX
    ensures ReadVarint(Prefixed(data) + rest, TWO32) == Got(|data|, data + rest)
    ensures ReadPrefixed(Prefixed(data) + rest) == Got(data, rest)
  {
    VarintRoundTrip(|data|, TWO32, data + rest);
    assert Prefixed(data) + rest == Varint(|data|) + (data + rest);
    assert (data + rest)[..|data|] == data && (data + rest)[|data|..] == rest;
  }

  /** A length-delimited block cut short throws, either in its length or at the step over it. */
  lemma {:induction false} CutPrefixedThrows(data: Bytes, n: nat)
    requires |data| <= INT_MAX && n < |Prefixed(data)|
    ensures ReadPrefixed(Prefixed(data)[..n]) == Throw(OutOfRange)
    ensures
      var r := ReadVarint(Prefixed(data)[..n], TWO32);
      r == Throw(OutOfRange) || (r.Got? && r.value == |data| && |r.rest| < |data|)
  {
    var len := Varint(|data|);
    VarintFits(|data|);
    if n < |len| {
      assert Prefixed(data)[..n] == len[..n];
      CutVarintThrows(|data|, n, 0);
    } else {
      assert Prefixed(data)[..n] == len + data[..n - |len|];
      VarintRoundTrip(|data|, TWO32, data[..n - |len|]);
    }
  }
}
