/**
 QGrpcHttp2Channel: length-prefixed messages, framed when posted and reassembled
 from the chunks in which a stream's data arrives.
 */
module Deframer {
  import opened Wire

  const HEADER := 5

  /** Sizes for which size plus header is still an int. */
  const MAX_MESSAGE := INT_MAX - HEADER

  function BigEndian(n: nat): (b: Bytes)
    requires n <= INT_MAX
    ensures |b| == 4
  {
    [n / 0x100_0000, n / 0x1_0000 % 0x100, n / 0x100 % 0x100, n % 0x100]
  }

  /** The bytes that post sends for a message. */
  function Frame(m: Bytes): (f: Bytes)
    requires |m| <= MAX_MESSAGE
    ensures |f| == HEADER + |m|
  {
    [0] + BigEndian(|m|) + m
  }

  /** getExpectedDataSize, for a container that holds a whole header. */
  function SizeField(c: Bytes): nat
    requires |c| >= HEADER
  {
    Value(c[1], c[2], c[3], c[4])
  }

  function Value(a: nat, b: nat, c: nat, d: nat): nat
  {
    a * 0x100_0000 + b * 0x1_0000 + c * 0x100 + d
  }

  lemma {:induction false} SizeFieldOfFrame(m: Bytes, c: Bytes)
    requires |m| <= MAX_MESSAGE && HEADER <= |c| && c[..HEADER] == Frame(m)[..HEADER]
    ensures SizeField(c) == |m|
  {
    var f := Frame(m);
    assert forall i :: 0 <= i < HEADER ==> c[i] == c[..HEADER][i] && f[i] == f[..HEADER][i];
    BigEndianValue(|m|);
  }

  lemma {:induction false} BigEndianValue(n: nat)
    requires n <= INT_MAX
    ensures var b := BigEndian(n); Value(b[0], b[1], b[2], b[3]) == n
  {
    assert n / 0x100 == n / 0x1_0000 * 0x100 + n / 0x100 % 0x100;
    assert n / 0x1_0000 == n / 0x100_0000 * 0x100 + n / 0x1_0000 % 0x100;
  }

  /**
   A frame is a zero flag byte, the length in four bytes, the highest first, and the
   message; and it is the only byte string that is.
   */
  lemma {:induction false} FrameLayout(m: Bytes, f: Bytes)
    requires |m| <= MAX_MESSAGE
    ensures f == Frame(m) <==>
      && |f| == 5 + |m| && f[0] == 0 && f[5..] == m
      && (f[1] as int) * 16777216 + (f[2] as int) * 65536 + (f[3] as int) * 256 + (f[4] as int) == |m|
  {
    var frame := Frame(m);
    BigEndianValue(|m|);
    assert frame[5..] == m;
    if |f| == 5 + |m| && f[0] == 0 && f[5..] == m && (f[1] as int) * 16777216 + (f[2] as int) * 65536 + (f[3] as int) * 256 + (f[4] as int) == |m| {
      SameDigits(f[1], f[2], f[3], f[4], frame[1], frame[2], frame[3], frame[4]);
      assert f == f[..5] + f[5..] && frame == frame[..5] + frame[5..];
      assert f[..5] == frame[..5];
    }
  }

  lemma {:induction false} SameDigits(
      a: int, b: int, c: int, d: int, a': int, b': int, c': int, d': int)
    requires 0 <= a < 256 && 0 <= b < 256 && 0 <= c < 256 && 0 <= d < 256
    requires 0 <= a' < 256 && 0 <= b' < 256 && 0 <= c' < 256 && 0 <= d' < 256
    requires a * 16777216 + b * 65536 + c * 256 + d == a' * 16777216 + b' * 65536 + c' * 256 + d'
    ensures a == a' && b == b' && c == c' && d == d'
  {
  }

  /** The size read from any five bytes or more, and when the frame size still is an int. */
  lemma {:induction false} SizeFieldBytes(c: Bytes)
    requires |c| >= 5
    ensures SizeField(c) == (c[1] as int) * 16777216 + (c[2] as int) * 65536 + (c[3] as int) * 256 + (c[4] as int)
    ensures SizeField(c) > MAX_MESSAGE <==> SizeField(c) + 5 > 2147483647
  {
  }

  // ------------------------------------------------------------ reassembly

  /** The table entry of a stream: what was received of the message that is being assembled. */
  datatype Entry = Absent | Waiting(expected: nat, container: Bytes)

  /**
   What a chunk does. Unspecified stands for a header read from fewer than five bytes
   and for a size field that does not fit: negative, or overflowing an int with the
   header added.
   */
  datatype Result = Ran(entry: Entry, out: seq<Bytes>) | Unspecified

  function Prepend(m: Bytes, r: Result): Result
  {
    if r.Ran? then Ran(r.entry, [m] + r.out) else Unspecified
  }

  /** A result after messages that were handled before. */
  function Then(out: seq<Bytes>, r: Result): Result
  {
    if r.Ran? then Ran(r.entry, out + r.out) else Unspecified
  }

  lemma {:induction false} ThenNothing(r: Result)
    ensures Then([], r) == r
  {
  }

  lemma {:induction false} ThenPrepend(out: seq<Bytes>, m: Bytes, r: Result)
    ensures Then(out, Prepend(m, r)) == Then(out + [m], r)
  {
    if r.Ran? { assert out + ([m] + r.out) == out + [m] + r.out; }
  }

  lemma {:induction false} ThenDone(out: seq<Bytes>, entry: Entry)
    ensures Then(out, Ran(entry, [])) == Ran(entry, out) && Then(out, Unspecified) == Unspecified
  {
  }

  /** The loop of the readyRead handler. The expected size is renewed only when more than a header is left. */
  function Drain(expected: nat, container: Bytes): (r: Result)
    requires expected >= HEADER
    ensures r.Ran? ==> r.entry.Waiting? && r.entry.expected >= HEADER && |r.entry.container| < r.entry.expected
    decreases |container|
  {
    if |container| < expected then Ran(Waiting(expected, container), [])
    else
      var m := container[HEADER..expected];
      var rest := container[expected..];
      if |rest| > HEADER then
        if SizeField(rest) > MAX_MESSAGE then Unspecified
        else Prepend(m, Drain(SizeField(rest) + HEADER, rest))
      else Prepend(m, Drain(expected, rest))
  }

  /** Entries with less than a header are erased. */
  function Settle(r: Result): Result
  {
    if r.Ran? && r.entry.Waiting? && |r.entry.container| < HEADER then Ran(Absent, r.out) else r
  }

  ghost predicate EntryOk(e: Entry)
  {
    e.Waiting? ==> e.expected >= HEADER && HEADER <= |e.container| < e.expected
  }

  /** One readyRead on an unfinished stream. */
  function Receive(e: Entry, data: Bytes): (r: Result)
    requires EntryOk(e)
    ensures r.Ran? ==> EntryOk(r.entry)
  {
    if e.Absent? then
      if |data| < HEADER || SizeField(data) > MAX_MESSAGE then Unspecified
      else Settle(Drain(SizeField(data) + HEADER, data))
    else
      Settle(Drain(e.expected, e.container + data))
  }

  /** The first chunk of a message: a header has to be whole, and its size to fit an int. */
  lemma {:induction false} FirstChunk(data: Bytes)
    ensures |data| < 5 ==> Receive(Absent, data) == Unspecified
    ensures |data| >= 5 ==>
      var size := (data[1] as int) * 16777216 + (data[2] as int) * 65536 + (data[3] as int) * 256 + (data[4] as int);
      && (size + 5 > 2147483647 ==> Receive(Absent, data) == Unspecified)
      && (size + 5 <= 2147483647 && |data| < size + 5 ==>
            Receive(Absent, data) == Ran(Waiting(size + 5, data), []))
      && (size + 5 <= 2147483647 && |data| == size + 5 ==> Receive(Absent, data) == Ran(Absent, [data[5..]]))
  {
    if |data| >= 5 {
      SizeFieldBytes(data);
      if |data| == SizeField(data) + 5 && SizeField(data) <= MAX_MESSAGE {
        var none: Bytes := data[SizeField(data) + 5..];
        assert none == [] && data[5..SizeField(data) + 5] == data[5..];
        var expected := SizeField(data) + HEADER;
        assert Drain(expected, none) == Ran(Waiting(expected, []), []);
        assert Drain(expected, data) == Prepend(data[5..], Drain(expected, none));
        assert [data[5..]] + [] == [data[5..]];
      }
    }
  }

  function ReceiveAll(e: Entry, chunks: seq<Bytes>): (r: Result)
    requires EntryOk(e)
    decreases |chunks|
  {
    if chunks == [] then Ran(e, [])
    else
      var r := Receive(e, chunks[0]);
      if r.Unspecified? then Unspecified
      else
        var r' := ReceiveAll(r.entry, chunks[1..]);
        if r'.Unspecified? then Unspecified else Ran(r'.entry, r.out + r'.out)
  }

  /** The readyRead handler with the fields it changes in place. */
  class StreamReply {
    var active: bool
    var expectedSize: nat
    var container: Bytes
    var handled: seq<Bytes>

    ghost function View(): Entry
      reads this
    {
      if active then Waiting(expectedSize, container) else Absent
    }

    constructor ()
      ensures View() == Absent && handled == []
    {
      active, expectedSize, container, handled := false, 0, [], [];
    }

    /** `finished` is networkReply->isFinished(); the result is false where the behaviour is undefined. */
    method ReadyRead(data: Bytes, finished: bool) returns (defined: bool)
      requires EntryOk(View())
      modifies this
      ensures !finished ==>
        match Receive(old(View()), data)
        case Ran(entry, out) => defined && View() == entry && handled == old(handled) + out
        case Unspecified => !defined
      ensures finished && defined ==> View() == Absent && handled == old(handled)
    {
      if !active {
        if |data| < HEADER || SizeField(data) > MAX_MESSAGE {
          return false;
        }
        active, expectedSize, container := true, SizeField(data) + HEADER, [];
      }
      container := container + data;
      assert old(View()).Absent? ==> container == data;
      if !finished {
        defined := HandleComplete();
        if !defined {
          return;
        }
      }
      if |container| < HEADER || finished {
        active := false;
      }
      defined := true;
    }

    /** The loop: every complete message goes to the handler. */
    method HandleComplete() returns (defined: bool)
      requires active && expectedSize >= HEADER
      modifies this
      ensures
        match Drain(old(expectedSize), old(container))
        case Ran(entry, out) => defined && View() == entry && handled == old(handled) + out
        case Unspecified => !defined
    {
      hide SizeField, Prepend, Then;
      ghost var all := Drain(expectedSize, container);
      ghost var out: seq<Bytes> := [];
      ThenNothing(all);
      while |container| >= expectedSize
        invariant expectedSize >= HEADER && active && handled == old(handled) + out
        invariant all == Then(out, Drain(expectedSize, container))
        decreases |container|
      {
        var m := container[HEADER..expectedSize];
        handled := handled + [m];
        container := container[expectedSize..];
        if |container| > HEADER {
          if SizeField(container) > MAX_MESSAGE {
            assert Then(out, Unspecified) == Unspecified by { ThenDone(out, Absent); }
            return false;
          }
          expectedSize := SizeField(container) + HEADER;
        }
        ThenPrepend(out, m, Drain(expectedSize, container));
        out := out + [m];
      }
      ThenDone(out, Waiting(expectedSize, container));
      defined := true;
    }
  }
}
