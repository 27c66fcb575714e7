/**
 Which cuts of a framed stream the deframer survives. The code forgets a leftover of
 one to four bytes and keeps a stale size over a leftover of exactly five, so the
 handler gets the messages that were sent only under a condition on the cuts.
 */
module Reassembly {
  import opened Wire
  import opened Deframer

  type Messages = ms: seq<Bytes> | forall i :: 0 <= i < |ms| ==> |ms[i]| <= MAX_MESSAGE

  function Size(m: Bytes): nat { HEADER + |m| }

  /** The stream of frames a sender produces. */
  function Frames(ms: Messages): Bytes
  {
    if ms == [] then [] else Frame(ms[0]) + Frames(ms[1..])
  }

  /** Where the k-th frame begins. */
  function Start(ms: Messages, k: nat): nat
    requires k <= |ms|
  {
    if k == 0 then 0 else Size(ms[0]) + Start(ms[1..], k - 1)
  }

  /** How many frames the first n bytes complete. */
  function Completed(ms: Messages, n: nat): (j: nat)
    ensures j <= |ms| && Start(ms, j) <= n
  {
    if ms == [] || n < Size(ms[0]) then 0 else 1 + Completed(ms[1..], n - Size(ms[0]))
  }

  /** How many bytes of the frame after those are in the first n bytes. */
  function Left(ms: Messages, n: nat): nat
  {
    n - Start(ms, Completed(ms, n))
  }

  lemma {:induction false} FramesLength(ms: Messages)
    ensures |Frames(ms)| == Start(ms, |ms|)
    ensures ms != [] ==> |Frames(ms)| == Size(ms[0]) + |Frames(ms[1..])|
  {
    if ms != [] { FramesLength(ms[1..]); }
  }

  // ----------------------------------------------------------- the condition

  /**
   A chunk that ends n bytes into the frames does not leave the beginning of a frame
   shorter than six bytes behind a frame it completes; five are enough if the two
   frames have the same size.
   */
  predicate GoodTail(ms: Messages, n: nat)
  {
    forall k :: 1 <= k < |ms| && Start(ms, k) < n ==>
      n - Start(ms, k) >= 6 || (n - Start(ms, k) == HEADER && |ms[k]| == |ms[k - 1]|)
  }

  /** The chunk of `len` bytes that starts `o` bytes into the frame of the first message. */
  predicate GoodChunk(ms: Messages, o: nat, len: nat)
  {
    (o == 0 ==> len >= HEADER) && GoodTail(ms, o + len)
  }

  predicate GoodCuts(ms: Messages, o: nat, chunks: seq<Bytes>)
    decreases |chunks|
  {
    chunks == [] ||
    (var n := o + |chunks[0]|;
     GoodChunk(ms, o, |chunks[0]|) && GoodCuts(ms[Completed(ms, n)..], Left(ms, n), chunks[1..]))
  }

  function Concat(chunks: seq<Bytes>): Bytes
  {
    if chunks == [] then [] else chunks[0] + Concat(chunks[1..])
  }

  /** The entry holds the first o bytes of the frame of ms[0], and there is none at a frame boundary. */
  ghost predicate InSync(ms: Messages, o: nat, e: Entry)
  {
    if o == 0 then e == Absent
    else ms != [] && HEADER <= o < Size(ms[0]) && e == Waiting(Size(ms[0]), Frames(ms)[..o])
  }

  // ------------------------------------------------------------- good chunks

  lemma {:induction false} FirstFrame(ms: Messages, n: nat)
    requires ms != [] && n <= |Frames(ms)|
    ensures n >= HEADER ==> SizeField(Frames(ms)[..n]) == |ms[0]|
    ensures n >= Size(ms[0]) ==>
      var c := Frames(ms)[..n];
      c[HEADER..Size(ms[0])] == ms[0] && c[Size(ms[0])..] == Frames(ms[1..])[..n - Size(ms[0])]
  {
    FramesLength(ms);
    var f := Frame(ms[0]);
    var c := Frames(ms)[..n];
    if n >= HEADER {
      assert c[..HEADER] == f[..HEADER];
      SizeFieldOfFrame(ms[0], c);
    }
    if n >= Size(ms[0]) {
      assert c == f + Frames(ms[1..])[..n - Size(ms[0])];
    }
  }

  lemma {:induction false} GoodTailNext(ms: Messages, n: nat)
    requires ms != [] && n >= Size(ms[0])
    ensures
      var r := n - Size(ms[0]);
      GoodTail(ms, n) <==>
      GoodTail(ms[1..], r) &&
      (|ms| > 1 && r > 0 ==> r >= 6 || (r == HEADER && |ms[1]| == |ms[0]|))
  {
    var r := n - Size(ms[0]);
    var tail := ms[1..];
    if |ms| > 1 { assert Start(ms, 1) == Size(ms[0]) + Start(tail, 0); }
    if GoodTail(ms, n) {
      forall k | 1 <= k < |tail| && Start(tail, k) < r
        ensures r - Start(tail, k) >= 6 || (r - Start(tail, k) == HEADER && |tail[k]| == |tail[k - 1]|)
      {
        assert Start(ms, k + 1) == Size(ms[0]) + Start(tail, k) && tail[k] == ms[k + 1] && tail[k - 1] == ms[k];
      }
    }
    if GoodTail(tail, r) && (|ms| > 1 && r > 0 ==> r >= 6 || (r == HEADER && |ms[1]| == |ms[0]|)) {
      forall k | 1 <= k < |ms| && Start(ms, k) < n
        ensures n - Start(ms, k) >= 6 || (n - Start(ms, k) == HEADER && |ms[k]| == |ms[k - 1]|)
      {
        assert Start(ms, k) == Size(ms[0]) + Start(tail, k - 1) && tail[k - 1] == ms[k];
        if k > 1 { assert tail[k - 2] == ms[k - 1]; }
      }
    }
  }

  /** After the loop: the complete messages were handled, and the size that is waited for is the right one. */
  ghost predicate Drained(ms: Messages, n: nat, r: Result)
  {
    var j := Completed(ms, n);
    && r.Ran? && r.out == ms[..j] && r.entry.Waiting? && Left(ms, n) <= |Frames(ms[j..])|
    && r.entry.container == Frames(ms[j..])[..Left(ms, n)]
    && (Left(ms, n) > 0 ==> j < |ms| && r.entry.expected == Size(ms[j]) && (j > 0 ==> Left(ms, n) >= HEADER))
  }

  lemma {:induction false} DrainedNext(ms: Messages, n: nat, r: Result)
    requires ms != [] && n >= Size(ms[0]) && Drained(ms[1..], n - Size(ms[0]), r)
    requires n > Size(ms[0]) ==> n - Size(ms[0]) >= HEADER
    ensures Drained(ms, n, Prepend(ms[0], r))
  {
    var j := Completed(ms[1..], n - Size(ms[0]));
    assert ms[1..][j..] == ms[j + 1..];
    assert [ms[0]] + ms[1..][..j] == ms[..j + 1];
  }

  lemma {:induction false} DrainGood(ms: Messages, n: nat)
    requires ms != [] && n <= |Frames(ms)| && GoodTail(ms, n)
    ensures Drained(ms, n, Drain(Size(ms[0]), Frames(ms)[..n]))
    decreases |ms|
  {
    hide SizeField, Drained, GoodTail, Frame;
    FramesLength(ms);
    FirstFrame(ms, n);
    var c := Frames(ms)[..n];
    var e := Size(ms[0]);
    if n < e {
      DrainedNothing(ms, n);
    } else {
      var rest := c[e..];
      var r := n - e;
      GoodTailNext(ms, n);
      if r == 0 {
        DrainedAtBoundary(ms, Waiting(e, []));
      } else {
        FramesLength(ms[1..]);
        FirstFrame(ms[1..], r);
        DrainGood(ms[1..], r);
        DrainedNext(ms, n, Drain(Size(ms[1]), rest));
      }
    }
  }

  lemma {:induction false} DrainedNothing(ms: Messages, n: nat)
    requires ms != [] && n < Size(ms[0]) && n <= |Frames(ms)|
    ensures Drained(ms, n, Ran(Waiting(Size(ms[0]), Frames(ms)[..n]), []))
  {
    assert ms[0..] == ms;
  }

  lemma {:induction false} DrainedAtBoundary(ms: Messages, e: Entry)
    requires ms != [] && e.Waiting? && e.container == []
    ensures Drained(ms, Size(ms[0]), Prepend(ms[0], Ran(e, [])))
  {
    assert Completed(ms[1..], 0) == 0;
    assert Completed(ms, Size(ms[0])) == 1;
    assert Start(ms, 1) == Size(ms[0]) + Start(ms[1..], 0);
    assert [ms[0]] + [] == ms[..1];
  }

  /** n bytes into the frames: the complete messages were handled and the entry is in step. */
  ghost predicate Delivered(ms: Messages, n: nat, r: Result)
  {
    && r.Ran? && r.out == ms[..Completed(ms, n)]
    && InSync(ms[Completed(ms, n)..], Left(ms, n), r.entry)
  }

  /** A good chunk: all messages it completes are handled, and the entry is in step again. */
  lemma {:induction false} ReceiveGood(ms: Messages, o: nat, e: Entry, data: Bytes)
    requires InSync(ms, o, e) && o + |data| <= |Frames(ms)| && data == Frames(ms)[o..o + |data|]
    requires GoodChunk(ms, o, |data|)
    ensures EntryOk(e)
    ensures Delivered(ms, o + |data|, Receive(e, data))
  {
    hide SizeField, Drain, Frames, GoodTail, Frame, Completed;
    var n := o + |data|;
    assert ms != [] by { if ms == [] { FramesLength(ms); } }
    FirstFrame(ms, n);
    DrainGood(ms, n);
    assert Frames(ms)[..n] == Frames(ms)[..o] + data;
    if o == 0 {
      assert Frames(ms)[..n] == data;
    }
    assert Receive(e, data) == Settle(Drain(Size(ms[0]), Frames(ms)[..n]));
  }

  /**
   Good cuts, up to any point of the stream: exactly the messages that are complete
   there were handled, in order, and the table has an entry exactly inside a frame.
   */
  lemma {:induction false} ReceiveAllGood(ms: Messages, o: nat, e: Entry, chunks: seq<Bytes>)
    requires InSync(ms, o, e) && o + |Concat(chunks)| <= |Frames(ms)|
    requires Concat(chunks) == Frames(ms)[o..o + |Concat(chunks)|] && GoodCuts(ms, o, chunks)
    ensures EntryOk(e) && Delivered(ms, o + |Concat(chunks)|, ReceiveAll(e, chunks))
    decreases |chunks|
  {
    hide Receive, Frames, GoodChunk, Completed, InSync, EntryOk, Left, Delivered;
    InSyncAlready(ms, o, e);
    if chunks != [] {
      var data := chunks[0];
      var n := o + |data|;
      var tail := Concat(chunks[1..]);
      assert Frames(ms)[o..o + |Concat(chunks)|][..|data|] == data;
      assert Frames(ms)[o..o + |Concat(chunks)|][|data|..] == tail;
      ReceiveGood(ms, o, e, data);
      var r := Receive(e, data);
      DeliveredInSync(ms, n, r);
      LeftFrames(ms, n, tail);
      ReceiveAllGood(ms[Completed(ms, n)..], Left(ms, n), r.entry, chunks[1..]);
      DeliveredConcat(ms, n, |tail|, r, ReceiveAll(r.entry, chunks[1..]));
    }
  }

  lemma {:induction false} DeliveredInSync(ms: Messages, n: nat, r: Result)
    requires Delivered(ms, n, r)
    ensures r.Ran? && InSync(ms[Completed(ms, n)..], Left(ms, n), r.entry)
  {
  }

  lemma {:induction false} DeliveredConcat(ms: Messages, n: nat, more: nat, r: Result, r': Result)
    requires Delivered(ms, n, r) && Delivered(ms[Completed(ms, n)..], Left(ms, n) + more, r')
    ensures r.Ran? && r'.Ran? && Delivered(ms, n + more, Ran(r'.entry, r.out + r'.out))
  {
    hide Completed, InSync, Left;
    CompletedSplit(ms, n, more);
    var j := Completed(ms, n);
    var j' := Completed(ms[j..], Left(ms, n) + more);
    assert ms[..j] + ms[j..][..j'] == ms[..j + j'] && ms[j..][j'..] == ms[j + j'..];
  }

  lemma {:induction false} InSyncAlready(ms: Messages, o: nat, e: Entry)
    requires InSync(ms, o, e)
    ensures EntryOk(e) && Delivered(ms, o, Ran(e, []))
  {
    assert ms[..0] == [] && ms[0..] == ms;
  }

  /** Dropping the frames that n bytes complete leaves the frames of the other messages. */
  lemma {:induction false} SplitFrames(ms: Messages, n: nat)
    requires n <= |Frames(ms)|
    ensures
      var j := Completed(ms, n);
      Start(ms, j) + |Frames(ms[j..])| == |Frames(ms)| && Frames(ms)[Start(ms, j)..] == Frames(ms[j..])
  {
    if ms != [] && n >= Size(ms[0]) {
      FramesLength(ms);
      SplitFrames(ms[1..], n - Size(ms[0]));
      var j := Completed(ms[1..], n - Size(ms[0]));
      assert ms[1..][j..] == ms[j + 1..];
      assert Frames(ms)[Size(ms[0])..] == Frames(ms[1..]);
    } else {
      assert ms[0..] == ms;
    }
  }

  /** The bytes that follow position n, seen from the frames that are left there. */
  lemma {:induction false} LeftFrames(ms: Messages, n: nat, tail: Bytes)
    requires n + |tail| <= |Frames(ms)| && Frames(ms)[n..n + |tail|] == tail
    ensures
      var j := Completed(ms, n);
      && Left(ms, n) + |tail| <= |Frames(ms[j..])|
      && tail == Frames(ms[j..])[Left(ms, n)..Left(ms, n) + |tail|]
  {
    hide Frames, Completed;
    SplitFrames(ms, n);
    var s := Start(ms, Completed(ms, n));
    assert Frames(ms)[s..][n - s..n - s + |tail|] == Frames(ms)[n..n + |tail|];
  }

  lemma {:induction false} CompletedSplit(ms: Messages, n: nat, more: nat)
    ensures
      var j := Completed(ms, n);
      && Completed(ms, n + more) == j + Completed(ms[j..], Left(ms, n) + more)
      && Left(ms, n + more) == Left(ms[j..], Left(ms, n) + more)
  {
    if ms != [] && n >= Size(ms[0]) {
      CompletedSplit(ms[1..], n - Size(ms[0]), more);
      var j := Completed(ms[1..], n - Size(ms[0]));
      assert ms[1..][j..] == ms[j + 1..];
    } else {
      assert ms[0..] == ms;
    }
  }

  // -------------------------------------------------------------- bad chunks

  function Weight(out: seq<Bytes>): nat
  {
    if out == [] then 0 else HEADER + |out[0]| + Weight(out[1..])
  }

  function HeldBytes(e: Entry): nat { if e.Waiting? then |e.container| else 0 }

  lemma {:induction false} WeightConcat(a: seq<Bytes>, b: seq<Bytes>)
    ensures Weight(a + b) == Weight(a) + Weight(b)
  {
    if a == [] {
      assert a + b == b;
    } else {
      WeightConcat(a[1..], b);
      assert (a + b)[1..] == a[1..] + b;
    }
  }

  /** Conservation: the loop neither loses nor invents bytes. */
  lemma {:induction false} DrainConserves(expected: nat, c: Bytes)
    requires expected >= HEADER
    ensures
      var r := Drain(expected, c);
      r.Ran? ==> Weight(r.out) + HeldBytes(r.entry) == |c|
    decreases |c|
  {
    if |c| >= expected {
      var rest := c[expected..];
      var next := if |rest| > HEADER then SizeField(rest) + HEADER else expected;
      DrainConserves(next, rest);
    }
  }

  lemma {:induction false} ReceiveConserves(e: Entry, data: Bytes)
    requires EntryOk(e)
    ensures
      var r := Receive(e, data);
      r.Ran? ==> Weight(r.out) + HeldBytes(r.entry) <= HeldBytes(e) + |data|
  {
    hide SizeField, Drain;
    if e.Waiting? {
      DrainConserves(e.expected, e.container + data);
    } else if |data| >= HEADER {
      DrainConserves(SizeField(data) + HEADER, data);
    }
  }

  /**
   Out of step for good, `got` bytes into the frames of ms: bytes are missing, or a
   handled message is not the one that was sent, or a size is waited for that the
   next message does not have.
   */
  ghost predicate Lost(ms: Messages, got: nat, out: seq<Bytes>, e: Entry)
  {
    || Weight(out) + HeldBytes(e) < got
    || !(out <= ms)
    || (out <= ms && |out| < |ms| && e.Waiting? && e.expected != Size(ms[|out|]))
  }

  lemma {:induction false} PrefixOfConcat<T>(a: seq<T>, b: seq<T>, s: seq<T>)
    ensures a + b <= s ==> a <= s
  {
    if a + b <= s { assert s[..|a|] == (a + b)[..|a|] == a; }
  }

  lemma {:induction false} ConcatCancels<T>(s: seq<T>, j: nat, x: seq<T>)
    requires j <= |s|
    ensures s[..j] + x == s ==> x == s[j..]
  {
    if s[..j] + x == s { assert s[j..] == (s[..j] + x)[j..] == x; }
  }

  lemma {:induction false} LostStays(ms: Messages, got: nat, out: seq<Bytes>, e: Entry, data: Bytes)
    requires EntryOk(e) && Lost(ms, got, out, e)
    ensures
      var r := Receive(e, data);
      r.Ran? ==> Lost(ms, got + |data|, out + r.out, r.entry)
  {
    hide SizeField;
    var r := Receive(e, data);
    if r.Ran? {
      ReceiveConserves(e, data);
      WeightConcat(out, r.out);
      if !(out <= ms) {
        PrefixOfConcat(out, r.out, ms);
      } else if Weight(out) + HeldBytes(e) >= got {
        if |e.container + data| < e.expected {
          assert out + r.out == out;
        } else {
          assert (out + r.out)[|out|] == (e.container + data)[HEADER..e.expected];
        }
      }
    }
  }

  lemma {:induction false} LostNext(ms: Messages, n: nat, out: seq<Bytes>, e: Entry)
    requires ms != [] && n >= Size(ms[0]) && Lost(ms[1..], n - Size(ms[0]), out, e)
    ensures Lost(ms, n, [ms[0]] + out, e)
  {
    var all := [ms[0]] + out;
    assert all[1..] == out;
    if all <= ms {
      assert out <= ms[1..] by { assert ms[1..][..|out|] == all[1..]; }
    }
    assert out <= ms[1..] ==> all <= ms;
  }

  lemma {:induction false} DrainBad(ms: Messages, n: nat)
    requires ms != [] && n <= |Frames(ms)| && !GoodTail(ms, n)
    ensures
      var r := Settle(Drain(Size(ms[0]), Frames(ms)[..n]));
      r.Ran? ==> Lost(ms, n, r.out, r.entry)
    decreases |ms|
  {
    hide SizeField, GoodTail, Frame, Lost;
    FramesLength(ms);
    FirstFrame(ms, n);
    assert n >= Size(ms[0]) by { if n < Size(ms[0]) { ShortIsGood(ms, n); } }
    GoodTailNext(ms, n);
    var e := Size(ms[0]);
    var rest := Frames(ms)[..n][e..];
    var r := n - e;
    FramesLength(ms[1..]);
    if r == 0 {
      ShortIsGood(ms[1..], 0);
    } else if r < HEADER {
      LostBytes(ms, n);
    } else if r == HEADER && |ms[1]| != |ms[0]| {
      StaleSize(ms, rest);
    } else {
      FirstFrame(ms[1..], r);
      DrainBad(ms[1..], r);
      var d := Settle(Drain(Size(ms[1]), rest));
      if d.Ran? { LostNext(ms, n, d.out, d.entry); }
    }
  }

  lemma {:induction false} ShortIsGood(ms: Messages, n: nat)
    requires ms == [] || n < Size(ms[0])
    ensures GoodTail(ms, n)
  {
    forall k | 1 <= k < |ms| ensures Start(ms, k) >= Size(ms[0])
    {
      assert Start(ms, k) == Size(ms[0]) + Start(ms[1..], k - 1);
    }
  }

  lemma {:induction false} LostBytes(ms: Messages, n: nat)
    requires ms != [] && n > Size(ms[0])
    ensures Lost(ms, n, [ms[0]] + [], Absent)
  {
    var one: seq<Bytes> := [ms[0]];
    assert one + [] == one && one[1..] == [];
  }

  lemma {:induction false} StaleSize(ms: Messages, rest: Bytes)
    requires |ms| > 1 && |rest| == HEADER && |ms[1]| != |ms[0]|
    ensures
      var d := Settle(Prepend(ms[0], Drain(Size(ms[0]), rest)));
      d.Ran? ==> Lost(ms, Size(ms[0]) + HEADER, d.out, d.entry)
  {
    var e := Size(ms[0]);
    if e == HEADER {
      var d := Prepend(ms[0], Drain(e, rest));
      assert Drain(e, []) == Ran(Waiting(e, []), []);
      assert rest[HEADER..e] == [] && rest[HEADER..] == [];
      assert d.out == [ms[0]] + [[]];
      assert d.out[1] != ms[1];
    } else {
      var d := Prepend(ms[0], Drain(e, rest));
      assert d == Ran(Waiting(e, rest), [ms[0]] + []);
    }
  }

  lemma {:induction false} ReceiveBad(ms: Messages, o: nat, e: Entry, data: Bytes)
    requires InSync(ms, o, e) && o + |data| <= |Frames(ms)| && data == Frames(ms)[o..o + |data|]
    requires !GoodChunk(ms, o, |data|)
    ensures EntryOk(e)
    ensures
      var r := Receive(e, data);
      r.Ran? ==> Lost(ms, o + |data|, r.out, r.entry)
  {
    hide SizeField, Drain, Frames, GoodTail, Frame, Lost;
    var n := o + |data|;
    if o > 0 || |data| >= HEADER {
      assert ms != [] by { if ms == [] { FramesLength(ms); } }
      FirstFrame(ms, n);
      DrainBad(ms, n);
      assert Frames(ms)[..n] == Frames(ms)[..o] + data;
      if o == 0 {
        assert Frames(ms)[..n] == data;
      }
    }
  }

  /** Once out of step, the stream never again delivers what was sent. */
  lemma {:induction false} LostAll(ms: Messages, got: nat, out: seq<Bytes>, e: Entry, chunks: seq<Bytes>)
    requires EntryOk(e) && Lost(ms, got, out, e)
    ensures
      var r := ReceiveAll(e, chunks);
      r.Ran? ==> Lost(ms, got + |Concat(chunks)|, out + r.out, r.entry)
    decreases |chunks|
  {
    hide Receive, Lost;
    if chunks == [] {
      assert out + [] == out;
    } else {
      LostStays(ms, got, out, e, chunks[0]);
      var r := Receive(e, chunks[0]);
      if r.Ran? {
        LostAll(ms, got + |chunks[0]|, out + r.out, r.entry, chunks[1..]);
        var r' := ReceiveAll(r.entry, chunks[1..]);
        if r'.Ran? { assert out + r.out + r'.out == out + (r.out + r'.out); }
      }
    }
  }

  lemma {:induction false} LostIsWrong(ms: Messages, out: seq<Bytes>, e: Entry)
    requires Lost(ms, |Frames(ms)|, out, e)
    ensures out != ms
  {
    FramesWeight(ms);
  }

  lemma {:induction false} FramesWeight(ms: Messages)
    ensures |Frames(ms)| == Weight(ms)
  {
    if ms != [] { FramesWeight(ms[1..]); }
  }

  /** A bad cut anywhere: the messages handled are not those sent. */
  lemma {:induction false} ReceiveAllBad(ms: Messages, o: nat, e: Entry, chunks: seq<Bytes>)
    requires InSync(ms, o, e) && o <= |Frames(ms)| && Concat(chunks) == Frames(ms)[o..] && !GoodCuts(ms, o, chunks)
    ensures EntryOk(e)
    ensures ReceiveAll(e, chunks).Ran? ==> ReceiveAll(e, chunks).out != ms
    decreases |chunks|
  {
    hide Receive, Frames, GoodTail, Completed, Lost;
    var data := chunks[0];
    var n := o + |data|;
    assert Frames(ms)[o..][..|data|] == data && Frames(ms)[o..][|data|..] == Concat(chunks[1..]);
    if GoodChunk(ms, o, |data|) {
      var j := Completed(ms, n);
      ReceiveGood(ms, o, e, data);
      SplitFrames(ms, n);
      ReceiveAllBad(ms[j..], Left(ms, n), Receive(e, data).entry, chunks[1..]);
      var r' := ReceiveAll(Receive(e, data).entry, chunks[1..]);
      if r'.Ran? { ConcatCancels(ms, j, r'.out); }
    } else {
      ReceiveBad(ms, o, e, data);
      var r := Receive(e, data);
      if r.Ran? {
        LostAll(ms, n, r.out, r.entry, chunks[1..]);
        var r' := ReceiveAll(r.entry, chunks[1..]);
        if r'.Ran? { LostIsWrong(ms, r.out + r'.out, r'.entry); }
      }
    }
  }

  // ---------------------------------------------------------------- theorems

  /**
   However a stream of frames is cut into chunks, the handler receives exactly the
   messages that were sent, in order, if and only if all cuts are good.
   */
  lemma {:induction false} ReassemblyIff(ms: Messages, chunks: seq<Bytes>)
    requires Concat(chunks) == Frames(ms)
    ensures
      var r := ReceiveAll(Absent, chunks);
      && ((r.Ran? && r.out == ms) <==> GoodCuts(ms, 0, chunks))
      && (GoodCuts(ms, 0, chunks) ==> r.entry == Absent)
  {
    hide Frames, GoodCuts, ReceiveAll;
    assert Frames(ms)[0..] == Frames(ms) && Frames(ms)[0..|Frames(ms)|] == Frames(ms);
    if GoodCuts(ms, 0, chunks) {
      ReceiveAllGood(ms, 0, Absent, chunks);
      AllCompleted(ms);
      FramesLength(ms);
      assert ms[..|ms|] == ms;
    } else {
      ReceiveAllBad(ms, 0, Absent, chunks);
    }
  }

  /**
   After any part of the stream whose cuts are good, exactly the messages whose frames are
   complete have been handled, and the table has no entry exactly at a frame boundary.
   */
  lemma {:induction false} DeliveredSoFar(ms: Messages, chunks: seq<Bytes>)
    requires Concat(chunks) <= Frames(ms) && GoodCuts(ms, 0, chunks)
    ensures
      var n := |Concat(chunks)|;
      var r := ReceiveAll(Absent, chunks);
      && r.Ran? && r.out == ms[..Completed(ms, n)]
      && (r.entry == Absent <==> Left(ms, n) == 0)
  {
    hide Frames, GoodCuts, ReceiveAll, Concat;
    ReceiveAllGood(ms, 0, Absent, chunks);
  }

  lemma {:induction false} AllCompleted(ms: Messages)
    ensures Completed(ms, |Frames(ms)|) == |ms|
  {
    if ms != [] {
      FramesLength(ms);
      AllCompleted(ms[1..]);
    }
  }

  /** Every cut on a frame boundary or at least six bytes into a frame. */
  predicate CutsDeepEnough(ms: Messages, o: nat, chunks: seq<Bytes>)
    decreases |chunks|
  {
    chunks == [] ||
    (var n := o + |chunks[0]|;
     && chunks[0] != []
     && (Left(ms, n) == 0 || Left(ms, n) >= 6)
     && CutsDeepEnough(ms[Completed(ms, n)..], Left(ms, n), chunks[1..]))
  }

  /** The usual sufficient condition: no empty messages, and no cut within the first five bytes of a frame. */
  lemma {:induction false} DeepCutsAreGood(ms: Messages, o: nat, chunks: seq<Bytes>)
    requires (forall i :: 0 <= i < |ms| ==> ms[i] != []) && CutsDeepEnough(ms, o, chunks)
    ensures GoodCuts(ms, o, chunks)
    decreases |chunks|
  {
    if chunks != [] {
      var n := o + |chunks[0]|;
      DeepTail(ms, n);
      DeepCutsAreGood(ms[Completed(ms, n)..], Left(ms, n), chunks[1..]);
    }
  }

  lemma {:induction false} DeepTail(ms: Messages, n: nat)
    requires (forall i :: 0 <= i < |ms| ==> ms[i] != []) && (Left(ms, n) == 0 || Left(ms, n) >= 6)
    ensures GoodTail(ms, n) && (n > 0 ==> n >= HEADER)
  {
    if ms == [] || n < Size(ms[0]) {
      ShortIsGood(ms, n);
    } else {
      DeepTail(ms[1..], n - Size(ms[0]));
      GoodTailNext(ms, n);
      var r := n - Size(ms[0]);
      if |ms| > 1 && r > 0 { AtLeastSix(ms[1..], r); }
    }
  }

  lemma {:induction false} AtLeastSix(ms: Messages, n: nat)
    requires (forall i :: 0 <= i < |ms| ==> ms[i] != []) && n > 0 && (Left(ms, n) == 0 || Left(ms, n) >= 6)
    ensures n >= 6
  {
  }

  /** The condition is needed: two messages of one byte, the first chunk ending one byte into the second frame. */
  lemma {:induction false} ShallowCutLosesMessage()
    ensures
      var ms: Messages := [[1], [2]];
      var chunks := [Frames(ms)[..7], Frames(ms)[7..]];
      && Concat(chunks) == Frames(ms) && !GoodCuts(ms, 0, chunks)
      && (var r := ReceiveAll(Absent, chunks); r.Ran? ==> r.out != ms)
  {
    hide Receive;
    var ms: Messages := [[1], [2]];
    FramesLength(ms);
    FramesLength(ms[1..]);
    FramesLength(ms[1..][1..]);
    var f := Frames(ms);
    var chunks := [f[..7], f[7..]];
    assert Concat([]) == [];
    assert chunks[1..] == [f[7..]] && Concat(chunks[1..]) == f[7..];
    assert Start(ms, 1) == 6 + Start(ms[1..], 0);
    assert !GoodTail(ms, 7);
    ReassemblyIff(ms, chunks);
  }
}
