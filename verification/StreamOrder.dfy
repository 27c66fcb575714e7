/**
 The order in which the bidirectional stream hands writes to the native library, and
 how many of them are outstanding at a time.
 */
module StreamOrder {
  import opened CallReader
  import opened BidirectStream
  import opened StreamLifetime

  function CallOf(d: Item): Call
  {
    if d.done then WritesDone else Write(d.data)
  }

  function Calls(items: seq<Item>): (r: seq<Call>)
    ensures |r| == |items|
  {
    seq(|items|, i requires 0 <= i < |items| => CallOf(items[i]))
  }

  // ---------------------------------------------------------------------- order

  /**
   What was asked for is what was given to the writer followed by what is queued; after
   finishRead the queue is gone and what the writer got is a prefix.
   */
  ghost predicate Ordered(s: Stream)
  {
    && (!s.inProcess || s.log.flushed ==> s.queue == [])
    && (s.log.flushed ==> !s.connected)
    && (!s.log.flushed ==> Calls(s.log.asked) == s.log.issued + Calls(s.queue))
    && (s.log.flushed ==> s.log.issued <= Calls(s.log.asked))
  }

  lemma {:induction false} CallsAppend(items: seq<Item>, d: Item)
    ensures Calls(items + [d]) == Calls(items) + [CallOf(d)]
  {
  }

  lemma {:induction false} OrderedAsked(s: Stream, d: Item)
    requires Ordered(s) && !s.log.flushed
    ensures Ordered(Ask(s, d).(queue := s.queue + [d], inProcess := true))
    ensures !s.inProcess ==> Calls(s.log.asked + [d]) == s.log.issued + [CallOf(d)]
  {
    CallsAppend(s.log.asked, d);
    CallsAppend(s.queue, d);
    assert Calls(s.log.asked) + [CallOf(d)] == s.log.issued + (Calls(s.queue) + [CallOf(d)]);
    if !s.inProcess {
      assert s.log.issued + Calls(s.queue) == s.log.issued;
    }
  }

  lemma {:induction false} OrderedAppend(s: Stream, data: Wire.Bytes, reply: Reply)
    requires Ordered(s) && s.connected
    ensures Ordered(AppendStep(s, data, reply))
  {
    hide Calls;
    OrderedAsked(s, Item(data, reply, false));
    assert Calls([]) == [];
  }

  lemma {:induction false} OrderedWriteDone(s: Stream, reply: Reply)
    requires Ordered(s) && s.connected
    ensures Ordered(WriteDoneStep(s, reply))
  {
    hide Calls;
    OrderedAsked(s, Item([], reply, true));
    assert Calls([]) == [];
  }

  lemma {:induction false} CallsFirst(items: seq<Item>)
    requires items != []
    ensures Calls(items) == [CallOf(items[0])] + Calls(items[1..])
  {
  }

  lemma {:induction false} OrderedDequeue(s: Stream)
    requires Ordered(s)
    ensures Ordered(DequeueWrite(s))
  {
    hide Calls;
    if s.queue != [] {
      CallsFirst(s.queue);
      assert s.log.issued + ([CallOf(s.queue[0])] + Calls(s.queue[1..]))
          == s.log.issued + [CallOf(s.queue[0])] + Calls(s.queue[1..]);
    }
  }

  /** Order does not depend on the counts, the tags or the reader. */
  lemma {:induction false} OrderedFrame(s: Stream, t: Stream)
    requires Ordered(s)
    requires t.inProcess == s.inProcess && t.queue == s.queue && t.connected == s.connected
    requires t.log.asked == s.log.asked && t.log.issued == s.log.issued && t.log.flushed == s.log.flushed
    ensures Ordered(t)
  {
  }

  lemma {:induction false} OrderedNewData(s: Stream, ok: bool, parsed: Parsed)
    requires Ordered(s) && s.tags.newData > 0
    ensures Ordered(NewDataStep(s, ok, parsed))
  {
    hide Calls, Ordered, DequeueWrite;
    var s' := NewDataTaken(s);
    OrderedFrame(s, s');
    OrderedDequeue(s');
    OrderedFrame(if ok && s.reader.FirstCall? then DequeueWrite(s') else s, NewDataStep(s, ok, parsed));
  }

  lemma {:induction false} OrderedFinishRead(s: Stream)
    requires Ordered(s) && s.tags.finishRead > 0
    ensures Ordered(FinishReadStep(s))
  {
    hide Calls, Failures;
    assert s.log.issued <= s.log.issued + Calls(s.queue);
  }

  lemma {:induction false} OrderedFinishWrite(s: Stream, ok: bool)
    requires Ordered(s) && s.tags.finishWrite > 0
    ensures Ordered(FinishWriteStep(s, ok))
  {
    hide Calls, Ordered, DequeueWrite;
    var s' := Deref(Settle(FinishWriteTaken(s), ok));
    OrderedFrame(s, s');
    OrderedDequeue(s');
  }

  lemma {:induction false} OrderedStep(s: Stream, ev: Event)
    requires Ordered(s) && Enabled(s, ev)
    ensures Ordered(Step(s, ev))
  {
    hide Calls, AppendStep, WriteDoneStep, NewDataStep, FinishReadStep, FinishWriteStep;
    match ev
    case AppendToSend(data, reply) => OrderedAppend(s, data, reply);
    case WriteDone(reply) => OrderedWriteDone(s, reply);
    case NewData(ok, parsed) => OrderedNewData(s, ok, parsed);
    case FinishRead => OrderedFinishRead(s);
    case FinishWrite(ok) => OrderedFinishWrite(s, ok);
    case Disconnect =>
    case ReleasePointer =>
  }

  lemma {:induction false} OrderedRun(s: Stream, evs: seq<Event>)
    requires Ordered(s) && IsRun(s, evs)
    ensures Ordered(After(s, evs))
    decreases |evs|
  {
    hide Step, Ordered, Enabled;
    if evs != [] {
      OrderedStep(s, evs[0]);
      OrderedRun(Step(s, evs[0]), evs[1..]);
    }
  }

  /**
   In every run, with or without writeDone, the calls given to the writer are a prefix
   of the calls asked for, in the same order, and until finishRead the rest is queued.
   */
  lemma {:induction false} WritesInOrder(evs: seq<Event>)
    requires IsRun(STARTED, evs)
    ensures
      var t := After(STARTED, evs);
      && t.log.issued <= Calls(AskedBy(evs))
      && (!t.log.flushed ==> Calls(AskedBy(evs)) == t.log.issued + Calls(t.queue))
      && (t.log.flushed ==> t.queue == [])
  {
    hide IsRun, After;
    assert Ordered(STARTED);
    OrderedRun(STARTED, evs);
    AskedInRun(STARTED, evs);
    assert STARTED.log.asked + AskedBy(evs) == AskedBy(evs);
  }

  // ------------------------------------------------------ one write at a time

  predicate IsRequest(ev: Event)
  {
    ev.AppendToSend? || ev.WriteDone?
  }

  /** A WritesDone that was issued by writeDone itself is outstanding: the stream still looks idle. */
  predicate Occupied(s: Stream)
  {
    !s.inProcess && s.tags.finishWrite > 0
  }

  /** No request of the run is made while the stream is occupied. */
  predicate NoOverlap(s: Stream, evs: seq<Event>)
    requires IsRun(s, evs)
    decreases |evs|
  {
    evs == [] || (!(IsRequest(evs[0]) && Occupied(s)) && NoOverlap(Step(s, evs[0]), evs[1..]))
  }

  /** In no state of the run more than one Write or WritesDone is outstanding. */
  predicate AlwaysSingle(s: Stream, evs: seq<Event>)
    requires IsRun(s, evs)
    decreases |evs|
  {
    s.tags.finishWrite <= 1 && (evs == [] || AlwaysSingle(Step(s, evs[0]), evs[1..]))
  }

  ghost predicate Lone(s: Stream)
  {
    s.tags.finishWrite <= 1 && (s.reader == FirstCall ==> s.inProcess && s.tags.finishWrite == 0)
  }

  lemma {:induction false} DequeueSingle(s: Stream)
    ensures
      var t := DequeueWrite(s);
      && t.inProcess == (s.queue != [])
      && t.tags == s.tags.(finishWrite := s.tags.finishWrite + if t.inProcess then 1 else 0)
      && t.reader == s.reader && t.log.asked == s.log.asked
  {
  }

  lemma {:induction false} LoneStep(s: Stream, ev: Event)
    requires Lone(s) && Enabled(s, ev)
    ensures if IsRequest(ev) && Occupied(s) then Step(s, ev).tags.finishWrite == 2 else Lone(Step(s, ev))
  {
    hide DequeueWrite, Failures;
    match ev
    case NewData(_, _) => DequeueSingle(NewDataTaken(s));
    case FinishWrite(ok) => DequeueSingle(Deref(Settle(FinishWriteTaken(s), ok)));
    case _ =>
  }

  lemma {:induction false} SingleIff(s: Stream, evs: seq<Event>)
    requires Lone(s) && IsRun(s, evs)
    ensures AlwaysSingle(s, evs) <==> NoOverlap(s, evs)
    decreases |evs|
  {
    if evs != [] {
      LoneStep(s, evs[0]);
      hide Step, Enabled, Occupied;
      if !(IsRequest(evs[0]) && Occupied(s)) {
        SingleIff(Step(s, evs[0]), evs[1..]);
      }
    }
  }

  /**
   At most one Write or WritesDone is outstanding throughout a run if and only if no
   request is made while the WritesDone of an idle writeDone is outstanding.
   */
  lemma {:induction false} OneWriteIff(evs: seq<Event>)
    requires IsRun(STARTED, evs)
    ensures AlwaysSingle(STARTED, evs) <==> NoOverlap(STARTED, evs)
  {
    hide IsRun, AlwaysSingle, NoOverlap;
    SingleIff(STARTED, evs);
  }

  /** writeDone is called at most once and nothing is asked for after it. */
  predicate DoneOnlyLast(items: seq<Item>)
  {
    forall i :: 0 <= i < |items| - 1 ==> !items[i].done
  }

  predicate NoneDone(items: seq<Item>)
  {
    forall i :: 0 <= i < |items| ==> !items[i].done
  }

  ghost predicate Single(s: Stream)
  {
    && s.tags.finishWrite <= 1
    && (NoneDone(s.log.asked) && !s.inProcess ==> s.tags.finishWrite == 0)
    && (s.reader == FirstCall ==> s.inProcess && s.tags.finishWrite == 0)
  }

  lemma {:induction false} DoneOnlyLastPrefix(items: seq<Item>, more: seq<Item>)
    requires DoneOnlyLast(items + more)
    ensures DoneOnlyLast(items)
    ensures more != [] ==> NoneDone(items)
  {
    forall i | 0 <= i < |items| - 1 ensures !items[i].done { assert items[i] == (items + more)[i]; }
    if more != [] {
      forall i | 0 <= i < |items| ensures !items[i].done { assert items[i] == (items + more)[i]; }
    }
  }

  lemma {:induction false} SingleRequest(s: Stream, ev: Event)
    requires Single(s) && NoneDone(s.log.asked)
    requires Enabled(s, ev) && (ev.AppendToSend? || ev.WriteDone?)
    ensures Single(Step(s, ev))
  {
    hide NoneDone;
    var d := if ev.AppendToSend? then Item(ev.data, ev.reply, false) else Item([], ev.reply, true);
    if ev.WriteDone? {
      assert (s.log.asked + [d])[|s.log.asked|].done;
      assert !NoneDone(s.log.asked + [d]) by { NoneDoneNeeds(s.log.asked + [d], |s.log.asked|); }
    }
  }

  lemma {:induction false} NoneDoneNeeds(items: seq<Item>, i: nat)
    requires i < |items| && items[i].done
    ensures !NoneDone(items)
  {
  }

  lemma {:induction false} SingleNewData(s: Stream, ok: bool, parsed: Parsed)
    requires Single(s) && s.tags.newData > 0
    ensures Single(NewDataStep(s, ok, parsed))
  {
    hide NoneDone, DequeueWrite;
    DequeueSingle(NewDataTaken(s));
  }

  lemma {:induction false} SingleFinishWrite(s: Stream, ok: bool)
    requires Single(s) && s.tags.finishWrite > 0
    requires s.refCount > 1
    ensures Single(FinishWriteStep(s, ok))
  {
    hide NoneDone, DequeueWrite;
    DequeueSingle(Deref(Settle(FinishWriteTaken(s), ok)));
  }

  lemma {:induction false} SingleLastWrite(s: Stream, ok: bool)
    requires Single(s) && s.tags.finishWrite > 0
    requires s.refCount <= 1
    ensures Single(FinishWriteStep(s, ok))
  {
    hide NoneDone, DequeueWrite;
    DequeueSingle(Deref(Settle(FinishWriteTaken(s), ok)));
  }

  lemma {:induction false} SingleStep(s: Stream, ev: Event)
    requires Single(s) && Enabled(s, ev) && DoneOnlyLast(Step(s, ev).log.asked)
    ensures Single(Step(s, ev))
  {
    hide NoneDone, DoneOnlyLast, AppendStep, WriteDoneStep, NewDataStep, FinishWriteStep, AskedBy;
    match ev
    case NewData(ok, parsed) => SingleNewData(s, ok, parsed);
    case FinishWrite(ok) =>
      if s.refCount > 1 { SingleFinishWrite(s, ok); } else { SingleLastWrite(s, ok); }
    case FinishRead =>
    case Disconnect =>
    case ReleasePointer =>
    case _ =>
      AskedStep(s, ev);
      RequestAsked(ev);
      DoneOnlyLastPrefix(s.log.asked, AskedBy([ev]));
      SingleRequest(s, ev);
  }

  lemma {:induction false} RequestAsked(ev: Event)
    ensures AskedBy([ev]) != [] <==> ev.AppendToSend? || ev.WriteDone?
  {
    var none: seq<Event> := [];
    assert [ev][1..] == none;
    assert AskedBy(none) == [];
  }

  /** Nothing asked for after writeDone: then no request finds the stream occupied. */
  lemma {:induction false} DoneLastNoOverlap(s: Stream, evs: seq<Event>)
    requires Single(s) && IsRun(s, evs) && DoneOnlyLast(s.log.asked + AskedBy(evs))
    ensures NoOverlap(s, evs)
    decreases |evs|
  {
    hide Step, Enabled, DoneOnlyLast, NoneDone;
    if evs != [] {
      var none: seq<Event> := [];
      assert [evs[0]][1..] == none;
      AskedStep(s, evs[0]);
      RequestAsked(evs[0]);
      assert s.log.asked + AskedBy(evs) == Step(s, evs[0]).log.asked + AskedBy(evs[1..]);
      DoneOnlyLastPrefix(Step(s, evs[0]).log.asked, AskedBy(evs[1..]));
      DoneOnlyLastPrefix(s.log.asked, AskedBy([evs[0]]));
      SingleStep(s, evs[0]);
      DoneLastNoOverlap(Step(s, evs[0]), evs[1..]);
    }
  }

  lemma {:induction false} SingleAtEnd(s: Stream, evs: seq<Event>)
    requires IsRun(s, evs) && AlwaysSingle(s, evs)
    ensures After(s, evs).tags.finishWrite <= 1
    decreases |evs|
  {
    hide Step, Enabled;
    if evs != [] { SingleAtEnd(Step(s, evs[0]), evs[1..]); }
  }

  /**
   When nothing is asked for after writeDone, at most one Write or WritesDone is
   outstanding, and WritesDone is given to the writer only after every message.
   */
  lemma {:induction false} OneWriteAtATime(evs: seq<Event>)
    requires IsRun(STARTED, evs) && DoneOnlyLast(AskedBy(evs))
    ensures
      var t := After(STARTED, evs);
      && AlwaysSingle(STARTED, evs) && t.tags.finishWrite <= 1
      && (forall i :: 0 <= i < |t.log.issued| && t.log.issued[i].WritesDone? ==>
            i == |AskedBy(evs)| - 1 && t.log.issued == Calls(AskedBy(evs)))
  {
    hide IsRun, After, AlwaysSingle, NoOverlap;
    assert STARTED.log.asked + AskedBy(evs) == AskedBy(evs);
    DoneLastNoOverlap(STARTED, evs);
    OneWriteIff(evs);
    SingleAtEnd(STARTED, evs);
    WritesInOrder(evs);
  }

  /** Asking for a write after writeDone can put two calls on the writer at once. */
  lemma {:induction false} WriteAfterDoneOverlaps() returns (evs: seq<Event>)
    ensures IsRun(STARTED, evs)
    ensures After(STARTED, evs).tags.finishWrite == 2
    ensures After(STARTED, evs).log.issued == [WritesDone, Write([])]
  {
    evs := [NewData(true, Malformed), WriteDone(0), AppendToSend([], 1)];
    var e1 := evs[1..];
    var e2 := e1[1..];
    assert e2 == [AppendToSend([], 1)];
  }
}
