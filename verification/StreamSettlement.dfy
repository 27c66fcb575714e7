/**
 The write replies of the bidirectional stream: when each is queued, in flight or settled,
 what finishRead leaves behind, and with which status they are settled.
 */
module StreamSettlement {
  import opened CallReader
  import opened BidirectStream
  import opened StreamLifetime
  import opened StreamOrder

  function RepliesOf(items: seq<Item>): (r: seq<Reply>)
    ensures |r| == |items|
  {
    seq(|items|, i requires 0 <= i < |items| => items[i].reply)
  }

  function SettledReplies(xs: seq<Settlement>): (r: seq<Reply>)
    ensures |r| == |xs|
  {
    seq(|xs|, i requires 0 <= i < |xs| => xs[i].reply)
  }

  function Reply1(c: Current): (r: seq<Reply>)
    ensures |r| == if c.Waiting? then 1 else 0
  {
    if c.Waiting? then [c.reply] else []
  }

  function InFlight(s: Stream): seq<Reply>
  {
    if s.tags.finishWrite > 0 then Reply1(s.current) else []
  }

  /** The reply in flight that finishRead would fail: not that of a writeDone made when idle. */
  function Failing(s: Stream): seq<Reply>
  {
    if s.inProcess then InFlight(s) else []
  }

  /** After finishRead: the reply that it failed in flight, once the tag is back. */
  function Twice(s: Stream): seq<Reply>
  {
    if s.tags.finishWrite == 0 then Reply1(s.log.cutOff) else []
  }

  /** After finishRead: the reply in flight that it did not fail. */
  function Late(s: Stream): seq<Reply>
  {
    if s.log.cutOff == Nobody then InFlight(s) else []
  }

  /**
   Every accepted reply is settled, in flight or queued, in the order of the requests.
   After finishRead every one is settled, but for one in flight from a writeDone made when
   idle; one that was failed in flight is settled again when its tag comes back.
   */
  ghost predicate Accepted(s: Stream)
  {
    if s.log.flushed
    then SettledReplies(s.log.settled) + Late(s) == RepliesOf(s.log.asked) + Twice(s)
    else RepliesOf(s.log.asked) == SettledReplies(s.log.settled) + InFlight(s) + RepliesOf(s.queue)
  }

  // ------------------------------------------------------------- clean runs

  /** dequeueWrite takes a done item, which does not become the current reply. */
  predicate TakesDone(s: Stream, ev: Event)
  {
    && s.queue != [] && s.queue[0].done
    && ((ev.NewData? && ev.ok && s.reader == FirstCall) || (ev.FinishWrite? && s.refCount != 1))
  }

  /** No request finds the stream occupied, and no done item is taken from the queue. */
  predicate CleanStep(s: Stream, ev: Event)
  {
    !(IsRequest(ev) && Occupied(s)) && !TakesDone(s, ev)
  }

  predicate Clean(s: Stream, evs: seq<Event>)
    requires IsRun(s, evs)
    decreases |evs|
  {
    evs == [] || (CleanStep(s, evs[0]) && Clean(Step(s, evs[0]), evs[1..]))
  }

  /** The shape of the object around the write in flight. */
  ghost predicate Shape(s: Stream)
  {
    && s.tags.finishWrite <= 1
    && s.tags.finishRead == (if s.log.flushed then 0 else 1)
    && (s.tags.finishWrite == 1 ==> s.current.Waiting?)
    && (s.inProcess && s.tags.finishWrite == 0 && s.destroyed == 0 && !s.log.flushed ==> s.current == Nobody)
    && (s.reader == FirstCall ==> s.inProcess && s.tags.finishWrite == 0)
    && (s.log.flushed || !s.inProcess ==> s.queue == [])
    && (s.log.flushed ==> !s.connected)
    && (s.log.flushed && s.tags.finishWrite == 1 ==> s.log.cutOff == if s.inProcess then s.current else Nobody)
    && (s.current == Nobody && !s.log.flushed ==> s.log.settled == [])
    && !s.log.nullReply
  }

  // ------------------------------------------------------------ small facts

  lemma {:induction false} RepliesAppend(items: seq<Item>, d: Item)
    ensures RepliesOf(items + [d]) == RepliesOf(items) + [d.reply]
  {
  }

  lemma {:induction false} RepliesFirst(items: seq<Item>)
    requires items != []
    ensures RepliesOf(items) == [items[0].reply] + RepliesOf(items[1..])
  {
  }

  lemma {:induction false} SettledConcat(xs: seq<Settlement>, ys: seq<Settlement>)
    ensures SettledReplies(xs + ys) == SettledReplies(xs) + SettledReplies(ys)
  {
  }

  lemma {:induction false} SettledOne(r: Reply, ok: bool)
    ensures SettledReplies([Settlement(r, ok)]) == [r]
    ensures SettledReplies([]) == []
  {
  }

  lemma {:induction false} FailuresReplies(items: seq<Item>)
    ensures SettledReplies(Failures(items)) == RepliesOf(items)
  {
  }

  lemma {:induction false} NoReplies()
    ensures RepliesOf([]) == []
  {
  }

  lemma {:induction false} AppendRight(xs: seq<Reply>, ys: seq<Reply>, zs: seq<Reply>, r: Reply)
    ensures xs + ys + zs + [r] == xs + ys + (zs + [r])
    ensures ys == [] && zs == [] ==> xs + ys + zs + [r] == xs + [r] + []
  {
  }

  lemma {:induction false} MoveFirst(xs: seq<Reply>, r: Reply, ys: seq<Reply>)
    ensures xs + [] + ([r] + ys) == xs + [r] + ys
  {
  }

  // ---------------------------------------------------------------- every step

  lemma {:induction false} ShapeRequest(s: Stream, ev: Event)
    requires Shape(s) && Enabled(s, ev) && IsRequest(ev) && !Occupied(s)
    ensures Shape(Step(s, ev))
  {
  }

  /** What a request does to the replies, be it a write or writeDone. */
  lemma {:induction false} AcceptedRequest(s: Stream, t: Stream, d: Item)
    requires Shape(s) && Accepted(s) && s.connected && !Occupied(s)
    requires !t.log.flushed && t.log.asked == s.log.asked + [d] && t.log.settled == s.log.settled
    requires
      if s.inProcess
      then t.queue == s.queue + [d] && t.tags.finishWrite == s.tags.finishWrite && t.current == s.current
      else t.queue == [] && t.tags.finishWrite == 1 && t.current == Waiting(d.reply)
    ensures Accepted(t)
  {
    hide RepliesOf, SettledReplies;
    RepliesAppend(s.log.asked, d);
    RepliesAppend(s.queue, d);
    NoReplies();
    AppendRight(SettledReplies(s.log.settled), InFlight(s), RepliesOf(s.queue), d.reply);
  }

  lemma {:induction false} KeptByRequest(s: Stream, ev: Event)
    requires Shape(s) && Accepted(s) && Enabled(s, ev) && IsRequest(ev) && !Occupied(s)
    ensures Shape(Step(s, ev)) && Accepted(Step(s, ev))
  {
    hide Accepted;
    ShapeRequest(s, ev);
    var d := if ev.WriteDone? then Item([], ev.reply, true) else Item(ev.data, ev.reply, false);
    AcceptedRequest(s, Step(s, ev), d);
  }

  lemma {:induction false} ShapeDequeue(s: Stream)
    requires Shape(s) && s.destroyed == 0 && s.tags.finishWrite == 0
    requires s.queue != [] ==> !s.queue[0].done
    ensures s.reader != FirstCall ==> Shape(DequeueWrite(s))
    ensures Shape(DequeueWrite(s).(reader := Processing))
  {
  }

  lemma {:induction false} AcceptedDequeue(s: Stream)
    requires Accepted(s) && s.tags.finishWrite == 0
    requires s.queue != [] ==> !s.queue[0].done && !s.log.flushed
    ensures Accepted(DequeueWrite(s))
  {
    hide RepliesOf, SettledReplies;
    if s.queue != [] {
      RepliesFirst(s.queue);
      MoveFirst(SettledReplies(s.log.settled), s.queue[0].reply, RepliesOf(s.queue[1..]));
    }
  }

  /** The reader, the counts and the tags of the reader do not matter. */
  lemma {:induction false} AcceptedFrame(s: Stream, t: Stream)
    requires Accepted(s)
    requires t.tags.finishWrite == s.tags.finishWrite && t.queue == s.queue
    requires t.current == s.current && t.log.(dataReady := []) == s.log.(dataReady := [])
    ensures Accepted(t)
  {
  }

  lemma {:induction false} ShapeFrame(s: Stream, t: Stream)
    requires Shape(s)
    requires t.tags.finishWrite == s.tags.finishWrite && t.tags.finishRead == s.tags.finishRead
    requires t.inProcess == s.inProcess && t.queue == s.queue && t.current == s.current
    requires t.log.(dataReady := []) == s.log.(dataReady := [])
    requires t.reader == s.reader || t.reader != FirstCall
    requires t.connected ==> s.connected
    requires s.destroyed > 0 ==> t.destroyed > 0
    ensures Shape(t)
  {
  }

  lemma {:induction false} ShapeFacts(s: Stream)
    requires Shape(s)
    ensures s.reader == FirstCall ==> s.tags.finishWrite == 0
    ensures s.queue != [] ==> !s.log.flushed
  {
  }

  lemma {:induction false} KeptByNewData(s: Stream, ok: bool, parsed: Parsed)
    requires Shape(s) && Accepted(s) && Enabled(s, NewData(ok, parsed)) && !TakesDone(s, NewData(ok, parsed))
    ensures Shape(NewDataStep(s, ok, parsed)) && Accepted(NewDataStep(s, ok, parsed))
  {
    hide Accepted, DequeueWrite, Shape;
    var s' := NewDataTaken(s);
    ShapeFrame(s, s');
    AcceptedFrame(s, s');
    if ok && s.reader == FirstCall {
      ShapeFacts(s');
      ShapeDequeue(s');
      AcceptedDequeue(s');
      var u := DequeueWrite(s').(reader := Processing);
      AcceptedFrame(DequeueWrite(s'), NewDataStep(s, ok, parsed));
      ShapeFrame(u, NewDataStep(s, ok, parsed));
    } else {
      AcceptedFrame(s, NewDataStep(s, ok, parsed));
      ShapeFrame(s, NewDataStep(s, ok, parsed));
    }
  }

  /** The reply in flight when finishRead runs: failed by it, or left alone. */
  lemma {:induction false} FailingNow(s: Stream)
    requires Shape(s) && Enabled(s, FinishRead)
    ensures Reply1(if s.inProcess then s.current else Nobody) == Failing(s)
    ensures !s.log.flushed && (!s.inProcess ==> s.queue == [])
  {
  }

  lemma {:induction false} KeptByFinishRead(s: Stream)
    requires Shape(s) && Accepted(s) && Enabled(s, FinishRead)
    ensures Shape(FinishReadStep(s)) && Accepted(FinishReadStep(s))
  {
    ShapeFinishRead(s);
    hide RepliesOf, SettledReplies, Failures, Shape;
    FailingNow(s);
    var inFlight := if s.inProcess then s.current else Nobody;
    var first := if inFlight.Waiting? then [Settlement(inFlight.reply, false)] else [];
    SettledOne(if inFlight.Waiting? then inFlight.reply else 0, false);
    SettledConcat(s.log.settled, first);
    SettledConcat(s.log.settled + first, Failures(s.queue));
    FailuresReplies(s.queue);
    NoReplies();
    var t, xs := FinishReadStep(s), SettledReplies(s.log.settled);
    assert SettledReplies(t.log.settled) == xs + Failing(s) + RepliesOf(s.queue);
    if s.inProcess {
      assert Late(t) == [] && Twice(t) == [];
    } else {
      assert xs + [] + [] == xs && xs + InFlight(s) + [] == xs + InFlight(s);
    }
  }

  lemma {:induction false} ShapeFinishRead(s: Stream)
    requires Shape(s) && Enabled(s, FinishRead)
    ensures Shape(FinishReadStep(s))
  {
    hide Failures;
  }

  /** The write in flight is settled; its tag is back and nothing else has moved. */
  lemma {:induction false} KeptBySettle(s: Stream, ok: bool)
    requires Shape(s) && Accepted(s) && s.destroyed == 0 && s.tags.finishWrite > 0
    ensures
      var t := Settle(FinishWriteTaken(s), ok);
      && Accepted(t)
      && t == s.(tags := s.tags.(finishWrite := 0), log := t.log)
      && t.log == s.log.(settled := s.log.settled + [Settlement(s.current.reply, ok)])
  {
    hide RepliesOf, SettledReplies;
    var r := s.current.reply;
    SettledConcat(s.log.settled, [Settlement(r, ok)]);
    SettledOne(r, ok);
    var xs, q, asked := SettledReplies(s.log.settled), RepliesOf(s.queue), RepliesOf(s.log.asked);
    assert xs + [r] + q == xs + [r] + [] + q;
    assert xs + [] == xs && asked + [] == asked && xs + [r] + [] == xs + [r];
  }

  lemma {:induction false} ShapeSettled(s: Stream, t: Stream)
    requires Shape(s) && s.destroyed == 0 && s.tags.finishWrite > 0
    requires s.queue != [] && t.destroyed == 0 ==> !s.queue[0].done
    requires t == s.(tags := s.tags.(finishWrite := 0), log := t.log, refCount := t.refCount, destroyed := t.destroyed)
    requires t.log == s.log.(settled := t.log.settled)
    ensures t.destroyed > 0 ==> Shape(t)
    ensures t.destroyed == 0 ==> Shape(DequeueWrite(t))
  {
  }

  lemma {:induction false} KeptByFinishWrite(s: Stream, ok: bool)
    requires Shape(s) && Accepted(s) && Enabled(s, FinishWrite(ok)) && !TakesDone(s, FinishWrite(ok))
    ensures Shape(FinishWriteStep(s, ok)) && Accepted(FinishWriteStep(s, ok))
  {
    hide DequeueWrite, Accepted, Settle, Shape;
    KeptBySettle(s, ok);
    var u := Settle(FinishWriteTaken(s), ok);
    var t := Deref(u);
    AcceptedFrame(u, t);
    ShapeFacts(s);
    ShapeSettled(s, t);
    if t.refCount != 0 { AcceptedDequeue(t); }
  }

  lemma {:induction false} KeptByStep(s: Stream, ev: Event)
    requires Shape(s) && Accepted(s) && Enabled(s, ev) && CleanStep(s, ev)
    ensures Shape(Step(s, ev)) && Accepted(Step(s, ev))
  {
    if IsRequest(ev) { KeptByRequest(s, ev); }
    hide AppendStep, WriteDoneStep, NewDataStep, FinishReadStep, FinishWriteStep, Shape, Accepted, TakesDone, Occupied;
    match ev
    case NewData(ok, parsed) => KeptByNewData(s, ok, parsed);
    case FinishRead => KeptByFinishRead(s);
    case FinishWrite(ok) => KeptByFinishWrite(s, ok);
    case Disconnect =>
      ShapeFrame(s, Step(s, ev));
      AcceptedFrame(s, Step(s, ev));
    case ReleasePointer =>
      ShapeFrame(s, Step(s, ev));
      AcceptedFrame(s, Step(s, ev));
    case _ =>
  }

  lemma {:induction false} KeptByRun(s: Stream, evs: seq<Event>)
    requires Shape(s) && Accepted(s) && IsRun(s, evs) && Clean(s, evs)
    ensures Shape(After(s, evs)) && Accepted(After(s, evs))
    decreases |evs|
  {
    hide Step, Shape, Accepted, Enabled, CleanStep;
    if evs != [] {
      KeptByStep(s, evs[0]);
      KeptByRun(Step(s, evs[0]), evs[1..]);
    }
  }

  lemma {:induction false} StartedKept()
    ensures Shape(STARTED) && Accepted(STARTED)
  {
  }

  // --------------------------------------------------- when replies are accepted

  /** In every state of the run the accepted replies are accounted for. */
  ghost predicate AlwaysAccepted(s: Stream, evs: seq<Event>)
    requires IsRun(s, evs)
    decreases |evs|
  {
    Accepted(s) && (evs == [] || AlwaysAccepted(Step(s, evs[0]), evs[1..]))
  }

  /** Every call of write or writeDone makes a new reply. */
  predicate Distinct(items: seq<Item>)
  {
    forall i, j :: 0 <= i < j < |items| ==> items[i].reply != items[j].reply
  }

  lemma {:induction false} OverlapLoses(s: Stream, ev: Event)
    requires Shape(s) && Accepted(s) && Enabled(s, ev) && IsRequest(ev) && Occupied(s)
    ensures !Accepted(Step(s, ev))
  {
    assert |InFlight(s)| == 1 && |RepliesOf(s.log.asked)| == |s.log.settled| + 1;
    var t := Step(s, ev);
    assert |RepliesOf(t.log.asked)| == |s.log.asked| + 1 && |InFlight(t)| == 1;
  }

  lemma {:induction false} TakingDoneFirstLoses(s: Stream, ok: bool, parsed: Parsed)
    requires Shape(s) && Accepted(s) && Enabled(s, NewData(ok, parsed)) && TakesDone(s, NewData(ok, parsed))
    ensures !Accepted(NewDataStep(s, ok, parsed))
  {
    var t := NewDataStep(s, ok, parsed);
    assert |RepliesOf(s.log.asked)| == |s.log.settled| + |s.queue| && |t.queue| == |s.queue| - 1;
  }

  lemma {:induction false} TakingDoneLaterLoses(s: Stream, ok: bool)
    requires Shape(s) && Accepted(s) && Enabled(s, FinishWrite(ok)) && TakesDone(s, FinishWrite(ok))
    requires Distinct(s.log.asked)
    ensures !Accepted(FinishWriteStep(s, ok))
  {
    hide Distinct;
    var t := FinishWriteStep(s, ok);
    var n, asked := |s.log.settled|, RepliesOf(s.log.asked);
    assert asked == SettledReplies(s.log.settled) + InFlight(s) + RepliesOf(s.queue);
    assert asked[n] == s.current.reply && asked[n + 1] == s.queue[0].reply;
    DistinctAt(s.log.asked, n, n + 1);
    assert t.log.settled == s.log.settled + [Settlement(s.current.reply, ok)] && t.current == s.current;
    assert (SettledReplies(t.log.settled) + InFlight(t) + RepliesOf(t.queue))[n + 1] == s.current.reply;
  }

  lemma {:induction false} DistinctAt(items: seq<Item>, i: nat, j: nat)
    requires Distinct(items) && i < j < |items|
    ensures RepliesOf(items)[i] != RepliesOf(items)[j]
  {
  }

  lemma {:induction false} DistinctPrefix(items: seq<Item>, more: seq<Item>)
    requires Distinct(items + more)
    ensures Distinct(items)
  {
    assert forall i :: 0 <= i < |items| ==> items[i] == (items + more)[i];
  }

  lemma {:induction false} UncleanLoses(s: Stream, ev: Event)
    requires Shape(s) && Accepted(s) && Enabled(s, ev) && !CleanStep(s, ev) && Distinct(s.log.asked)
    ensures !Accepted(Step(s, ev))
  {
    hide Accepted, Shape, Distinct, NewDataStep, FinishWriteStep;
    if IsRequest(ev) {
      OverlapLoses(s, ev);
    } else if ev.NewData? {
      TakingDoneFirstLoses(s, ev.ok, ev.parsed);
    } else {
      TakingDoneLaterLoses(s, ev.ok);
    }
  }

  lemma {:induction false} AcceptedIff(s: Stream, evs: seq<Event>)
    requires Shape(s) && Accepted(s) && IsRun(s, evs) && Distinct(s.log.asked + AskedBy(evs))
    ensures AlwaysAccepted(s, evs) <==> Clean(s, evs)
    decreases |evs|
  {
    hide Step, Shape, Accepted, Enabled, CleanStep, Distinct;
    if evs != [] {
      DistinctPrefix(s.log.asked, AskedBy(evs));
      if CleanStep(s, evs[0]) {
        KeptByStep(s, evs[0]);
        AskedStep(s, evs[0]);
        assert s.log.asked + AskedBy(evs) == Step(s, evs[0]).log.asked + AskedBy(evs[1..]) by {
          AskedFirst(evs);
        }
        AcceptedIff(Step(s, evs[0]), evs[1..]);
      } else {
        UncleanLoses(s, evs[0]);
        NotAlways(s, evs);
      }
    }
  }

  lemma {:induction false} AskedFirst(evs: seq<Event>)
    requires evs != []
    ensures AskedBy(evs) == AskedBy([evs[0]]) + AskedBy(evs[1..])
  {
    var none: seq<Event> := [];
    assert [evs[0]][1..] == none;
  }

  lemma {:induction false} NotAlways(s: Stream, evs: seq<Event>)
    requires IsRun(s, evs) && evs != [] && !Accepted(Step(s, evs[0]))
    ensures !AlwaysAccepted(s, evs)
  {
    hide Step, Accepted, Enabled;
  }

  /**
   The accepted replies are accounted for in every state of a run if and only if no
   request finds the stream occupied and no done item is taken from the queue.
   */
  lemma {:induction false} AlwaysAcceptedIff(evs: seq<Event>)
    requires IsRun(STARTED, evs) && Distinct(AskedBy(evs))
    ensures AlwaysAccepted(STARTED, evs) <==> Clean(STARTED, evs)
  {
    hide IsRun, AlwaysAccepted, Clean, Shape, Accepted, Distinct;
    StartedKept();
    assert STARTED.log.asked + AskedBy(evs) == AskedBy(evs);
    AcceptedIff(STARTED, evs);
  }

  /**
   Until finishRead, in a clean run, the accepted replies are, in the order of the
   requests, the settled ones, the one in flight and the queued ones.
   */
  lemma {:induction false} RepliesAccountedFor(evs: seq<Event>)
    requires IsRun(STARTED, evs) && Clean(STARTED, evs)
    ensures
      var t := After(STARTED, evs);
      && !t.log.nullReply
      && (!t.log.flushed ==>
            RepliesOf(AskedBy(evs)) == SettledReplies(t.log.settled) + InFlight(t) + RepliesOf(t.queue))
  {
    hide IsRun, After, Clean;
    StartedKept();
    KeptByRun(STARTED, evs);
    AskedInRun(STARTED, evs);
    assert STARTED.log.asked + AskedBy(evs) == AskedBy(evs);
  }

  // ------------------------------------------------- runs without writeDone

  predicate NoWriteDone(evs: seq<Event>)
  {
    forall i :: 0 <= i < |evs| ==> !evs[i].WriteDone?
  }

  ghost predicate Plain(s: Stream)
  {
    Lone(s) && NoneDone(s.queue) && (!s.inProcess ==> s.tags.finishWrite == 0 && s.queue == [])
  }

  lemma {:induction false} NoneDoneParts(items: seq<Item>, d: Item)
    ensures NoneDone(items) && !d.done ==> NoneDone(items + [d])
    ensures items != [] && NoneDone(items) ==> !items[0].done && NoneDone(items[1..])
  {
    if items != [] {
      var tail := items[1..];
      assert forall i :: 0 <= i < |tail| ==> tail[i] == items[i + 1];
    }
  }

  lemma {:induction false} PlainDequeue(s: Stream)
    requires NoneDone(s.queue)
    ensures
      var t := DequeueWrite(s);
      && t.inProcess == (s.queue != []) && NoneDone(t.queue) && t.reader == s.reader
      && t.tags == s.tags.(finishWrite := s.tags.finishWrite + if t.inProcess then 1 else 0)
      && (!t.inProcess ==> t.queue == [])
  {
    hide NoneDone;
    NoneDoneParts(s.queue, Item([], 0, false));
  }

  lemma {:induction false} PlainStep(s: Stream, ev: Event)
    requires Plain(s) && Enabled(s, ev) && !ev.WriteDone?
    ensures Plain(Step(s, ev)) && CleanStep(s, ev)
  {
    hide NoneDone, DequeueWrite, Failures;
    NoneDoneParts(s.queue, if ev.AppendToSend? then Item(ev.data, ev.reply, false) else Item([], 0, false));
    match ev
    case NewData(_, _) => PlainDequeue(NewDataTaken(s));
    case FinishWrite(ok) => PlainDequeue(Deref(Settle(FinishWriteTaken(s), ok)));
    case FinishRead => assert NoneDone([]) by { NoneDoneEmpty(); }
    case _ =>
  }

  lemma {:induction false} NoneDoneEmpty()
    ensures NoneDone([])
  {
  }

  /** Runs without writeDone are clean. */
  lemma {:induction false} NoWriteDoneIsClean(s: Stream, evs: seq<Event>)
    requires Plain(s) && IsRun(s, evs) && NoWriteDone(evs)
    ensures Clean(s, evs) && Plain(After(s, evs))
    decreases |evs|
  {
    hide Step, Enabled, Plain, CleanStep;
    if evs != [] {
      PlainStep(s, evs[0]);
      NoWriteDoneIsClean(Step(s, evs[0]), evs[1..]);
    }
  }

  // --------------------------------------------------------------- finishRead

  lemma {:induction false} CutOffStays(s: Stream, evs: seq<Event>)
    requires s.tags.finishRead == 0 && s.log.flushed && IsRun(s, evs)
    ensures After(s, evs).log.cutOff == s.log.cutOff && After(s, evs).log.flushed
    decreases |evs|
  {
    if evs != [] {
      CutOffKept(s, evs[0]);
      hide Step, Enabled;
      CutOffStays(Step(s, evs[0]), evs[1..]);
    }
  }

  lemma {:induction false} CutOffKept(s: Stream, ev: Event)
    requires s.tags.finishRead == 0 && s.log.flushed && Enabled(s, ev)
    ensures var t := Step(s, ev); t.log.cutOff == s.log.cutOff && t.log.flushed && t.tags.finishRead == 0
  {
    hide DequeueWrite;
    match ev
    case NewData(_, _) => CutOffDequeue(NewDataTaken(s));
    case FinishWrite(ok) => CutOffDequeue(Deref(Settle(FinishWriteTaken(s), ok)));
    case _ =>
  }

  lemma {:induction false} CutOffDequeue(s: Stream)
    ensures
      var t := DequeueWrite(s);
      t.log.cutOff == s.log.cutOff && t.log.flushed == s.log.flushed && t.tags.finishRead == s.tags.finishRead
  {
  }

  lemma {:induction false} FlushedBy(s: Stream)
    requires Shape(s) && Enabled(s, FinishRead)
    ensures
      var t := FinishReadStep(s);
      && t.log.flushed && t.tags.finishRead == 0 && !t.connected && t.log.asked == s.log.asked
      && Reply1(t.log.cutOff) == Failing(s)
  {
    FailingNow(s);
  }

  /** After finishRead nothing is asked for any more, so every run is clean. */
  lemma {:induction false} QuietAfterFinishRead(s: Stream, evs: seq<Event>)
    requires Shape(s) && Accepted(s) && s.log.flushed && IsRun(s, evs)
    ensures Clean(s, evs) && After(s, evs).log.asked == s.log.asked
    decreases |evs|
  {
    if evs != [] {
      QuietStep(s, evs[0]);
      KeptByStep(s, evs[0]);
      hide Step, Enabled, Shape, Accepted, CleanStep;
      QuietAfterFinishRead(Step(s, evs[0]), evs[1..]);
    }
  }

  lemma {:induction false} QuietStep(s: Stream, ev: Event)
    requires Shape(s) && s.log.flushed && Enabled(s, ev)
    ensures CleanStep(s, ev) && Step(s, ev).log.asked == s.log.asked && Step(s, ev).log.flushed
  {
    hide DequeueWrite;
    match ev
    case NewData(_, _) => QuietDequeue(NewDataTaken(s));
    case FinishWrite(ok) => QuietDequeue(Deref(Settle(FinishWriteTaken(s), ok)));
    case _ =>
  }

  lemma {:induction false} QuietDequeue(s: Stream)
    ensures DequeueWrite(s).log.asked == s.log.asked && DequeueWrite(s).log.flushed == s.log.flushed
  {
  }

  /**
   Once finishRead has run no reply is left behind. As soon as no write is outstanding,
   the settled replies are the accepted ones in order, followed by the reply that was in
   flight at that moment a second time, unless it was that of a writeDone made when idle;
   while one is outstanding, that reply of writeDone is still missing.
   */
  lemma {:induction false} SettledAfterFinishRead(before: seq<Event>, after: seq<Event>)
    requires IsRun(STARTED, before) && Clean(STARTED, before)
    requires
      var u := After(STARTED, before);
      Enabled(u, FinishRead) && IsRun(Step(u, FinishRead), after)
    ensures
      var u := After(STARTED, before);
      var t := After(Step(u, FinishRead), after);
      && t.queue == [] && t.tags.finishWrite <= 1
      && (t.tags.finishWrite == 0 ==>
            SettledReplies(t.log.settled) == RepliesOf(AskedBy(before)) + Failing(u))
      && (t.tags.finishWrite == 1 ==>
            SettledReplies(t.log.settled) + (if Failing(u) == [] then Reply1(t.current) else [])
            == RepliesOf(AskedBy(before)))
  {
    hide IsRun, After, FinishReadStep, RepliesOf, SettledReplies, Clean, Failing;
    StartedKept();
    KeptByRun(STARTED, before);
    AskedInRun(STARTED, before);
    var u := After(STARTED, before);
    FlushedBy(u);
    var v := Step(u, FinishRead);
    KeptByStep(u, FinishRead);
    QuietAfterFinishRead(v, after);
    CutOffStays(v, after);
    KeptByRun(v, after);
    var t := After(v, after);
    assert STARTED.log.asked + AskedBy(before) == AskedBy(before);
    assert SettledReplies(t.log.settled) + [] == SettledReplies(t.log.settled);
    assert RepliesOf(t.log.asked) + [] == RepliesOf(t.log.asked);
  }

  // ------------------------------------------------------------------- statuses

  function Statuses(xs: seq<Settlement>): (r: seq<bool>)
    ensures |r| == |xs|
  {
    seq(|xs|, i requires 0 <= i < |xs| => xs[i].ok)
  }

  /** How the writes of a run ended, in the order in which their tags came back. */
  function Results(evs: seq<Event>): seq<bool>
  {
    if evs == [] then [] else (if evs[0].FinishWrite? then [evs[0].ok] else []) + Results(evs[1..])
  }

  lemma {:induction false} StatusFinishWrite(s: Stream, ok: bool)
    requires Shape(s) && Enabled(s, FinishWrite(ok))
    ensures FinishWriteStep(s, ok).log.flushed == s.log.flushed
    ensures Statuses(FinishWriteStep(s, ok).log.settled) == Statuses(s.log.settled) + [ok]
  {
    hide DequeueWrite;
    StatusDequeue(Deref(Settle(FinishWriteTaken(s), ok)));
  }

  lemma {:induction false} StatusNewData(s: Stream, ok: bool, parsed: Parsed)
    requires Enabled(s, NewData(ok, parsed))
    ensures
      var t := NewDataStep(s, ok, parsed);
      t.log.settled == s.log.settled && t.log.flushed == s.log.flushed
  {
    hide DequeueWrite;
    StatusDequeue(NewDataTaken(s));
  }

  lemma {:induction false} StatusRequest(s: Stream, ev: Event)
    requires Enabled(s, ev) && IsRequest(ev)
    ensures Step(s, ev).log.settled == s.log.settled && Step(s, ev).log.flushed == s.log.flushed
  {
  }

  lemma {:induction false} StatusStep(s: Stream, ev: Event)
    requires Shape(s) && Enabled(s, ev) && !ev.FinishRead?
    ensures Step(s, ev).log.flushed == s.log.flushed
    ensures Statuses(Step(s, ev).log.settled) == Statuses(s.log.settled) + if ev.FinishWrite? then [ev.ok] else []
  {
    hide DequeueWrite, AppendStep, WriteDoneStep, NewDataStep, FinishWriteStep, Statuses, Shape;
    match ev
    case NewData(ok, parsed) => StatusNewData(s, ok, parsed);
    case FinishWrite(ok) => StatusFinishWrite(s, ok);
    case AppendToSend(_, _) => StatusRequest(s, ev);
    case WriteDone(_) => StatusRequest(s, ev);
    case _ =>
  }

  lemma {:induction false} StatusDequeue(s: Stream)
    ensures DequeueWrite(s).log.settled == s.log.settled && DequeueWrite(s).log.flushed == s.log.flushed
  {
  }

  lemma {:induction false} ResultsFirst(xs: seq<bool>, evs: seq<Event>)
    requires evs != []
    ensures xs + (if evs[0].FinishWrite? then [evs[0].ok] else []) + Results(evs[1..]) == xs + Results(evs)
  {
  }

  lemma {:induction false} NoResults(xs: seq<bool>)
    ensures xs + Results([]) == xs
  {
  }

  /** As long as finishRead does not run, the statuses that are reported are the results of the writes. */
  lemma {:induction false} StatusesRun(s: Stream, evs: seq<Event>)
    requires Shape(s) && Accepted(s) && IsRun(s, evs) && Clean(s, evs)
    ensures After(s, evs).log.flushed == s.log.flushed ==>
              Statuses(After(s, evs).log.settled) == Statuses(s.log.settled) + Results(evs)
    decreases |evs|
  {
    hide Step, Shape, Accepted, Enabled, Statuses, CleanStep, Results;
    if evs == [] {
      NoResults(Statuses(s.log.settled));
    } else {
      var ev, t := evs[0], Step(s, evs[0]);
      KeptByStep(s, ev);
      if ev.FinishRead? {
        FinishReadOnce(s);
        CutOffStays(t, evs[1..]);
      } else {
        StatusStep(s, ev);
        StatusesRun(t, evs[1..]);
        ResultsFirst(Statuses(s.log.settled), evs);
      }
    }
  }

  lemma {:induction false} FinishReadOnce(s: Stream)
    requires Shape(s) && Enabled(s, FinishRead)
    ensures !s.log.flushed
    ensures var t := Step(s, FinishRead); t.log.flushed && t.tags.finishRead == 0
    ensures Statuses(Step(s, FinishRead).log.settled) == Statuses(s.log.settled) + Failed(|Failing(s)| + |s.queue|)
  {
    FailingNow(s);
  }

  function Failed(n: nat): (r: seq<bool>)
    ensures |r| == n
  {
    seq(n, _ => false)
  }

  /**
   Before finishRead the statuses reported are the results of the writes, in order;
   finishRead reports a failure for the reply it fails in flight and for each queued one;
   and later ones are results again.
   */
  lemma {:induction false} StatusesReported(before: seq<Event>, after: seq<Event>)
    requires IsRun(STARTED, before) && Clean(STARTED, before)
    requires
      var u := After(STARTED, before);
      Enabled(u, FinishRead) && IsRun(Step(u, FinishRead), after)
    ensures
      var u := After(STARTED, before);
      var t := After(Step(u, FinishRead), after);
      && Statuses(u.log.settled) == Results(before)
      && Statuses(t.log.settled) == Results(before) + Failed(|Failing(u)| + |u.queue|) + Results(after)
  {
    hide IsRun, After, Step, Shape, Accepted, Statuses, Enabled, Clean, CleanStep, Failing;
    StartedKept();
    StatusesRun(STARTED, before);
    KeptByRun(STARTED, before);
    var u := After(STARTED, before);
    FinishReadOnce(u);
    assert Statuses([]) + Results(before) == Results(before);
    assert CleanStep(u, FinishRead) by { FinishReadIsClean(u); }
    KeptByStep(u, FinishRead);
    var v := Step(u, FinishRead);
    QuietAfterFinishRead(v, after);
    StatusesRun(v, after);
    CutOffStays(v, after);
  }

  lemma {:induction false} FinishReadIsClean(s: Stream)
    ensures CleanStep(s, FinishRead)
  {
  }

  // ------------------------------------------------------------ three runs

  ghost predicate Moves(s: Stream, ev: Event, t: Stream)
  {
    Enabled(s, ev) && Step(s, ev) == t
  }

  lemma {:induction false} RunCons(s: Stream, ev: Event, t: Stream, rest: seq<Event>) returns (evs: seq<Event>)
    requires Moves(s, ev, t) && IsRun(t, rest)
    ensures evs == [ev] + rest
    ensures IsRun(s, evs) && After(s, evs) == After(t, rest)
  {
    hide Step, Enabled;
    evs := [ev] + rest;
    assert evs[1..] == rest;
  }

  const IDLE := Stream(Processing, false, [], Nobody, 3, Tags(1, 1, 0), true, true, 0,
                       Log([], [], [], false, false, Nobody, []))

  const SENT := Stream(Processing, true, [], Waiting(7), 4, Tags(1, 1, 1), true, true, 0,
                       Log([Item([], 7, false)], [Write([])], [], false, false, Nobody, []))

  const ENDING := Stream(Processing, true, [Item([], 8, true)], Waiting(7), 3, Tags(1, 1, 1), true, true, 0,
                         Log([Item([], 7, false), Item([], 8, true)], [Write([])], [], false, false, Nobody, []))

  lemma {:induction false} IdleThenSent()
    ensures Moves(STARTED, NewData(true, Malformed), IDLE)
    ensures Moves(IDLE, AppendToSend([], 7), SENT)
  {
  }

  /**
   A write that is in flight when finishRead runs is settled twice: once as failed, and
   once more when its own tag comes back.
   */
  lemma {:induction false} InFlightSettledTwice() returns (evs: seq<Event>)
    ensures IsRun(STARTED, evs) && evs == [NewData(true, Malformed), AppendToSend([], 7), FinishRead, FinishWrite(true)]
    ensures After(STARTED, evs).log.settled == [Settlement(7, false), Settlement(7, true)]
  {
    IdleThenSent();
    var cut, end := CutThenBack();
    hide Moves, IsRun, Step, After, Enabled;
    assert IsRun(end, []) && After(end, []) == end by { EmptyRun(end); }
    evs := RunCons(cut, FinishWrite(true), end, []);
    evs := RunCons(SENT, FinishRead, cut, evs);
    evs := RunCons(IDLE, AppendToSend([], 7), SENT, evs);
    evs := RunCons(STARTED, NewData(true, Malformed), IDLE, evs);
  }

  lemma {:induction false} EmptyRun(s: Stream)
    ensures IsRun(s, []) && After(s, []) == s
  {
  }

  lemma {:induction false} CutThenBack() returns (cut: Stream, end: Stream)
    ensures Moves(SENT, FinishRead, cut) && Moves(cut, FinishWrite(true), end)
    ensures end.log.settled == [Settlement(7, false), Settlement(7, true)]
  {
    cut := FinishReadStep(SENT);
    end := FinishWriteStep(cut, true);
  }

  lemma {:induction false} EndingTwice() returns (last: Stream, end: Stream)
    ensures Moves(SENT, WriteDone(8), ENDING)
    ensures Moves(ENDING, FinishWrite(true), last) && Moves(last, FinishWrite(true), end)
    ensures end.log.settled == [Settlement(7, true), Settlement(7, true)]
  {
    last := FinishWriteStep(ENDING, true);
    end := FinishWriteStep(last, true);
  }

  /** A queued writeDone does not become the current reply: an older reply is settled in its place. */
  lemma {:induction false} QueuedDoneSettlesOlderReply() returns (evs: seq<Event>)
    ensures IsRun(STARTED, evs)
    ensures evs == [NewData(true, Malformed), AppendToSend([], 7), WriteDone(8), FinishWrite(true), FinishWrite(true)]
    ensures After(STARTED, evs).log.settled == [Settlement(7, true), Settlement(7, true)]
  {
    IdleThenSent();
    var last, end := EndingTwice();
    hide Moves, IsRun, Step, After, Enabled;
    assert IsRun(end, []) && After(end, []) == end by { EmptyRun(end); }
    evs := RunCons(last, FinishWrite(true), end, []);
    evs := RunCons(ENDING, FinishWrite(true), last, evs);
    evs := RunCons(SENT, WriteDone(8), ENDING, evs);
    evs := RunCons(IDLE, AppendToSend([], 7), SENT, evs);
    evs := RunCons(STARTED, NewData(true, Malformed), IDLE, evs);
  }

  /** When it is the first thing in the queue there is no reply to settle at all. */
  lemma {:induction false} QueuedDoneUsesNullReply() returns (evs: seq<Event>)
    ensures IsRun(STARTED, evs) && evs == [WriteDone(8), NewData(true, Malformed), FinishWrite(true)]
    ensures After(STARTED, evs).log.nullReply
  {
    var queued, done, end := DoneThenBack();
    hide Moves, IsRun, Step, After, Enabled;
    assert IsRun(end, []) && After(end, []) == end by { EmptyRun(end); }
    evs := RunCons(done, FinishWrite(true), end, []);
    evs := RunCons(queued, NewData(true, Malformed), done, evs);
    evs := RunCons(STARTED, WriteDone(8), queued, evs);
  }

  lemma {:induction false} DoneThenBack() returns (queued: Stream, done: Stream, end: Stream)
    ensures Moves(STARTED, WriteDone(8), queued) && Moves(queued, NewData(true, Malformed), done)
    ensures Moves(done, FinishWrite(true), end) && end.log.nullReply
  {
    queued := WriteDoneStep(STARTED, 8);
    done := NewDataStep(queued, true, Malformed);
    end := FinishWriteStep(done, true);
  }
}
