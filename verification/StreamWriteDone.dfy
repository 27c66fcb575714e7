/**
 What writeDone does to the replies of the bidirectional stream, when nothing is asked for
 after it: it depends on whether the stream was idle at the call. And which runs make
 finishWrite use a reply that does not exist.
 */
module StreamWriteDone {
  import opened CallReader
  import opened BidirectStream
  import opened StreamLifetime
  import opened StreamOrder
  import opened StreamSettlement

  // ------------------------------------------------------- called when idle

  /** WritesDone was issued at once, and its reply is in flight or settled. */
  ghost predicate DoneAtOnce(s: Stream, earlier: seq<Reply>, d: Reply)
  {
    && !s.inProcess && s.queue == [] && s.current == Waiting(d) && s.tags.finishWrite <= 1
    && SettledReplies(s.log.settled) == earlier + if s.tags.finishWrite == 0 then [d] else []
  }

  lemma {:induction false} DoneAtOnceStep(s: Stream, ev: Event, earlier: seq<Reply>, d: Reply)
    requires DoneAtOnce(s, earlier, d) && Enabled(s, ev) && !ev.AppendToSend? && !ev.WriteDone?
    ensures DoneAtOnce(Step(s, ev), earlier, d)
  {
    hide SettledReplies, Failures;
    match ev
    case FinishWrite(ok) =>
      SettledConcat(s.log.settled, [Settlement(d, ok)]);
      SettledOne(d, ok);
      assert earlier + [] + [d] == earlier + [d];
    case FinishRead =>
      assert Failures([]) == [] by { FailuresOfNone(); }
      assert s.log.settled + [] + [] == s.log.settled;
    case _ =>
  }

  lemma {:induction false} FailuresOfNone()
    ensures Failures([]) == []
  {
  }

  lemma {:induction false} DoneAtOnceRun(s: Stream, evs: seq<Event>, earlier: seq<Reply>, d: Reply)
    requires DoneAtOnce(s, earlier, d) && IsRun(s, evs) && AskedBy(evs) == []
    ensures DoneAtOnce(After(s, evs), earlier, d)
    decreases |evs|
  {
    hide Step, Enabled, DoneAtOnce;
    if evs != [] {
      DoneAtOnceStep(s, evs[0], earlier, d);
      DoneAtOnceRun(Step(s, evs[0]), evs[1..], earlier, d);
    }
  }

  // ------------------------------------------------------- called when busy

  function LastOf(w: seq<Reply>): Current
  {
    if w == [] then Nobody else Waiting(w[|w| - 1])
  }

  /** The done item waits behind the writes queued before it, or was failed with them by finishRead. */
  ghost predicate Pending(s: Stream, w: seq<Reply>, d: Reply)
  {
    && Shape(s) && Accepted(s) && RepliesOf(s.log.asked) == w + [d] && WritesDone !in s.log.issued
    && (!s.log.flushed ==> DoneBehind(s.queue, d))
  }

  predicate DoneBehind(queue: seq<Item>, d: Reply)
  {
    && queue != [] && queue[|queue| - 1] == Item([], d, true)
    && forall i :: 0 <= i < |queue| - 1 ==> !queue[i].done
  }

  /** WritesDone was issued from the queue, and the last write is still the current one. */
  ghost predicate Lost(s: Stream, w: seq<Reply>)
  {
    && LostShape(s, w)
    && SettledReplies(s.log.settled) == LostReplies(s, w)
  }

  ghost predicate LostShape(s: Stream, w: seq<Reply>)
  {
    && s.queue == [] && s.tags.finishWrite <= 1 && s.reader != FirstCall && s.current == LastOf(w)
    && s.tags.finishRead == (if s.log.flushed then 0 else 1)
    && (s.tags.finishWrite == 1 ==> s.inProcess) && (s.tags.finishWrite == 0 && s.destroyed == 0 ==> !s.inProcess)
    && WritesDone in s.log.issued
    && (s.log.flushed ==> s.log.cutOff == Nobody || s.log.cutOff == LastOf(w))
  }

  /**
   The replies asked for before writeDone; the last of them again if finishRead ran while
   WritesDone was outstanding, and again when the tag of WritesDone is back.
   */
  function LostReplies(s: Stream, w: seq<Reply>): seq<Reply>
  {
    w + (if s.log.flushed then Reply1(s.log.cutOff) else []) + (if s.tags.finishWrite == 0 then Reply1(LastOf(w)) else [])
  }

  lemma {:induction false} LostStep(s: Stream, ev: Event, w: seq<Reply>)
    requires Lost(s, w) && Enabled(s, ev) && !IsRequest(ev)
    ensures Lost(Step(s, ev), w)
  {
    hide SettledReplies, Failures;
    match ev
    case FinishWrite(ok) => LostFinishWrite(s, ok, w);
    case FinishRead => LostFinishRead(s, w);
    case _ =>
  }

  lemma {:induction false} LostFinishWrite(s: Stream, ok: bool, w: seq<Reply>)
    requires Lost(s, w) && Enabled(s, FinishWrite(ok))
    ensures Lost(FinishWriteStep(s, ok), w)
  {
    hide SettledReplies;
    var r := if s.current.Waiting? then s.current.reply else 0;
    SettledConcat(s.log.settled, [Settlement(r, ok)]);
    SettledOne(r, ok);
    var a := w + if s.log.flushed then Reply1(s.log.cutOff) else [];
    assert a + [] == a;
  }

  lemma {:induction false} LostFinishRead(s: Stream, w: seq<Reply>)
    requires Lost(s, w) && Enabled(s, FinishRead)
    ensures Lost(FinishReadStep(s), w)
  {
    hide SettledReplies, Failures;
    FailuresOfNone();
    var r := if s.current.Waiting? then s.current.reply else 0;
    SettledConcat(s.log.settled, [Settlement(r, false)]);
    SettledOne(r, false);
    var xs := s.log.settled;
    assert xs + [] + [] == xs && xs + [Settlement(r, false)] + [] == xs + [Settlement(r, false)];
    assert w + [] + [] == w && w + Reply1(LastOf(w)) + [] == w + Reply1(LastOf(w));
    assert w + [] + Reply1(LastOf(w)) == w + Reply1(LastOf(w));
  }

  lemma {:induction false} LostRun(s: Stream, evs: seq<Event>, w: seq<Reply>)
    requires Lost(s, w) && IsRun(s, evs) && AskedBy(evs) == []
    ensures Lost(After(s, evs), w)
    decreases |evs|
  {
    hide Step, Enabled, Lost;
    if evs != [] {
      LostStep(s, evs[0], w);
      LostRun(Step(s, evs[0]), evs[1..], w);
    }
  }

  /** Before finishRead, a dequeue that does not take the done item leaves it behind the others. */
  lemma {:induction false} BehindDequeue(s: Stream, d: Reply)
    requires DoneBehind(s.queue, d) && !s.queue[0].done && WritesDone !in s.log.issued
    ensures
      var t := DequeueWrite(s);
      DoneBehind(t.queue, d) && WritesDone !in t.log.issued && t.log.asked == s.log.asked && t.log.flushed == s.log.flushed
  {
    var tail := s.queue[1..];
    assert forall i :: 0 <= i < |tail| ==> tail[i] == s.queue[i + 1];
  }

  lemma {:induction false} PendingClean(s: Stream, ev: Event, w: seq<Reply>, d: Reply)
    requires Pending(s, w, d) && !s.log.flushed && Enabled(s, ev) && !IsRequest(ev) && CleanStep(s, ev)
    ensures Pending(Step(s, ev), w, d)
  {
    KeptByStep(s, ev);
    hide Shape, Accepted, RepliesOf, DequeueWrite, DoneBehind, Failures;
    match ev
    case NewData(ok, _) => if ok && s.reader == FirstCall { BehindDequeue(NewDataTaken(s), d); }
    case FinishWrite(ok) => if s.refCount != 1 { BehindDequeue(Deref(Settle(FinishWriteTaken(s), ok)), d); }
    case _ =>
  }

  lemma {:induction false} PendingFlushed(s: Stream, ev: Event, w: seq<Reply>, d: Reply)
    requires Pending(s, w, d) && s.log.flushed && Enabled(s, ev)
    ensures Pending(Step(s, ev), w, d)
  {
    QuietStep(s, ev);
    KeptByStep(s, ev);
    hide Accepted, RepliesOf, Failures;
  }

  lemma {:induction false} TakenFirst(s: Stream, parsed: Parsed, w: seq<Reply>, d: Reply)
    requires Pending(s, w, d) && Enabled(s, NewData(true, parsed)) && TakesDone(s, NewData(true, parsed))
    ensures Lost(NewDataStep(s, true, parsed), w)
  {
    assert s.queue == [Item([], d, true)];
    assert s.log.settled == [];
    assert |w + [d]| == |RepliesOf(s.log.asked)| == 1;
    assert w == [];
  }

  lemma {:induction false} TakenLater(s: Stream, ok: bool, w: seq<Reply>, d: Reply)
    requires Pending(s, w, d) && Enabled(s, FinishWrite(ok)) && TakesDone(s, FinishWrite(ok))
    ensures Lost(FinishWriteStep(s, ok), w)
  {
    assert s.queue == [Item([], d, true)];
    var r := s.current.reply;
    var xs := SettledReplies(s.log.settled);
    assert RepliesOf(s.queue) == [d];
    assert w + [d] == xs + [r] + [d];
    assert w == xs + [r] by { SameFront(w, xs + [r], d); }
    hide SettledReplies, RepliesOf;
    SettledConcat(s.log.settled, [Settlement(r, ok)]);
    SettledOne(r, ok);
    assert w + [] + [] == w;
  }

  lemma {:induction false} SameFront(a: seq<Reply>, b: seq<Reply>, d: Reply)
    requires a + [d] == b + [d]
    ensures a == b
  {
    assert a == (a + [d])[..|a|] && b == (b + [d])[..|b|];
  }

  lemma {:induction false} PendingStep(s: Stream, ev: Event, w: seq<Reply>, d: Reply)
    requires Pending(s, w, d) && Enabled(s, ev) && !IsRequest(ev)
    ensures Pending(Step(s, ev), w, d) || Lost(Step(s, ev), w)
  {
    if s.log.flushed {
      PendingFlushed(s, ev, w, d);
    } else if CleanStep(s, ev) {
      PendingClean(s, ev, w, d);
    } else {
      hide Pending, Lost;
      match ev
      case NewData(ok, parsed) => TakenFirst(s, parsed, w, d);
      case FinishWrite(ok) => TakenLater(s, ok, w, d);
      case _ =>
    }
  }

  lemma {:induction false} PendingRun(s: Stream, evs: seq<Event>, w: seq<Reply>, d: Reply)
    requires Pending(s, w, d) && IsRun(s, evs) && AskedBy(evs) == []
    ensures Pending(After(s, evs), w, d) || Lost(After(s, evs), w)
    decreases |evs|
  {
    hide Step, Enabled, Pending, Lost;
    if evs != [] {
      PendingStep(s, evs[0], w, d);
      if Pending(Step(s, evs[0]), w, d) {
        PendingRun(Step(s, evs[0]), evs[1..], w, d);
      } else {
        LostRun(Step(s, evs[0]), evs[1..], w);
      }
    }
  }

  // ------------------------------------------------------------------ the call

  lemma {:induction false} IdleCall(u: Stream, d: Reply)
    requires Shape(u) && Accepted(u) && Plain(u) && Enabled(u, WriteDone(d)) && !u.inProcess
    ensures DoneAtOnce(WriteDoneStep(u, d), RepliesOf(u.log.asked), d)
  {
    hide SettledReplies, RepliesOf;
    NoReplies();
    assert SettledReplies(u.log.settled) + [] + [] == SettledReplies(u.log.settled);
    assert RepliesOf(u.log.asked) + [] == RepliesOf(u.log.asked);
  }

  lemma {:induction false} BusyCall(u: Stream, d: Reply)
    requires Shape(u) && Accepted(u) && Plain(u) && Ordered(u) && NoneDone(u.log.asked)
    requires Enabled(u, WriteDone(d)) && u.inProcess
    ensures Pending(Step(u, WriteDone(d)), RepliesOf(u.log.asked), d)
  {
    KeptByRequest(u, WriteDone(d));
    RepliesAppend(u.log.asked, Item([], d, true));
    assert WritesDone !in u.log.issued by { NothingDoneYet(u); }
    hide Accepted, RepliesOf, Ordered;
  }

  lemma {:induction false} NothingDoneYet(u: Stream)
    requires Ordered(u) && NoneDone(u.log.asked)
    ensures WritesDone !in u.log.issued
  {
    assert u.log.issued <= Calls(u.log.asked);
    forall i | 0 <= i < |u.log.issued| ensures u.log.issued[i] != WritesDone {
      assert u.log.issued[i] == CallOf(u.log.asked[i]);
    }
  }

  lemma {:induction false} OnlyWritesAsked(evs: seq<Event>)
    requires NoWriteDone(evs)
    ensures NoneDone(AskedBy(evs))
    decreases |evs|
  {
    if evs != [] {
      OnlyWritesAsked(evs[1..]);
    }
  }

  /** The state of a run without writeDone. */
  lemma {:induction false} BeforeDone(before: seq<Event>)
    requires IsRun(STARTED, before) && NoWriteDone(before)
    ensures
      var u := After(STARTED, before);
      Shape(u) && Accepted(u) && Plain(u) && Ordered(u) && u.log.asked == AskedBy(before) && NoneDone(u.log.asked)
  {
    hide IsRun, After, Shape, Accepted, NoneDone, Clean;
    StartedKept();
    assert Plain(STARTED) && Ordered(STARTED) by { StartedPlain(); }
    hide Plain, Ordered;
    NoWriteDoneIsClean(STARTED, before);
    KeptByRun(STARTED, before);
    OrderedRun(STARTED, before);
    AskedInRun(STARTED, before);
    assert STARTED.log.asked + AskedBy(before) == AskedBy(before);
    OnlyWritesAsked(before);
  }

  lemma {:induction false} StartedPlain()
    ensures Plain(STARTED) && Ordered(STARTED)
  {
  }

  /**
   A writeDone that is the last request. Made when no write is in process, all replies are
   settled in order, each once, its own by its own tag. Made while one is, then once
   WritesDone is issued its own reply is not settled in any continuation, and the last
   reply before it is settled again by the tag of WritesDone, and by a finishRead before
   that; until then the replies are accounted for as without it.
   */
  lemma {:induction false} SettledWithWriteDone(before: seq<Event>, d: Reply, after: seq<Event>)
    requires IsRun(STARTED, before) && NoWriteDone(before)
    requires
      var u := After(STARTED, before);
      Enabled(u, WriteDone(d)) && IsRun(Step(u, WriteDone(d)), after) && AskedBy(after) == []
    ensures
      var u := After(STARTED, before);
      var w := RepliesOf(AskedBy(before));
      var t := After(Step(u, WriteDone(d)), after);
      var settled := SettledReplies(t.log.settled);
      if !u.inProcess then settled == w + (if t.tags.finishWrite == 0 then [d] else [])
      else if WritesDone in t.log.issued then
        settled == LostReplies(t, w) && (t.log.flushed ==> t.log.cutOff == Nobody || t.log.cutOff == LastOf(w))
      else Accepted(t) && RepliesOf(t.log.asked) == w + [d]
  {
    BeforeDone(before);
    hide IsRun, After, RepliesOf, WriteDoneStep, Shape, Accepted, Ordered, NoneDone, Enabled, Plain, SettledReplies;
    var u := After(STARTED, before);
    var v := Step(u, WriteDone(d));
    if !u.inProcess {
      IdleCall(u, d);
      DoneAtOnceRun(v, after, RepliesOf(u.log.asked), d);
    } else {
      BusyCall(u, d);
      PendingRun(v, after, RepliesOf(u.log.asked), d);
    }
  }

  /** So the reply of writeDone is settled by the tag of WritesDone if and only if the stream was idle. */
  lemma {:induction false} WriteDoneSettledIff(before: seq<Event>, d: Reply, after: seq<Event>)
    requires IsRun(STARTED, before) && NoWriteDone(before) && d !in RepliesOf(AskedBy(before))
    requires
      var u := After(STARTED, before);
      Enabled(u, WriteDone(d)) && IsRun(Step(u, WriteDone(d)), after) && AskedBy(after) == []
    ensures
      var u := After(STARTED, before);
      var t := After(Step(u, WriteDone(d)), after);
      WritesDone in t.log.issued && t.tags.finishWrite == 0 ==>
        (d in SettledReplies(t.log.settled) <==> !u.inProcess)
  {
    hide IsRun, After, RepliesOf, Step, Enabled, SettledReplies;
    SettledWithWriteDone(before, d, after);
    var u, w := After(STARTED, before), RepliesOf(AskedBy(before));
    var t := After(Step(u, WriteDone(d)), after);
    if WritesDone in t.log.issued && t.tags.finishWrite == 0 {
      if u.inProcess {
        assert forall r :: r in LostReplies(t, w) ==> r in w;
      } else {
        assert (w + [d])[|w|] == d;
      }
    }
  }

  // ------------------------------------------------- a reply that does not exist

  /** The first request of the run is a writeDone, made while the stream is in process. */
  predicate DoneFirst(s: Stream, evs: seq<Event>)
    requires IsRun(s, evs)
    decreases |evs|
  {
    && evs != []
    && if IsRequest(evs[0]) then evs[0].WriteDone? && s.inProcess else DoneFirst(Step(s, evs[0]), evs[1..])
  }

  predicate SomeFinishWrite(evs: seq<Event>)
  {
    exists i :: 0 <= i < |evs| && evs[i].FinishWrite?
  }

  /** Nothing was asked for yet. */
  ghost predicate Untouched(s: Stream)
  {
    s.queue == [] && s.current == Nobody && s.tags.finishWrite == 0 && !s.log.nullReply
  }

  /** There is a current reply whenever a write is outstanding, now and later. */
  ghost predicate Safe(s: Stream)
  {
    && !s.log.nullReply
    && (s.current.Waiting? ||
        (s.tags.finishWrite == 0 && if s.queue == [] then !s.connected else !s.queue[0].done))
  }

  /** The first call given to the writer is, or will be, a WritesDone without a current reply. */
  ghost predicate Doomed(s: Stream)
  {
    && !s.log.nullReply && s.current == Nobody
    && if s.tags.finishWrite == 0
       then (if s.queue == [] then !s.connected else s.inProcess && s.queue[0].done)
       else s.inProcess && s.reader != FirstCall
  }

  lemma {:induction false} UntouchedStep(s: Stream, ev: Event)
    requires Untouched(s) && Enabled(s, ev)
    ensures
      var t := Step(s, ev);
      && !ev.FinishWrite?
      && if !IsRequest(ev) then Untouched(t) else if ev.WriteDone? && s.inProcess then Doomed(t) else Safe(t)
  {
    FailuresOfNone();
  }

  lemma {:induction false} SafeDequeue(s: Stream)
    requires Safe(s)
    ensures Safe(DequeueWrite(s))
  {
  }

  lemma {:induction false} SafeFrame(s: Stream, t: Stream)
    requires Safe(s)
    requires t.current == s.current && t.queue == s.queue && t.log.nullReply == s.log.nullReply
    requires t.tags.finishWrite == s.tags.finishWrite && (t.connected ==> s.connected)
    ensures Safe(t)
  {
  }

  lemma {:induction false} SafeStep(s: Stream, ev: Event)
    requires Safe(s) && Enabled(s, ev)
    ensures Safe(Step(s, ev))
  {
    match ev
    case NewData(ok, parsed) =>
      hide Safe, DequeueWrite;
      SafeFrame(s, NewDataTaken(s));
      SafeDequeue(NewDataTaken(s));
      SafeFrame(if ok && s.reader == FirstCall then DequeueWrite(NewDataTaken(s)) else s, Step(s, ev));
    case FinishWrite(ok) =>
      hide DequeueWrite;
      SafeDequeue(Deref(Settle(FinishWriteTaken(s), ok)));
    case _ =>
  }

  lemma {:induction false} DoomedStep(s: Stream, ev: Event)
    requires Doomed(s) && Enabled(s, ev)
    ensures if ev.FinishWrite? then Step(s, ev).log.nullReply else Doomed(Step(s, ev))
  {
    match ev
    case FinishWrite(ok) =>
      hide DequeueWrite;
      NullStays(Deref(Settle(FinishWriteTaken(s), ok)));
    case _ =>
  }

  lemma {:induction false} NullStays(s: Stream)
    ensures DequeueWrite(s).log.nullReply == s.log.nullReply
  {
  }

  lemma {:induction false} NullKept(s: Stream, ev: Event)
    requires Enabled(s, ev) && s.log.nullReply
    ensures Step(s, ev).log.nullReply
  {
    hide DequeueWrite;
    match ev
    case NewData(_, _) => NullStays(NewDataTaken(s));
    case FinishWrite(ok) => NullStays(Deref(Settle(FinishWriteTaken(s), ok)));
    case _ =>
  }

  lemma {:induction false} NullRun(s: Stream, evs: seq<Event>)
    requires IsRun(s, evs) && s.log.nullReply
    ensures After(s, evs).log.nullReply
    decreases |evs|
  {
    hide Step, Enabled;
    if evs != [] {
      NullKept(s, evs[0]);
      NullRun(Step(s, evs[0]), evs[1..]);
    }
  }

  lemma {:induction false} SafeRun(s: Stream, evs: seq<Event>)
    requires IsRun(s, evs) && Safe(s)
    ensures Safe(After(s, evs))
    decreases |evs|
  {
    hide Step, Enabled, Safe;
    if evs != [] {
      SafeStep(s, evs[0]);
      SafeRun(Step(s, evs[0]), evs[1..]);
    }
  }

  lemma {:induction false} SomeFinishWriteIn(evs: seq<Event>)
    requires evs != []
    ensures SomeFinishWrite(evs) <==> evs[0].FinishWrite? || SomeFinishWrite(evs[1..])
  {
    var tail := evs[1..];
    assert forall i :: 0 <= i < |tail| ==> tail[i] == evs[i + 1];
    if i :| 0 <= i < |evs| && evs[i].FinishWrite? {
      if i > 0 { assert tail[i - 1].FinishWrite?; }
    }
  }

  lemma {:induction false} DoomedRun(s: Stream, evs: seq<Event>)
    requires IsRun(s, evs) && Doomed(s)
    ensures After(s, evs).log.nullReply <==> SomeFinishWrite(evs)
    decreases |evs|
  {
    hide Step, Enabled;
    if evs != [] {
      DoomedStep(s, evs[0]);
      SomeFinishWriteIn(evs);
      hide Doomed, SomeFinishWrite;
      if evs[0].FinishWrite? {
        NullRun(Step(s, evs[0]), evs[1..]);
      } else {
        DoomedRun(Step(s, evs[0]), evs[1..]);
      }
    }
  }

  lemma {:induction false} NullReplyFrom(s: Stream, evs: seq<Event>)
    requires IsRun(s, evs) && Untouched(s)
    ensures After(s, evs).log.nullReply <==> DoneFirst(s, evs) && SomeFinishWrite(evs)
    decreases |evs|
  {
    hide Step, Enabled, SomeFinishWrite, Doomed;
    if evs != [] {
      UntouchedStep(s, evs[0]);
      SomeFinishWriteIn(evs);
      var t := Step(s, evs[0]);
      if !IsRequest(evs[0]) {
        NullReplyFrom(t, evs[1..]);
      } else if evs[0].WriteDone? && s.inProcess {
        DoomedRun(t, evs[1..]);
      } else {
        SafeRun(t, evs[1..]);
      }
    }
  }

  /**
   Of all runs, finishWrite uses a reply that does not exist in exactly those whose first
   request is a writeDone made while the stream is in process, and in which some write
   tag comes back.
   */
  lemma {:induction false} NullReplyIff(evs: seq<Event>)
    requires IsRun(STARTED, evs)
    ensures After(STARTED, evs).log.nullReply <==> DoneFirst(STARTED, evs) && SomeFinishWrite(evs)
  {
    hide IsRun, After, DoneFirst, SomeFinishWrite;
    NullReplyFrom(STARTED, evs);
  }
}
