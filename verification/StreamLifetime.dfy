/**
 Reference counting of the bidirectional stream: what the count is in every reachable
 state, and in which runs the object is destroyed safely.
 */
module StreamLifetime {
  import opened CallReader
  import opened BidirectStream

  function Held(s: Stream): nat { if s.held then 1 else 0 }

  function DoneCalls(items: seq<Item>): nat
  {
    if items == [] then 0 else DoneCalls(items[..|items| - 1]) + if items[|items| - 1].done then 1 else 0
  }

  /** The number of references that are accounted for. */
  function Accounted(s: Stream): int
  {
    s.tags.Total() + Held(s) - DoneCalls(s.log.asked)
  }

  ghost predicate Counted(s: Stream)
  {
    s.refCount == Accounted(s) && s.refCount >= 0 && s.destroyed == if s.refCount == 0 then 1 else 0
  }

  /** One reference is due to be dropped. */
  ghost predicate Due(s: Stream)
  {
    s.refCount == Accounted(s) + 1 && s.refCount >= 1 && s.destroyed == 0
  }

  lemma {:induction false} DerefCounts(s: Stream)
    requires Due(s)
    ensures Counted(Deref(s))
  {
  }

  lemma {:induction false} AskCounts(s: Stream, d: Item)
    ensures Accounted(Ask(s, d)) == Accounted(s) - if d.done then 1 else 0
  {
    assert (s.log.asked + [d])[..|s.log.asked|] == s.log.asked;
  }

  lemma {:induction false} DequeueCounts(s: Stream)
    ensures
      var t := DequeueWrite(s);
      && t.refCount - Accounted(t) == s.refCount - Accounted(s)
      && t.refCount >= s.refCount && t.destroyed == s.destroyed
      && t.log.asked == s.log.asked && t.held == s.held
  {
    hide DoneCalls;
  }

  lemma {:induction false} CountedAppend(s: Stream, data: Wire.Bytes, reply: Reply)
    requires Counted(s) && s.destroyed == 0
    ensures Counted(AppendStep(s, data, reply))
  {
    hide DoneCalls;
    AskCounts(s, Item(data, reply, false));
  }

  lemma {:induction false} CountedWriteDone(s: Stream, reply: Reply)
    requires Counted(s) && s.destroyed == 0
    ensures Counted(WriteDoneStep(s, reply))
  {
    hide DoneCalls;
    AskCounts(s, Item([], reply, true));
  }

  lemma {:induction false} CountedNewData(s: Stream, ok: bool, parsed: Parsed)
    requires Counted(s) && s.destroyed == 0 && s.tags.newData > 0
    ensures Counted(NewDataStep(s, ok, parsed))
  {
    hide DoneCalls, DequeueWrite, Deref;
    var taken := NewDataTaken(s);
    assert Due(taken);
    if ok && s.reader == FirstCall {
      DequeueCounts(taken);
      DerefCounts(Read(DequeueWrite(taken)).(reader := Processing));
    } else if ok && s.reader == Processing && parsed.Message? {
      DerefCounts(Read(Report(taken, parsed.data)));
    } else {
      DerefCounts(if ok && s.reader == Ended then taken else taken.(reader := Ended));
    }
  }

  lemma {:induction false} CountedFinishRead(s: Stream)
    requires Counted(s) && s.destroyed == 0 && s.tags.finishRead > 0
    ensures Counted(FinishReadStep(s))
  {
    hide DoneCalls;
  }

  lemma {:induction false} CountedFinishWrite(s: Stream, ok: bool)
    requires Counted(s) && s.destroyed == 0 && s.tags.finishWrite > 0
    ensures Counted(FinishWriteStep(s, ok))
  {
    hide DoneCalls, DequeueWrite;
    DequeueCounts(Deref(Settle(FinishWriteTaken(s), ok)));
  }

  lemma {:induction false} CountedStep(s: Stream, ev: Event)
    requires Counted(s) && Enabled(s, ev)
    ensures Counted(Step(s, ev))
  {
    hide DoneCalls, AppendStep, WriteDoneStep, NewDataStep, FinishReadStep, FinishWriteStep;
    match ev
    case AppendToSend(data, reply) => CountedAppend(s, data, reply);
    case WriteDone(reply) => CountedWriteDone(s, reply);
    case NewData(ok, parsed) => CountedNewData(s, ok, parsed);
    case FinishRead => CountedFinishRead(s);
    case FinishWrite(ok) => CountedFinishWrite(s, ok);
    case Disconnect =>
    case ReleasePointer =>
  }

  lemma {:induction false} CountedRun(s: Stream, evs: seq<Event>)
    requires Counted(s) && IsRun(s, evs)
    ensures Counted(After(s, evs))
    decreases |evs|
  {
    hide Step, Counted, Enabled;
    if evs != [] {
      CountedStep(s, evs[0]);
      CountedRun(Step(s, evs[0]), evs[1..]);
    }
  }

  lemma {:induction false} AskedStep(s: Stream, ev: Event)
    requires Enabled(s, ev)
    ensures Step(s, ev).log.asked == s.log.asked + AskedBy([ev])
  {
    hide DequeueWrite;
    var none: seq<Event> := [];
    assert [ev][1..] == none;
    match ev
    case NewData(_, _) => DequeueCounts(NewDataTaken(s));
    case FinishWrite(ok) => DequeueCounts(Deref(Settle(FinishWriteTaken(s), ok)));
    case _ =>
  }

  /** The log of requests is what the events of the run ask for. */
  lemma {:induction false} AskedInRun(s: Stream, evs: seq<Event>)
    requires IsRun(s, evs)
    ensures After(s, evs).log.asked == s.log.asked + AskedBy(evs)
    decreases |evs|
  {
    hide Step, Enabled;
    if evs != [] {
      var none: seq<Event> := [];
      assert [evs[0]][1..] == none;
      AskedStep(s, evs[0]);
      AskedInRun(Step(s, evs[0]), evs[1..]);
    }
  }

  /**
   In every run, the count is the number of outstanding tags, plus one while shared
   pointers exist, minus the number of calls of writeDone. So the object is destroyed
   at most once, at the moment the two balance.
   */
  lemma {:induction false} ReferencesBalance(evs: seq<Event>)
    requires IsRun(STARTED, evs)
    ensures
      var t := After(STARTED, evs);
      && t.refCount == t.tags.Total() + Held(t) - DoneCalls(AskedBy(evs))
      && t.destroyed <= 1
      && (t.destroyed == 1 <==> t.tags.Total() + Held(t) == DoneCalls(AskedBy(evs)))
  {
    hide IsRun, After;
    assert Counted(STARTED);
    CountedRun(STARTED, evs);
    AskedInRun(STARTED, evs);
    assert STARTED.log.asked + AskedBy(evs) == AskedBy(evs);
  }

  /**
   Of the runs that destroy the object, exactly those without writeDone do it with no
   tag outstanding and no shared pointer left.
   */
  lemma {:induction false} DestroyedSafelyIff(evs: seq<Event>)
    requires IsRun(STARTED, evs) && After(STARTED, evs).destroyed > 0
    ensures
      var t := After(STARTED, evs);
      (t.tags.Total() == 0 && !t.held) <==> DoneCalls(AskedBy(evs)) == 0
  {
    hide IsRun, After;
    ReferencesBalance(evs);
  }

  /** Without writeDone the object lives exactly as long as a tag is outstanding or
      a pointer exists, so it is destroyed once nothing more can happen. */
  lemma {:induction false} LifetimeWithoutWriteDone(evs: seq<Event>)
    requires IsRun(STARTED, evs) && DoneCalls(AskedBy(evs)) == 0
    ensures
      var t := After(STARTED, evs);
      && t.destroyed == (if t.tags.Total() == 0 && !t.held then 1 else 0)
      && ((forall ev :: !Enabled(t, ev)) <==> t.destroyed == 1)
  {
    hide IsRun, After;
    ReferencesBalance(evs);
    var t := After(STARTED, evs);
    if t.destroyed == 0 {
      assert Enabled(t, NewData(true, Malformed)) || Enabled(t, FinishRead) || Enabled(t, FinishWrite(true))
          || Enabled(t, Disconnect) || Enabled(t, ReleasePointer);
    }
  }

  /** With writeDone the object can go while a tag is outstanding that refers to it. */
  lemma {:induction false} WriteDoneDestroysEarly() returns (evs: seq<Event>)
    ensures IsRun(STARTED, evs)
    ensures After(STARTED, evs).destroyed == 1 && After(STARTED, evs).tags.Total() == 1
  {
    evs := [WriteDone(0), Disconnect, ReleasePointer, NewData(false, Malformed)];
    var e1 := evs[1..];
    var e2 := e1[1..];
    var e3 := e2[1..];
    assert e3 == [NewData(false, Malformed)];
  }

  // ------------------------------------------------------------ the surroundings

  function Count(evs: seq<Event>, p: Event -> bool): nat
  {
    if evs == [] then 0 else (if p(evs[0]) then 1 else 0) + Count(evs[1..], p)
  }

  predicate IsFinishWrite(ev: Event) { ev.FinishWrite? }

  predicate IsFinishRead(ev: Event) { ev.FinishRead? }

  predicate IsRelease(ev: Event) { ev.ReleasePointer? }

  predicate Disconnects(ev: Event) { ev.Disconnect? || ev.FinishRead? }

  /** One event changes the surroundings from those of `s` to those of `t`. */
  ghost predicate Booked(s: Stream, t: Stream, ev: Event)
  {
    && t.held == (s.held && !IsRelease(ev)) && t.connected == (s.connected && !Disconnects(ev))
    && t.tags.finishRead == s.tags.finishRead - (if IsFinishRead(ev) then 1 else 0)
    && |t.log.issued| - t.tags.finishWrite == |s.log.issued| - s.tags.finishWrite + if IsFinishWrite(ev) then 1 else 0
  }

  lemma {:induction false} LedgerNewData(s: Stream, ev: Event)
    requires Enabled(s, ev) && ev.NewData?
    ensures Booked(s, NewDataStep(s, ev.ok, ev.parsed), ev)
  {
    hide DequeueWrite;
    LedgerDequeue(NewDataTaken(s));
  }

  lemma {:induction false} LedgerFinishWrite(s: Stream, ev: Event)
    requires Enabled(s, ev) && ev.FinishWrite?
    ensures Booked(s, FinishWriteStep(s, ev.ok), ev)
  {
    hide DequeueWrite;
    LedgerDequeue(Deref(Settle(FinishWriteTaken(s), ev.ok)));
  }

  lemma {:induction false} LedgerRequest(s: Stream, ev: Event)
    requires Enabled(s, ev) && (ev.AppendToSend? || ev.WriteDone?)
    ensures Booked(s, Step(s, ev), ev)
  {
  }

  lemma {:induction false} LedgerStep(s: Stream, ev: Event)
    requires Enabled(s, ev)
    ensures Booked(s, Step(s, ev), ev)
  {
    hide NewDataStep, FinishWriteStep, AppendStep, WriteDoneStep, Failures;
    match ev
    case NewData(_, _) => LedgerNewData(s, ev);
    case FinishWrite(_) => LedgerFinishWrite(s, ev);
    case AppendToSend(_, _) => LedgerRequest(s, ev);
    case WriteDone(_) => LedgerRequest(s, ev);
    case _ =>
  }

  lemma {:induction false} LedgerDequeue(s: Stream)
    ensures
      var t := DequeueWrite(s);
      && t.held == s.held && t.connected == s.connected && t.tags.finishRead == s.tags.finishRead
      && |t.log.issued| - t.tags.finishWrite == |s.log.issued| - s.tags.finishWrite
  {
  }

  lemma {:induction false} LedgerRun(s: Stream, evs: seq<Event>)
    requires IsRun(s, evs)
    ensures
      var t := After(s, evs);
      && t.held == (s.held && Count(evs, IsRelease) == 0)
      && t.connected == (s.connected && Count(evs, Disconnects) == 0)
      && t.tags.finishRead == s.tags.finishRead - Count(evs, IsFinishRead)
      && |t.log.issued| - t.tags.finishWrite == |s.log.issued| - s.tags.finishWrite + Count(evs, IsFinishWrite)
    decreases |evs|
  {
    hide Step, Enabled;
    if evs != [] {
      LedgerStep(s, evs[0]);
      LedgerRun(Step(s, evs[0]), evs[1..]);
    }
  }

  /**
   The tags follow what happens: every call given to the writer has its tag outstanding or
   handed back, finishRead's tag is handed back once at most, and pointers and connections
   last until the event that ends them.
   */
  lemma {:induction false} TagsFollowCalls(evs: seq<Event>)
    requires IsRun(STARTED, evs)
    ensures
      var t := After(STARTED, evs);
      && |t.log.issued| == t.tags.finishWrite + Count(evs, IsFinishWrite)
      && t.tags.finishRead + Count(evs, IsFinishRead) == 1
      && (t.held <==> Count(evs, IsRelease) == 0)
      && (t.connected <==> Count(evs, Disconnects) == 0)
  {
    hide IsRun, After;
    LedgerRun(STARTED, evs);
  }
}
