/**
 The bidirectional stream reads like a server stream, whatever is written meanwhile.
 */
module StreamReading {
  import opened CallReader
  import opened BidirectStream
  import GrpcCalls

  /** The stream without its writes. */
  function ReadSide(s: Stream): GrpcCalls.Call
  {
    GrpcCalls.Call(GrpcCalls.ServerStream, s.reader, s.refCount, [], s.tags.newData, s.tags.finishRead,
                   s.held, s.connected, s.destroyed, s.log.dataReady, 0)
  }

  /** The read tags of a run that came back, in order. */
  function ReadsOf(evs: seq<Event>): (r: seq<GrpcCalls.Event>)
    ensures forall i :: 0 <= i < |r| ==> r[i].NewData?
  {
    if evs == [] then []
    else
      (if evs[0].NewData? then [GrpcCalls.NewData(evs[0].ok, evs[0].parsed)] else []) + ReadsOf(evs[1..])
  }

  lemma {:induction false} DequeueReads(s: Stream)
    ensures
      var t := DequeueWrite(s);
      t.reader == s.reader && t.tags.newData == s.tags.newData && t.log.dataReady == s.log.dataReady
  {
  }

  /** What reading depends on. */
  ghost predicate SameReads(c: GrpcCalls.Call, d: GrpcCalls.Call)
  {
    c.kind == d.kind && c.reader == d.reader && c.newDataTags == d.newDataTags && c.dataReady == d.dataReady
  }

  lemma {:induction false} NewDataReads(s: Stream, ok: bool, parsed: Parsed)
    requires s.tags.newData > 0
    ensures SameReads(ReadSide(NewDataStep(s, ok, parsed)), GrpcCalls.NewDataStep(ReadSide(s), ok, parsed))
  {
    hide DequeueWrite;
    DequeueReads(NewDataTaken(s));
  }

  lemma {:induction false} OtherReads(s: Stream, ev: Event)
    requires Enabled(s, ev) && !ev.NewData?
    ensures SameReads(ReadSide(Step(s, ev)), ReadSide(s))
  {
    hide DequeueWrite, Failures;
    match ev
    case FinishWrite(ok) => DequeueReads(Deref(Settle(FinishWriteTaken(s), ok)));
    case _ =>
  }

  lemma {:induction false} ReadsFrame(c: GrpcCalls.Call, d: GrpcCalls.Call, back: seq<GrpcCalls.Event>)
    requires forall i :: 0 <= i < |back| ==> back[i].NewData?
    requires SameReads(c, d) && GrpcCalls.StreamReads(c, back)
    ensures GrpcCalls.StreamReads(d, back)
  {
  }

  lemma {:induction false} ReadsStep(s: Stream, ev: Event, back: seq<GrpcCalls.Event>)
    requires forall i :: 0 <= i < |back| ==> back[i].NewData?
    requires Enabled(s, ev) && GrpcCalls.StreamReads(ReadSide(s), back)
    ensures GrpcCalls.StreamReads(
              ReadSide(Step(s, ev)),
              if ev.NewData? then back + [GrpcCalls.NewData(ev.ok, ev.parsed)] else back)
  {
    hide GrpcCalls.StreamReads, NewDataStep, GrpcCalls.NewDataStep;
    if ev.NewData? {
      var c, e := ReadSide(s), GrpcCalls.NewData(ev.ok, ev.parsed);
      GrpcCalls.StreamReadsNewData(c, back, e);
      NewDataReads(s, ev.ok, ev.parsed);
      ReadsFrame(GrpcCalls.NewDataStep(c, e.ok, e.parsed), ReadSide(Step(s, ev)), back + [e]);
    } else {
      OtherReads(s, ev);
      ReadsFrame(ReadSide(s), ReadSide(Step(s, ev)), back);
    }
  }

  lemma {:induction false} ReadsRun(s: Stream, evs: seq<Event>, back: seq<GrpcCalls.Event>)
    requires forall i :: 0 <= i < |back| ==> back[i].NewData?
    requires IsRun(s, evs) && GrpcCalls.StreamReads(ReadSide(s), back)
    ensures GrpcCalls.StreamReads(ReadSide(After(s, evs)), back + ReadsOf(evs))
    decreases |evs|
  {
    hide Step, Enabled, GrpcCalls.StreamReads;
    if evs == [] {
      assert back + ReadsOf(evs) == back;
    } else {
      var ev := evs[0];
      var next := if ev.NewData? then back + [GrpcCalls.NewData(ev.ok, ev.parsed)] else back;
      ReadsStep(s, ev, back);
      ReadsRun(Step(s, ev), evs[1..], next);
      assert next + ReadsOf(evs[1..]) == back + ReadsOf(evs);
    }
  }

  /**
   In every run, the bidirectional stream reports exactly the messages it read, in order.
   The first tag that fails, or whose buffer cannot be parsed, is the last one that comes
   back, and until then exactly one read is outstanding.
   */
  lemma {:induction false} BidirectDeliversInOrder(evs: seq<Event>)
    requires IsRun(STARTED, evs)
    ensures
      var t := After(STARTED, evs);
      var back := ReadsOf(evs);
      && t.log.dataReady == (if back == [] then [] else GrpcCalls.Messages(back[1..]))
      && (forall i :: 0 <= i < |back| - 1 ==> GrpcCalls.Good(back[i], i))
      && t.tags.newData == if GrpcCalls.AllGood(back) then 1 else 0
  {
    hide IsRun, After, GrpcCalls.Messages;
    assert GrpcCalls.StreamReads(ReadSide(STARTED), []);
    ReadsRun(STARTED, evs, []);
    var back := ReadsOf(evs);
    assert [] + back == back;
    if back != [] {
      var front := back[..|back| - 1];
      assert forall i :: 0 <= i < |front| ==> front[i] == back[i];
    }
  }
}
