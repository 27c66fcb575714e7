/**
 QGrpcChannelStream (server streams) and QGrpcChannelCall (asynchronous unary calls):
 objects that read with one kind of completion tag and finish with another. Outstanding
 tags come back in any order; each counts one reference, and one more reference stands
 for all shared pointers together.
 */
module GrpcCalls {
  import opened Wire
  import opened CallReader

  datatype Kind = ServerStream | UnaryCall

  /**
   The fields of the object; its surroundings (outstanding tags, whether shared pointers
   exist and signals are connected, how often it was destroyed); and what it did: data
   signals, finished signals.
   */
  datatype Call = Call(
    kind: Kind,
    reader: ReaderState,
    refCount: int,
    response: Bytes,
    newDataTags: nat,
    finishReadTags: nat,
    held: bool,
    connected: bool,
    destroyed: nat,
    dataReady: seq<Bytes>,
    finished: nat)

  function Started(kind: Kind): Call
  {
    Call(kind, FirstCall, 3, [], 1, 1, true, true, 0, [], 0)
  }

  datatype Event =
    | NewData(ok: bool, parsed: Parsed)
    | FinishRead
    | Disconnect
    | ReleasePointer

  function Deref(c: Call): Call
  {
    c.(refCount := c.refCount - 1, destroyed := if c.refCount == 1 then c.destroyed + 1 else c.destroyed)
  }

  function Read(c: Call): Call
  {
    c.(refCount := c.refCount + 1, newDataTags := c.newDataTags + 1)
  }

  /** QGrpcChannelStream::newData: a failed tag or buffer ends reading, else it reads on. */
  function StreamData(c: Call, ok: bool, parsed: Parsed): Call
  {
    if !ok then c.(reader := Ended)
    else
      match c.reader
      case FirstCall => Read(c).(reader := Processing)
      case Processing =>
        if parsed.Message? then Read(c.(dataReady := c.dataReady + [parsed.data])) else c.(reader := Ended)
      case Ended => c
  }

  /** QGrpcChannelCall::newData: a failed tag is ignored, and one response is read. */
  function CallData(c: Call, ok: bool, parsed: Parsed): Call
  {
    if !ok then c
    else
      match c.reader
      case FirstCall => Read(c).(reader := Processing)
      case Processing => c.(reader := Ended, response := if parsed.Message? then parsed.data else c.response)
      case Ended => c
  }

  function NewDataStep(c: Call, ok: bool, parsed: Parsed): Call
    requires c.newDataTags > 0
  {
    var c' := c.(newDataTags := c.newDataTags - 1);
    Deref(match c.kind
          case ServerStream => StreamData(c', ok, parsed)
          case UnaryCall => CallData(c', ok, parsed))
  }

  /** finished is emitted, and its receiver disconnects everything. */
  function FinishReadStep(c: Call): Call
    requires c.finishReadTags > 0
  {
    Deref(c.(finishReadTags := c.finishReadTags - 1, finished := c.finished + 1, connected := false))
  }

  predicate Enabled(c: Call, ev: Event)
  {
    c.destroyed == 0 &&
    match ev
    case NewData(_, _) => c.newDataTags > 0
    case FinishRead => c.finishReadTags > 0
    case Disconnect => c.connected
    case ReleasePointer => c.held && !c.connected
  }

  function Step(c: Call, ev: Event): Call
    requires Enabled(c, ev)
  {
    match ev
    case NewData(ok, parsed) => NewDataStep(c, ok, parsed)
    case FinishRead => FinishReadStep(c)
    case Disconnect => c.(connected := false)
    case ReleasePointer => Deref(c.(held := false))
  }

  predicate IsRun(c: Call, evs: seq<Event>)
    decreases |evs|
  {
    evs == [] || (Enabled(c, evs[0]) && IsRun(Step(c, evs[0]), evs[1..]))
  }

  function After(c: Call, evs: seq<Event>): Call
    requires IsRun(c, evs)
    decreases |evs|
  {
    if evs == [] then c else After(Step(c, evs[0]), evs[1..])
  }

  // ------------------------------------------------------------- lifetime

  function Held(c: Call): nat { if c.held then 1 else 0 }

  ghost predicate Counted(c: Call)
  {
    && c.refCount == c.newDataTags + c.finishReadTags + Held(c)
    && c.destroyed == (if c.refCount == 0 then 1 else 0)
    && c.newDataTags <= 1
    && c.finished + c.finishReadTags == 1
  }

  lemma {:induction false} CountedStep(c: Call, ev: Event)
    requires Counted(c) && Enabled(c, ev)
    ensures Counted(Step(c, ev)) && Step(c, ev).kind == c.kind
  {
    match ev
    case NewData(ok, parsed) =>
    case _ =>
  }

  lemma {:induction false} CountedRun(c: Call, evs: seq<Event>)
    requires Counted(c) && IsRun(c, evs)
    ensures Counted(After(c, evs)) && After(c, evs).kind == c.kind
    decreases |evs|
  {
    hide Step, Enabled, Counted;
    if evs != [] {
      CountedStep(c, evs[0]);
      CountedRun(Step(c, evs[0]), evs[1..]);
    }
  }

  /**
   In every run the count is the number of outstanding tags plus one while shared
   pointers exist. The object is destroyed exactly once, exactly when neither is left,
   and it is destroyed whenever nothing more can happen. At most one read is outstanding
   and finished is emitted once, when its tag comes back.
   */
  lemma {:induction false} Lifetime(kind: Kind, evs: seq<Event>)
    requires IsRun(Started(kind), evs)
    ensures
      var t := After(Started(kind), evs);
      && t.refCount == t.newDataTags + t.finishReadTags + Held(t)
      && t.destroyed == (if t.newDataTags + t.finishReadTags == 0 && !t.held then 1 else 0)
      && t.newDataTags <= 1
      && t.finished == 1 - t.finishReadTags
      && ((forall ev :: !Enabled(t, ev)) <==> t.destroyed == 1)
  {
    hide IsRun, After;
    CountedRun(Started(kind), evs);
    var t := After(Started(kind), evs);
    if t.destroyed == 0 {
      assert Enabled(t, NewData(true, Malformed)) || Enabled(t, FinishRead)
          || Enabled(t, Disconnect) || Enabled(t, ReleasePointer);
    }
  }

  function Count(evs: seq<Event>, p: Event -> bool): nat
  {
    if evs == [] then 0 else (if p(evs[0]) then 1 else 0) + Count(evs[1..], p)
  }

  predicate IsFinishRead(ev: Event) { ev.FinishRead? }

  predicate IsRelease(ev: Event) { ev.ReleasePointer? }

  predicate Disconnects(ev: Event) { ev.Disconnect? || ev.FinishRead? }

  lemma {:induction false} LedgerStep(c: Call, ev: Event)
    requires Enabled(c, ev)
    ensures
      var t := Step(c, ev);
      && t.held == (c.held && !IsRelease(ev)) && t.connected == (c.connected && !Disconnects(ev))
      && t.finished == c.finished + if IsFinishRead(ev) then 1 else 0
  {
  }

  lemma {:induction false} LedgerRun(c: Call, evs: seq<Event>)
    requires IsRun(c, evs)
    ensures
      var t := After(c, evs);
      && t.held == (c.held && Count(evs, IsRelease) == 0)
      && t.connected == (c.connected && Count(evs, Disconnects) == 0)
      && t.finished == c.finished + Count(evs, IsFinishRead)
    decreases |evs|
  {
    hide Step, Enabled;
    if evs != [] {
      LedgerStep(c, evs[0]);
      LedgerRun(Step(c, evs[0]), evs[1..]);
    }
  }

  /** Pointers and connections last until the event that ends them; finished is emitted with its tag. */
  lemma {:induction false} SurroundingsFollow(kind: Kind, evs: seq<Event>)
    requires IsRun(Started(kind), evs)
    ensures
      var t := After(Started(kind), evs);
      && (t.held <==> Count(evs, IsRelease) == 0)
      && (t.connected <==> Count(evs, Disconnects) == 0)
      && t.finished == Count(evs, IsFinishRead)
  {
    hide IsRun, After;
    LedgerRun(Started(kind), evs);
  }

  // ------------------------------------------------------------- what is read

  /** The read tags of a run that came back, in order. */
  function Reads(evs: seq<Event>): (r: seq<Event>)
    ensures forall i :: 0 <= i < |r| ==> r[i].NewData?
  {
    if evs == [] then []
    else (if evs[0].NewData? then [evs[0]] else []) + Reads(evs[1..])
  }

  /** The messages among them. */
  function Messages(back: seq<Event>): seq<Bytes>
    requires forall i :: 0 <= i < |back| ==> back[i].NewData?
  {
    if back == [] then []
    else
      var last := back[|back| - 1];
      Messages(back[..|back| - 1]) + if last.ok && last.parsed.Message? then [last.parsed.data] else []
  }

  /** The k-th tag of a stream: the first one reports the start of the call, every other one a message. */
  predicate Good(ev: Event, k: nat)
  {
    ev.NewData? && ev.ok && (k > 0 ==> ev.parsed.Message?)
  }

  predicate AllGood(back: seq<Event>)
  {
    forall i :: 0 <= i < |back| ==> Good(back[i], i)
  }

  ghost predicate StreamReads(c: Call, back: seq<Event>)
    requires forall i :: 0 <= i < |back| ==> back[i].NewData?
  {
    && c.kind == ServerStream
    && c.newDataTags == (if c.reader == Ended then 0 else 1)
    && (c.reader == FirstCall <==> back == [])
    && (c.reader != Ended <==> AllGood(back))
    && (back != [] ==> AllGood(back[..|back| - 1]))
    && c.dataReady == if back == [] then [] else Messages(back[1..])
  }

  lemma {:induction false} MessagesAfter(back: seq<Event>, ev: Event)
    requires (forall i :: 0 <= i < |back| ==> back[i].NewData?) && ev.NewData?
    ensures
      Messages(back + [ev]) == Messages(back) + if ev.ok && ev.parsed.Message? then [ev.parsed.data] else []
  {
    assert (back + [ev])[..|back|] == back;
  }

  lemma {:induction false} NoMessages()
    ensures Messages([]) == []
  {
  }

  lemma {:induction false} AllGoodAfter(back: seq<Event>, ev: Event)
    ensures AllGood(back + [ev]) <==> AllGood(back) && Good(ev, |back|)
  {
    var next := back + [ev];
    assert next[|back|] == ev && forall i :: 0 <= i < |back| ==> next[i] == back[i];
  }

  lemma {:induction false} StreamReadsNewData(c: Call, back: seq<Event>, ev: Event)
    requires forall i :: 0 <= i < |back| ==> back[i].NewData?
    requires StreamReads(c, back) && ev.NewData? && c.newDataTags > 0
    ensures StreamReads(NewDataStep(c, ev.ok, ev.parsed), back + [ev])
  {
    hide Messages, AllGood;
    var next := back + [ev];
    assert next[..|next| - 1] == back;
    AllGoodAfter(back, ev);
    NoMessages();
    if back != [] {
      assert next[1..] == back[1..] + [ev];
      MessagesAfter(back[1..], ev);
    } else {
      assert next[1..] == [];
    }
  }

  /** The read tags that have come back after one more event. */
  function ReadsAfter(back: seq<Event>, ev: Event): (r: seq<Event>)
    requires forall i :: 0 <= i < |back| ==> back[i].NewData?
    ensures forall i :: 0 <= i < |r| ==> r[i].NewData?
  {
    if ev.NewData? then back + [ev] else back
  }

  lemma {:induction false} ReadsStep(back: seq<Event>, evs: seq<Event>)
    requires forall i :: 0 <= i < |back| ==> back[i].NewData?
    ensures evs != [] ==> ReadsAfter(back, evs[0]) + Reads(evs[1..]) == back + Reads(evs)
    ensures evs == [] ==> back + Reads(evs) == back
  {
  }

  lemma {:induction false} StreamReadsStep(c: Call, back: seq<Event>, ev: Event)
    requires forall i :: 0 <= i < |back| ==> back[i].NewData?
    requires StreamReads(c, back) && Enabled(c, ev)
    ensures StreamReads(Step(c, ev), ReadsAfter(back, ev))
  {
    hide Messages, AllGood, NewDataStep;
    if ev.NewData? { StreamReadsNewData(c, back, ev); }
  }

  lemma {:induction false} StreamReadsRun(c: Call, back: seq<Event>, evs: seq<Event>)
    requires forall i :: 0 <= i < |back| ==> back[i].NewData?
    requires StreamReads(c, back) && IsRun(c, evs)
    ensures StreamReads(After(c, evs), back + Reads(evs))
    decreases |evs|
  {
    hide Step, Enabled, StreamReads;
    ReadsStep(back, evs);
    if evs != [] {
      StreamReadsStep(c, back, evs[0]);
      StreamReadsRun(Step(c, evs[0]), ReadsAfter(back, evs[0]), evs[1..]);
    }
  }

  /**
   A server stream reports exactly the messages it read, in order. The first tag that
   fails, or whose buffer cannot be parsed, is the last one that comes back.
   */
  lemma {:induction false} StreamDeliversInOrder(evs: seq<Event>)
    requires IsRun(Started(ServerStream), evs)
    ensures
      var t := After(Started(ServerStream), evs);
      var back := Reads(evs);
      && t.dataReady == (if back == [] then [] else Messages(back[1..]))
      && (forall i :: 0 <= i < |back| - 1 ==> Good(back[i], i))
      && (t.newDataTags == 1 <==> AllGood(back))
  {
    hide IsRun, After, Messages;
    var c := Started(ServerStream);
    assert StreamReads(c, []);
    StreamReadsRun(c, [], evs);
    assert [] + Reads(evs) == Reads(evs);
    var back, t := Reads(evs), After(c, evs);
    if back != [] {
      var front := back[..|back| - 1];
      assert forall i :: 0 <= i < |front| ==> front[i] == back[i];
    }
  }

  ghost predicate CallReads(c: Call, back: seq<Event>)
    requires forall i :: 0 <= i < |back| ==> back[i].NewData?
  {
    && c.kind == UnaryCall
    && |back| + c.newDataTags == (if back != [] && back[0].ok then 2 else 1)
    && c.reader == (if |back| == 2 && back[1].ok then Ended else if back != [] && back[0].ok then Processing else FirstCall)
    && c.response == Answer(back)
  }

  /** The response of a unary call: the message of the second tag. */
  function Answer(back: seq<Event>): Bytes
    requires forall i :: 0 <= i < |back| ==> back[i].NewData?
  {
    if |back| == 2 && back[1].ok && back[1].parsed.Message? then back[1].parsed.data else []
  }

  lemma {:induction false} CallReadsNewData(c: Call, back: seq<Event>, ev: Event)
    requires forall i :: 0 <= i < |back| ==> back[i].NewData?
    requires CallReads(c, back) && ev.NewData? && c.newDataTags > 0
    ensures CallReads(NewDataStep(c, ev.ok, ev.parsed), back + [ev])
  {
  }

  lemma {:induction false} CallReadsStep(c: Call, back: seq<Event>, ev: Event)
    requires forall i :: 0 <= i < |back| ==> back[i].NewData?
    requires CallReads(c, back) && Enabled(c, ev)
    ensures CallReads(Step(c, ev), ReadsAfter(back, ev))
  {
    hide NewDataStep;
    if ev.NewData? { CallReadsNewData(c, back, ev); }
  }

  lemma {:induction false} CallReadsRun(c: Call, back: seq<Event>, evs: seq<Event>)
    requires forall i :: 0 <= i < |back| ==> back[i].NewData?
    requires CallReads(c, back) && IsRun(c, evs)
    ensures CallReads(After(c, evs), back + Reads(evs))
    decreases |evs|
  {
    hide Step, Enabled, CallReads;
    ReadsStep(back, evs);
    if evs != [] {
      CallReadsStep(c, back, evs[0]);
      CallReadsRun(Step(c, evs[0]), ReadsAfter(back, evs[0]), evs[1..]);
    }
  }

  /** A unary call reads at most one response, and only after its first tag came back in order. */
  lemma {:induction false} CallReadsOneResponse(evs: seq<Event>)
    requires IsRun(Started(UnaryCall), evs)
    ensures
      var t := After(Started(UnaryCall), evs);
      var back := Reads(evs);
      && |back| <= 2
      && (|back| == 2 ==> back[0].ok)
      && t.response == Answer(back)
  {
    hide IsRun, After;
    var c := Started(UnaryCall);
    assert CallReads(c, []);
    CallReadsRun(c, [], evs);
    assert [] + Reads(evs) == Reads(evs);
  }
}
