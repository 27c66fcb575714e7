/**
 QGrpcChannelStreamBidirect: a stream object driven by completion tags. The native
 library hands outstanding tags back in any order and at any time; every tag counts
 one reference, and one more reference stands for all shared pointers together.
 */
module BidirectStream {
  import opened Wire
  import opened CallReader

  type Reply = nat

  datatype Current = Nobody | Waiting(reply: Reply)

  /** QGrpcChannelWriteData */
  datatype Item = Item(data: Bytes, reply: Reply, done: bool)

  /** A call to the writer of the native library. */
  datatype Call = Write(data: Bytes) | WritesDone

  /** The status a write reply was given, with its finished signal. */
  datatype Settlement = Settlement(reply: Reply, ok: bool)

  /** Outstanding completion tags. */
  datatype Tags = Tags(newData: nat, finishRead: nat, finishWrite: nat) {
    function Total(): nat { newData + finishRead + finishWrite }
  }

  /**
   What was asked of the object, what it asked of the writer, which replies it
   settled, whether it used a reply that does not exist, whether finishRead has run and
   which reply was then in flight, and the messages it reported.
   */
  datatype Log = Log(asked: seq<Item>, issued: seq<Call>, settled: seq<Settlement>,
                     nullReply: bool, flushed: bool, cutOff: Current, dataReady: seq<Bytes>)

  /**
   The fields of the object, followed by its surroundings: outstanding tags, whether
   shared pointers exist and the signals are connected, how often it was destroyed,
   and the log.
   */
  datatype Stream = Stream(
    reader: ReaderState,
    inProcess: bool,
    queue: seq<Item>,
    current: Current,
    refCount: int,
    tags: Tags,
    held: bool,
    connected: bool,
    destroyed: nat,
    log: Log)

  /** A stream after its constructor and startReader. */
  const STARTED := Stream(FirstCall, true, [], Nobody, 3, Tags(1, 1, 0), true, true, 0,
                          Log([], [], [], false, false, Nobody, []))

  datatype Event =
    | AppendToSend(data: Bytes, reply: Reply)
    | WriteDone(reply: Reply)
    | NewData(ok: bool, parsed: Parsed)
    | FinishRead
    | FinishWrite(ok: bool)
    | Disconnect
    | ReleasePointer

  // ------------------------------------------------------------- the callbacks

  /** m_refCount.deref(), and `delete this` at zero. */
  function Deref(s: Stream): Stream
  {
    s.(refCount := s.refCount - 1, destroyed := if s.refCount == 1 then s.destroyed + 1 else s.destroyed)
  }

  /** A call to the writer, which will hand back the finishWrite tag. */
  function Issue(s: Stream, c: Call): Stream
  {
    s.(refCount := s.refCount + 1,
       tags := s.tags.(finishWrite := s.tags.finishWrite + 1),
       log := s.log.(issued := s.log.issued + [c]))
  }

  function Read(s: Stream): Stream
  {
    s.(refCount := s.refCount + 1, tags := s.tags.(newData := s.tags.newData + 1))
  }

  function DequeueWrite(s: Stream): Stream
  {
    if s.queue == [] then s.(inProcess := false)
    else
      var d := s.queue[0];
      var s' := s.(inProcess := true, queue := s.queue[1..]);
      if d.done then Issue(s', WritesDone)
      else Issue(s'.(current := Waiting(d.reply)), Write(d.data))
  }

  function Ask(s: Stream, d: Item): Stream
  {
    s.(log := s.log.(asked := s.log.asked + [d]))
  }

  function Settle(s: Stream, ok: bool): Stream
  {
    match s.current
    case Waiting(r) => s.(log := s.log.(settled := s.log.settled + [Settlement(r, ok)]))
    case Nobody => s.(log := s.log.(nullReply := true))
  }

  function AppendStep(s: Stream, data: Bytes, reply: Reply): Stream
  {
    var d := Item(data, reply, false);
    if s.inProcess then Ask(s, d).(queue := s.queue + [d])
    else Issue(Ask(s, d).(inProcess := true, current := Waiting(reply)), Write(data))
  }

  /** The reference that is dropped at the end was never taken. */
  function WriteDoneStep(s: Stream, reply: Reply): Stream
  {
    var d := Item([], reply, true);
    Deref(
      if s.inProcess then Ask(s, d).(queue := s.queue + [d])
      else Issue(Ask(s, d).(current := Waiting(reply)), WritesDone))
  }

  function NewDataTaken(s: Stream): Stream
    requires s.tags.newData > 0
  {
    s.(tags := s.tags.(newData := s.tags.newData - 1))
  }

  /** dataReady */
  function Report(s: Stream, data: Bytes): Stream
  {
    s.(log := s.log.(dataReady := s.log.dataReady + [data]))
  }

  function NewDataStep(s: Stream, ok: bool, parsed: Parsed): Stream
    requires s.tags.newData > 0
  {
    var s' := NewDataTaken(s);
    Deref(
      if !ok then s'.(reader := Ended)
      else
        match s.reader
        case FirstCall => Read(DequeueWrite(s')).(reader := Processing)
        case Processing =>
          if parsed.Message? then Read(Report(s', parsed.data)) else s'.(reader := Ended)
        case Ended => s')
  }

  function Failures(items: seq<Item>): (r: seq<Settlement>)
  {
    seq(|items|, i requires 0 <= i < |items| => Settlement(items[i].reply, false))
  }

  /** The reply in flight and those in the queue fail; `finished` disconnects the write signals. */
  function FinishReadStep(s: Stream): Stream
    requires s.tags.finishRead > 0
  {
    var inFlight := if s.inProcess then s.current else Nobody;
    var first := if inFlight.Waiting? then [Settlement(inFlight.reply, false)] else [];
    Deref(s.(tags := s.tags.(finishRead := s.tags.finishRead - 1),
             queue := [], connected := false,
             log := s.log.(settled := s.log.settled + first + Failures(s.queue),
                           flushed := true, cutOff := inFlight)))
  }

  function FinishWriteTaken(s: Stream): Stream
    requires s.tags.finishWrite > 0
  {
    s.(tags := s.tags.(finishWrite := s.tags.finishWrite - 1))
  }

  function FinishWriteStep(s: Stream, ok: bool): Stream
    requires s.tags.finishWrite > 0
  {
    var s' := Deref(Settle(FinishWriteTaken(s), ok));
    if s'.refCount == 0 then s' else DequeueWrite(s')
  }

  predicate Enabled(s: Stream, ev: Event)
  {
    s.destroyed == 0 &&
    match ev
    case AppendToSend(_, _) => s.connected && s.held
    case WriteDone(_) => s.connected && s.held
    case NewData(_, _) => s.tags.newData > 0
    case FinishRead => s.tags.finishRead > 0
    case FinishWrite(_) => s.tags.finishWrite > 0
    case Disconnect => s.connected
    case ReleasePointer => s.held && !s.connected
  }

  function Step(s: Stream, ev: Event): Stream
    requires Enabled(s, ev)
  {
    match ev
    case AppendToSend(data, reply) => AppendStep(s, data, reply)
    case WriteDone(reply) => WriteDoneStep(s, reply)
    case NewData(ok, parsed) => NewDataStep(s, ok, parsed)
    case FinishRead => FinishReadStep(s)
    case FinishWrite(ok) => FinishWriteStep(s, ok)
    case Disconnect => s.(connected := false)
    case ReleasePointer => Deref(s.(held := false))
  }

  /** The events of a run happen one after the other, each when it can. */
  predicate IsRun(s: Stream, evs: seq<Event>)
    decreases |evs|
  {
    evs == [] || (Enabled(s, evs[0]) && IsRun(Step(s, evs[0]), evs[1..]))
  }

  function After(s: Stream, evs: seq<Event>): Stream
    requires IsRun(s, evs)
    decreases |evs|
  {
    if evs == [] then s else After(Step(s, evs[0]), evs[1..])
  }

  /** What the events ask the stream to send, in order. */
  function AskedBy(evs: seq<Event>): seq<Item>
  {
    if evs == [] then []
    else
      (match evs[0]
       case AppendToSend(data, reply) => [Item(data, reply, false)]
       case WriteDone(reply) => [Item([], reply, true)]
       case _ => []) + AskedBy(evs[1..])
  }
}
