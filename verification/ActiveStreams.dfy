/**
 The table of active streams of QAbstractGrpcClient: requests for a stream that is
 already active share it, and a stream leaves the table when it finishes.
 */
module ActiveStreams {
  import opened Wire

  type Handler = nat

  datatype MaybeHandler = NoHandler | Given(handler: Handler)

  datatype StreamKey = StreamKey(method_: Bytes, arg: Bytes)

  /**
   A stream object. `watched` says whether its finished signal is still connected to the
   client, `atOnce` whether the channel finished it before its request returned.
   */
  datatype StreamObject = StreamObject(key: StreamKey, handlers: seq<Handler>, watched: bool, atOnce: bool)

  datatype Answer = Answer(key: StreamKey, handler: MaybeHandler, stream: nat)

  /** All stream objects ever made, the active ones in the order of the table, and the requests so far. */
  datatype Client = Client(streams: seq<StreamObject>, active: seq<nat>, answers: seq<Answer>)

  const EMPTY := Client([], [], [])

  datatype Event =
    | Request(key: StreamKey, handler: MaybeHandler, atOnce: bool)
    | Finished(stream: nat)

  function Handlers(h: MaybeHandler): seq<Handler>
  {
    if h.Given? then [h.handler] else []
  }

  predicate InTable(c: Client)
  {
    forall i :: 0 <= i < |c.active| ==> c.active[i] < |c.streams|
  }

  /** The first position from `i` on of a stream with the given key, or the end. */
  function Position(streams: seq<StreamObject>, active: seq<nat>, k: StreamKey, i: nat): (p: nat)
    requires i <= |active| && forall j :: 0 <= j < |active| ==> active[j] < |streams|
    ensures i <= p <= |active|
    ensures forall j :: i <= j < p ==> streams[active[j]].key != k
    ensures p < |active| ==> streams[active[p]].key == k
    decreases |active| - i
  {
    if i == |active| || streams[active[i]].key == k then i else Position(streams, active, k, i + 1)
  }

  function Find(c: Client, k: StreamKey): (p: nat)
    requires InTable(c)
    ensures p <= |c.active|
    ensures forall j :: 0 <= j < p ==> c.streams[c.active[j]].key != k
    ensures p < |c.active| ==> c.streams[c.active[p]].key == k
  {
    Position(c.streams, c.active, k, 0)
  }

  function AddHandler(c: Client, id: nat, h: MaybeHandler): Client
    requires id < |c.streams|
  {
    c.(streams := c.streams[id := c.streams[id].(handlers := c.streams[id].handlers + Handlers(h))])
  }

  /** The slot that the finished signal of a stream is connected to. */
  function OnFinished(c: Client, id: nat): Client
    requires InTable(c) && id < |c.streams|
  {
    if !c.streams[id].watched then c
    else
      var p := Find(c, c.streams[id].key);
      var c' := if p < |c.active| then c.(active := c.active[..p] + c.active[p + 1..]) else c;
      c'.(streams := c.streams[id := c.streams[id].(watched := false)])
  }

  /** A new stream is connected, given to the channel, and only then put in the table. */
  function Open(c: Client, k: StreamKey, h: MaybeHandler, atOnce: bool): Client
    requires InTable(c)
  {
    var id := |c.streams|;
    var made := c.(streams := c.streams + [StreamObject(k, Handlers(h), true, atOnce)]);
    var given := if atOnce then OnFinished(made, id) else made;
    given.(active := given.active + [id])
  }

  /** QAbstractGrpcClient::stream on an attached channel, and the stream it returns. */
  function OnRequest(c: Client, k: StreamKey, h: MaybeHandler, atOnce: bool): (Client, nat)
    requires InTable(c)
  {
    var p := Find(c, k);
    if p < |c.active| then (AddHandler(c, c.active[p], h), c.active[p])
    else (Open(c, k, h, atOnce), |c.streams|)
  }

  predicate Enabled(c: Client, ev: Event)
  {
    InTable(c) && (ev.Finished? ==> ev.stream < |c.streams|)
  }

  function Step(c: Client, ev: Event): Client
    requires Enabled(c, ev)
  {
    match ev
    case Finished(id) => OnFinished(c, id)
    case Request(k, h, atOnce) =>
      var (c', id) := OnRequest(c, k, h, atOnce);
      c'.(answers := c'.answers + [Answer(k, h, id)])
  }

  predicate IsRun(c: Client, evs: seq<Event>)
    decreases |evs|
  {
    evs == [] || (Enabled(c, evs[0]) && IsRun(Step(c, evs[0]), evs[1..]))
  }

  function After(c: Client, evs: seq<Event>): Client
    requires IsRun(c, evs)
    decreases |evs|
  {
    if evs == [] then c else After(Step(c, evs[0]), evs[1..])
  }

  // ----------------------------------------------------------------- invariant

  /** The table never holds two streams with the same key. */
  ghost predicate Distinct(c: Client)
    requires InTable(c)
  {
    forall i, j :: 0 <= i < j < |c.active| ==> c.streams[c.active[i]].key != c.streams[c.active[j]].key
  }

  /** Those in the table are the streams that are watched, and those that finished at once. */
  ghost predicate Membership(c: Client)
  {
    forall id :: 0 <= id < |c.streams| ==>
      && (id in c.active <==> c.streams[id].watched || c.streams[id].atOnce)
      && !(c.streams[id].watched && c.streams[id].atOnce)
  }

  ghost predicate Table(c: Client)
  {
    InTable(c) && Distinct(c) && Membership(c)
  }

  /** A key that is in the table is found at the position of its stream. */
  lemma {:induction false} FindWhere(c: Client, i: nat)
    requires InTable(c) && Distinct(c) && i < |c.active|
    ensures Find(c, c.streams[c.active[i]].key) == i
  {
  }

  function Without(active: seq<nat>, p: nat): (r: seq<nat>)
    requires p < |active|
    ensures |r| == |active| - 1
    ensures forall j :: 0 <= j < |r| ==> r[j] == active[if j < p then j else j + 1]
  {
    active[..p] + active[p + 1..]
  }

  lemma {:induction false} WithoutMembers(active: seq<nat>, p: nat)
    requires p < |active| && forall i, j :: 0 <= i < j < |active| ==> active[i] != active[j]
    ensures forall x :: x in Without(active, p) <==> x in active && x != active[p]
  {
    var r := Without(active, p);
    forall x | x in active && x != active[p] ensures x in r {
      var i :| 0 <= i < |active| && active[i] == x;
      assert r[if i < p then i else i - 1] == x;
    }
  }

  lemma {:induction false} DistinctIds(c: Client)
    requires InTable(c) && Distinct(c)
    ensures forall i, j :: 0 <= i < j < |c.active| ==> c.active[i] != c.active[j]
  {
  }

  /**
   A watched stream that finishes leaves the table, and no other stream does; the order
   of the rest is kept. The slot of a stream that has already finished does nothing.
   */
  lemma {:induction false} FinishedRemovesOnlyItself(c: Client, id: nat)
    requires Table(c) && id < |c.streams|
    ensures
      var t := OnFinished(c, id);
      if c.streams[id].watched
      then && (exists p :: 0 <= p < |c.active| && c.active[p] == id && t.active == Without(c.active, p))
           && t.streams == c.streams[id := c.streams[id].(watched := false)]
           && t.answers == c.answers
      else t == c
  {
    if c.streams[id].watched {
      assert id in c.active;
      var p :| 0 <= p < |c.active| && c.active[p] == id;
      FindWhere(c, p);
    }
  }

  lemma {:induction false} DistinctWithout(c: Client, t: Client, p: nat)
    requires InTable(c) && Distinct(c) && p < |c.active| && t.active == Without(c.active, p)
    requires |t.streams| == |c.streams| && forall i :: 0 <= i < |c.streams| ==> t.streams[i].key == c.streams[i].key
    ensures InTable(t) && Distinct(t)
  {
    hide Without;
    forall i, j | 0 <= i < j < |t.active| ensures t.streams[t.active[i]].key != t.streams[t.active[j]].key {
      var i', j' := if i < p then i else i + 1, if j < p then j else j + 1;
      assert t.active[i] == c.active[i'] && t.active[j] == c.active[j'] && i' < j';
    }
  }

  lemma {:induction false} TableFinished(c: Client, id: nat)
    requires Table(c) && id < |c.streams|
    ensures Table(OnFinished(c, id))
  {
    FinishedRemovesOnlyItself(c, id);
    if c.streams[id].watched {
      hide OnFinished, Without, Distinct;
      var t := OnFinished(c, id);
      var p :| 0 <= p < |c.active| && c.active[p] == id && t.active == Without(c.active, p);
      DistinctIds(c);
      WithoutMembers(c.active, p);
      DistinctWithout(c, t, p);
    }
  }

  /** A stream that finished at once has left nothing to remove and is not watched any more. */
  lemma {:induction false} OpenAtOnce(c: Client, k: StreamKey, h: MaybeHandler, atOnce: bool)
    requires InTable(c) && Find(c, k) == |c.active|
    ensures Open(c, k, h, atOnce) ==
            c.(streams := c.streams + [StreamObject(k, Handlers(h), !atOnce, atOnce)], active := c.active + [|c.streams|])
  {
    if atOnce {
      var made := c.(streams := c.streams + [StreamObject(k, Handlers(h), true, atOnce)]);
      assert Find(made, k) == |made.active|;
    }
  }

  lemma {:induction false} TableOpen(c: Client, k: StreamKey, h: MaybeHandler, atOnce: bool)
    requires Table(c) && Find(c, k) == |c.active|
    ensures Table(Open(c, k, h, atOnce))
  {
    hide Open;
    OpenAtOnce(c, k, h, atOnce);
    var t := Open(c, k, h, atOnce);
    assert t.active[|c.active|] == |c.streams|;
    assert forall id :: 0 <= id < |c.streams| ==> t.streams[id] == c.streams[id] && (id in t.active <==> id in c.active);
    assert |c.streams| in t.active;
  }

  lemma {:induction false} TableAddHandler(c: Client, id: nat, h: MaybeHandler)
    requires Table(c) && id < |c.streams|
    ensures Table(AddHandler(c, id, h))
  {
    var t := AddHandler(c, id, h);
    assert forall i :: 0 <= i < |c.streams| ==>
        t.streams[i].key == c.streams[i].key && t.streams[i].watched == c.streams[i].watched
        && t.streams[i].atOnce == c.streams[i].atOnce;
  }

  lemma {:induction false} TableFrame(c: Client, t: Client)
    requires Table(c) && t.streams == c.streams && t.active == c.active
    ensures Table(t)
  {
  }

  lemma {:induction false} TableStep(c: Client, ev: Event)
    requires Table(c) && Enabled(c, ev)
    ensures Table(Step(c, ev))
  {
    hide Table, OnFinished, Open, AddHandler, Find;
    match ev
    case Finished(id) => TableFinished(c, id);
    case Request(k, h, atOnce) =>
      var p := Find(c, k);
      if p < |c.active| {
        TableAddHandler(c, c.active[p], h);
      } else {
        TableOpen(c, k, h, atOnce);
      }
      TableFrame(OnRequest(c, k, h, atOnce).0, Step(c, ev));
  }

  // ------------------------------------------------------------------ handlers

  /** The handlers of the requests that were answered with a stream, in order. */
  function HandlersGiven(answers: seq<Answer>, id: nat): seq<Handler>
  {
    if answers == [] then []
    else
      var last := answers[|answers| - 1];
      HandlersGiven(answers[..|answers| - 1], id) + if last.stream == id then Handlers(last.handler) else []
  }

  ghost predicate HandlersOk(c: Client)
  {
    && (forall id :: 0 <= id < |c.streams| ==> c.streams[id].handlers == HandlersGiven(c.answers, id))
    && (forall i :: 0 <= i < |c.answers| ==>
          c.answers[i].stream < |c.streams| && c.streams[c.answers[i].stream].key == c.answers[i].key)
  }

  lemma {:induction false} HandlersGivenNext(answers: seq<Answer>, a: Answer, id: nat)
    ensures HandlersGiven(answers + [a], id) == HandlersGiven(answers, id) + if a.stream == id then Handlers(a.handler) else []
  {
    assert (answers + [a])[..|answers|] == answers;
  }

  lemma {:induction false} NoHandlersYet(answers: seq<Answer>, id: nat)
    requires forall i :: 0 <= i < |answers| ==> answers[i].stream != id
    ensures HandlersGiven(answers, id) == []
    decreases |answers|
  {
    if answers != [] {
      var front := answers[..|answers| - 1];
      assert forall i :: 0 <= i < |front| ==> front[i] == answers[i];
      NoHandlersYet(front, id);
    }
  }

  lemma {:induction false} HandlersShared(c: Client, k: StreamKey, h: MaybeHandler, id: nat)
    requires HandlersOk(c) && id < |c.streams| && c.streams[id].key == k
    ensures HandlersOk(AddHandler(c, id, h).(answers := c.answers + [Answer(k, h, id)]))
  {
    hide HandlersGiven;
    var a := Answer(k, h, id);
    var t := AddHandler(c, id, h).(answers := c.answers + [a]);
    forall i | 0 <= i < |t.streams| ensures t.streams[i].handlers == HandlersGiven(t.answers, i) {
      HandlersGivenNext(c.answers, a, i);
    }
    forall i | 0 <= i < |t.answers| ensures t.answers[i].stream < |t.streams| && t.streams[t.answers[i].stream].key == t.answers[i].key {
      if i < |c.answers| { assert t.answers[i] == c.answers[i]; }
    }
  }

  lemma {:induction false} HandlersOpened(c: Client, k: StreamKey, h: MaybeHandler, atOnce: bool)
    requires HandlersOk(c) && InTable(c) && Find(c, k) == |c.active|
    ensures HandlersOk(Open(c, k, h, atOnce).(answers := c.answers + [Answer(k, h, |c.streams|)]))
  {
    hide HandlersGiven, Open;
    OpenAtOnce(c, k, h, atOnce);
    var id := |c.streams|;
    var a := Answer(k, h, id);
    var t := Open(c, k, h, atOnce).(answers := c.answers + [a]);
    NoHandlersYet(c.answers, id);
    assert [] + Handlers(h) == Handlers(h);
    forall i | 0 <= i < |t.streams| ensures t.streams[i].handlers == HandlersGiven(t.answers, i) {
      HandlersGivenNext(c.answers, a, i);
      if i < id { assert t.streams[i] == c.streams[i]; }
    }
    forall i | 0 <= i < |t.answers| ensures t.answers[i].stream < |t.streams| && t.streams[t.answers[i].stream].key == t.answers[i].key {
      if i < |c.answers| { assert t.answers[i] == c.answers[i]; }
    }
  }

  lemma {:induction false} HandlersFinished(c: Client, id: nat)
    requires HandlersOk(c) && InTable(c) && id < |c.streams|
    ensures HandlersOk(OnFinished(c, id))
  {
    hide HandlersGiven, Find;
    var t := OnFinished(c, id);
    assert t.answers == c.answers && |t.streams| == |c.streams|;
    assert forall i :: 0 <= i < |c.streams| ==>
        t.streams[i].handlers == c.streams[i].handlers && t.streams[i].key == c.streams[i].key;
  }

  lemma {:induction false} HandlersStep(c: Client, ev: Event)
    requires HandlersOk(c) && Enabled(c, ev)
    ensures HandlersOk(Step(c, ev))
  {
    hide HandlersOk, OnFinished, Find;
    match ev
    case Finished(id) => HandlersFinished(c, id);
    case Request(k, h, atOnce) =>
      var p := Find(c, k);
      if p < |c.active| {
        HandlersShared(c, k, h, c.active[p]);
      } else {
        HandlersOpened(c, k, h, atOnce);
        OpenAtOnce(c, k, h, atOnce);
      }
  }

  // --------------------------------------------------------------- whole runs

  lemma {:induction false} KeptByRun(c: Client, evs: seq<Event>)
    requires Table(c) && HandlersOk(c) && IsRun(c, evs)
    ensures Table(After(c, evs)) && HandlersOk(After(c, evs))
    decreases |evs|
  {
    hide Table, HandlersOk, Step, Enabled;
    if evs != [] {
      TableStep(c, evs[0]);
      HandlersStep(c, evs[0]);
      KeptByRun(Step(c, evs[0]), evs[1..]);
    }
  }

  /** The requests of a run, in order. */
  function Requests(evs: seq<Event>): (r: seq<Event>)
    ensures forall i :: 0 <= i < |r| ==> r[i].Request?
  {
    if evs == [] then [] else (if evs[0].Request? then [evs[0]] else []) + Requests(evs[1..])
  }

  lemma {:induction false} AnsweredStep(c: Client, ev: Event)
    requires Enabled(c, ev)
    ensures Step(c, ev).answers[..|c.answers|] == c.answers
    ensures |Step(c, ev).answers| == |c.answers| + if ev.Request? then 1 else 0
    ensures ev.Request? ==>
      Step(c, ev).answers[|c.answers|].key == ev.key && Step(c, ev).answers[|c.answers|].handler == ev.handler
  {
  }

  /** Every request is answered, in order, under its own key and with its own handler. */
  lemma {:induction false} RequestsAnswered(c: Client, evs: seq<Event>)
    requires IsRun(c, evs)
    ensures
      var t := After(c, evs);
      var n := |c.answers|;
      && |t.answers| == n + |Requests(evs)| && t.answers[..n] == c.answers
      && forall i :: 0 <= i < |Requests(evs)| ==>
           t.answers[n + i].key == Requests(evs)[i].key && t.answers[n + i].handler == Requests(evs)[i].handler
    decreases |evs|
  {
    hide Step, Enabled;
    if evs != [] {
      var next := Step(c, evs[0]);
      AnsweredStep(c, evs[0]);
      RequestsAnswered(next, evs[1..]);
      var t := After(c, evs);
      assert forall i :: 0 <= i < |next.answers| ==> t.answers[i] == t.answers[..|next.answers|][i];
      assert forall i :: 0 <= i < |c.answers| ==> next.answers[i] == next.answers[..|c.answers|][i];
    }
  }

  /** The streams with which the requests were answered. */
  function StreamsOf(answers: seq<Answer>): (r: seq<nat>)
    ensures |r| == |answers|
  {
    seq(|answers|, i requires 0 <= i < |answers| => answers[i].stream)
  }

  /** The handlers that were given, in order, with the requests answered with the stream. */
  function HandlersRequested(requests: seq<Event>, streams: seq<nat>, id: nat): seq<Handler>
    requires |requests| == |streams| && forall i :: 0 <= i < |requests| ==> requests[i].Request?
  {
    if requests == [] then []
    else
      var n := |requests| - 1;
      HandlersRequested(requests[..n], streams[..n], id) +
      match requests[n].handler
      case Given(h) => if streams[n] == id then [h] else []
      case NoHandler => []
  }

  lemma {:induction false} GivenIsRequested(answers: seq<Answer>, requests: seq<Event>, id: nat)
    requires |requests| == |answers| && forall i :: 0 <= i < |requests| ==> requests[i].Request?
    requires forall i :: 0 <= i < |requests| ==> answers[i].handler == requests[i].handler
    ensures HandlersGiven(answers, id) == HandlersRequested(requests, StreamsOf(answers), id)
    decreases |answers|
  {
    if answers != [] {
      var n := |answers| - 1;
      assert StreamsOf(answers)[..n] == StreamsOf(answers[..n]);
      GivenIsRequested(answers[..n], requests[..n], id);
    }
  }

  /**
   In every run, no two active streams have the same method and argument; every request is
   answered with a stream of its key; each stream has the handlers of the requests it
   answered, in order, null ones left out; and a stream is active exactly while it is
   unfinished, unless the channel finished it before its request returned: such a stream
   stays active for ever.
   */
  lemma {:induction false} ActiveStreamsOk(evs: seq<Event>)
    requires IsRun(EMPTY, evs)
    ensures
      var t := After(EMPTY, evs);
      var requests := Requests(evs);
      && InTable(t) && Distinct(t)
      && |t.answers| == |requests|
      && (forall i :: 0 <= i < |requests| ==>
            t.answers[i].stream < |t.streams| && t.streams[t.answers[i].stream].key == requests[i].key)
      && (forall id :: 0 <= id < |t.streams| ==>
            && (id in t.active <==> t.streams[id].watched || t.streams[id].atOnce)
            && t.streams[id].handlers == HandlersRequested(requests, StreamsOf(t.answers), id))
  {
    hide IsRun, After, HandlersGiven, HandlersRequested;
    assert Table(EMPTY) && HandlersOk(EMPTY);
    KeptByRun(EMPTY, evs);
    RequestsAnswered(EMPTY, evs);
    var t := After(EMPTY, evs);
    forall id | 0 <= id < |t.streams|
      ensures HandlersGiven(t.answers, id) == HandlersRequested(Requests(evs), StreamsOf(t.answers), id)
    {
      GivenIsRequested(t.answers, Requests(evs), id);
    }
  }

  /**
   A request is answered with an active stream that has its key, if there is one, and
   then opens nothing; else with a new stream.
   */
  lemma {:induction false} SameRequestSameStream(c: Client, id: nat, h: MaybeHandler, atOnce: bool)
    requires Table(c) && id in c.active
    ensures
      var (t, answer) := OnRequest(c, c.streams[id].key, h, atOnce);
      answer == id && t == AddHandler(c, id, h)
  {
    var i :| 0 <= i < |c.active| && c.active[i] == id;
    FindWhere(c, i);
  }

  /**
   After a stream has finished, a new stream for its key is opened by the next request,
   and finishing the old one again changes nothing.
   */
  lemma {:induction false} SuccessorIsSafe(c: Client, id: nat, h: MaybeHandler)
    requires Table(c) && id < |c.streams| && c.streams[id].watched
    ensures
      var key := c.streams[id].key;
      var done := OnFinished(c, id);
      && InTable(done)
      && OnRequest(done, key, h, false).1 == |c.streams|
      && var next := OnRequest(done, key, h, false).0;
         InTable(next) && OnFinished(next, id) == next && |c.streams| in next.active
  {
    TableFinished(c, id);
    FinishedRemovesOnlyItself(c, id);
    var done, key := OnFinished(c, id), c.streams[id].key;
    var p :| 0 <= p < |c.active| && c.active[p] == id && done.active == Without(c.active, p);
    hide OnFinished;
    assert Find(done, key) == |done.active| by {
      KeyGone(c, done, id, p);
    }
    OpenAtOnce(done, key, h, false);
    var next := OnRequest(done, key, h, false).0;
    assert next.active[|done.active|] == |c.streams|;
    TableOpen(done, key, h, false);
    FinishedRemovesOnlyItself(next, id);
  }

  lemma {:induction false} KeyGone(c: Client, done: Client, id: nat, p: nat)
    requires Table(c) && InTable(done) && id < |c.streams| && p < |c.active| && c.active[p] == id
    requires done.active == Without(c.active, p) && |done.streams| == |c.streams|
    requires forall i :: 0 <= i < |c.streams| ==> done.streams[i].key == c.streams[i].key
    ensures Find(done, c.streams[id].key) == |done.active|
  {
  }
}
