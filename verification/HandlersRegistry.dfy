/**
 HandlersRegistry: registerHandler and findHandler run by any number of threads. A mutex
 and a semaphore with 64 permits make a readers-writer lock around an ordinary map.
 A step of a thread is one call on the mutex or the semaphore, or the beginning or the
 end of the access to the map; the steps of different threads interleave freely.
 */
module HandlersRegistry {
  type Key = int
  type Handler = nat

  /** MaximumSimultaniousThreads */
  const PERMITS := 64

  datatype Found = Empty | Handlers(handler: Handler)

  datatype Op = Register(key: Key, handler: Handler) | Find(key: Key)

  /** A registration that has been written, and the thread that wrote it. */
  datatype Registration = Registration(thread: nat, key: Key, handler: Handler)

  /**
   What a thread does next. `since` is the number of registrations that were complete
   when its operation began, `saw` the map when it began to read, and `at` the number of
   complete registrations when it ended reading.
   */
  datatype Pc =
    | Idle
    | Lock(op: Op, since: nat)
    | Acquire(op: Op, since: nat)
    | Holding(key: Key, handler: Handler)
    | Writing(key: Key, handler: Handler)
    | Written
    | Unlocking
    | Granted(key: Key, since: nat)
    | Outside(key: Key, since: nat)
    | Reading(key: Key, since: nat, saw: map<Key, Handler>)
    | Leaving(key: Key, since: nat, at: nat, result: Found)

  datatype Answer = Answer(thread: nat, key: Key, since: nat, at: nat, result: Found)

  datatype Owner = Free | OwnedBy(thread: nat)

  datatype State = State(
    pcs: seq<Pc>,
    owner: Owner,
    available: int,
    registry: map<Key, Handler>,
    torn: bool,
    completed: seq<Registration>,
    answers: seq<Answer>)

  const INITIAL := State([], Free, PERMITS, map[], false, [], [])

  datatype Event = Spawn | Begin(thread: nat, op: Op) | Advance(thread: nat)

  function Lookup(m: map<Key, Handler>, k: Key): Found
  {
    if k in m then Handlers(m[k]) else Empty
  }

  predicate CanAdvance(s: State, t: nat)
  {
    && t < |s.pcs|
    && match s.pcs[t]
       case Idle => false
       case Lock(_, _) => s.owner == Free
       case Acquire(op, _) => s.available >= if op.Register? then PERMITS else 1
       case _ => true
  }

  predicate Enabled(s: State, ev: Event)
  {
    match ev
    case Spawn => true
    case Begin(t, _) => t < |s.pcs| && s.pcs[t] == Idle
    case Advance(t) => CanAdvance(s, t)
  }

  function Goto(s: State, t: nat, pc: Pc): State
    requires t < |s.pcs|
  {
    s.(pcs := s.pcs[t := pc])
  }

  /** While the map is being written its contents are not to be relied on. */
  function AdvanceStep(s: State, t: nat): State
    requires CanAdvance(s, t)
  {
    match s.pcs[t]
    case Lock(op, since) => Goto(s, t, Acquire(op, since)).(owner := OwnedBy(t))
    case Acquire(op, since) =>
      (match op
       case Register(k, h) => Goto(s, t, Holding(k, h)).(available := s.available - PERMITS)
       case Find(k) => Goto(s, t, Granted(k, since)).(available := s.available - 1))
    case Holding(k, h) => Goto(s, t, Writing(k, h)).(torn := true)
    case Writing(k, h) =>
      Goto(s, t, Written).(torn := false, registry := s.registry[k := h],
                           completed := s.completed + [Registration(t, k, h)])
    case Written => Goto(s, t, Unlocking).(available := s.available + PERMITS)
    case Unlocking => Goto(s, t, Idle).(owner := Free)
    case Granted(k, since) => Goto(s, t, Outside(k, since)).(owner := Free)
    case Outside(k, since) => Goto(s, t, Reading(k, since, s.registry))
    case Reading(k, since, _) => Goto(s, t, Leaving(k, since, |s.completed|, Lookup(s.registry, k)))
    case Leaving(k, since, at, result) =>
      Goto(s, t, Idle).(available := s.available + 1, answers := s.answers + [Answer(t, k, since, at, result)])
  }

  function Step(s: State, ev: Event): State
    requires Enabled(s, ev)
  {
    match ev
    case Spawn => s.(pcs := s.pcs + [Idle])
    case Begin(t, op) => Goto(s, t, Lock(op, |s.completed|))
    case Advance(t) => AdvanceStep(s, t)
  }

  predicate IsRun(s: State, evs: seq<Event>)
    decreases |evs|
  {
    evs == [] || (Enabled(s, evs[0]) && IsRun(Step(s, evs[0]), evs[1..]))
  }

  function After(s: State, evs: seq<Event>): State
    requires IsRun(s, evs)
    decreases |evs|
  {
    if evs == [] then s else After(Step(s, evs[0]), evs[1..])
  }

  // ------------------------------------------------------------- counting

  function ReaderWeight(pc: Pc): nat
  {
    if pc.Granted? || pc.Outside? || pc.Reading? || pc.Leaving? then 1 else 0
  }

  function WriterWeight(pc: Pc): nat
  {
    if pc.Holding? || pc.Writing? || pc.Written? then 1 else 0
  }

  /** The steps that are left of the operation of a thread. */
  function StepsLeft(pc: Pc): nat
  {
    match pc
    case Idle => 0
    case Lock(_, _) => 6
    case Acquire(_, _) => 5
    case Holding(_, _) => 4
    case Writing(_, _) => 3
    case Written => 2
    case Unlocking => 1
    case Granted(_, _) => 4
    case Outside(_, _) => 3
    case Reading(_, _, _) => 2
    case Leaving(_, _, _, _) => 1
  }

  function Sum(pcs: seq<Pc>, w: Pc -> nat): nat
  {
    if pcs == [] then 0 else w(pcs[0]) + Sum(pcs[1..], w)
  }

  lemma {:induction false} SumUpdate(pcs: seq<Pc>, t: nat, pc: Pc, w: Pc -> nat)
    requires t < |pcs|
    ensures Sum(pcs[t := pc], w) == Sum(pcs, w) - w(pcs[t]) + w(pc)
    decreases |pcs|
  {
    if t == 0 {
      assert pcs[0 := pc][1..] == pcs[1..];
    } else {
      assert pcs[t := pc][1..] == pcs[1..][t - 1 := pc];
      SumUpdate(pcs[1..], t - 1, pc, w);
    }
  }

  lemma {:induction false} SumSpawn(pcs: seq<Pc>, w: Pc -> nat)
    ensures Sum(pcs + [Idle], w) == Sum(pcs, w) + w(Idle)
    decreases |pcs|
  {
    if pcs != [] {
      assert (pcs + [Idle])[1..] == pcs[1..] + [Idle];
      SumSpawn(pcs[1..], w);
    } else {
      var one := [Idle];
      assert pcs + [Idle] == one && Sum(one[1..], w) == 0;
    }
  }

  lemma {:induction false} SumAtLeast(pcs: seq<Pc>, t: nat, w: Pc -> nat)
    requires t < |pcs|
    ensures Sum(pcs, w) >= w(pcs[t])
    decreases |pcs|
  {
    if t > 0 { SumAtLeast(pcs[1..], t - 1, w); }
  }

  lemma {:induction false} SumOfTwo(pcs: seq<Pc>, t: nat, u: nat, w: Pc -> nat)
    requires t < |pcs| && u < |pcs| && t != u
    requires w(Idle) == 0
    ensures Sum(pcs, w) >= w(pcs[t]) + w(pcs[u])
  {
    SumUpdate(pcs, t, Idle, w);
    SumAtLeast(pcs[t := Idle], u, w);
  }

  lemma {:induction false} SumOfNone(pcs: seq<Pc>, w: Pc -> nat)
    requires forall t :: 0 <= t < |pcs| ==> w(pcs[t]) == 0
    ensures Sum(pcs, w) == 0
    decreases |pcs|
  {
    if pcs != [] {
      var tail := pcs[1..];
      assert forall t :: 0 <= t < |tail| ==> tail[t] == pcs[t + 1];
      SumOfNone(tail, w);
    }
  }

  // ---------------------------------------------------------- the invariant

  function Readers(s: State): nat { Sum(s.pcs, ReaderWeight) }

  function Writers(s: State): nat { Sum(s.pcs, WriterWeight) }

  predicate HasLock(pc: Pc)
  {
    pc.Acquire? || pc.Holding? || pc.Writing? || pc.Written? || pc.Unlocking? || pc.Granted?
  }

  ghost predicate PermitsOk(s: State)
  {
    s.available >= 0 && s.available + Readers(s) + PERMITS * Writers(s) == PERMITS
  }

  ghost predicate LockOk(s: State)
  {
    && (forall t :: 0 <= t < |s.pcs| ==> (HasLock(s.pcs[t]) <==> s.owner == OwnedBy(t)))
    && (s.owner.OwnedBy? ==> s.owner.thread < |s.pcs|)
  }

  /** The map that a sequence of registrations, made one at a time, leaves behind. */
  function Replay(rs: seq<Registration>): map<Key, Handler>
  {
    if rs == [] then map[]
    else
      var last := rs[|rs| - 1];
      Replay(rs[..|rs| - 1])[last.key := last.handler]
  }

  /** The result is that of an atomic lookup after `at` registrations, made while the operation ran. */
  ghost predicate AtomicAt(completed: seq<Registration>, k: Key, since: nat, at: nat, result: Found)
  {
    since <= at <= |completed| && result == Lookup(Replay(completed[..at]), k)
  }

  ghost predicate Atomic(completed: seq<Registration>, a: Answer)
  {
    AtomicAt(completed, a.key, a.since, a.at, a.result)
  }

  /** What a thread relies on. */
  ghost predicate PcOk(s: State, pc: Pc)
  {
    match pc
    case Lock(_, since) => since <= |s.completed|
    case Acquire(_, since) => since <= |s.completed|
    case Granted(_, since) => since <= |s.completed|
    case Outside(_, since) => since <= |s.completed|
    case Reading(_, since, saw) => since <= |s.completed| && saw == s.registry && !s.torn
    case Writing(_, _) => s.torn
    case Leaving(k, since, at, result) => AtomicAt(s.completed, k, since, at, result)
    case _ => true
  }

  ghost predicate DataOk(s: State)
  {
    && s.registry == Replay(s.completed)
    && (forall t :: 0 <= t < |s.pcs| ==> PcOk(s, s.pcs[t]))
    && (forall i :: 0 <= i < |s.answers| ==> Atomic(s.completed, s.answers[i]))
    && (s.torn ==> exists t :: 0 <= t < |s.pcs| && s.pcs[t].Writing?)
  }

  lemma {:induction false} PermitsStep(s: State, ev: Event)
    requires PermitsOk(s) && Enabled(s, ev)
    ensures PermitsOk(Step(s, ev))
  {
    match ev
    case Spawn =>
      SumSpawn(s.pcs, ReaderWeight);
      SumSpawn(s.pcs, WriterWeight);
    case Begin(t, op) =>
      SumUpdate(s.pcs, t, Lock(op, |s.completed|), ReaderWeight);
      SumUpdate(s.pcs, t, Lock(op, |s.completed|), WriterWeight);
    case Advance(t) =>
      hide AdvanceStep, Sum;
      var pc := AdvanceWeights(s, t);
      SumUpdate(s.pcs, t, pc, ReaderWeight);
      SumUpdate(s.pcs, t, pc, WriterWeight);
  }

  lemma {:induction false} AdvanceWeights(s: State, t: nat) returns (pc: Pc)
    requires CanAdvance(s, t)
    ensures var n := AdvanceStep(s, t);
            && n.pcs == s.pcs[t := pc]
            && n.available - s.available == ReaderWeight(s.pcs[t]) - ReaderWeight(pc)
                                          + PERMITS * WriterWeight(s.pcs[t]) - PERMITS * WriterWeight(pc)
            && (s.available >= 0 ==> n.available >= 0)
  {
    pc := AdvanceStep(s, t).pcs[t];
  }

  lemma {:induction false} LockStep(s: State, ev: Event)
    requires LockOk(s) && Enabled(s, ev)
    ensures LockOk(Step(s, ev))
  {
  }

  // -------------------------------------------------------------- exclusion

  /** A writer is alone with the map, and at most 64 readers are. */
  lemma {:induction false} Excluded(s: State, w: nat, t: nat)
    requires PermitsOk(s) && w < |s.pcs| && t < |s.pcs| && w != t
    requires WriterWeight(s.pcs[w]) == 1
    ensures WriterWeight(s.pcs[t]) == 0 && ReaderWeight(s.pcs[t]) == 0
  {
    SumOfTwo(s.pcs, w, t, WriterWeight);
    SumAtLeast(s.pcs, t, ReaderWeight);
  }

  // ------------------------------------------------------- data under the lock

  lemma {:induction false} ReplayNext(rs: seq<Registration>, r: Registration)
    ensures Replay(rs + [r]) == Replay(rs)[r.key := r.handler]
  {
    assert (rs + [r])[..|rs|] == rs;
  }

  /** More registrations do not change what is an atomic answer. */
  lemma {:induction false} AtomicGrows(
      rs: seq<Registration>, r: Registration, k: Key, since: nat, at: nat, result: Found)
    requires AtomicAt(rs, k, since, at, result)
    ensures AtomicAt(rs + [r], k, since, at, result)
  {
    assert (rs + [r])[..at] == rs[..at];
  }

  lemma {:induction false} WriteEnds(s: State, t: nat)
    requires PermitsOk(s) && DataOk(s) && CanAdvance(s, t) && s.pcs[t].Writing?
    ensures DataOk(AdvanceStep(s, t))
  {
    hide Replay, AtomicAt, Sum, Lookup;
    var n, r := AdvanceStep(s, t), Registration(t, s.pcs[t].key, s.pcs[t].handler);
    ReplayNext(s.completed, r);
    forall i | 0 <= i < |s.answers| ensures Atomic(n.completed, n.answers[i]) {
      var a := s.answers[i];
      AtomicGrows(s.completed, r, a.key, a.since, a.at, a.result);
    }
    forall u | 0 <= u < |s.pcs| ensures PcOk(n, n.pcs[u]) {
      if u != t {
        Excluded(s, t, u);
      }
    }
  }

  lemma {:induction false} WriteBegins(s: State, t: nat)
    requires PermitsOk(s) && DataOk(s) && CanAdvance(s, t) && s.pcs[t].Holding?
    ensures DataOk(AdvanceStep(s, t))
  {
    hide Replay, AtomicAt, Sum, Lookup;
    var n := AdvanceStep(s, t);
    assert n.pcs[t].Writing?;
    forall u | 0 <= u < |s.pcs| ensures PcOk(n, n.pcs[u]) {
      if u != t {
        Excluded(s, t, u);
      }
    }
  }

  /** A step that leaves the map alone keeps what the other threads rely on. */
  lemma {:induction false} OthersKept(s: State, t: nat)
    requires DataOk(s) && CanAdvance(s, t) && !s.pcs[t].Writing? && !s.pcs[t].Holding?
    requires PcOk(AdvanceStep(s, t), AdvanceStep(s, t).pcs[t])
    ensures DataOk(AdvanceStep(s, t))
  {
    hide Replay, Lookup;
    var n := AdvanceStep(s, t);
    var _ := AdvanceWeights(s, t);
    assert n.registry == s.registry && n.completed == s.completed && n.torn == s.torn;
    AnswersKept(s, t);
    hide AdvanceStep, AtomicAt;
    forall u | 0 <= u < |s.pcs| ensures PcOk(n, n.pcs[u]) {
      if u != t {
        assert n.pcs[u] == s.pcs[u] && PcOk(s, s.pcs[u]);
      }
    }
    if n.torn {
      var u :| 0 <= u < |s.pcs| && s.pcs[u].Writing?;
      assert n.pcs[u].Writing?;
    }
  }

  lemma {:induction false} AnswersKept(s: State, t: nat)
    requires DataOk(s) && CanAdvance(s, t) && !s.pcs[t].Writing?
    ensures var n := AdvanceStep(s, t);
            forall i :: 0 <= i < |n.answers| ==> Atomic(n.completed, n.answers[i])
  {
    hide AtomicAt, Replay, Lookup;
    var n := AdvanceStep(s, t);
    assert PcOk(s, s.pcs[t]);
    assert n.completed == s.completed;
    forall i | 0 <= i < |n.answers| ensures Atomic(n.completed, n.answers[i]) {
      if i < |s.answers| { assert n.answers[i] == s.answers[i]; }
    }
  }

  /** A reader that is let in finds no writer, so the map it begins to read is whole. */
  lemma {:induction false} WholeForReader(s: State, t: nat)
    requires PermitsOk(s) && DataOk(s) && t < |s.pcs| && ReaderWeight(s.pcs[t]) == 1
    ensures !s.torn
  {
    if s.torn {
      var u :| 0 <= u < |s.pcs| && s.pcs[u].Writing?;
      Excluded(s, u, t);
    }
  }

  lemma {:induction false} OwnKept(s: State, t: nat)
    requires PermitsOk(s) && DataOk(s) && CanAdvance(s, t) && !s.pcs[t].Writing? && !s.pcs[t].Holding?
    ensures PcOk(AdvanceStep(s, t), AdvanceStep(s, t).pcs[t])
  {
    hide Replay, Lookup, Sum;
    assert PcOk(s, s.pcs[t]);
    if ReaderWeight(s.pcs[t]) == 1 { WholeForReader(s, t); }
    assert s.completed[..|s.completed|] == s.completed;
  }

  lemma {:induction false} DataStep(s: State, ev: Event)
    requires PermitsOk(s) && DataOk(s) && Enabled(s, ev)
    ensures DataOk(Step(s, ev))
  {
    hide AdvanceStep, Replay, AtomicAt, PermitsOk;
    match ev
    case Advance(t) =>
      if s.pcs[t].Writing? {
        WriteEnds(s, t);
      } else if s.pcs[t].Holding? {
        WriteBegins(s, t);
      } else {
        OwnKept(s, t);
        OthersKept(s, t);
      }
    case Spawn =>
      var n := Step(s, ev);
      assert forall u :: 0 <= u < |s.pcs| ==> n.pcs[u] == s.pcs[u];
    case Begin(t, op) =>
      var n := Step(s, ev);
      assert forall u :: 0 <= u < |s.pcs| && u != t ==> n.pcs[u] == s.pcs[u];
  }

  // ------------------------------------------------------------ over whole runs

  ghost predicate Inv(s: State)
  {
    PermitsOk(s) && LockOk(s) && DataOk(s)
  }

  lemma {:induction false} InvRun(s: State, evs: seq<Event>)
    requires Inv(s) && IsRun(s, evs)
    ensures Inv(After(s, evs))
    decreases |evs|
  {
    hide Step, Enabled, PermitsOk, LockOk, DataOk;
    if evs != [] {
      PermitsStep(s, evs[0]);
      LockStep(s, evs[0]);
      DataStep(s, evs[0]);
      InvRun(Step(s, evs[0]), evs[1..]);
    }
  }

  lemma {:induction false} Reachable(evs: seq<Event>)
    requires IsRun(INITIAL, evs)
    ensures Inv(After(INITIAL, evs))
  {
    hide IsRun, After;
    assert Inv(INITIAL);
    InvRun(INITIAL, evs);
  }

  /**
   In every reachable state the permits add up, at most 64 readers are inside, and a
   thread that holds the write permits is the only one with permits.
   */
  lemma {:induction false} ReadersOrOneWriter(evs: seq<Event>)
    requires IsRun(INITIAL, evs)
    ensures
      var s := After(INITIAL, evs);
      && s.available + Readers(s) + 64 * Writers(s) == 64
      && 0 <= s.available && Readers(s) <= 64
      && (forall w, t :: 0 <= w < |s.pcs| && 0 <= t < |s.pcs| && w != t && WriterWeight(s.pcs[w]) == 1 ==>
            WriterWeight(s.pcs[t]) == 0 && ReaderWeight(s.pcs[t]) == 0)
  {
    hide IsRun, After, Sum;
    Reachable(evs);
    var s := After(INITIAL, evs);
    forall w, t | 0 <= w < |s.pcs| && 0 <= t < |s.pcs| && w != t && WriterWeight(s.pcs[w]) == 1
      ensures WriterWeight(s.pcs[t]) == 0 && ReaderWeight(s.pcs[t]) == 0
    {
      Excluded(s, w, t);
    }
  }

  /** No thread reads the map while it is half written, and it does not change under a reader. */
  lemma {:induction false} NeverTornUnderReader(evs: seq<Event>, t: nat)
    requires IsRun(INITIAL, evs) && t < |After(INITIAL, evs).pcs|
    requires After(INITIAL, evs).pcs[t].Reading?
    ensures !After(INITIAL, evs).torn && After(INITIAL, evs).pcs[t].saw == After(INITIAL, evs).registry
  {
    hide IsRun, After, PermitsOk, LockOk;
    Reachable(evs);
    assert PcOk(After(INITIAL, evs), After(INITIAL, evs).pcs[t]);
  }

  /**
   Every answer of findHandler is that of a lookup done at one instant between its call
   and its return in a map to which the registrations were applied one at a time.
   */
  lemma {:induction false} FindIsAtomic(evs: seq<Event>, i: nat)
    requires IsRun(INITIAL, evs) && i < |After(INITIAL, evs).answers|
    ensures
      var s := After(INITIAL, evs);
      var a := s.answers[i];
      && a.since <= a.at <= |s.completed|
      && a.result == Lookup(Replay(s.completed[..a.at]), a.key)
  {
    hide IsRun, After, PermitsOk, LockOk;
    Reachable(evs);
    assert Atomic(After(INITIAL, evs).completed, After(INITIAL, evs).answers[i]);
  }

  /** Such a lookup gives the handler of the last of the registrations for its type, or nothing. */
  lemma {:induction false} LookupIsLast(rs: seq<Registration>, k: Key, h: Handler)
    ensures Lookup(Replay(rs), k) == Handlers(h) <==>
              exists i :: 0 <= i < |rs| && rs[i].key == k && rs[i].handler == h && LastFor(rs, i)
    ensures Lookup(Replay(rs), k) == Empty <==> forall i :: 0 <= i < |rs| ==> rs[i].key != k
    decreases |rs|
  {
    if rs != [] {
      var front, n := rs[..|rs| - 1], |rs| - 1;
      LookupIsLast(front, k, h);
      assert forall i :: 0 <= i < n ==> front[i] == rs[i];
      assert LastFor(rs, n);
      if rs[n].key != k {
        LastForFront(rs, k, h);
      } else if Lookup(Replay(rs), k) == Handlers(h) {
        assert rs[n].handler == h;
      }
    }
  }

  predicate LastFor(rs: seq<Registration>, i: nat)
    requires i < |rs|
  {
    forall j :: i < j < |rs| ==> rs[j].key != rs[i].key
  }

  lemma {:induction false} LastForFront(rs: seq<Registration>, k: Key, h: Handler)
    requires rs != [] && rs[|rs| - 1].key != k
    ensures
      var front := rs[..|rs| - 1];
      (exists i :: 0 <= i < |rs| && rs[i].key == k && rs[i].handler == h && LastFor(rs, i)) <==>
      (exists i :: 0 <= i < |front| && front[i].key == k && front[i].handler == h && LastFor(front, i))
  {
    var front := rs[..|rs| - 1];
    assert forall i :: 0 <= i < |front| ==> front[i] == rs[i];
    if i :| 0 <= i < |rs| && rs[i].key == k && rs[i].handler == h && LastFor(rs, i) {
      assert front[i] == rs[i] && LastFor(front, i);
    }
    if i :| 0 <= i < |front| && front[i].key == k && front[i].handler == h && LastFor(front, i) {
      assert rs[i] == front[i] && LastFor(rs, i);
    }
  }

  // -------------------------------------------------------------------- progress

  function Work(s: State): nat { Sum(s.pcs, StepsLeft) }

  lemma {:induction false} AdvanceWorks(s: State, t: nat)
    requires CanAdvance(s, t)
    ensures Work(AdvanceStep(s, t)) == Work(s) - 1
  {
    hide Sum;
    var pc := AdvanceStep(s, t).pcs[t];
    assert AdvanceStep(s, t).pcs == s.pcs[t := pc];
    SumUpdate(s.pcs, t, pc, StepsLeft);
  }

  /** When nobody has a permit, all 64 are available. */
  lemma {:induction false} SomebodyCan(s: State, t: nat)
    requires PermitsOk(s) && LockOk(s) && t < |s.pcs| && s.pcs[t] != Idle
    ensures exists u :: CanAdvance(s, u)
  {
    hide Sum;
    if u :| 0 <= u < |s.pcs| && ReaderWeight(s.pcs[u]) + WriterWeight(s.pcs[u]) > 0 {
      assert CanAdvance(s, u);
    } else {
      SumOfNone(s.pcs, ReaderWeight);
      SumOfNone(s.pcs, WriterWeight);
      if s.owner.OwnedBy? {
        assert HasLock(s.pcs[s.owner.thread]);
        assert CanAdvance(s, s.owner.thread);
      } else {
        assert CanAdvance(s, t);
      }
    }
  }

  /** There is no deadlock: some thread can go on whenever an operation is unfinished. */
  lemma {:induction false} NoDeadlock(evs: seq<Event>)
    requires IsRun(INITIAL, evs)
    ensures
      var s := After(INITIAL, evs);
      (exists t :: 0 <= t < |s.pcs| && s.pcs[t] != Idle) <==> (exists t :: CanAdvance(s, t))
  {
    hide IsRun, After, Inv, PermitsOk, LockOk;
    Reachable(evs);
    var s := After(INITIAL, evs);
    assert PermitsOk(s) && LockOk(s) by { InvParts(s); }
    if t :| 0 <= t < |s.pcs| && s.pcs[t] != Idle {
      SomebodyCan(s, t);
    }
  }

  lemma {:induction false} InvParts(s: State)
    requires Inv(s)
    ensures PermitsOk(s) && LockOk(s)
  {
    hide PermitsOk, LockOk, DataOk;
  }

  predicate OnlyAdvances(evs: seq<Event>)
  {
    forall i :: 0 <= i < |evs| ==> evs[i].Advance?
  }

  /** Each step of a thread is one step of the work that is left. */
  lemma {:induction false} StepsAreWork(s: State, evs: seq<Event>)
    requires IsRun(s, evs) && OnlyAdvances(evs)
    ensures |evs| == Work(s) - Work(After(s, evs))
    decreases |evs|
  {
    if evs != [] {
      AdvanceWorks(s, evs[0].thread);
      hide AdvanceStep, CanAdvance, Work;
      StepsAreWork(Step(s, evs[0]), evs[1..]);
    }
  }

  /**
   Whatever the schedule, the unfinished operations of a reachable state end: without new
   operations no schedule is longer than the work left, and one that cannot be continued
   has finished every operation.
   */
  lemma {:induction false} OperationsEnd(evs: seq<Event>, schedule: seq<Event>)
    requires IsRun(INITIAL, evs) && IsRun(After(INITIAL, evs), schedule) && OnlyAdvances(schedule)
    ensures
      var s := After(INITIAL, evs);
      var e := After(s, schedule);
      && |schedule| <= Work(s)
      && ((forall t :: !CanAdvance(e, t)) ==> forall t :: 0 <= t < |e.pcs| ==> e.pcs[t] == Idle)
  {
    hide IsRun, After, Work, PermitsOk, LockOk, DataOk, CanAdvance;
    var s := After(INITIAL, evs);
    Reachable(evs);
    StepsAreWork(s, schedule);
    InvRun(s, schedule);
    var e := After(s, schedule);
    if t :| 0 <= t < |e.pcs| && e.pcs[t] != Idle {
      SomebodyCan(e, t);
    }
  }
}
