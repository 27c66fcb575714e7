/**
 What the callers of HandlersRegistry may expect, said of the operations they begin: every
 registration is made, once and in the order of its thread, every lookup is answered, and a
 lookup that begins after a registration returned sees it or a later one.
 */
module HandlersHistory {
  import opened HandlersRegistry

  // ------------------------------------------------ what the events ask for

  /** The registrations that a thread begins, in order. */
  function RegistersBegun(evs: seq<Event>, t: nat): seq<Registration>
  {
    if evs == [] then []
    else
      (match evs[0]
       case Begin(u, Register(k, h)) => if u == t then [Registration(t, k, h)] else []
       case _ => []) + RegistersBegun(evs[1..], t)
  }

  /** The types that a thread looks up, in order. */
  function FindsBegun(evs: seq<Event>, t: nat): seq<Key>
  {
    if evs == [] then []
    else
      (match evs[0]
       case Begin(u, Find(k)) => if u == t then [k] else []
       case _ => []) + FindsBegun(evs[1..], t)
  }

  // ------------------------------------------------------ what was done of it

  function RegistrationsOf(rs: seq<Registration>, t: nat): seq<Registration>
  {
    if rs == [] then []
    else
      var last := rs[|rs| - 1];
      RegistrationsOf(rs[..|rs| - 1], t) + if last.thread == t then [last] else []
  }

  function AnswersOf(answers: seq<Answer>, t: nat): seq<Answer>
  {
    if answers == [] then []
    else
      var last := answers[|answers| - 1];
      AnswersOf(answers[..|answers| - 1], t) + if last.thread == t then [last] else []
  }

  function KeysOf(answers: seq<Answer>): (r: seq<Key>)
    ensures |r| == |answers|
  {
    seq(|answers|, i requires 0 <= i < |answers| => answers[i].key)
  }

  function PcOf(s: State, t: nat): Pc
  {
    if t < |s.pcs| then s.pcs[t] else Idle
  }

  /** The registration that a thread has begun and not yet written. */
  function Unwritten(pc: Pc, t: nat): seq<Registration>
  {
    match pc
    case Lock(Register(k, h), _) => [Registration(t, k, h)]
    case Acquire(Register(k, h), _) => [Registration(t, k, h)]
    case Holding(k, h) => [Registration(t, k, h)]
    case Writing(k, h) => [Registration(t, k, h)]
    case _ => []
  }

  /** The lookup that a thread has begun and not yet returned from. */
  function Unanswered(pc: Pc): seq<Key>
  {
    match pc
    case Lock(Find(k), _) => [k]
    case Acquire(Find(k), _) => [k]
    case Granted(k, _) => [k]
    case Outside(k, _) => [k]
    case Reading(k, _, _) => [k]
    case Leaving(k, _, _, _) => [k]
    case _ => []
  }

  ghost predicate Accounted(s: State, t: nat, registers: seq<Registration>, finds: seq<Key>)
  {
    && registers == RegistrationsOf(s.completed, t) + Unwritten(PcOf(s, t), t)
    && finds == KeysOf(AnswersOf(s.answers, t)) + Unanswered(PcOf(s, t))
  }

  // ------------------------------------------------------------- every step

  lemma {:induction false} RegistrationsAppend(rs: seq<Registration>, r: Registration, t: nat)
    ensures RegistrationsOf(rs + [r], t) == RegistrationsOf(rs, t) + if r.thread == t then [r] else []
  {
    assert (rs + [r])[..|rs|] == rs;
  }

  lemma {:induction false} AnswersAppend(answers: seq<Answer>, a: Answer, t: nat)
    ensures AnswersOf(answers + [a], t) == AnswersOf(answers, t) + if a.thread == t then [a] else []
  {
    assert (answers + [a])[..|answers|] == answers;
  }

  lemma {:induction false} KeysAppend(answers: seq<Answer>, a: Answer)
    ensures KeysOf(answers + [a]) == KeysOf(answers) + [a.key]
  {
  }

  lemma {:induction false} BegunOne(ev: Event, t: nat)
    ensures RegistersBegun([ev], t) ==
            if ev.Begin? && ev.thread == t && ev.op.Register? then [Registration(t, ev.op.key, ev.op.handler)] else []
    ensures FindsBegun([ev], t) == if ev.Begin? && ev.thread == t && ev.op.Find? then [ev.op.key] else []
  {
    var none: seq<Event> := [];
    assert [ev][1..] == none;
  }

  lemma {:induction false} BegunFirst(evs: seq<Event>, t: nat)
    requires evs != []
    ensures RegistersBegun(evs, t) == RegistersBegun([evs[0]], t) + RegistersBegun(evs[1..], t)
    ensures FindsBegun(evs, t) == FindsBegun([evs[0]], t) + FindsBegun(evs[1..], t)
  {
    var none: seq<Event> := [];
    assert [evs[0]][1..] == none;
  }

  lemma {:induction false} OwnStep(s: State, t: nat, registers: seq<Registration>, finds: seq<Key>)
    requires CanAdvance(s, t) && Accounted(s, t, registers, finds)
    ensures Accounted(AdvanceStep(s, t), t, registers, finds)
  {
    hide RegistrationsOf, AnswersOf, KeysOf;
    match s.pcs[t]
    case Writing(k, h) => RegistrationsAppend(s.completed, Registration(t, k, h), t);
    case Leaving(k, since, at, result) =>
      var a := Answer(t, k, since, at, result);
      AnswersAppend(s.answers, a, t);
      KeysAppend(AnswersOf(s.answers, t), a);
    case _ =>
  }

  lemma {:induction false} OtherStep(s: State, u: nat, t: nat, registers: seq<Registration>, finds: seq<Key>)
    requires CanAdvance(s, u) && u != t && Accounted(s, t, registers, finds)
    ensures Accounted(AdvanceStep(s, u), t, registers, finds)
  {
    hide RegistrationsOf, AnswersOf, KeysOf;
    match s.pcs[u]
    case Writing(k, h) => RegistrationsAppend(s.completed, Registration(u, k, h), t);
    case Leaving(k, since, at, result) =>
      AnswersAppend(s.answers, Answer(u, k, since, at, result), t);
      assert AnswersOf(s.answers, t) + [] == AnswersOf(s.answers, t);
    case _ =>
  }

  lemma {:induction false} AccountedStep(s: State, ev: Event, t: nat, registers: seq<Registration>, finds: seq<Key>)
    requires Enabled(s, ev) && Accounted(s, t, registers, finds)
    ensures Accounted(Step(s, ev), t, registers + RegistersBegun([ev], t), finds + FindsBegun([ev], t))
  {
    BegunOne(ev, t);
    hide RegistrationsOf, AnswersOf, KeysOf, RegistersBegun, FindsBegun, AdvanceStep, CanAdvance;
    assert registers + [] == registers && finds + [] == finds;
    match ev
    case Advance(u) => if u == t { OwnStep(s, t, registers, finds); } else { OtherStep(s, u, t, registers, finds); }
    case _ =>
  }

  lemma {:induction false} AccountedRun(s: State, evs: seq<Event>, t: nat, registers: seq<Registration>, finds: seq<Key>)
    requires IsRun(s, evs) && Accounted(s, t, registers, finds)
    ensures Accounted(After(s, evs), t, registers + RegistersBegun(evs, t), finds + FindsBegun(evs, t))
    decreases |evs|
  {
    hide Step, Enabled, Accounted;
    if evs == [] {
      assert registers + RegistersBegun(evs, t) == registers && finds + FindsBegun(evs, t) == finds;
    } else {
      AccountedStep(s, evs[0], t, registers, finds);
      BegunFirst(evs, t);
      var one := [evs[0]];
      hide RegistersBegun, FindsBegun;
      AccountedRun(Step(s, evs[0]), evs[1..], t, registers + RegistersBegun(one, t), finds + FindsBegun(one, t));
      assert registers + RegistersBegun(one, t) + RegistersBegun(evs[1..], t) == registers + RegistersBegun(evs, t);
      assert finds + FindsBegun(one, t) + FindsBegun(evs[1..], t) == finds + FindsBegun(evs, t);
    }
  }

  /**
   In every run and for every thread: the registrations it began are, in order and each
   once, those of it that were written, and the one it has still to write, if any; the
   lookups it began are, in order, those that were answered, and the one it is still in.
   */
  lemma {:induction false} OperationsDone(evs: seq<Event>, t: nat)
    requires IsRun(INITIAL, evs)
    ensures
      var s := After(INITIAL, evs);
      && RegistersBegun(evs, t) == RegistrationsOf(s.completed, t) + Unwritten(PcOf(s, t), t)
      && FindsBegun(evs, t) == KeysOf(AnswersOf(s.answers, t)) + Unanswered(PcOf(s, t))
  {
    hide IsRun, After;
    assert Accounted(INITIAL, t, [], []);
    AccountedRun(INITIAL, evs, t, [], []);
    assert [] + RegistersBegun(evs, t) == RegistersBegun(evs, t) && [] + FindsBegun(evs, t) == FindsBegun(evs, t);
  }

  lemma {:induction false} OfThread(rs: seq<Registration>, t: nat, r: Registration)
    ensures r in RegistrationsOf(rs, t) <==> r in rs && r.thread == t
    decreases |rs|
  {
    if rs != [] {
      OfThread(rs[..|rs| - 1], t, r);
      assert rs == rs[..|rs| - 1] + [rs[|rs| - 1]];
    }
  }

  /** What was written was begun, by the thread that is recorded. */
  lemma {:induction false} WrittenWasBegun(evs: seq<Event>, i: nat)
    requires IsRun(INITIAL, evs) && i < |After(INITIAL, evs).completed|
    ensures
      var r := After(INITIAL, evs).completed[i];
      r in RegistersBegun(evs, r.thread)
  {
    hide IsRun, After, RegistrationsOf;
    var r := After(INITIAL, evs).completed[i];
    OperationsDone(evs, r.thread);
    OfThread(After(INITIAL, evs).completed, r.thread, r);
  }

  /** What a thread has begun is written once the thread is idle again. */
  lemma {:induction false} ReturnedIsWritten(evs: seq<Event>, r: Registration)
    requires IsRun(INITIAL, evs) && r in RegistersBegun(evs, r.thread) && PcOf(After(INITIAL, evs), r.thread) == Idle
    ensures r in After(INITIAL, evs).completed
  {
    hide IsRun, After, RegistrationsOf;
    OperationsDone(evs, r.thread);
    OfThread(After(INITIAL, evs).completed, r.thread, r);
  }

  // --------------------------------------------------------- one lookup followed

  /** The thread is in a lookup that began when `since` registrations were written. */
  predicate InFind(pc: Pc, k: Key, since: nat)
  {
    match pc
    case Lock(op, c) => op == Find(k) && c == since
    case Acquire(op, c) => op == Find(k) && c == since
    case Granted(key, c) => key == k && c == since
    case Outside(key, c) => key == k && c == since
    case Reading(key, c, _) => key == k && c == since
    case Leaving(key, c, _, _) => key == k && c == since
    case _ => false
  }

  /** The lookup after n earlier ones of the thread: under way, or answered. */
  ghost predicate Followed(s: State, t: nat, n: nat, k: Key, since: nat)
  {
    var mine := AnswersOf(s.answers, t);
    if |mine| <= n then |mine| == n && InFind(PcOf(s, t), k, since)
    else mine[n].key == k && mine[n].since == since
  }

  lemma {:induction false} FollowedStep(s: State, ev: Event, t: nat, n: nat, k: Key, since: nat)
    requires Enabled(s, ev) && Followed(s, t, n, k, since)
    ensures Followed(Step(s, ev), t, n, k, since)
  {
    hide AnswersOf;
    if ev.Advance? && s.pcs[ev.thread].Leaving? {
      var pc := s.pcs[ev.thread];
      AnswersAppend(s.answers, Answer(ev.thread, pc.key, pc.since, pc.at, pc.result), t);
    }
  }

  lemma {:induction false} FollowedRun(s: State, evs: seq<Event>, t: nat, n: nat, k: Key, since: nat)
    requires IsRun(s, evs) && Followed(s, t, n, k, since)
    ensures Followed(After(s, evs), t, n, k, since)
    decreases |evs|
  {
    hide Step, Enabled, Followed;
    if evs != [] {
      FollowedStep(s, evs[0], t, n, k, since);
      FollowedRun(Step(s, evs[0]), evs[1..], t, n, k, since);
    }
  }

  lemma {:induction false} WrittenStays(s: State, evs: seq<Event>)
    requires IsRun(s, evs)
    ensures s.completed <= After(s, evs).completed
    decreases |evs|
  {
    if evs != [] {
      WrittenStep(s, evs[0]);
      hide Step, Enabled;
      WrittenStays(Step(s, evs[0]), evs[1..]);
    }
  }

  lemma {:induction false} WrittenStep(s: State, ev: Event)
    requires Enabled(s, ev)
    ensures s.completed <= Step(s, ev).completed
  {
  }

  lemma {:induction false} AnswerOf(answers: seq<Answer>, t: nat, n: nat) returns (i: nat)
    requires n < |AnswersOf(answers, t)|
    ensures i < |answers| && answers[i] == AnswersOf(answers, t)[n]
    decreases |answers|
  {
    var front := answers[..|answers| - 1];
    if n < |AnswersOf(front, t)| {
      i := AnswerOf(front, t, n);
    } else {
      i := |front|;
    }
  }

  lemma {:induction false} LastOne(rs: seq<Registration>, k: Key, j: nat) returns (i: nat)
    requires j < |rs| && rs[j].key == k
    ensures j <= i < |rs| && rs[i].key == k && LastFor(rs, i)
    decreases |rs| - j
  {
    if m :| j < m < |rs| && rs[m].key == k {
      i := LastOne(rs, k, m);
    } else {
      i := j;
    }
  }

  /** The first `at` registrations decide: the last of them for the key. */
  lemma {:induction false} LookupOfPrefix(rs: seq<Registration>, at: nat, k: Key, j: nat) returns (i: nat)
    requires j < at <= |rs| && rs[j].key == k
    ensures i < at && rs[i].key == k && Lookup(Replay(rs[..at]), k) == Handlers(rs[i].handler)
    ensures forall m :: 0 <= m < at && rs[m].key == k ==> m <= i
  {
    hide Replay, Lookup;
    i := LastOne(rs[..at], k, j);
    assert rs[..at][i] == rs[i];
    LookupIsLast(rs[..at], k, rs[i].handler);
    forall m | 0 <= m < at && rs[m].key == k ensures m <= i {
      assert rs[..at][m] == rs[m];
    }
  }

  /** The instant of a lookup that began in the given state. */
  lemma {:induction false} FindInstant(before: seq<Event>, t: nat, k: Key, after: seq<Event>)
    requires IsRun(INITIAL, before) && Enabled(After(INITIAL, before), Begin(t, Find(k)))
    requires IsRun(Step(After(INITIAL, before), Begin(t, Find(k))), after)
    requires
      var b := After(INITIAL, before);
      |AnswersOf(After(Step(b, Begin(t, Find(k))), after).answers, t)| > |AnswersOf(b.answers, t)|
    ensures
      var b := After(INITIAL, before);
      var s := After(Step(b, Begin(t, Find(k))), after);
      var a := AnswersOf(s.answers, t)[|AnswersOf(b.answers, t)|];
      && b.completed <= s.completed && a.key == k
      && |b.completed| <= a.at <= |s.completed| && a.result == Lookup(Replay(s.completed[..a.at]), k)
  {
    hide IsRun, After, AnswersOf, DataOk, PermitsOk, LockOk, Replay, Lookup;
    var b := After(INITIAL, before);
    var begun := Step(b, Begin(t, Find(k)));
    var n := |AnswersOf(b.answers, t)|;
    assert Followed(begun, t, n, k, |b.completed|);
    FollowedRun(begun, after, t, n, k, |b.completed|);
    WrittenStays(begun, after);
    var s := After(begun, after);
    Reachable(before);
    assert Inv(begun) by { InvBegin(b, Begin(t, Find(k))); }
    InvRun(begun, after);
    var i := AnswerOf(s.answers, t, n);
    assert Atomic(s.completed, s.answers[i]) by { AnswersAtomic(s, i); }
  }

  lemma {:induction false} InvBegin(s: State, ev: Event)
    requires Inv(s) && Enabled(s, ev)
    ensures Inv(Step(s, ev))
  {
    hide PermitsOk, LockOk, DataOk, Step, Enabled;
    PermitsStep(s, ev);
    LockStep(s, ev);
    DataStep(s, ev);
  }

  lemma {:induction false} AnswersAtomic(s: State, i: nat)
    requires Inv(s) && i < |s.answers|
    ensures Atomic(s.completed, s.answers[i])
  {
    hide PermitsOk, LockOk, Atomic;
  }

  /**
   A lookup that begins when a registration for its type has returned is answered with the
   handler of a registration for that type that some thread began, and that is no earlier
   than any registration for the type that had been written when the lookup began.
   */
  lemma {:induction false} FindSeesRegistration(
      before: seq<Event>, r: Registration, t: nat, after: seq<Event>) returns (i: nat)
    requires IsRun(INITIAL, before) && Enabled(After(INITIAL, before), Begin(t, Find(r.key)))
    requires r in RegistersBegun(before, r.thread) && PcOf(After(INITIAL, before), r.thread) == Idle
    requires IsRun(Step(After(INITIAL, before), Begin(t, Find(r.key))), after)
    requires
      var b := After(INITIAL, before);
      |AnswersOf(After(Step(b, Begin(t, Find(r.key))), after).answers, t)| > |AnswersOf(b.answers, t)|
    ensures
      var b := After(INITIAL, before);
      var s := After(Step(b, Begin(t, Find(r.key))), after);
      && r in b.completed && b.completed <= s.completed
      && i < |s.completed| && s.completed[i].key == r.key
      && AnswersOf(s.answers, t)[|AnswersOf(b.answers, t)|].result == Handlers(s.completed[i].handler)
      && forall j :: 0 <= j < |b.completed| && b.completed[j].key == r.key ==> j <= i
  {
    hide IsRun, After, AnswersOf, RegistersBegun, Replay, Lookup, Step, Enabled, PcOf;
    ReturnedIsWritten(before, r);
    FindInstant(before, t, r.key, after);
    var b := After(INITIAL, before);
    var s := After(Step(b, Begin(t, Find(r.key))), after);
    var a := AnswersOf(s.answers, t)[|AnswersOf(b.answers, t)|];
    var j :| 0 <= j < |b.completed| && b.completed[j] == r;
    assert s.completed[j] == r;
    i := LookupOfPrefix(s.completed, a.at, r.key, j);
    assert forall m :: 0 <= m < |b.completed| ==> b.completed[m] == s.completed[m];
  }

  /** A lookup finds nothing only if no thread had a registration for the type returned. */
  lemma {:induction false} FindEmpty(before: seq<Event>, t: nat, k: Key, after: seq<Event>, r: Registration)
    requires IsRun(INITIAL, before) && Enabled(After(INITIAL, before), Begin(t, Find(k)))
    requires IsRun(Step(After(INITIAL, before), Begin(t, Find(k))), after)
    requires
      var b := After(INITIAL, before);
      |AnswersOf(After(Step(b, Begin(t, Find(k))), after).answers, t)| > |AnswersOf(b.answers, t)|
    requires
      var b := After(INITIAL, before);
      AnswersOf(After(Step(b, Begin(t, Find(k))), after).answers, t)[|AnswersOf(b.answers, t)|].result == Empty
    ensures r.key == k && r in RegistersBegun(before, r.thread) ==> PcOf(After(INITIAL, before), r.thread) != Idle
  {
    hide IsRun, After, AnswersOf, RegistersBegun, Replay, Lookup, Step, Enabled, PcOf;
    if r.key == k && r in RegistersBegun(before, r.thread) && PcOf(After(INITIAL, before), r.thread) == Idle {
      var _ := FindSeesRegistration(before, r, t, after);
    }
  }
}
