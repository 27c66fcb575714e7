/**
 Equality of generated message classes. Submessages sit behind lazy pointers, and
 a null pointer counts as equal to a default message.
 */
module Equality {
  import opened Wire
  import opened Messages

  /** A value of the given type as an object stores it: submessages may be null, elements not. */
  ghost predicate Stored(reg: Registry, ty: FieldType, v: Value)
    decreases v
  {
    match ty
    case Single(_) => v.One?
    case Packed(_) => v.Many?
    case Blobs => v.Many?
    case Message(name) => name in reg && v.Child? && (v.p.Held? ==> StoredMsg(reg, reg[name], v.p.msg))
    case Messages(name) => (
      && name in reg && v.Children?
      && forall i :: 0 <= i < |v.ps| ==> v.ps[i].Held? && StoredMsg(reg, reg[name], v.ps[i].msg))
    case MapOf(_, value) => (
      && v.Pairs? && TypeOk(ty)
      && forall i :: 0 <= i < |v.entries| ==> !IsNull(v.entries[i].val) && Stored(reg, value, v.entries[i].val))
  }

  ghost predicate StoredMsg(reg: Registry, fields: Fields, m: Msg)
    decreases m
  {
    FieldsOk(fields) && m.fields.Keys == Numbers(fields) &&
    forall i :: 0 <= i < |fields| ==>
      fields[i].number in m.fields && Stored(reg, fields[i].ty, m.fields[fields[i].number])
  }

  // ------------------------------------------------------------------- height

  ghost function Max(a: nat, b: nat): nat { if a < b then b else a }

  ghost function MaxOf(s: set<nat>): (r: nat)
    ensures forall x :: x in s ==> x <= r
  {
    if s == {} then 0 else
      var x :| x in s;
      assert forall y :: y in s ==> y == x || y in s - {x};
      Max(x, MaxOf(s - {x}))
  }

  /** How deeply messages are nested; null pointers do not add to it. */
  ghost function Height(m: Msg): nat
    decreases m, 1
  {
    1 + MaxOf(FieldHeights(m))
  }

  ghost function FieldHeights(m: Msg): set<nat>
    decreases m, 0
  {
    set n | n in m.fields :: ValueHeight(m.fields[n])
  }

  ghost function PointerHeights(ps: seq<Lazy>): set<nat>
    decreases ps, 0
  {
    set i | 0 <= i < |ps| :: PointerHeight(ps[i])
  }

  ghost function PairHeights(es: seq<Pair>): set<nat>
    decreases es, 0
  {
    set i | 0 <= i < |es| :: PairHeight(es[i])
  }

  ghost function ValueHeight(v: Value): nat
    decreases v, 1
  {
    match v
    case Child(p) => PointerHeight(p)
    case Children(ps) => MaxOf(PointerHeights(ps))
    case Pairs(es) => MaxOf(PairHeights(es))
    case _ => 0
  }

  ghost function PointerHeight(p: Lazy): nat
    decreases p, 1
  {
    if p.Null? then 0 else Height(p.msg)
  }

  ghost function PairHeight(e: Pair): nat
    decreases e, 1
  {
    ValueHeight(e.val)
  }

  lemma {:induction false} FieldHeight(m: Msg, n: nat)
    requires n in m.fields
    ensures ValueHeight(m.fields[n]) < Height(m)
  {
    assert ValueHeight(m.fields[n]) in FieldHeights(m);
  }

  lemma {:induction false} ElementHeight(v: Value, i: nat)
    ensures v.Children? && i < |v.ps| ==> PointerHeight(v.ps[i]) <= ValueHeight(v)
    ensures v.Pairs? && i < |v.entries| ==> ValueHeight(v.entries[i].val) <= ValueHeight(v)
  {
    if v.Children? && i < |v.ps| {
      assert PointerHeight(v.ps[i]) in PointerHeights(v.ps);
    }
    if v.Pairs? && i < |v.entries| {
      assert PairHeight(v.entries[i]) in PairHeights(v.entries);
    }
  }

  lemma {:induction false} DefaultHeight(fields: Fields)
    ensures Height(DefaultMsg(fields)) == 1
  {
    var heights := FieldHeights(DefaultMsg(fields));
    forall h | h in heights ensures h == 0
    {
      var n :| n in DefaultMsg(fields).fields && h == ValueHeight(DefaultMsg(fields).fields[n]);
      match TypeOf(fields, n)
      case Messages(_) => NoneHigher(PointerHeights([]));
      case MapOf(_, _) => NoneHigher(PairHeights([]));
      case _ =>
    }
    NoneHigher(heights);
  }

  lemma {:induction false} NoneHigher(s: set<nat>)
    requires forall x :: x in s ==> x == 0
    ensures MaxOf(s) == 0
  {
    if s != {} {
      forall x | x in s ensures MaxOf(s - {x}) == 0
      {
        NoneHigher(s - {x});
      }
    }
  }

  // ----------------------------------------------------------------- equality

  /** What operator* and get() yield. */
  function Deref(reg: Registry, name: Name, p: Lazy): Msg
    requires name in reg
  {
    if p.Null? then DefaultMsg(reg[name]) else p.msg
  }

  lemma {:induction false} DefaultStored(reg: Registry, name: Name)
    requires RegistryOk(reg) && name in reg
    ensures StoredMsg(reg, reg[name], DefaultMsg(reg[name]))
  {
    var fields := reg[name];
    forall i | 0 <= i < |fields|
      ensures fields[i].number in DefaultMsg(fields).fields
      ensures Stored(reg, fields[i].ty, DefaultMsg(fields).fields[fields[i].number])
    {
      TypeOfField(fields, i);
    }
  }

  /** operator == of a generated message class. */
  ghost predicate EqMsg(reg: Registry, fields: Fields, a: Msg, b: Msg)
    requires StoredMsg(reg, fields, a) && StoredMsg(reg, fields, b) && RegistryOk(reg)
    decreases Height(a) + Height(b), 3
  {
    forall i :: 0 <= i < |fields| ==>
      (FieldHeight(a, fields[i].number);
       FieldHeight(b, fields[i].number);
       EqValue(reg, fields[i].ty, a.fields[fields[i].number], b.fields[fields[i].number]))
  }

  ghost predicate EqValue(reg: Registry, ty: FieldType, a: Value, b: Value)
    requires Stored(reg, ty, a) && Stored(reg, ty, b) && RegistryOk(reg)
    decreases ValueHeight(a) + ValueHeight(b) + 2, 2, ty
  {
    match ty
    case Message(name) => (
      DefaultStored(reg, name);
      DefaultHeight(reg[name]);
      || EqPointer(reg, name, a.p, b.p)
      || EqMsg(reg, reg[name], Deref(reg, name, a.p), Deref(reg, name, b.p)))
    case Messages(name) => (
      && |a.ps| == |b.ps|
      && forall i :: 0 <= i < |a.ps| ==>
           (ElementHeight(a, i);
            ElementHeight(b, i);
            EqMsg(reg, reg[name], a.ps[i].msg, b.ps[i].msg)))
    case MapOf(_, value) => (
      // Message maps of the same size with different keys count as different here; the
      // source looks up a missing entry there and dereferences it.
      && |a.entries| == |b.entries|
      && forall i :: 0 <= i < |a.entries| ==>
           (ElementHeight(a, i);
            ElementHeight(b, i);
            a.entries[i].key == b.entries[i].key && EqValue(reg, value, a.entries[i].val, b.entries[i].val)))
    case _ => a == b
  }

  /** operator == of the lazy pointer. */
  ghost predicate EqPointer(reg: Registry, name: Name, a: Lazy, b: Lazy)
    requires name in reg && RegistryOk(reg)
    requires (a.Held? ==> StoredMsg(reg, reg[name], a.msg)) && (b.Held? ==> StoredMsg(reg, reg[name], b.msg))
    decreases PointerHeight(a) + PointerHeight(b) + 2, 1
  {
    DefaultStored(reg, name);
    DefaultHeight(reg[name]);
    if a.Null? then
      b.Null? || EqMsg(reg, reg[name], b.msg, DefaultMsg(reg[name]))
    else if b.Null? then
      EqMsg(reg, reg[name], a.msg, DefaultMsg(reg[name]))
    else
      EqMsg(reg, reg[name], a.msg, b.msg)
  }

  // -------------------------------------------------------------- normal form

  /** The message with every default submessage replaced by null, at every depth. */
  function Norm(reg: Registry, fields: Fields, m: Msg): Msg
    decreases m, 1
  {
    Msg(map n | n in m.fields ::
      if HasField(fields, n) then NormValue(reg, TypeOf(fields, n), m.fields[n]) else m.fields[n])
  }

  function NormValue(reg: Registry, ty: FieldType, v: Value): Value
    decreases v, 1
  {
    match v
    case Child(p) => if ty.Message? && ty.name in reg then Child(NormChild(reg, ty.name, p)) else v
    case Children(ps) => if ty.Messages? && ty.name in reg then Children(NormElements(reg, ty.name, ps)) else v
    case Pairs(es) => if ty.MapOf? then Pairs(NormPairs(reg, ty.value, es)) else v
    case _ => v
  }

  function NormElements(reg: Registry, name: Name, ps: seq<Lazy>): (r: seq<Lazy>)
    requires name in reg
    ensures |r| == |ps| && forall i :: 0 <= i < |ps| ==> r[i] == NormElement(reg, name, ps[i])
    decreases ps, 2
  {
    if ps == [] then [] else [NormElement(reg, name, ps[0])] + NormElements(reg, name, ps[1..])
  }

  function NormPairs(reg: Registry, value: FieldType, es: seq<Pair>): (r: seq<Pair>)
    ensures |r| == |es| && forall i :: 0 <= i < |es| ==> r[i] == NormPair(reg, value, es[i])
    decreases es, 2
  {
    if es == [] then [] else [NormPair(reg, value, es[0])] + NormPairs(reg, value, es[1..])
  }

  function NormElement(reg: Registry, name: Name, p: Lazy): Lazy
    requires name in reg
    decreases p, 1
  {
    if p.Null? then Null else Held(Norm(reg, reg[name], p.msg))
  }

  function NormChild(reg: Registry, name: Name, p: Lazy): Lazy
    requires name in reg
    decreases p, 2
  {
    var q := NormElement(reg, name, p);
    if q == Held(DefaultMsg(reg[name])) then Null else q
  }

  function NormPair(reg: Registry, value: FieldType, e: Pair): Pair
    decreases e, 1
  {
    Pair(e.key, NormValue(reg, value, e.val))
  }

  lemma {:induction false} NormDefault(reg: Registry, name: Name)
    requires name in reg
    ensures Norm(reg, reg[name], DefaultMsg(reg[name])) == DefaultMsg(reg[name])
  {
    var d := DefaultMsg(reg[name]);
    forall n | n in d.fields ensures NormValue(reg, TypeOf(reg[name], n), d.fields[n]) == d.fields[n]
    {
    }
    assert Norm(reg, reg[name], d).fields == d.fields;
  }

  /** Recursive equality decides equality of normal forms. */
  lemma {:induction false} EqIsNormEquality(reg: Registry, fields: Fields, a: Msg, b: Msg)
    requires StoredMsg(reg, fields, a) && StoredMsg(reg, fields, b) && RegistryOk(reg)
    ensures EqMsg(reg, fields, a, b) <==> Norm(reg, fields, a) == Norm(reg, fields, b)
    decreases Height(a) + Height(b), 3
  {
    hide EqValue, NormValue, Stored;
    forall i | 0 <= i < |fields|
      ensures EqValue(reg, fields[i].ty, a.fields[fields[i].number], b.fields[fields[i].number]) <==>
              NormValue(reg, fields[i].ty, a.fields[fields[i].number]) == NormValue(reg, fields[i].ty, b.fields[fields[i].number])
    {
      FieldHeight(a, fields[i].number);
      FieldHeight(b, fields[i].number);
      EqValueIsNormEquality(reg, fields[i].ty, a.fields[fields[i].number], b.fields[fields[i].number]);
    }
    NormFieldwise(reg, fields, a, b);
  }

  lemma {:induction false} NormAt(reg: Registry, fields: Fields, m: Msg, i: nat)
    requires FieldsOk(fields) && m.fields.Keys == Numbers(fields) && i < |fields|
    ensures fields[i].number in m.fields && fields[i].number in Norm(reg, fields, m).fields
    ensures Norm(reg, fields, m).fields[fields[i].number] == NormValue(reg, fields[i].ty, m.fields[fields[i].number])
  {
    hide NormValue;
    TypeOfField(fields, i);
  }

  lemma {:induction false} NormFieldwise(reg: Registry, fields: Fields, a: Msg, b: Msg)
    requires FieldsOk(fields) && a.fields.Keys == Numbers(fields) && b.fields.Keys == Numbers(fields)
    ensures Norm(reg, fields, a) == Norm(reg, fields, b) <==>
      forall i :: 0 <= i < |fields| ==>
        NormValue(reg, fields[i].ty, a.fields[fields[i].number]) == NormValue(reg, fields[i].ty, b.fields[fields[i].number])
  {
    hide NormValue, HasField, TypeOf, FieldsOk;
    var x := Norm(reg, fields, a).fields;
    var y := Norm(reg, fields, b).fields;
    forall i | 0 <= i < |fields|
      ensures fields[i].number in x && fields[i].number in y
      ensures x[fields[i].number] == NormValue(reg, fields[i].ty, a.fields[fields[i].number])
      ensures y[fields[i].number] == NormValue(reg, fields[i].ty, b.fields[fields[i].number])
    {
      NormAt(reg, fields, a, i);
      NormAt(reg, fields, b, i);
    }
    if forall i :: 0 <= i < |fields| ==> x[fields[i].number] == y[fields[i].number] {
      assert x.Keys == y.Keys == Numbers(fields);
      assert x == y;
    }
  }

  lemma {:induction false} EqValueIsNormEquality(reg: Registry, ty: FieldType, a: Value, b: Value)
    requires Stored(reg, ty, a) && Stored(reg, ty, b) && RegistryOk(reg)
    ensures EqValue(reg, ty, a, b) <==> NormValue(reg, ty, a) == NormValue(reg, ty, b)
    decreases ValueHeight(a) + ValueHeight(b) + 2, 2, ty
  {
    match ty
    case Message(name) => EqChildIsNormEquality(reg, name, a.p, b.p);
    case Messages(name) =>
      if |a.ps| == |b.ps| {
        EqElementsIsNormEquality(reg, name, a, b);
      }
    case MapOf(key, value) =>
      if |a.entries| == |b.entries| {
        EqPairsIsNormEquality(reg, key, value, a, b);
      }
    case _ =>
  }

  lemma {:induction false} EqChildIsNormEquality(reg: Registry, name: Name, a: Lazy, b: Lazy)
    requires name in reg && RegistryOk(reg)
    requires (a.Held? ==> StoredMsg(reg, reg[name], a.msg)) && (b.Held? ==> StoredMsg(reg, reg[name], b.msg))
    ensures StoredMsg(reg, reg[name], Deref(reg, name, a)) && StoredMsg(reg, reg[name], Deref(reg, name, b))
    ensures
      var eq := EqPointer(reg, name, a, b);
      && (eq <==> NormChild(reg, name, a) == NormChild(reg, name, b))
      && (EqMsg(reg, reg[name], Deref(reg, name, a), Deref(reg, name, b)) <==> eq)
    decreases PointerHeight(a) + PointerHeight(b) + 2, 1
  {
    hide StoredMsg, EqMsg, Norm, DefaultMsg, Height;
    var d := DefaultMsg(reg[name]);
    DefaultStored(reg, name);
    DefaultHeight(reg[name]);
    NormDefault(reg, name);
    if a.Held? || b.Held? {
      EqIsNormEquality(reg, reg[name], Deref(reg, name, a), Deref(reg, name, b));
    }
    if a.Null? && b.Held? {
      EqIsNormEquality(reg, reg[name], b.msg, d);
    }
    if a.Null? && b.Null? {
      DefaultEqualsItself(reg, name);
    }
  }

  lemma {:induction false} DefaultEqualsItself(reg: Registry, name: Name)
    requires name in reg && RegistryOk(reg)
    ensures StoredMsg(reg, reg[name], DefaultMsg(reg[name]))
    ensures EqMsg(reg, reg[name], DefaultMsg(reg[name]), DefaultMsg(reg[name]))
  {
    DefaultStored(reg, name);
    var fields := reg[name];
    var d := DefaultMsg(fields);
    forall i | 0 <= i < |fields|
      ensures EqValue(reg, fields[i].ty, d.fields[fields[i].number], d.fields[fields[i].number])
    {
      TypeOfField(fields, i);
    }
  }

  lemma {:induction false} EqElementsIsNormEquality(reg: Registry, name: Name, a: Value, b: Value)
    requires Stored(reg, Messages(name), a) && Stored(reg, Messages(name), b) && RegistryOk(reg) && |a.ps| == |b.ps|
    ensures EqValue(reg, Messages(name), a, b) <==> NormValue(reg, Messages(name), a) == NormValue(reg, Messages(name), b)
    decreases ValueHeight(a) + ValueHeight(b) + 2, 1
  {
    hide EqMsg, Norm, StoredMsg;
    forall i | 0 <= i < |a.ps|
      ensures EqMsg(reg, reg[name], a.ps[i].msg, b.ps[i].msg) <==>
              Norm(reg, reg[name], a.ps[i].msg) == Norm(reg, reg[name], b.ps[i].msg)
    {
      ElementHeight(a, i);
      ElementHeight(b, i);
      EqIsNormEquality(reg, reg[name], a.ps[i].msg, b.ps[i].msg);
    }
    var x := NormValue(reg, Messages(name), a).ps;
    var y := NormValue(reg, Messages(name), b).ps;
    assert x == y <==> forall i :: 0 <= i < |x| ==> x[i] == y[i];
  }

  lemma {:induction false} EqPairsIsNormEquality(reg: Registry, key: Kind, value: FieldType, a: Value, b: Value)
    requires Stored(reg, MapOf(key, value), a) && Stored(reg, MapOf(key, value), b) && RegistryOk(reg)
    requires |a.entries| == |b.entries|
    ensures EqValue(reg, MapOf(key, value), a, b) <==>
            NormValue(reg, MapOf(key, value), a) == NormValue(reg, MapOf(key, value), b)
    decreases ValueHeight(a) + ValueHeight(b) + 2, 2, MapOf(key, value), 0
  {
    var x := NormValue(reg, MapOf(key, value), a).entries;
    var y := NormValue(reg, MapOf(key, value), b).entries;
    forall i | 0 <= i < |a.entries|
      ensures EqValue(reg, value, a.entries[i].val, b.entries[i].val) <==>
              NormValue(reg, value, a.entries[i].val) == NormValue(reg, value, b.entries[i].val)
    {
      ElementHeight(a, i);
      ElementHeight(b, i);
      EqValueIsNormEquality(reg, value, a.entries[i].val, b.entries[i].val);
    }
    assert x == y <==> forall i :: 0 <= i < |x| ==> x[i] == y[i];
  }

  /** Equality is an equivalence relation. */
  lemma {:induction false} EqIsEquivalence(reg: Registry, fields: Fields, a: Msg, b: Msg, c: Msg)
    requires RegistryOk(reg) && StoredMsg(reg, fields, a) && StoredMsg(reg, fields, b) && StoredMsg(reg, fields, c)
    ensures EqMsg(reg, fields, a, a)
    ensures EqMsg(reg, fields, a, b) ==> EqMsg(reg, fields, b, a)
    ensures EqMsg(reg, fields, a, b) && EqMsg(reg, fields, b, c) ==> EqMsg(reg, fields, a, c)
  {
    hide EqMsg, Norm, StoredMsg;
    EqIsNormEquality(reg, fields, a, a);
    EqIsNormEquality(reg, fields, a, b);
    EqIsNormEquality(reg, fields, b, a);
    EqIsNormEquality(reg, fields, b, c);
    EqIsNormEquality(reg, fields, a, c);
  }
}
