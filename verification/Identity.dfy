/** The round trip proper: same fields on both sides, in whatever order they iterate. */
module Identity {
  import opened Wire
  import opened Messages
  import opened Encoder
  import opened Decoder
  import opened RoundTrip
  import opened Evolution
  import opened Equality

  ghost predicate SameFields(a: Fields, b: Fields)
  {
    && (forall i :: 0 <= i < |a| ==> HasField(b, a[i].number) && TypeOf(b, a[i].number) == a[i].ty)
    && (forall j :: 0 <= j < |b| ==> HasField(a, b[j].number))
  }

  /** The same message types, the tables of fields iterating in different orders. */
  ghost predicate Reordered(w: Registry, r: Registry)
  {
    && RegistryOk(w) && RegistryOk(r) && w.Keys == r.Keys
    && forall name :: name in w ==> SameFields(w[name], r[name])
  }

  lemma {:induction false} ReorderedIsCompatible(w: Registry, r: Registry)
    requires Reordered(w, r)
    ensures Compatible(w, r)
  {
    forall name, i, j | name in w && name in r && 0 <= i < |w[name]| && 0 <= j < |r[name]|
                        && w[name][i].number == r[name][j].number
      ensures w[name][i].ty == r[name][j].ty
    {
      TypeOfField(r[name], j);
    }
  }

  // -------------------------------------------- when nothing is lost on the way

  /** No list or map of the message has a null element, at any depth. */
  ghost predicate NoNullElements(m: Msg)
    decreases m
  {
    forall n :: n in m.fields ==> NoNullsIn(m.fields[n])
  }

  ghost predicate NoNullsIn(v: Value)
    decreases v
  {
    match v
    case Child(p) => p.Held? ==> NoNullElements(p.msg)
    case Children(ps) => forall i :: 0 <= i < |ps| ==> ps[i].Held? && NoNullElements(ps[i].msg)
    case Pairs(es) => forall i :: 0 <= i < |es| ==> !IsNull(es[i].val) && NoNullsIn(es[i].val)
    case _ => true
  }

  lemma {:induction false} ViewOfChildren(w: Registry, r: Registry, name: Name, ps: seq<Lazy>)
    requires Reordered(w, r) && name in w
    requires forall i :: 0 <= i < |ps| && ps[i].Held? ==> EncodableMsg(w, w[name], ps[i].msg)
    ensures |ViewChildren(r, name, ps)| <= |ps|
    ensures ViewChildren(r, name, ps) == ps <==> NoNullsIn(Children(ps))
    decreases ps, 0
  {
    hide EncodableMsg, View, NoNullElements;
    if ps != [] {
      var tail := ps[1..];
      ViewOfChildren(w, r, name, tail);
      assert NoNullsIn(Children(ps)) <==> ps[0].Held? && NoNullElements(ps[0].msg) && NoNullsIn(Children(tail)) by {
        assert ps == [ps[0]] + tail;
      }
      if ps[0].Held? {
        ViewOfLazy(w, r, name, ps[0]);
        assert ViewChildren(r, name, ps) == [ViewLazy(r, name, ps[0])] + ViewChildren(r, name, tail);
        assert [ViewLazy(r, name, ps[0])] + ViewChildren(r, name, tail) == [ps[0]] + tail <==>
               ViewLazy(r, name, ps[0]) == ps[0] && ViewChildren(r, name, tail) == tail by {
          HeadAndTail(ViewLazy(r, name, ps[0]), ViewChildren(r, name, tail), ps[0], tail);
        }
        assert ps == [ps[0]] + tail;
      }
    }
  }

  lemma {:induction false} HeadAndTail<T>(a: T, s: seq<T>, b: T, t: seq<T>)
    ensures [a] + s == [b] + t <==> a == b && s == t
  {
    if [a] + s == [b] + t {
      assert ([a] + s)[0] == ([b] + t)[0];
      assert s == ([a] + s)[1..] && t == ([b] + t)[1..];
    }
  }

  lemma {:induction false} ViewOfLazy(w: Registry, r: Registry, name: Name, p: Lazy)
    requires Reordered(w, r) && name in w && p.Held? && EncodableMsg(w, w[name], p.msg)
    ensures ViewLazy(r, name, p) == p <==> NoNullElements(p.msg)
    decreases p, 0
  {
    ViewIsIdentity(w, r, name, p.msg);
  }

  lemma {:induction false} ViewOfPairs(w: Registry, r: Registry, key: Kind, value: FieldType, es: seq<Pair>)
    requires Reordered(w, r) && PairsOk(w, key, value, es) && TypeOk(MapOf(key, value))
    ensures |ViewPairs(r, value, es)| <= |es|
    ensures ViewPairs(r, value, es) == es <==> NoNullsIn(Pairs(es))
    decreases es, 0
  {
    hide Encodable, ViewValue, ScalarOk;
    if es != [] {
      var tail := es[1..];
      ViewOfPairs(w, r, key, value, tail);
      assert es == [es[0]] + tail;
      assert NoNullsIn(Pairs(es)) <==> !IsNull(es[0].val) && NoNullsIn(es[0].val) && NoNullsIn(Pairs(tail));
      if !IsNull(es[0].val) {
        ViewOfPair(w, r, value, es[0]);
        HeadAndTail(ViewPair(r, value, es[0]), ViewPairs(r, value, tail), es[0], tail);
      }
    }
  }

  lemma {:induction false} ViewOfPair(w: Registry, r: Registry, value: FieldType, e: Pair)
    requires Reordered(w, r) && Encodable(w, value, e.val) && (value.Single? || value.Message?)
    ensures ViewPair(r, value, e) == e <==> NoNullsIn(e.val)
    decreases e, 0
  {
    ViewOfValue(w, r, value, e.val);
  }

  lemma {:induction false} ViewOfValue(w: Registry, r: Registry, ty: FieldType, v: Value)
    requires Reordered(w, r) && TypeOk(ty) && Encodable(w, ty, v)
    ensures ViewValue(r, ty, v) == v <==> NoNullsIn(v)
    decreases v, 0
  {
    hide EncodableMsg, NoNullElements, View;
    match ty
    case Message(name) => ViewOfLazy(w, r, name, v.p);
    case Messages(name) => ViewOfChildren(w, r, name, v.ps);
    case MapOf(key, value) => ViewOfPairs(w, r, key, value, v.entries);
    case _ =>
  }

  lemma {:induction false} ViewAt(w: Registry, r: Registry, name: Name, m: Msg, n: nat)
    requires Reordered(w, r) && name in w && EncodableMsg(w, w[name], m) && n in m.fields
    ensures n in View(r, r[name], m).fields
    ensures View(r, r[name], m).fields[n] == m.fields[n] <==> NoNullsIn(m.fields[n])
    decreases m, 0
  {
    hide Encodable, ViewValue, NoNullsIn;
    var i :| 0 <= i < |w[name]| && w[name][i].number == n;
    assert SameFields(w[name], r[name]);
    assert n in Numbers(r[name]);
    ViewOfValue(w, r, w[name][i].ty, m.fields[n]);
  }

  lemma {:induction false} ReorderedFields(w: Registry, r: Registry, name: Name)
    requires Reordered(w, r) && name in w
    ensures name in r && SameFields(w[name], r[name])
  {
  }

  lemma {:induction false} SameNumbers(a: Fields, b: Fields)
    requires SameFields(a, b)
    ensures Numbers(a) == Numbers(b)
  {
    forall n | n in Numbers(b) ensures n in Numbers(a)
    {
      var j :| 0 <= j < |b| && b[j].number == n;
    }
  }

  /** A reader with the same fields sees the message itself exactly when it has no null elements. */
  lemma {:induction false} ViewIsIdentity(w: Registry, r: Registry, name: Name, m: Msg)
    requires Reordered(w, r) && name in w && EncodableMsg(w, w[name], m)
    ensures View(r, r[name], m) == m <==> NoNullElements(m)
    decreases m, 1
  {
    hide Encodable, ViewValue, NoNullsIn, Reordered, Numbers, TypeOf;
    assert SameFields(w[name], r[name]) by { ReorderedFields(w, r, name); }
    var x := View(r, r[name], m).fields;
    forall n | n in m.fields
      ensures n in x && (x[n] == m.fields[n] <==> NoNullsIn(m.fields[n]))
    {
      ViewAt(w, r, name, m, n);
    }
    SameNumbers(w[name], r[name]);
    assert x == m.fields <==> forall n :: n in m.fields ==> x[n] == m.fields[n];
  }

  /**
   Round trip: with the same message types on both sides and any iteration orders,
   a message is decoded from its own encoding exactly when it has no null elements.
   */
  lemma {:induction false} RoundTripIff(w: Registry, r: Registry, name: Name, m: Msg)
    requires Reordered(w, r) && name in w && EncodableMsg(w, w[name], m)
    requires |Encode(w, w[name], m)| <= INT_MAX
    ensures Decode(r, r[name], Encode(w, w[name], m)).Done?
    ensures Decode(r, r[name], Encode(w, w[name], m)) == Done(m) <==> NoNullElements(m)
  {
    hide Encode, Decode, View, EncodableMsg, NoNullElements;
    ReorderedIsCompatible(w, r);
    DecodeOfEncode(w, r, name, m);
    ViewIsIdentity(w, r, name, m);
  }

  // ------------------------------------------ objects with lazily created children

  /**
   `v` is what reading a property gives that stores `v0`: null submessages have been
   created by get(), at every depth.
   */
  ghost predicate ReadOf(reg: Registry, ty: FieldType, v0: Value, v: Value)
    decreases v
  {
    match ty
    case Message(name) => (
      && name in reg && v0.Child? && v.Child? && v.p.Held?
      && ReadOfMsg(reg, reg[name], Deref(reg, name, v0.p), v.p.msg))
    case Messages(name) => (
      && name in reg && v0.Children? && v.Children? && |v0.ps| == |v.ps|
      && forall i :: 0 <= i < |v.ps| ==>
           v0.ps[i].Held? && v.ps[i].Held? && ReadOfMsg(reg, reg[name], v0.ps[i].msg, v.ps[i].msg))
    case MapOf(_, value) => (
      && v0.Pairs? && v.Pairs? && |v0.entries| == |v.entries|
      && forall i :: 0 <= i < |v.entries| ==>
           v0.entries[i].key == v.entries[i].key && ReadOf(reg, value, v0.entries[i].val, v.entries[i].val))
    case _ => v == v0
  }

  ghost predicate ReadOfMsg(reg: Registry, fields: Fields, m0: Msg, m: Msg)
    decreases m
  {
    m0.fields.Keys == Numbers(fields) && m.fields.Keys == Numbers(fields) &&
    forall i :: 0 <= i < |fields| ==>
      fields[i].number in m.fields && fields[i].number in m0.fields &&
      ReadOf(reg, fields[i].ty, m0.fields[fields[i].number], m.fields[fields[i].number])
  }

  lemma {:induction false} ReadKeepsNorm(reg: Registry, fields: Fields, m0: Msg, m: Msg)
    requires RegistryOk(reg) && StoredMsg(reg, fields, m0) && ReadOfMsg(reg, fields, m0, m)
    ensures StoredMsg(reg, fields, m) && Norm(reg, fields, m0) == Norm(reg, fields, m)
    decreases m, 1
  {
    hide Stored, NormValue, ReadOf, Norm;
    forall i | 0 <= i < |fields|
      ensures Stored(reg, fields[i].ty, m.fields[fields[i].number])
      ensures NormValue(reg, fields[i].ty, m0.fields[fields[i].number]) == NormValue(reg, fields[i].ty, m.fields[fields[i].number])
    {
      ReadKeepsNormValue(reg, fields[i].ty, m0.fields[fields[i].number], m.fields[fields[i].number]);
    }
    NormFieldwise(reg, fields, m0, m);
  }

  lemma {:induction false} ReadKeepsNormValue(reg: Registry, ty: FieldType, v0: Value, v: Value)
    requires RegistryOk(reg) && Stored(reg, ty, v0) && ReadOf(reg, ty, v0, v)
    ensures Stored(reg, ty, v) && NormValue(reg, ty, v0) == NormValue(reg, ty, v)
    decreases v, 1
  {
    match ty
    case Message(name) => ReadKeepsNormChild(reg, name, v0.p, v.p);
    case Messages(name) => ReadKeepsNormElements(reg, name, v0, v);
    case MapOf(key, value) => ReadKeepsNormPairs(reg, key, value, v0, v);
    case _ =>
  }

  lemma {:induction false} ReadKeepsNormElements(reg: Registry, name: Name, v0: Value, v: Value)
    requires RegistryOk(reg) && Stored(reg, Messages(name), v0) && ReadOf(reg, Messages(name), v0, v)
    ensures Stored(reg, Messages(name), v) && NormValue(reg, Messages(name), v0) == NormValue(reg, Messages(name), v)
    decreases v, 0
  {
    hide StoredMsg, Norm, ReadOfMsg;
    forall i | 0 <= i < |v.ps|
      ensures StoredMsg(reg, reg[name], v.ps[i].msg)
      ensures NormElement(reg, name, v0.ps[i]) == NormElement(reg, name, v.ps[i])
    {
      ReadKeepsNorm(reg, reg[name], v0.ps[i].msg, v.ps[i].msg);
    }
    assert NormElements(reg, name, v0.ps) == NormElements(reg, name, v.ps);
  }

  lemma {:induction false} ReadKeepsNormPairs(reg: Registry, key: Kind, value: FieldType, v0: Value, v: Value)
    requires RegistryOk(reg) && Stored(reg, MapOf(key, value), v0) && ReadOf(reg, MapOf(key, value), v0, v)
    ensures Stored(reg, MapOf(key, value), v)
    ensures NormValue(reg, MapOf(key, value), v0) == NormValue(reg, MapOf(key, value), v)
    decreases v, 0
  {
    hide StoredMsg, Norm, ReadOfMsg;
    forall i | 0 <= i < |v.entries|
      ensures !IsNull(v.entries[i].val) && Stored(reg, value, v.entries[i].val)
      ensures NormPair(reg, value, v0.entries[i]) == NormPair(reg, value, v.entries[i])
    {
      ReadKeepsNormValue(reg, value, v0.entries[i].val, v.entries[i].val);
    }
    assert NormPairs(reg, value, v0.entries) == NormPairs(reg, value, v.entries);
  }

  lemma {:induction false} ReadKeepsNormChild(reg: Registry, name: Name, p0: Lazy, p: Lazy)
    requires RegistryOk(reg) && name in reg && p.Held? && (p0.Held? ==> StoredMsg(reg, reg[name], p0.msg))
    requires ReadOfMsg(reg, reg[name], Deref(reg, name, p0), p.msg)
    ensures StoredMsg(reg, reg[name], p.msg) && NormChild(reg, name, p0) == NormChild(reg, name, p)
    decreases p, 1
  {
    hide StoredMsg, Norm, DefaultMsg, ReadOfMsg;
    DefaultStored(reg, name);
    NormDefault(reg, name);
    ReadKeepsNorm(reg, reg[name], Deref(reg, name, p0), p.msg);
  }

  /** Creating null submessages on access, as operator* and get() do, is not visible to operator ==. */
  lemma {:induction false} ReadIsEqual(reg: Registry, name: Name, m0: Msg, m: Msg)
    requires RegistryOk(reg) && name in reg && StoredMsg(reg, reg[name], m0) && ReadOfMsg(reg, reg[name], m0, m)
    ensures StoredMsg(reg, reg[name], m) && EqMsg(reg, reg[name], m0, m)
  {
    hide StoredMsg, Norm, EqMsg, ReadOfMsg;
    ReadKeepsNorm(reg, reg[name], m0, m);
    EqIsNormEquality(reg, reg[name], m0, m);
  }

  lemma {:induction false} StoredHasNoNulls(reg: Registry, fields: Fields, m: Msg)
    requires StoredMsg(reg, fields, m)
    ensures NoNullElements(m)
    decreases m, 1
  {
    hide Stored, NoNullsIn;
    forall n | n in m.fields ensures NoNullsIn(m.fields[n])
    {
      var i :| 0 <= i < |fields| && fields[i].number == n;
      StoredValueHasNoNulls(reg, fields[i].ty, m.fields[n]);
    }
  }

  lemma {:induction false} StoredValueHasNoNulls(reg: Registry, ty: FieldType, v: Value)
    requires Stored(reg, ty, v)
    ensures NoNullsIn(v)
    decreases v, 1
  {
    match ty
    case Message(name) =>
      if v.p.Held? { StoredHasNoNulls(reg, reg[name], v.p.msg); }
    case Messages(name) =>
      forall i | 0 <= i < |v.ps| ensures NoNullElements(v.ps[i].msg)
      {
        StoredHasNoNulls(reg, reg[name], v.ps[i].msg);
      }
    case MapOf(key, value) =>
      forall i | 0 <= i < |v.entries| ensures NoNullsIn(v.entries[i].val)
      {
        StoredValueHasNoNulls(reg, value, v.entries[i].val);
      }
    case _ =>
  }

  /**
   The round trip of stored objects: what is decoded from the bytes of an object, as
   serialization reads it, is equal to that object under the library's own equality.
   */
  lemma {:induction false} StoredRoundTrip(w: Registry, r: Registry, name: Name, m0: Msg, m: Msg)
    requires Reordered(w, r) && name in w && StoredMsg(w, w[name], m0)
    requires ReadOfMsg(w, w[name], m0, m) && EncodableMsg(w, w[name], m)
    requires |Encode(w, w[name], m)| <= INT_MAX
    ensures Decode(r, r[name], Encode(w, w[name], m)) == Done(m)
    ensures StoredMsg(w, w[name], m) && EqMsg(w, w[name], m0, m)
  {
    hide StoredMsg, EncodableMsg, Encode, Decode, EqMsg, NoNullElements, ReadOfMsg;
    ReadIsEqual(w, name, m0, m);
    StoredHasNoNulls(w, w[name], m);
    RoundTripIff(w, r, name, m);
  }
}
