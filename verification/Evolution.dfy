/**
 The main theorems of the codec: decoding a writer's bytes yields the reader's
 view of the message, and decoding a part of them yields the view of the complete
 records in it.
 */
module Evolution {
  import opened Wire
  import opened Messages
  import opened Encoder
  import opened Decoder
  import opened RoundTrip
  import opened Merging

  // --------------------------------------------- the values a property takes on

  /** Reading the bodies one after the other takes a property through the given values. */
  ghost predicate Runs(r: Registry, ty: FieldType, bodies: seq<Bytes>, vals: seq<Value>)
  {
    && |vals| == |bodies| + 1
    && forall i, tail: Bytes, size: nat :: 0 <= i < |bodies| ==>
         ReadValue(r, size, ty, vals[i], bodies[i] + tail) == Got(vals[i + 1], tail)
  }

  /** All bodies short enough for a length that is an int. */
  ghost predicate Short(bodies: seq<Bytes>)
  {
    forall i :: 0 <= i < |bodies| ==> |bodies[i]| <= INT_MAX
  }

  lemma {:induction false} PackedReads(r: Registry, kind: Kind, prior: Value, ss: seq<Scalar>, rest: Bytes, size: nat)
    requires PackedKind(kind) && prior.Many? && forall i :: 0 <= i < |ss| ==> ScalarOk(kind, ss[i])
    requires |Prefixed(Elements(kind, ss))| <= INT_MAX
    ensures ReadValue(r, size, Packed(kind), prior, Prefixed(Elements(kind, ss)) + rest) ==
            Got(Many(if kind == Enum then prior.ss + ss else ss), rest)
  {
    hide BlockEnd, ReadElements, Elements, ScalarOk;
    BlockEndOfPrefixed(size, Elements(kind, ss), rest);
    ElementsRoundTrip(kind, ss, if kind == Enum then prior.ss else [], rest);
    assert [] + ss == ss;
  }

  lemma {:induction false} BlobReads(r: Registry, acc: seq<Scalar>, ss: seq<Scalar>, i: nat, rest: Bytes, size: nat)
    requires (forall j :: 0 <= j < |ss| ==> ScalarOk(Blob, ss[j])) && i < |BlobBodies(ss)|
    requires |BlobBodies(ss)[i]| <= INT_MAX
    ensures i < |ss|
    ensures ReadValue(r, size, Blobs, Many(acc), BlobBodies(ss)[i] + rest) == Got(Many(acc + [ss[i]]), rest)
  {
    if i > 0 {
      BlobReads(r, acc, ss[1..], i - 1, rest, size);
    } else {
      assert ScalarOk(Blob, ss[0]) && BlobBodies(ss)[0] == Prefixed(ss[0].data);
      PrefixedRoundTrip(ss[0].data, rest);
    }
  }

  lemma {:induction false} BlobBodiesLength(ss: seq<Scalar>)
    requires forall j :: 0 <= j < |ss| ==> ScalarOk(Blob, ss[j])
    ensures |BlobBodies(ss)| == |ss|
  {
    if ss != [] { BlobBodiesLength(ss[1..]); }
  }

  lemma {:induction false} BlobRuns(r: Registry, prior: seq<Scalar>, ss: seq<Scalar>) returns (vals: seq<Value>)
    requires (forall j :: 0 <= j < |ss| ==> ScalarOk(Blob, ss[j])) && Short(BlobBodies(ss))
    ensures Runs(r, Blobs, BlobBodies(ss), vals) && vals[0] == Many(prior) && vals[|vals| - 1] == Many(prior + ss)
  {
    hide ReadValue, ScalarOk;
    var bodies := BlobBodies(ss);
    BlobBodiesLength(ss);
    vals := seq(|ss| + 1, i requires 0 <= i <= |ss| => Many(prior + ss[..i]));
    forall i, tail: Bytes, size: nat | 0 <= i < |bodies|
      ensures ReadValue(r, size, Blobs, vals[i], bodies[i] + tail) == Got(vals[i + 1], tail)
    {
      BlobReads(r, prior + ss[..i], ss, i, tail, size);
      assert prior + ss[..i] + [ss[i]] == prior + ss[..i + 1];
    }
    assert ss[..|ss|] == ss && prior + ss[..0] == prior;
  }

  // -------------------------------------------------------------- submessages

  lemma {:induction false} ChildReads(w: Registry, r: Registry, name: Name, p: Lazy, rest: Bytes)
    requires Compatible(w, r) && name in w && name in r
    requires p.Held? && EncodableMsg(w, w[name], p.msg) && |ChildBody(w, name, p)| <= INT_MAX
    ensures ReadChild(r, name, ChildBody(w, name, p) + rest) == Got(View(r, r[name], p.msg), rest)
    decreases p, 0
  {
    var data := Encode(w, w[name], p.msg);
    PrefixedRoundTrip(data, rest);
    DecodeOfEncode(w, r, name, p.msg);
  }

  lemma {:induction false} ChildrenReads(
      w: Registry, r: Registry, name: Name, acc: seq<Lazy>, ps: seq<Lazy>, i: nat, rest: Bytes, size: nat)
    requires Compatible(w, r) && name in w && name in r
    requires forall j :: 0 <= j < |ps| && ps[j].Held? ==> EncodableMsg(w, w[name], ps[j].msg)
    requires i < |ChildBodies(w, name, ps)| && |ChildBodies(w, name, ps)[i]| <= INT_MAX
    ensures i < |ViewChildren(r, name, ps)|
    ensures ReadValue(r, size, Messages(name), Children(acc), ChildBodies(w, name, ps)[i] + rest) ==
            Got(Children(acc + [ViewChildren(r, name, ps)[i]]), rest)
    decreases ps, 0
  {
    if ps[0].Null? {
      ChildrenReads(w, r, name, acc, ps[1..], i, rest, size);
    } else if i > 0 {
      ChildrenReads(w, r, name, acc, ps[1..], i - 1, rest, size);
    } else {
      ChildReads(w, r, name, ps[0], rest);
    }
  }

  lemma {:induction false} ChildBodiesLength(w: Registry, r: Registry, name: Name, ps: seq<Lazy>)
    requires name in w && name in r
    requires forall j :: 0 <= j < |ps| && ps[j].Held? ==> EncodableMsg(w, w[name], ps[j].msg)
    ensures |ChildBodies(w, name, ps)| == |ViewChildren(r, name, ps)|
  {
    if ps != [] { ChildBodiesLength(w, r, name, ps[1..]); }
  }

  lemma {:induction false} ChildRuns(w: Registry, r: Registry, name: Name, prior: seq<Lazy>, ps: seq<Lazy>)
    returns (vals: seq<Value>)
    requires Compatible(w, r) && name in w && name in r
    requires forall j :: 0 <= j < |ps| && ps[j].Held? ==> EncodableMsg(w, w[name], ps[j].msg)
    requires Short(ChildBodies(w, name, ps))
    ensures Runs(r, Messages(name), ChildBodies(w, name, ps), vals)
    ensures vals[0] == Children(prior) && vals[|vals| - 1] == Children(prior + ViewChildren(r, name, ps))
    decreases ps, 1
  {
    hide ReadValue, ChildBodies, EncodableMsg;
    var bodies := ChildBodies(w, name, ps);
    var viewed := ViewChildren(r, name, ps);
    ChildBodiesLength(w, r, name, ps);
    vals := seq(|viewed| + 1, i requires 0 <= i <= |viewed| => Children(prior + viewed[..i]));
    forall i, tail: Bytes, size: nat | 0 <= i < |bodies|
      ensures ReadValue(r, size, Messages(name), vals[i], bodies[i] + tail) == Got(vals[i + 1], tail)
    {
      ChildrenReads(w, r, name, prior + viewed[..i], ps, i, tail, size);
      assert prior + viewed[..i] + [viewed[i]] == prior + viewed[..i + 1];
    }
    assert viewed[..|viewed|] == viewed && prior + viewed[..0] == prior;
  }

  // --------------------------------------------------------------------- maps

  lemma {:induction false} OneRecord(number: nat, wire: nat, bodies: seq<Bytes>, rest: Bytes)
    requires 0 < number <= MAX_FIELD && wire in {VARINT, FIXED64, FIXED32, DELIMITED} && |bodies| == 1
    ensures ReadTag(Flat(Records(number, wire, bodies)) + rest) == Got(Tag(number, wire), bodies[0] + rest)
    ensures |Flat(Records(number, wire, bodies))| > |bodies[0]|
  {
    var recs := Records(number, wire, bodies);
    assert Flat(recs[1..]) == [];
    assert Flat(recs) + rest == Header(number, wire) + (bodies[0] + rest);
    HeaderRoundTrip(number, wire, bodies[0] + rest);
  }

  lemma {:induction false} EntryKey(r: Registry, key: Kind, value: FieldType, e: Pair, k: Scalar, rest: Bytes, end: nat, size: nat)
    requires key != Enum && ScalarOk(key, k) && e.key == DefaultScalar(key) && end <= |rest|
    requires |Flat(Records(1, KindWire(key), ScalarBodies(key, k)))| <= INT_MAX
    ensures ReadPair(r, size, key, value, e, Flat(Records(1, KindWire(key), ScalarBodies(key, k))) + rest, end) ==
            ReadPair(r, size, key, value, Pair(k, e.val), rest, end)
  {
    hide ReadScalar, ReadTag, Header, ScalarOk, Element, ReadValue;
    var bodies := ScalarBodies(key, k);
    if Omitted(key, k) {
      assert Flat(Records(1, KindWire(key), bodies)) + rest == rest;
    } else {
      OneRecord(1, KindWire(key), bodies, rest);
      ScalarRoundTrip(key, k, rest);
    }
  }

  lemma {:induction false} SingleReads(
      w: Registry, r: Registry, ty: FieldType, prior: Value, v: Value, rest: Bytes, size: nat)
    requires Compatible(w, r) && (ty.Single? || (ty.Message? && ty.name in r))
    requires Encodable(w, ty, v) && Bodies(w, ty, v) != [] && |Bodies(w, ty, v)[0]| <= INT_MAX
    ensures |Bodies(w, ty, v)| == 1
    ensures ReadValue(r, size, ty, prior, Bodies(w, ty, v)[0] + rest) == Got(ViewValue(r, ty, v), rest)
    decreases v, 0
  {
    if ty.Single? {
      ScalarRoundTrip(ty.kind, v.s, rest);
    } else {
      ChildReads(w, r, ty.name, v.p, rest);
    }
  }

  /** Only a zero integer is not written. */
  lemma {:induction false} SingleOmitted(w: Registry, r: Registry, ty: FieldType, v: Value)
    requires (ty.Single? || ty.Message?) && Encodable(w, ty, v)
    ensures Bodies(w, ty, v) == [] <==> ty.Single? && IsVarint(ty.kind) && v == One(Num(0))
    ensures Bodies(w, ty, v) == [] ==> Default(ty) == ViewValue(r, ty, v)
    ensures ViewValue(r, ty, v) == One(Num(0)) <==> v == One(Num(0))
  {
  }

  lemma {:induction false} EntryValue(
      w: Registry, r: Registry, key: Kind, value: FieldType, e: Pair, v: Value, rest: Bytes, end: nat, size: nat)
    requires Compatible(w, r) && TypeOk(MapOf(key, value)) && TypeRegistered(r, MapOf(key, value))
    requires Encodable(w, value, v) && e.val == Default(value) && end <= |rest|
    requires |Flat(Records(2, WireOf(value), Bodies(w, value, v)))| <= INT_MAX
    ensures ReadPair(r, size, key, value, e, Flat(Records(2, WireOf(value), Bodies(w, value, v))) + rest, end) ==
            ReadPair(r, size, key, value, Pair(e.key, ViewValue(r, value, v)), rest, end)
    decreases v, 1
  {
    hide ReadTag, Header, ReadValue, ReadScalar, Bodies, ViewValue, Encodable, Default, ReadPair;
    var bodies := Bodies(w, value, v);
    if bodies == [] {
      assert Flat(Records(2, WireOf(value), bodies)) + rest == rest;
      SingleOmitted(w, r, value, v);
    } else {
      PartFits(Records(2, WireOf(value), bodies), 0);
      SingleReads(w, r, value, e.val, v, rest, size);
      OneRecord(2, WireOf(value), bodies, rest);
      hide Flat, Records;
      var bytes := Flat(Records(2, WireOf(value), bodies)) + rest;
      PairValueStep(r, key, value, e, bytes, end, ViewValue(r, value, v), rest, size);
    }
  }

  /** A field of an entry that is not the key replaces the value. */
  lemma {:induction false} PairValueStep(
      r: Registry, key: Kind, value: FieldType, e: Pair, bytes: Bytes, end: nat, v: Value, rest: Bytes, size: nat)
    requires |bytes| != end && ReadTag(bytes).Got? && ReadTag(bytes).value.number != 1
    requires ReadValue(r, size, value, e.val, ReadTag(bytes).rest) == Got(v, rest)
    ensures ReadPair(r, size, key, value, e, bytes, end) == ReadPair(r, size, key, value, Pair(e.key, v), rest, end)
  {
    hide ReadTag, ReadValue, ReadScalar;
  }

  /** A map entry is read back: omitted keys and values come back as defaults. */
  lemma {:induction false} EntryReads(w: Registry, r: Registry, key: Kind, value: FieldType, e: Pair, rest: Bytes, size: nat)
    requires Compatible(w, r) && TypeOk(MapOf(key, value)) && TypeRegistered(r, MapOf(key, value))
    requires ScalarOk(key, e.key) && Encodable(w, value, e.val)
    requires |Entry(w, key, value, e)| <= INT_MAX
    ensures ReadPair(r, size, key, value, Pair(DefaultScalar(key), Default(value)), Entry(w, key, value, e) + rest, |rest|) ==
            Got(ViewPair(r, value, e), rest)
    decreases e, 0
  {
    hide ReadTag, ReadValue, ReadScalar, Flat, ScalarBodies, Bodies, Encodable, ScalarOk, ViewValue;
    var first := Flat(Records(1, KindWire(key), ScalarBodies(key, e.key)));
    var second := Flat(Records(2, WireOf(value), Bodies(w, value, e.val)));
    assert Entry(w, key, value, e) + rest == first + (second + rest);
    EntryKey(r, key, value, Pair(DefaultScalar(key), Default(value)), e.key, second + rest, |rest|, size);
    EntryValue(w, r, key, value, Pair(e.key, Default(value)), e.val, rest, |rest|, size);
  }

  lemma {:induction false} PairReads(
      w: Registry, r: Registry, key: Kind, value: FieldType, acc: seq<Pair>, e: Pair, rest: Bytes, size: nat)
    requires Compatible(w, r) && TypeOk(MapOf(key, value)) && TypeRegistered(r, MapOf(key, value))
    requires ScalarOk(key, e.key) && Encodable(w, value, e.val)
    requires |Prefixed(Entry(w, key, value, e))| <= INT_MAX
    ensures ReadValue(r, size, MapOf(key, value), Pairs(acc), Prefixed(Entry(w, key, value, e)) + rest) ==
            Got(Pairs(Insert(acc, ViewPair(r, value, e))), rest)
    decreases e, 1
  {
    hide BlockEnd, ReadPair, Entry, Insert, Encodable, ScalarOk;
    BlockEndOfPrefixed(size, Entry(w, key, value, e), rest);
    EntryReads(w, r, key, value, e, rest, size);
  }

  ghost predicate PairsOk(w: Registry, key: Kind, value: FieldType, es: seq<Pair>)
  {
    && (forall i :: 0 <= i < |es| ==>
          ScalarOk(key, es[i].key) && (IsNull(es[i].val) || Encodable(w, value, es[i].val)))
    && (forall i, j :: 0 <= i < j < |es| ==> es[i].key != es[j].key)
  }

  lemma {:induction false} PairsReads(
      w: Registry, r: Registry, key: Kind, value: FieldType, acc: seq<Pair>, es: seq<Pair>, i: nat, rest: Bytes, size: nat)
    requires Compatible(w, r) && TypeOk(MapOf(key, value)) && TypeRegistered(r, MapOf(key, value))
    requires PairsOk(w, key, value, es)
    requires i < |PairBodies(w, key, value, es)| == |ViewPairs(r, value, es)|
    requires |PairBodies(w, key, value, es)[i]| <= INT_MAX
    ensures ReadValue(r, size, MapOf(key, value), Pairs(acc), PairBodies(w, key, value, es)[i] + rest) ==
            Got(Pairs(Insert(acc, ViewPairs(r, value, es)[i])), rest)
    decreases es, 0
  {
    hide ReadValue, ViewValue, Entry, Encodable, ScalarOk, Compatible, TypeRegistered, TypeOk, Insert;
    if IsNull(es[0].val) {
      PairsReads(w, r, key, value, acc, es[1..], i, rest, size);
    } else if i > 0 {
      PairsReads(w, r, key, value, acc, es[1..], i - 1, rest, size);
    } else {
      PairReads(w, r, key, value, acc, es[0], rest, size);
    }
  }

  /** The pairs that are transmitted still have distinct keys, all of them keys of the map. */
  lemma {:induction false} ViewedPairs(w: Registry, r: Registry, key: Kind, value: FieldType, es: seq<Pair>)
    requires PairsOk(w, key, value, es)
    ensures |PairBodies(w, key, value, es)| == |ViewPairs(r, value, es)|
    ensures forall i :: 0 <= i < |ViewPairs(r, value, es)| ==>
      exists j :: 0 <= j < |es| && ViewPairs(r, value, es)[i].key == es[j].key
    ensures forall i, j :: 0 <= i < j < |ViewPairs(r, value, es)| ==>
      ViewPairs(r, value, es)[i].key != ViewPairs(r, value, es)[j].key
  {
    hide ViewValue, Encodable, ScalarOk, Entry;
    if es != [] {
      var tail := es[1..];
      ViewedPairs(w, r, key, value, tail);
      assert forall j :: 0 <= j < |tail| ==> tail[j] == es[j + 1];
    }
  }

  lemma {:induction false} PairRunStep(
      w: Registry, r: Registry, key: Kind, value: FieldType, prior: seq<Pair>, es: seq<Pair>, i: nat,
      tail: Bytes, size: nat)
    requires Compatible(w, r) && TypeOk(MapOf(key, value)) && TypeRegistered(r, MapOf(key, value))
    requires PairsOk(w, key, value, es) && DistinctKeys(prior)
    requires i < |PairBodies(w, key, value, es)| == |ViewPairs(r, value, es)|
    requires |PairBodies(w, key, value, es)[i]| <= INT_MAX
    ensures ReadValue(r, size, MapOf(key, value), Pairs(Overwrite(prior, ViewPairs(r, value, es)[..i])),
                      PairBodies(w, key, value, es)[i] + tail) ==
            Got(Pairs(Overwrite(prior, ViewPairs(r, value, es)[..i + 1])), tail)
    decreases es, 1
  {
    hide ReadValue, PairBodies, ViewPairs, Encodable, ScalarOk, Overwrite, DistinctKeys;
    var viewed := ViewPairs(r, value, es);
    ViewedPairs(w, r, key, value, es);
    PairsReads(w, r, key, value, Overwrite(prior, viewed[..i]), es, i, tail, size);
    assert !HasKey(viewed[..i], viewed[i].key);
    OverwriteStep(prior, viewed[..i], viewed[i]);
    assert viewed[..i] + [viewed[i]] == viewed[..i + 1];
  }

  lemma {:induction false} PairRuns(
      w: Registry, r: Registry, key: Kind, value: FieldType, prior: seq<Pair>, es: seq<Pair>) returns (vals: seq<Value>)
    requires Compatible(w, r) && TypeOk(MapOf(key, value)) && TypeRegistered(r, MapOf(key, value))
    requires PairsOk(w, key, value, es) && Short(PairBodies(w, key, value, es)) && DistinctKeys(prior)
    ensures Runs(r, MapOf(key, value), PairBodies(w, key, value, es), vals)
    ensures vals[0] == Pairs(prior) && vals[|vals| - 1] == Pairs(Overwrite(prior, ViewPairs(r, value, es)))
    decreases es, 2
  {
    hide ReadValue, PairBodies, Encodable, ScalarOk, Overwrite, DistinctKeys;
    var bodies := PairBodies(w, key, value, es);
    var viewed := ViewPairs(r, value, es);
    ViewedPairs(w, r, key, value, es);
    vals := seq(|viewed| + 1, i requires 0 <= i <= |viewed| => Pairs(Overwrite(prior, viewed[..i])));
    forall i, tail: Bytes, size: nat | 0 <= i < |bodies|
      ensures ReadValue(r, size, MapOf(key, value), vals[i], bodies[i] + tail) == Got(vals[i + 1], tail)
    {
      PairRunStep(w, r, key, value, prior, es, i, tail, size);
    }
    assert viewed[..|viewed|] == viewed && viewed[..0] == [];
    OverwriteNothing(prior);
  }

  lemma {:induction false} PackedRuns(r: Registry, kind: Kind, prior: Value, ss: seq<Scalar>) returns (vals: seq<Value>)
    requires PackedKind(kind) && prior.Many? && ss != [] && forall i :: 0 <= i < |ss| ==> ScalarOk(kind, ss[i])
    requires |Prefixed(Elements(kind, ss))| <= INT_MAX
    ensures Runs(r, Packed(kind), [Prefixed(Elements(kind, ss))], vals)
    ensures vals[0] == prior && vals[|vals| - 1] == MergeValue(Packed(kind), prior, Many(ss))
  {
    hide ReadValue, ScalarOk, Elements, Prefixed;
    vals := [prior, MergeValue(Packed(kind), prior, Many(ss))];
    forall tail: Bytes, size: nat
      ensures ReadValue(r, size, Packed(kind), prior, Prefixed(Elements(kind, ss)) + tail) == Got(vals[1], tail)
    {
      PackedReads(r, kind, prior, ss, tail, size);
    }
  }

  /** The reader's view of a value has the shape of its property. */
  lemma {:induction false} ViewShaped(w: Registry, r: Registry, ty: FieldType, v: Value)
    requires Encodable(w, ty, v)
    ensures Shaped(ty, ViewValue(r, ty, v))
  {
    hide View, ViewChildren, ViewPairs, EncodableMsg;
    if ty.MapOf? { ViewedPairs(w, r, ty.key, ty.value, v.entries); }
  }

  /**
   The records of a value take a property from whatever it holds to that merged with the
   reader's view of the value.
   */
  lemma {:induction false} FieldRuns(w: Registry, r: Registry, ty: FieldType, prior: Value, v: Value)
    returns (vals: seq<Value>)
    requires Compatible(w, r) && TypeOk(ty) && TypeRegistered(r, ty) && Shaped(ty, prior)
    requires Encodable(w, ty, v) && Short(Bodies(w, ty, v))
    ensures Runs(r, ty, Bodies(w, ty, v), vals)
    ensures vals[0] == prior && vals[|vals| - 1] == MergeValue(ty, prior, ViewValue(r, ty, v))
    decreases v, 2
  {
    hide ReadValue, ScalarOk, Prefixed, Elements, Overwrite, DistinctKeys;
    match ty {
      case Packed(kind) =>
        if v.ss == [] {
          vals := [prior];
          assert prior.ss + [] == prior.ss;
        } else {
          assert |Bodies(w, ty, v)[0]| <= INT_MAX;
          vals := PackedRuns(r, kind, prior, v.ss);
        }
      case Blobs => vals := BlobRuns(r, prior.ss, v.ss);
      case Messages(name) => vals := ChildRuns(w, r, name, prior.ps, v.ps);
      case MapOf(key, value) => vals := PairRuns(w, r, key, value, prior.entries, v.entries);
      case _ => vals := SingleRuns(w, r, ty, prior, v);
    }
  }

  lemma {:induction false} SingleRuns(w: Registry, r: Registry, ty: FieldType, prior: Value, v: Value)
    returns (vals: seq<Value>)
    requires Compatible(w, r) && (ty.Single? || (ty.Message? && ty.name in r))
    requires Encodable(w, ty, v) && Short(Bodies(w, ty, v))
    ensures Runs(r, ty, Bodies(w, ty, v), vals)
    ensures vals[0] == prior && vals[|vals| - 1] == MergeValue(ty, prior, ViewValue(r, ty, v))
    decreases v, 1
  {
    hide ReadValue, Bodies, ViewValue, Encodable, Default;
    SingleOmitted(w, r, ty, v);
    if ty.Single? { VarintKinds(ty.kind); }
    if Bodies(w, ty, v) == [] {
      vals := [prior];
    } else {
      vals := [prior, ViewValue(r, ty, v)];
      SingleReads(w, r, ty, prior, v, [], 0);
      forall tail: Bytes, size: nat
        ensures ReadValue(r, size, ty, prior, Bodies(w, ty, v)[0] + tail) == Got(ViewValue(r, ty, v), tail)
      {
        SingleReads(w, r, ty, prior, v, tail, size);
      }
    }
  }

  // -------------------------------------------- the states an object goes through

  /** Reading the records one after the other takes an object through the given states. */
  ghost predicate Chain(r: Registry, fields: Fields, recs: seq<Bytes>, objs: seq<Msg>)
  {
    && |objs| == |recs| + 1
    && forall i, data: Bytes, tail: Bytes :: 0 <= i < |recs| && Suffix(recs[i] + tail, data) ==>
         ReadRecord(r, fields, objs[i], data, recs[i] + tail) == Got(objs[i + 1], tail)
  }

  lemma {:induction false} ChainConcat(
      r: Registry, fields: Fields, recs: seq<Bytes>, objs: seq<Msg>, recs': seq<Bytes>, objs': seq<Msg>)
    requires Chain(r, fields, recs, objs) && Chain(r, fields, recs', objs') && objs[|recs|] == objs'[0]
    ensures Chain(r, fields, recs + recs', objs + objs'[1..])
  {
    hide ReadRecord;
    var all := recs + recs';
    var states := objs + objs'[1..];
    forall i, data: Bytes, tail: Bytes | 0 <= i < |all| && Suffix(all[i] + tail, data)
      ensures ReadRecord(r, fields, states[i], data, all[i] + tail) == Got(states[i + 1], tail)
    {
      if i >= |recs| {
        var j := i - |recs|;
        assert all[i] == recs'[j] && states[i] == objs'[j] && states[i + 1] == objs'[j + 1];
      }
    }
  }

  lemma {:induction false} RecordNotEmpty(r: Registry, fields: Fields, recs: seq<Bytes>, objs: seq<Msg>)
    requires Chain(r, fields, recs, objs) && recs != []
    ensures recs[0] != []
  {
    hide ReadRecord;
    assert recs[0] + [] == recs[0] && Suffix(recs[0] + [], recs[0]);
  }

  /** No record is empty, so there are at most as many as bytes. */
  lemma {:induction false} ChainLength(r: Registry, fields: Fields, recs: seq<Bytes>, objs: seq<Msg>)
    requires Chain(r, fields, recs, objs)
    ensures |recs| <= |Flat(recs)|
    decreases |recs|
  {
    hide ReadRecord;
    if recs != [] {
      RecordNotEmpty(r, fields, recs, objs);
      assert Chain(r, fields, recs[1..], objs[1..]);
      ChainLength(r, fields, recs[1..], objs[1..]);
    }
  }

  /** Reading a whole chain ends in its last state. */
  lemma {:induction false} ChainReads(
      r: Registry, fields: Fields, recs: seq<Bytes>, objs: seq<Msg>, data: Bytes, tail: Bytes, n: nat)
    requires Chain(r, fields, recs, objs) && Suffix(Flat(recs) + tail, data) && Suffix(tail, data)
    ensures ReadFields(r, fields, objs[0], data, Flat(recs) + tail, |recs| + n) ==
            ReadFields(r, fields, objs[|recs|], data, tail, n)
    decreases |recs|
  {
    hide ReadRecord;
    if recs == [] {
      assert Flat(recs) + tail == tail;
    } else {
      var rest := Flat(recs[1..]) + tail;
      assert Flat(recs) + tail == recs[0] + rest;
      SuffixTail(data, recs[0], rest);
      assert Chain(r, fields, recs[1..], objs[1..]);
      ChainReads(r, fields, recs[1..], objs[1..], data, tail, n);
    }
  }

  /** A container that holds just the chain decodes to its last state. */
  lemma {:induction false} ChainDecodes(r: Registry, fields: Fields, recs: seq<Bytes>, objs: seq<Msg>)
    requires Chain(r, fields, recs, objs)
    ensures
      var data := Flat(recs);
      ReadFields(r, fields, objs[0], data, data, |data|) == Done(objs[|recs|])
  {
    hide Chain, ReadRecord, Flat;
    var data := Flat(recs);
    ChainLength(r, fields, recs, objs);
    assert data + [] == data && Suffix(data, data) && Suffix([], data);
    ChainReads(r, fields, recs, objs, data, [], |data| - |recs|);
  }

  function Put(obj: Msg, number: nat, v: Value): Msg
  {
    Msg(obj.fields[number := v])
  }

  lemma {:induction false} KnownChain(
      r: Registry, fields: Fields, obj: Msg, f: Field, bodies: seq<Bytes>, vals: seq<Value>) returns (objs: seq<Msg>)
    requires 0 < f.number <= MAX_FIELD && HasField(fields, f.number) && TypeOf(fields, f.number) == f.ty
    requires f.number in obj.fields && Runs(r, f.ty, bodies, vals) && obj.fields[f.number] == vals[0]
    ensures Chain(r, fields, Records(f.number, WireOf(f.ty), bodies), objs)
    ensures objs[0] == obj && objs[|bodies|] == Put(obj, f.number, vals[|bodies|])
  {
    hide ReadRecord, ReadValue, Header;
    var recs := Records(f.number, WireOf(f.ty), bodies);
    objs := seq(|vals|, i requires 0 <= i < |vals| => Put(obj, f.number, vals[i]));
    assert obj.fields[f.number := vals[0]] == obj.fields;
    forall i, data: Bytes, tail: Bytes | 0 <= i < |recs| && Suffix(recs[i] + tail, data)
      ensures ReadRecord(r, fields, objs[i], data, recs[i] + tail) == Got(objs[i + 1], tail)
    {
      KnownRecord(r, fields, objs[i], f.number, WireOf(f.ty), bodies[i], vals[i + 1], data, tail);
      assert objs[i].fields[f.number := vals[i + 1]] == objs[i + 1].fields;
    }
  }

  lemma {:induction false} UnknownChain(r: Registry, fields: Fields, obj: Msg, f: Field, bodies: seq<Bytes>)
    requires 0 < f.number <= MAX_FIELD && !HasField(fields, f.number)
    requires forall i :: 0 <= i < |bodies| ==> Complete(WireOf(f.ty), bodies[i])
    ensures Chain(r, fields, Records(f.number, WireOf(f.ty), bodies), seq(|bodies| + 1, _ => obj))
  {
    hide ReadRecord, Header, Complete;
    var recs := Records(f.number, WireOf(f.ty), bodies);
    forall i, data: Bytes, tail: Bytes | 0 <= i < |recs| && Suffix(recs[i] + tail, data)
      ensures ReadRecord(r, fields, obj, data, recs[i] + tail) == Got(obj, tail)
    {
      UnknownRecord(r, fields, obj, f.number, WireOf(f.ty), bodies[i], data, tail);
    }
  }

  // --------------------------------------------------- the shape of the bodies

  lemma {:induction false} BodyComplete(w: Registry, ty: FieldType, v: Value, i: nat)
    requires TypeOk(ty) && Encodable(w, ty, v) && i < |Bodies(w, ty, v)| && |Bodies(w, ty, v)[i]| <= INT_MAX
    ensures Complete(WireOf(ty), Bodies(w, ty, v)[i])
  {
    if ty.Single? {
      ElementIsComplete(ty.kind, v.s);
    } else {
      var data := BodyShape(w, ty, v, i);
    }
  }

  lemma {:induction false} BodyShape(w: Registry, ty: FieldType, v: Value, i: nat) returns (data: Bytes)
    requires !ty.Single? && Encodable(w, ty, v) && i < |Bodies(w, ty, v)|
    ensures Bodies(w, ty, v)[i] == Prefixed(data)
  {
    hide EncodableMsg, Prefixed, ScalarOk;
    match ty {
      case Packed(kind) => data := Elements(kind, v.ss);
      case Blobs => data := BlobBodyShape(v.ss, i);
      case Message(name) => data := Encode(w, w[name], v.p.msg);
      case Messages(name) => data := ChildBodyShape(w, name, v.ps, i);
      case MapOf(key, value) => data := PairBodyShape(w, key, value, v.entries, i);
    }
  }

  lemma {:induction false} BlobBodyShape(ss: seq<Scalar>, i: nat) returns (data: Bytes)
    requires (forall j :: 0 <= j < |ss| ==> ScalarOk(Blob, ss[j])) && i < |BlobBodies(ss)|
    ensures BlobBodies(ss)[i] == Prefixed(data)
  {
    if i == 0 {
      assert ScalarOk(Blob, ss[0]);
      data := ss[0].data;
    } else {
      data := BlobBodyShape(ss[1..], i - 1);
    }
  }

  lemma {:induction false} ChildBodyShape(w: Registry, name: Name, ps: seq<Lazy>, i: nat) returns (data: Bytes)
    requires name in w && forall j :: 0 <= j < |ps| && ps[j].Held? ==> EncodableMsg(w, w[name], ps[j].msg)
    requires i < |ChildBodies(w, name, ps)|
    ensures ChildBodies(w, name, ps)[i] == Prefixed(data)
    decreases |ps|
  {
    hide EncodableMsg;
    if ps[0].Null? {
      data := ChildBodyShape(w, name, ps[1..], i);
    } else if i > 0 {
      data := ChildBodyShape(w, name, ps[1..], i - 1);
    } else {
      data := Encode(w, w[name], ps[0].msg);
    }
  }

  lemma {:induction false} PairBodyShape(w: Registry, key: Kind, value: FieldType, es: seq<Pair>, i: nat)
    returns (data: Bytes)
    requires forall j :: 0 <= j < |es| ==>
      ScalarOk(key, es[j].key) && (IsNull(es[j].val) || Encodable(w, value, es[j].val))
    requires i < |PairBodies(w, key, value, es)|
    ensures PairBodies(w, key, value, es)[i] == Prefixed(data)
    decreases |es|
  {
    hide Encodable, ScalarOk, Entry, Prefixed;
    if IsNull(es[0].val) {
      data := PairBodyShape(w, key, value, es[1..], i);
    } else if i > 0 {
      data := PairBodyShape(w, key, value, es[1..], i - 1);
    } else {
      data := Entry(w, key, value, es[0]);
    }
  }

  // ----------------------------------------------------------- whole messages

  /** The object once the given fields of the message have been read into it. */
  ghost function Partial(r: Registry, fields: Fields, x: Msg, written: Fields, m: Msg): Msg
  {
    Msg(map n | n in Numbers(fields) ::
      if n in m.fields && HasField(written, n)
      then MergeValue(TypeOf(fields, n), Prior(fields, x, n), ViewValue(r, TypeOf(fields, n), m.fields[n]))
      else Prior(fields, x, n))
  }

  lemma {:induction false} HasFieldPrefix(fields: Fields, i: nat, n: nat)
    requires i < |fields|
    ensures HasField(fields[..i + 1], n) <==> HasField(fields[..i], n) || n == fields[i].number
  {
    assert fields[..i + 1] == fields[..i] + [fields[i]];
    if HasField(fields[..i], n) {
      var j :| 0 <= j < i && fields[..i][j].number == n;
      assert fields[..i + 1][j].number == n;
    }
    if n == fields[i].number {
      assert fields[..i + 1][i].number == n;
    }
  }

  lemma {:induction false} PartialUnknown(r: Registry, fields: Fields, x: Msg, written: Fields, m: Msg, i: nat)
    requires i < |written| && !HasField(fields, written[i].number)
    ensures Partial(r, fields, x, written[..i + 1], m) == Partial(r, fields, x, written[..i], m)
  {
    hide MergeValue, ViewValue, Prior;
    forall n | n in Numbers(fields) ensures HasField(written[..i + 1], n) <==> HasField(written[..i], n)
    {
      HasFieldPrefix(written, i, n);
    }
    assert Partial(r, fields, x, written[..i + 1], m).fields == Partial(r, fields, x, written[..i], m).fields;
  }

  lemma {:induction false} PartialKnown(r: Registry, fields: Fields, x: Msg, written: Fields, m: Msg, i: nat)
    requires FieldsOk(written) && i < |written| && written[i].number in m.fields
    requires HasField(fields, written[i].number) && TypeOf(fields, written[i].number) == written[i].ty
    ensures
      var f := written[i];
      var before := Partial(r, fields, x, written[..i], m);
      && f.number in before.fields && before.fields[f.number] == Prior(fields, x, f.number)
      && Partial(r, fields, x, written[..i + 1], m) ==
         Put(before, f.number, MergeValue(f.ty, Prior(fields, x, f.number), ViewValue(r, f.ty, m.fields[f.number])))
  {
    hide MergeValue, ViewValue, Prior;
    var f := written[i];
    forall n | n in Numbers(fields)
      ensures HasField(written[..i + 1], n) <==> HasField(written[..i], n) || n == f.number
    {
      HasFieldPrefix(written, i, n);
    }
    assert !HasField(written[..i], f.number);
    assert Partial(r, fields, x, written[..i + 1], m).fields ==
      Partial(r, fields, x, written[..i], m).fields[
        f.number := MergeValue(f.ty, Prior(fields, x, f.number), ViewValue(r, f.ty, m.fields[f.number]))];
  }

  lemma {:induction false} RecordsShort(number: nat, wire: nat, bodies: seq<Bytes>)
    requires |Flat(Records(number, wire, bodies))| <= INT_MAX
    ensures Short(bodies)
  {
    forall i | 0 <= i < |bodies| ensures |bodies[i]| <= INT_MAX
    {
      PartFits(Records(number, wire, bodies), i);
    }
  }

  lemma {:induction false} KnownFieldChain(
      w: Registry, r: Registry, fields: Fields, x: Msg, written: Fields, m: Msg, i: nat) returns (objs: seq<Msg>)
    requires Compatible(w, r) && FieldsOk(written) && i < |written| && written[i].number in m.fields
    requires HasField(fields, written[i].number) && TypeOf(fields, written[i].number) == written[i].ty
    requires TypeRegistered(r, written[i].ty) && Shaped(written[i].ty, Prior(fields, x, written[i].number))
    requires Encodable(w, written[i].ty, m.fields[written[i].number])
    requires |Flat(FieldRecords(w, written[i], m.fields[written[i].number]))| <= INT_MAX
    ensures Chain(r, fields, FieldRecords(w, written[i], m.fields[written[i].number]), objs)
    ensures objs[0] == Partial(r, fields, x, written[..i], m)
    ensures objs[|objs| - 1] == Partial(r, fields, x, written[..i + 1], m)
    decreases m, 0, 0
  {
    hide ReadRecord, Encodable, Bodies, ViewValue, Partial, ReadValue, Compatible, TypeRegistered, MergeValue, Prior, Shaped;
    var f := written[i];
    var v := m.fields[f.number];
    var bodies := Bodies(w, f.ty, v);
    RecordsShort(f.number, WireOf(f.ty), bodies);
    PartialKnown(r, fields, x, written, m, i);
    var vals := FieldRuns(w, r, f.ty, Prior(fields, x, f.number), v);
    objs := KnownChain(r, fields, Partial(r, fields, x, written[..i], m), f, bodies, vals);
  }

  lemma {:induction false} UnknownFieldChain(
      w: Registry, r: Registry, fields: Fields, x: Msg, written: Fields, m: Msg, i: nat) returns (objs: seq<Msg>)
    requires FieldsOk(written) && i < |written| && written[i].number in m.fields
    requires !HasField(fields, written[i].number)
    requires Encodable(w, written[i].ty, m.fields[written[i].number])
    requires |Flat(FieldRecords(w, written[i], m.fields[written[i].number]))| <= INT_MAX
    ensures Chain(r, fields, FieldRecords(w, written[i], m.fields[written[i].number]), objs)
    ensures objs[0] == Partial(r, fields, x, written[..i], m)
    ensures objs[|objs| - 1] == Partial(r, fields, x, written[..i + 1], m)
  {
    hide ReadRecord, Encodable, Bodies, Partial, Complete;
    var f := written[i];
    var v := m.fields[f.number];
    var obj := Partial(r, fields, x, written[..i], m);
    var bodies := Bodies(w, f.ty, v);
    RecordsShort(f.number, WireOf(f.ty), bodies);
    PartialUnknown(r, fields, x, written, m, i);
    forall k | 0 <= k < |bodies| ensures Complete(WireOf(f.ty), bodies[k])
    {
      BodyComplete(w, f.ty, v, k);
    }
    UnknownChain(r, fields, obj, f, bodies);
    objs := seq(|bodies| + 1, _ => obj);
  }

  /** Two versions of one message type, of which the reader's refers to registered types only. */
  ghost predicate Versions(r: Registry, wf: Fields, rf: Fields)
  {
    && FieldsOk(wf) && FieldsOk(rf)
    && (forall j :: 0 <= j < |rf| ==> TypeRegistered(r, rf[j].ty))
    && forall i, j :: 0 <= i < |wf| && 0 <= j < |rf| && wf[i].number == rf[j].number ==> wf[i].ty == rf[j].ty
  }

  lemma {:induction false} NamedVersions(w: Registry, r: Registry, name: Name)
    requires Compatible(w, r) && name in w && name in r
    ensures Versions(r, w[name], r[name])
  {
  }

  /** The records of one field, known to the reader or not. */
  lemma {:induction false} FieldChain(
      w: Registry, r: Registry, wf: Fields, rf: Fields, x: Msg, m: Msg, i: nat) returns (objs: seq<Msg>)
    requires Compatible(w, r) && Versions(r, wf, rf) && ShapedMsg(rf, x) && EncodableMsg(w, wf, m) && i < |wf|
    requires |Flat(FieldRecords(w, wf[i], m.fields[wf[i].number]))| <= INT_MAX
    ensures Chain(r, rf, FieldRecords(w, wf[i], m.fields[wf[i].number]), objs)
    ensures objs[0] == Partial(r, rf, x, wf[..i], m)
    ensures objs[|objs| - 1] == Partial(r, rf, x, wf[..i + 1], m)
    decreases m, 0
  {
    hide Chain, Partial, FieldRecords, Encodable, Compatible, Shaped;
    var f := wf[i];
    if HasField(rf, f.number) {
      var j :| 0 <= j < |rf| && rf[j].number == f.number;
      TypeOfField(rf, j);
      assert f.number in Numbers(rf);
      objs := KnownFieldChain(w, r, rf, x, wf, m, i);
    } else {
      objs := UnknownFieldChain(w, r, rf, x, wf, m, i);
    }
  }

  lemma {:induction false} MessageChainFrom(
      w: Registry, r: Registry, wf: Fields, rf: Fields, x: Msg, m: Msg, i: nat) returns (objs: seq<Msg>)
    requires Compatible(w, r) && Versions(r, wf, rf) && ShapedMsg(rf, x) && EncodableMsg(w, wf, m) && i <= |wf|
    requires |Flat(RecordsFrom(w, wf, m, i))| <= INT_MAX
    ensures Chain(r, rf, RecordsFrom(w, wf, m, i), objs)
    ensures objs[0] == Partial(r, rf, x, wf[..i], m)
    ensures objs[|objs| - 1] == Merge(r, rf, x, m)
    decreases m, 1, |wf| - i
  {
    hide ReadRecord, ViewValue, Encodable, FieldRecords, Compatible, Versions, ShapedMsg, MergeValue, Prior;
    if i == |wf| {
      assert wf[..i] == wf;
      assert Partial(r, rf, x, wf, m).fields == Merge(r, rf, x, m).fields;
      objs := [Merge(r, rf, x, m)];
    } else {
      var recs := FieldRecords(w, wf[i], m.fields[wf[i].number]);
      var recs' := RecordsFrom(w, wf, m, i + 1);
      FlatConcat(recs, recs');
      var first := FieldChain(w, r, wf, rf, x, m, i);
      var others := MessageChainFrom(w, r, wf, rf, x, m, i + 1);
      ChainConcat(r, rf, recs, first, recs', others);
      objs := first + others[1..];
    }
  }

  /** The top-level records of a message take an object to what merging the message gives. */
  lemma {:induction false} MergeChain(w: Registry, r: Registry, wf: Fields, rf: Fields, x: Msg, m: Msg)
    returns (objs: seq<Msg>)
    requires Compatible(w, r) && Versions(r, wf, rf) && ShapedMsg(rf, x) && EncodableMsg(w, wf, m)
    requires |Encode(w, wf, m)| <= INT_MAX
    ensures Chain(r, rf, RecordsFrom(w, wf, m, 0), objs)
    ensures objs[0] == x && objs[|objs| - 1] == Merge(r, rf, x, m)
    decreases m, 2
  {
    hide Chain, RecordsFrom, View, ViewValue, EncodableMsg, Merge, MergeValue;
    objs := MessageChainFrom(w, r, wf, rf, x, m, 0);
    assert wf[..0] == [];
    assert Partial(r, rf, x, [], m).fields == x.fields;
  }

  /** Merging into a default object gives the reader's view. */
  lemma {:induction false} MergeIntoDefault(w: Registry, r: Registry, wf: Fields, rf: Fields, m: Msg)
    requires Versions(r, wf, rf) && EncodableMsg(w, wf, m)
    ensures Merge(r, rf, DefaultMsg(rf), m) == View(r, rf, m)
  {
    hide ViewValue, MergeValue, Shaped, Default, Versions, EncodableMsg, TypeOf;
    var x := DefaultMsg(rf);
    forall n | n in Numbers(rf)
      ensures Prior(rf, x, n) == Default(TypeOf(rf, n))
      ensures n in m.fields ==>
        MergeValue(TypeOf(rf, n), Prior(rf, x, n), ViewValue(r, TypeOf(rf, n), m.fields[n]))
        == ViewValue(r, TypeOf(rf, n), m.fields[n])
    {
      if n in m.fields {
        ViewedFieldShaped(w, r, wf, rf, m, n);
        MergeDefault(TypeOf(rf, n), ViewValue(r, TypeOf(rf, n), m.fields[n]));
      }
    }
    assert Merge(r, rf, x, m).fields == View(r, rf, m).fields;
  }

  lemma {:induction false} ViewedFieldShaped(w: Registry, r: Registry, wf: Fields, rf: Fields, m: Msg, n: nat)
    requires Versions(r, wf, rf) && EncodableMsg(w, wf, m) && n in Numbers(rf) && n in m.fields
    ensures Shaped(TypeOf(rf, n), ViewValue(r, TypeOf(rf, n), m.fields[n]))
  {
    hide ViewValue, Shaped, Encodable;
    var i :| 0 <= i < |wf| && wf[i].number == n;
    var j :| 0 <= j < |rf| && rf[j].number == n;
    TypeOfField(rf, j);
    ViewShaped(w, r, wf[i].ty, m.fields[n]);
  }

  /** What was merged can be merged into again. */
  lemma {:induction false} MergeKeepsShape(w: Registry, r: Registry, wf: Fields, rf: Fields, x: Msg, m: Msg)
    requires Versions(r, wf, rf) && EncodableMsg(w, wf, m) && ShapedMsg(rf, x)
    ensures ShapedMsg(rf, Merge(r, rf, x, m))
  {
    hide ViewValue, MergeValue, Shaped, Versions, EncodableMsg, TypeOf;
    var merged := Merge(r, rf, x, m);
    forall n | n in Numbers(rf) ensures Shaped(TypeOf(rf, n), merged.fields[n]) {
      if n in m.fields {
        ViewedFieldShaped(w, r, wf, rf, m, n);
        MergeShaped(TypeOf(rf, n), Prior(rf, x, n), ViewValue(r, TypeOf(rf, n), m.fields[n]));
      }
    }
  }

  /** The top-level records of a message take a default object to the reader's view of it. */
  lemma {:induction false} MessageChain(w: Registry, r: Registry, name: Name, m: Msg) returns (objs: seq<Msg>)
    requires Compatible(w, r) && name in w && name in r && EncodableMsg(w, w[name], m)
    requires |Encode(w, w[name], m)| <= INT_MAX
    ensures Chain(r, r[name], RecordsFrom(w, w[name], m, 0), objs)
    ensures objs[0] == DefaultMsg(r[name]) && objs[|objs| - 1] == View(r, r[name], m)
    decreases m, 3
  {
    hide Chain, RecordsFrom, View, EncodableMsg, Merge, DefaultMsg, ShapedMsg, Versions;
    NamedVersions(w, r, name);
    DefaultMsgShaped(r[name]);
    MergeIntoDefault(w, r, w[name], r[name], m);
    objs := MergeChain(w, r, w[name], r[name], DefaultMsg(r[name]), m);
  }

  /**
   Schema evolution. For any two versions of the message types that agree on the
   fields they share, whatever fields either lacks at any depth and in whatever
   order the two iterate, decoding what the writer encodes succeeds and gives the
   reader's view of the message.
   */
  lemma {:induction false} DecodeOfEncode(w: Registry, r: Registry, name: Name, m: Msg)
    requires Compatible(w, r) && name in w && name in r && EncodableMsg(w, w[name], m)
    requires |Encode(w, w[name], m)| <= INT_MAX
    ensures Decode(r, r[name], Encode(w, w[name], m)) == Done(View(r, r[name], m))
    decreases m, 4
  {
    hide RecordsFrom, View, EncodableMsg, ReadRecord;
    var objs := MessageChain(w, r, name, m);
    var recs := RecordsFrom(w, w[name], m, 0);
    ChainDecodes(r, r[name], recs, objs);
  }

  /** The same for a single message type that need not be registered. */
  lemma {:induction false} DecodeOfFields(w: Registry, r: Registry, wf: Fields, rf: Fields, m: Msg)
    requires Compatible(w, r) && Versions(r, wf, rf) && EncodableMsg(w, wf, m) && |Encode(w, wf, m)| <= INT_MAX
    ensures Decode(r, rf, Encode(w, wf, m)) == Done(View(r, rf, m))
  {
    hide RecordsFrom, View, EncodableMsg, ReadRecord, Merge, ShapedMsg, Versions, DefaultMsg;
    DefaultMsgShaped(rf);
    MergeIntoDefault(w, r, wf, rf, m);
    var objs := MergeChain(w, r, wf, rf, DefaultMsg(rf), m);
    ChainDecodes(r, rf, RecordsFrom(w, wf, m, 0), objs);
  }

  /**
   Two encodings one after the other, from writers of any two versions: the second message
   is merged, property by property, into the first.
   */
  lemma {:induction false} DecodeOfTwo(
      w1: Registry, w2: Registry, r: Registry, wf1: Fields, wf2: Fields, rf: Fields, m1: Msg, m2: Msg)
    requires Compatible(w1, r) && Versions(r, wf1, rf) && EncodableMsg(w1, wf1, m1)
    requires Compatible(w2, r) && Versions(r, wf2, rf) && EncodableMsg(w2, wf2, m2)
    requires |Encode(w1, wf1, m1)| <= INT_MAX && |Encode(w2, wf2, m2)| <= INT_MAX
    ensures Decode(r, rf, Encode(w1, wf1, m1) + Encode(w2, wf2, m2)) == Done(Merge(r, rf, View(r, rf, m1), m2))
  {
    hide RecordsFrom, View, EncodableMsg, ReadRecord, Merge, ShapedMsg, Versions, DefaultMsg, Chain, Compatible;
    DefaultMsgShaped(rf);
    MergeIntoDefault(w1, r, wf1, rf, m1);
    MergeKeepsShape(w1, r, wf1, rf, DefaultMsg(rf), m1);
    var x := View(r, rf, m1);
    var recs1, recs2 := RecordsFrom(w1, wf1, m1, 0), RecordsFrom(w2, wf2, m2, 0);
    var first := MergeChain(w1, r, wf1, rf, DefaultMsg(rf), m1);
    var second := MergeChain(w2, r, wf2, rf, x, m2);
    assert |first| == |recs1| + 1 && |second| == |recs2| + 1 by { ChainSize(r, rf, recs1, first); ChainSize(r, rf, recs2, second); }
    ChainConcat(r, rf, recs1, first, recs2, second);
    ChainDecodes(r, rf, recs1 + recs2, first + second[1..]);
    FlatConcat(recs1, recs2);
  }

  lemma {:induction false} ChainSize(r: Registry, fields: Fields, recs: seq<Bytes>, objs: seq<Msg>)
    requires Chain(r, fields, recs, objs)
    ensures |objs| == |recs| + 1
  {
  }
}
