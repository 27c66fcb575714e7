/**
 What reading a message into an object that already holds values makes of it, property by
 property: a later value replaces an earlier one, lists grow, maps are overwritten key by
 key, and what is not written stays.
 */
module Merging {
  import opened Wire
  import opened Messages
  import opened Decoder
  import opened RoundTrip

  // --------------------------------------------------------------------- maps

  predicate HasKey(es: seq<Pair>, k: Scalar)
  {
    exists i :: 0 <= i < |es| && es[i].key == k
  }

  function ValueAt(es: seq<Pair>, k: Scalar): (v: Value)
    requires HasKey(es, k)
    ensures exists i :: 0 <= i < |es| && es[i] == Pair(k, v)
  {
    if es[0].key == k then
      assert es[0] == Pair(k, es[0].val);
      es[0].val
    else
      assert HasKey(es[1..], k) by {
        var i :| 0 <= i < |es| && es[i].key == k;
        assert es[1..][i - 1].key == k;
      }
      var v := ValueAt(es[1..], k);
      assert forall i :: 0 <= i < |es| - 1 ==> es[1..][i] == es[i + 1];
      v
  }

  predicate DistinctKeys(es: seq<Pair>)
  {
    forall i, j :: 0 <= i < j < |es| ==> es[i].key != es[j].key
  }

  /** The pairs of `a`, with the values that `b` has for their keys. */
  function Kept(a: seq<Pair>, b: seq<Pair>): (r: seq<Pair>)
    ensures |r| == |a|
  {
    seq(|a|, i requires 0 <= i < |a| =>
      if HasKey(b, a[i].key) then Pair(a[i].key, ValueAt(b, a[i].key)) else a[i])
  }

  /** The pairs of `b` whose keys are new. */
  function Added(a: seq<Pair>, b: seq<Pair>): seq<Pair>
  {
    if b == [] then []
    else if HasKey(a, b[0].key) then Added(a, b[1..])
    else [b[0]] + Added(a, b[1..])
  }

  /** `a` overwritten key by key by `b`. */
  function Overwrite(a: seq<Pair>, b: seq<Pair>): seq<Pair>
  {
    Kept(a, b) + Added(a, b)
  }

  lemma {:induction false} ValueAtIndex(es: seq<Pair>, i: nat)
    requires DistinctKeys(es) && i < |es|
    ensures HasKey(es, es[i].key) && ValueAt(es, es[i].key) == es[i].val
  {
    var v := ValueAt(es, es[i].key);
    var j :| 0 <= j < |es| && es[j] == Pair(es[i].key, v);
  }

  lemma {:induction false} HasKeyAppend(es: seq<Pair>, e: Pair, k: Scalar)
    ensures HasKey(es + [e], k) <==> HasKey(es, k) || e.key == k
  {
    var all := es + [e];
    assert all[|es|] == e;
    if HasKey(es, k) {
      var i :| 0 <= i < |es| && es[i].key == k;
      assert all[i].key == k;
    }
  }

  lemma {:induction false} ValueAtAppend(es: seq<Pair>, e: Pair, k: Scalar)
    requires HasKey(es, k) && e.key != k
    ensures HasKey(es + [e], k) && ValueAt(es + [e], k) == ValueAt(es, k)
    decreases |es|
  {
    HasKeyAppend(es, e, k);
    if es[0].key != k {
      var tail := es[1..];
      assert HasKey(tail, k) by {
        var i :| 0 <= i < |es| && es[i].key == k;
        assert tail[i - 1].key == k;
      }
      assert (es + [e])[1..] == tail + [e];
      ValueAtAppend(tail, e, k);
    }
  }

  lemma {:induction false} ValueAtLast(es: seq<Pair>, e: Pair)
    requires !HasKey(es, e.key)
    ensures HasKey(es + [e], e.key) && ValueAt(es + [e], e.key) == e.val
    decreases |es|
  {
    HasKeyAppend(es, e, e.key);
    if es != [] {
      var tail := es[1..];
      HasKeyTail(es, e.key);
      assert (es + [e])[1..] == tail + [e];
      ValueAtLast(tail, e);
    }
  }

  lemma {:induction false} AddedAppend(a: seq<Pair>, b: seq<Pair>, e: Pair)
    ensures Added(a, b + [e]) == Added(a, b) + if HasKey(a, e.key) then [] else [e]
    decreases |b|
  {
    hide HasKey;
    if b == [] {
      var one := b + [e];
      assert one == [e] && Added(a, one[1..]) == [];
    } else {
      assert (b + [e])[1..] == b[1..] + [e];
      AddedAppend(a, b[1..], e);
    }
  }

  lemma {:induction false} AddedKeys(a: seq<Pair>, b: seq<Pair>, i: nat)
    requires i < |Added(a, b)|
    ensures !HasKey(a, Added(a, b)[i].key) && HasKey(b, Added(a, b)[i].key)
    decreases |b|
  {
    hide HasKey;
    var tail := b[1..];
    if HasKey(a, b[0].key) {
      AddedKeys(a, tail, i);
      HasKeyTail(b, Added(a, tail)[i].key);
    } else if i > 0 {
      AddedKeys(a, tail, i - 1);
      HasKeyTail(b, Added(a, tail)[i - 1].key);
    } else {
      HasKeyHead(b);
    }
  }

  lemma {:induction false} HasKeyTail(es: seq<Pair>, k: Scalar)
    requires es != []
    ensures HasKey(es[1..], k) ==> HasKey(es, k)
  {
    if i :| 0 <= i < |es[1..]| && es[1..][i].key == k {
      assert es[i + 1].key == k;
    }
  }

  lemma {:induction false} HasKeyHead(es: seq<Pair>)
    requires es != []
    ensures HasKey(es, es[0].key)
  {
  }

  // ---------------------------------------------------------- the loop's insert

  lemma {:induction false} InsertAt(es: seq<Pair>, i: nat, e: Pair)
    requires i < |es| && es[i].key == e.key && forall j :: 0 <= j < i ==> es[j].key != e.key
    ensures Insert(es, e) == es[i := e]
    decreases |es|
  {
    if i > 0 {
      InsertAt(es[1..], i - 1, e);
    }
  }

  lemma {:induction false} InsertFresh(es: seq<Pair>, e: Pair)
    requires !HasKey(es, e.key)
    ensures Insert(es, e) == es + [e]
    decreases |es|
  {
    if es != [] {
      HasKeyTail(es, e.key);
      InsertFresh(es[1..], e);
    }
  }

  lemma {:induction false} KeptAppend(a: seq<Pair>, b: seq<Pair>, e: Pair)
    requires !HasKey(b, e.key)
    ensures forall i :: 0 <= i < |a| ==> Kept(a, b + [e])[i] == if a[i].key == e.key then e else Kept(a, b)[i]
  {
    hide HasKey, ValueAt;
    forall i | 0 <= i < |a| ensures Kept(a, b + [e])[i] == if a[i].key == e.key then e else Kept(a, b)[i] {
      HasKeyAppend(b, e, a[i].key);
      if a[i].key == e.key {
        ValueAtLast(b, e);
      } else if HasKey(b, a[i].key) {
        ValueAtAppend(b, e, a[i].key);
      }
    }
  }

  lemma {:induction false} KeptKeys(a: seq<Pair>, b: seq<Pair>)
    ensures forall i :: 0 <= i < |a| ==> Kept(a, b)[i].key == a[i].key
  {
    hide HasKey, ValueAt;
  }

  /** Inserting one more pair overwrites with one more pair. */
  lemma {:induction false} OverwriteStep(a: seq<Pair>, b: seq<Pair>, e: Pair)
    requires DistinctKeys(a) && !HasKey(b, e.key)
    ensures Insert(Overwrite(a, b), e) == Overwrite(a, b + [e])
  {
    hide Kept, Added, ValueAt, Insert;
    AddedAppend(a, b, e);
    KeptAppend(a, b, e);
    KeptKeys(a, b);
    var all := Overwrite(a, b);
    if HasKey(a, e.key) {
      var i :| 0 <= i < |a| && a[i].key == e.key;
      assert all[i].key == e.key && forall j :: 0 <= j < i ==> all[j] == Kept(a, b)[j];
      InsertAt(all, i, e);
      assert Kept(a, b + [e]) == Kept(a, b)[i := e];
      assert Overwrite(a, b + [e]) == all[i := e];
    } else {
      assert !HasKey(all, e.key) by { OverwriteMisses(a, b, e.key); }
      InsertFresh(all, e);
      assert Kept(a, b + [e]) == Kept(a, b);
    }
  }

  lemma {:induction false} OverwriteMisses(a: seq<Pair>, b: seq<Pair>, k: Scalar)
    requires !HasKey(a, k) && !HasKey(b, k)
    ensures !HasKey(Overwrite(a, b), k)
  {
    hide Kept, Added, ValueAt;
    KeptKeys(a, b);
    var all := Overwrite(a, b);
    forall i | 0 <= i < |all| ensures all[i].key != k {
      if i >= |a| { AddedKeys(a, b, i - |a|); }
    }
  }

  lemma {:induction false} OverwriteNothing(b: seq<Pair>)
    ensures Overwrite([], b) == b && Overwrite(b, []) == b
    decreases |b|
  {
    assert Kept(b, []) == b;
    if b != [] { OverwriteNothing(b[1..]); }
  }

  /** The keys of both maps stay distinct. */
  lemma {:induction false} OverwriteDistinct(a: seq<Pair>, b: seq<Pair>)
    requires DistinctKeys(a) && DistinctKeys(b)
    ensures DistinctKeys(Overwrite(a, b))
  {
    hide Kept, Added, ValueAt;
    KeptKeys(a, b);
    AddedDistinct(a, b);
    var all := Overwrite(a, b);
    forall i, j | 0 <= i < j < |all| ensures all[i].key != all[j].key {
      if j >= |a| {
        AddedKeys(a, b, j - |a|);
        if i < |a| { assert all[i].key == a[i].key; }
      }
    }
  }

  lemma {:induction false} AddedDistinct(a: seq<Pair>, b: seq<Pair>)
    requires DistinctKeys(b)
    ensures DistinctKeys(Added(a, b))
    decreases |b|
  {
    hide HasKey;
    if b != [] {
      var tail := b[1..];
      AddedDistinct(a, tail);
      if !HasKey(a, b[0].key) {
        forall i | 0 <= i < |Added(a, tail)| ensures Added(a, tail)[i].key != b[0].key {
          AddedKeys(a, tail, i);
          HeadNotInTail(b);
        }
      }
    }
  }

  lemma {:induction false} HeadNotInTail(b: seq<Pair>)
    requires DistinctKeys(b) && b != []
    ensures !HasKey(b[1..], b[0].key)
  {
    assert forall i :: 0 <= i < |b| - 1 ==> b[1..][i] == b[i + 1];
  }

  /** The map that results, key by key: what `b` says, else what `a` says. */
  lemma {:induction false} OverwriteLookup(a: seq<Pair>, b: seq<Pair>, k: Scalar)
    requires DistinctKeys(a) && DistinctKeys(b)
    ensures HasKey(Overwrite(a, b), k) <==> HasKey(a, k) || HasKey(b, k)
    ensures HasKey(b, k) ==> ValueAt(Overwrite(a, b), k) == ValueAt(b, k)
    ensures !HasKey(b, k) && HasKey(a, k) ==> ValueAt(Overwrite(a, b), k) == ValueAt(a, k)
  {
    OverwriteDistinct(a, b);
    hide Added, ValueAt;
    var all := Overwrite(a, b);
    if HasKey(a, k) {
      var i :| 0 <= i < |a| && a[i].key == k;
      assert all[i] == Kept(a, b)[i];
      ValueAtIndex(all, i);
      ValueAtIndex(a, i);
    } else if HasKey(b, k) {
      var j :| 0 <= j < |b| && b[j].key == k;
      ValueAtIndex(b, j);
      var i := AddedWhere(a, b, j);
      assert all[|a| + i] == b[j];
      ValueAtIndex(all, |a| + i);
    } else {
      OverwriteMisses(a, b, k);
    }
  }

  lemma {:induction false} AddedWhere(a: seq<Pair>, b: seq<Pair>, j: nat) returns (i: nat)
    requires j < |b| && !HasKey(a, b[j].key)
    ensures i < |Added(a, b)| && Added(a, b)[i] == b[j]
    decreases |b|
  {
    hide HasKey;
    if j == 0 {
      i := 0;
    } else {
      i := AddedWhere(a, b[1..], j - 1);
      i := if HasKey(a, b[0].key) then i else i + 1;
    }
  }

  // ------------------------------------------------------------------- values

  /** A value as a property of the type holds it. */
  predicate Shaped(ty: FieldType, v: Value)
  {
    match ty
    case Single(_) => v.One?
    case Packed(_) => v.Many?
    case Blobs => v.Many?
    case Message(_) => v.Child?
    case Messages(_) => v.Children?
    case MapOf(_, _) => v.Pairs? && DistinctKeys(v.entries)
  }

  function Append(a: Value, b: Value): Value
  {
    match a
    case Many(x) => if b.Many? then Many(x + b.ss) else b
    case Children(x) => if b.Children? then Children(x + b.ps) else b
    case Pairs(x) => if b.Pairs? then Pairs(Overwrite(x, b.entries)) else b
    case _ => b
  }

  /**
   `b` read into a property that holds `a`. An integer that is zero is not written, and
   neither is an empty packed list.
   */
  function MergeValue(ty: FieldType, a: Value, b: Value): Value
  {
    match ty
    case Single(kind) => if b == One(Num(0)) && kind !in {Fixed32, Fixed64, Blob} then a else b
    case Packed(kind) => if kind == Enum then Append(a, b) else if b == Many([]) then a else b
    case Blobs => Append(a, b)
    case Message(_) => b
    case Messages(_) => Append(a, b)
    case MapOf(_, _) => Append(a, b)
  }

  lemma {:induction false} VarintKinds(kind: Kind)
    ensures IsVarint(kind) <==> kind !in {Fixed32, Fixed64, Blob}
  {
    match kind
    case Int32 =>
    case _ =>
  }

  lemma {:induction false} MergeShaped(ty: FieldType, a: Value, b: Value)
    requires Shaped(ty, a) && Shaped(ty, b)
    ensures Shaped(ty, MergeValue(ty, a, b))
  {
    hide Overwrite, DistinctKeys;
    if ty.MapOf? { OverwriteDistinct(a.entries, b.entries); }
  }

  lemma {:induction false} DefaultShaped(ty: FieldType)
    ensures Shaped(ty, Default(ty))
  {
  }

  /** Reading into a default property just sets it. */
  lemma {:induction false} MergeDefault(ty: FieldType, b: Value)
    requires Shaped(ty, b)
    ensures MergeValue(ty, Default(ty), b) == b
  {
    hide Overwrite;
    if ty.MapOf? { OverwriteNothing(b.entries); }
  }

  // ------------------------------------------------------------------ messages

  function Prior(fields: Fields, x: Msg, n: nat): Value
    requires HasField(fields, n)
  {
    if n in x.fields then x.fields[n] else Default(TypeOf(fields, n))
  }

  /** The object `x` after a message `m` was read into it by a reader with these fields. */
  function Merge(r: Registry, fields: Fields, x: Msg, m: Msg): Msg
  {
    Msg(map n | n in Numbers(fields) ::
      if n in m.fields
      then MergeValue(TypeOf(fields, n), Prior(fields, x, n), ViewValue(r, TypeOf(fields, n), m.fields[n]))
      else Prior(fields, x, n))
  }

  /** An object with exactly its properties, each of its shape. */
  ghost predicate ShapedMsg(fields: Fields, x: Msg)
  {
    && x.fields.Keys == Numbers(fields)
    && forall n :: n in Numbers(fields) ==> n in x.fields && Shaped(TypeOf(fields, n), x.fields[n])
  }

  lemma {:induction false} DefaultMsgShaped(fields: Fields)
    ensures ShapedMsg(fields, DefaultMsg(fields))
  {
    hide Shaped, Default;
    forall n | n in Numbers(fields) ensures Shaped(TypeOf(fields, n), Default(TypeOf(fields, n))) {
      DefaultShaped(TypeOf(fields, n));
    }
  }
}
