/**
 When deserializeMessage ends. Skipping a field whose declared length is above INT_MAX
 moves the iterator back, so the loop may come to the same record again.
 */
module EndlessDecoding {
  import opened Wire
  import opened Messages
  import opened Decoder

  // ------------------------- where reading goes does not depend on the object

  /** Both end at the same byte, or both for the same reason. */
  ghost predicate SameWay<T>(a: Read<T>, b: Read<T>)
  {
    match a
    case Got(_, rest) => b.Got? && b.rest == rest
    case Throw(e) => b == Throw(e)
  }

  lemma {:induction false} ElementsSameWay(kind: Kind, bytes: Bytes, end: nat, a: seq<Scalar>, b: seq<Scalar>)
    ensures SameWay(ReadElements(kind, bytes, end, a), ReadElements(kind, bytes, end, b))
    decreases |bytes|
  {
    hide ReadScalar;
    if |bytes| != end {
      match ReadScalar(kind, bytes)
      case Throw(_) =>
      case Got(s, rest) => ElementsSameWay(kind, rest, end, a + [s], b + [s]);
    }
  }

  lemma {:induction false} ListSameWay(size: nat, kind: Kind, a: seq<Scalar>, b: seq<Scalar>, bytes: Bytes)
    ensures SameWay(ReadList(size, kind, a, bytes), ReadList(size, kind, b, bytes))
  {
    hide BlockEnd, ReadElements;
    match BlockEnd(size, bytes)
    case Throw(_) =>
    case Got(end, rest) => ElementsSameWay(kind, rest, end, a, b);
  }

  lemma {:induction false} ValueSameWay(reg: Registry, size: nat, ty: FieldType, a: Value, b: Value, bytes: Bytes)
    ensures SameWay(ReadValue(reg, size, ty, a, bytes), ReadValue(reg, size, ty, b, bytes))
  {
    hide ReadScalar, ReadChild, ReadEntry, ReadPrefixed, ReadList, Insert, ScalarsOf, ChildrenOf, PairsOf;
    match ty
    case Packed(kind) =>
      ListSameWay(size, kind, if kind == Enum then ScalarsOf(a) else [], if kind == Enum then ScalarsOf(b) else [], bytes);
    case _ =>
  }

  lemma {:induction false} RecordSameWay(reg: Registry, fields: Fields, a: Msg, b: Msg, data: Bytes, bytes: Bytes)
    requires Suffix(bytes, data)
    ensures SameWay(ReadRecord(reg, fields, a, data, bytes), ReadRecord(reg, fields, b, data, bytes))
  {
    hide ReadValue, Skip, ReadTag;
    match ReadTag(bytes)
    case Throw(_) =>
    case Got(t, rest) =>
      if TagAllowed(t) && HasField(fields, t.number) {
        var ty := TypeOf(fields, t.number);
        var x := if t.number in a.fields then a.fields[t.number] else Default(ty);
        var y := if t.number in b.fields then b.fields[t.number] else Default(ty);
        ValueSameWay(reg, |data|, ty, x, y, rest);
      }
  }

  // --------------------------------------------------------- the record starts

  /** Where the loop is: in front of some bytes, or left by an exception. */
  datatype Place = At(rest: Bytes) | Over

  /** Where the loop that starts in front of `bytes` is after k records. */
  function Start(reg: Registry, fields: Fields, data: Bytes, bytes: Bytes, k: nat): (p: Place)
    requires Suffix(bytes, data)
    ensures p.At? ==> Suffix(p.rest, data)
    decreases k
  {
    if k == 0 then At(bytes)
    else
      match ReadRecord(reg, fields, DefaultMsg(fields), data, bytes)
      case Throw(_) => Over
      case Got(_, rest) => Start(reg, fields, data, rest, k - 1)
  }

  /** After k records there is another one to be read. */
  predicate RunningFrom(reg: Registry, fields: Fields, data: Bytes, bytes: Bytes, k: nat)
    requires Suffix(bytes, data)
  {
    var p := Start(reg, fields, data, bytes, k);
    p.At? && p.rest != []
  }

  predicate Running(reg: Registry, fields: Fields, data: Bytes, k: nat)
  {
    RunningFrom(reg, fields, data, data, k)
  }

  /** The (k+1)-st record holds a submessage whose decoding does not end. */
  predicate StuckFrom(reg: Registry, fields: Fields, data: Bytes, bytes: Bytes, k: nat)
    requires Suffix(bytes, data)
  {
    && RunningFrom(reg, fields, data, bytes, k)
    && ReadRecord(reg, fields, DefaultMsg(fields), data, Start(reg, fields, data, bytes, k).rest) == Throw(Endless)
  }

  predicate Stuck(reg: Registry, fields: Fields, data: Bytes, k: nat)
  {
    StuckFrom(reg, fields, data, data, k)
  }

  /** Some record start is reached twice. */
  ghost predicate Repeats(reg: Registry, fields: Fields, data: Bytes)
  {
    exists i: nat, j: nat :: ReachedTwice(reg, fields, data, i, j)
  }

  predicate ReachedTwice(reg: Registry, fields: Fields, data: Bytes, i: nat, j: nat)
  {
    i < j && Running(reg, fields, data, i) && Start(reg, fields, data, data, i) == Start(reg, fields, data, data, j)
  }

  lemma {:induction false} StartLater(reg: Registry, fields: Fields, data: Bytes, bytes: Bytes, i: nat, k: nat)
    requires Suffix(bytes, data)
    ensures
      var p := Start(reg, fields, data, bytes, i);
      Start(reg, fields, data, bytes, i + k) == if p.At? then Start(reg, fields, data, p.rest, k) else Over
    decreases i
  {
    hide ReadRecord;
    if i > 0 {
      match ReadRecord(reg, fields, DefaultMsg(fields), data, bytes)
      case Throw(_) =>
      case Got(_, rest) => StartLater(reg, fields, data, rest, i - 1, k);
    }
  }

  lemma {:induction false} RunningEarlier(reg: Registry, fields: Fields, data: Bytes, k: nat, j: nat)
    requires Running(reg, fields, data, j) && k <= j
    ensures Running(reg, fields, data, k)
  {
    hide ReadRecord;
    StartLater(reg, fields, data, data, k, j - k);
    var p := Start(reg, fields, data, data, k);
    if p == At([]) && k < j {
      NothingToRead(reg, fields, data, j - k);
    }
  }

  lemma {:induction false} NothingToRead(reg: Registry, fields: Fields, data: Bytes, k: nat)
    requires k > 0
    ensures Suffix([], data) && Start(reg, fields, data, [], k) == Over
  {
  }

  /** From a record start that is reached twice the loop repeats itself for ever. */
  lemma {:induction false} RepeatRuns(reg: Registry, fields: Fields, data: Bytes, i: nat, j: nat, k: nat)
    requires ReachedTwice(reg, fields, data, i, j)
    ensures Running(reg, fields, data, k)
    decreases k
  {
    hide Start;
    if k <= j {
      RunningEarlier(reg, fields, data, k, j);
    } else {
      StartLater(reg, fields, data, data, i, k - j);
      StartLater(reg, fields, data, data, j, k - j);
      RepeatRuns(reg, fields, data, i, j, i + (k - j));
    }
  }

  /** More numbers than there are values: two are equal. */
  lemma {:induction false} Pigeonhole(s: seq<nat>, n: nat) returns (i: nat, j: nat)
    requires |s| > n && forall k :: 0 <= k < |s| ==> 0 < s[k] <= n
    ensures i < j < |s| && s[i] == s[j]
    decreases n
  {
    assert 0 < s[0] <= n;
    if a :| 0 <= a < |s| && s[a] == n {
      if b :| 0 <= b < |s| && b != a && s[b] == n {
        i, j := if a < b then a else b, if a < b then b else a;
      } else {
        var others := s[..a] + s[a + 1..];
        assert forall k :: 0 <= k < |others| ==> others[k] == s[if k < a then k else k + 1];
        i, j := Pigeonhole(others, n - 1);
        i, j := if i < a then i else i + 1, if j < a then j else j + 1;
      }
    } else {
      i, j := Pigeonhole(s, n - 1);
    }
  }

  /** A loop that has read as many records as there are bytes has been at some record start twice. */
  lemma {:induction false} LongRunRepeats(reg: Registry, fields: Fields, data: Bytes)
    requires Running(reg, fields, data, |data|)
    ensures Repeats(reg, fields, data)
  {
    hide Start;
    var left := seq(|data| + 1, k requires 0 <= k <= |data| => Left(Start(reg, fields, data, data, k)));
    forall k | 0 <= k <= |data| ensures Running(reg, fields, data, k) && left[k] == Left(Start(reg, fields, data, data, k)) {
      RunningEarlier(reg, fields, data, k, |data|);
    }
    var i, j := Pigeonhole(left, |data|);
    assert Running(reg, fields, data, i) && Running(reg, fields, data, j);
    assert ReachedTwice(reg, fields, data, i, j);
  }

  function Left(p: Place): nat
  {
    if p.At? then |p.rest| else 0
  }

  /** A record start is reached twice exactly when the loop never runs out of records. */
  lemma {:induction false} RepeatsIffForever(reg: Registry, fields: Fields, data: Bytes)
    ensures Repeats(reg, fields, data) <==> forall k: nat :: Running(reg, fields, data, k)
  {
    hide Running;
    if Repeats(reg, fields, data) {
      var i: nat, j: nat :| ReachedTwice(reg, fields, data, i, j);
      forall k: nat ensures Running(reg, fields, data, k) {
        RepeatRuns(reg, fields, data, i, j, k);
      }
    }
    if forall k: nat :: Running(reg, fields, data, k) {
      assert Running(reg, fields, data, |data|);
      LongRunRepeats(reg, fields, data);
    }
  }

  // --------------------------------------------------------- endless decodings

  predicate IsEndless(r: Outcome)
  {
    r.Failed? && r.error == Endless
  }

  lemma {:induction false} FieldsEndless(
      reg: Registry, fields: Fields, obj: Msg, data: Bytes, bytes: Bytes, n: nat)
    requires Suffix(bytes, data)
    ensures IsEndless(ReadFields(reg, fields, obj, data, bytes, n)) <==>
            RunningFrom(reg, fields, data, bytes, n) || exists k: nat :: 0 <= k < n && StuckFrom(reg, fields, data, bytes, k)
    decreases n
  {
    hide ReadRecord;
    if bytes == [] {
      NothingStuck(reg, fields, data, n);
    } else if n > 0 {
      RecordSameWay(reg, fields, obj, DefaultMsg(fields), data, bytes);
      match ReadRecord(reg, fields, obj, data, bytes)
      case Throw(e) =>
        OnlyFirstStuck(reg, fields, data, bytes, n);
      case Got(obj', rest) =>
        FieldsEndless(reg, fields, obj', data, rest, n - 1);
        StuckLater(reg, fields, data, bytes, rest, n);
    }
  }

  lemma {:induction false} NothingStuck(reg: Registry, fields: Fields, data: Bytes, n: nat)
    ensures Suffix([], data) && !RunningFrom(reg, fields, data, [], n)
    ensures forall k: nat :: !StuckFrom(reg, fields, data, [], k)
  {
    forall k: nat ensures !RunningFrom(reg, fields, data, [], k) {
      if k > 0 { NothingToRead(reg, fields, data, k); }
    }
  }

  lemma {:induction false} OnlyFirstStuck(reg: Registry, fields: Fields, data: Bytes, bytes: Bytes, n: nat)
    requires Suffix(bytes, data) && bytes != [] && n > 0
    requires ReadRecord(reg, fields, DefaultMsg(fields), data, bytes).Throw?
    ensures !RunningFrom(reg, fields, data, bytes, n)
    ensures (exists k: nat :: 0 <= k < n && StuckFrom(reg, fields, data, bytes, k)) <==>
            ReadRecord(reg, fields, DefaultMsg(fields), data, bytes) == Throw(Endless)
  {
    hide ReadRecord;
    assert Start(reg, fields, data, bytes, 0) == At(bytes);
    if ReadRecord(reg, fields, DefaultMsg(fields), data, bytes) == Throw(Endless) {
      assert StuckFrom(reg, fields, data, bytes, 0);
    }
  }

  lemma {:induction false} StuckLater(reg: Registry, fields: Fields, data: Bytes, bytes: Bytes, rest: Bytes, n: nat)
    requires Suffix(bytes, data) && Suffix(rest, data) && n > 0
    requires
      var r := ReadRecord(reg, fields, DefaultMsg(fields), data, bytes);
      r.Got? && r.rest == rest
    ensures RunningFrom(reg, fields, data, bytes, n) <==> RunningFrom(reg, fields, data, rest, n - 1)
    ensures (exists k: nat :: 0 <= k < n && StuckFrom(reg, fields, data, bytes, k)) <==>
            (exists k: nat :: 0 <= k < n - 1 && StuckFrom(reg, fields, data, rest, k))
  {
    hide ReadRecord;
    assert !StuckFrom(reg, fields, data, bytes, 0);
    forall k: nat ensures StuckFrom(reg, fields, data, bytes, k + 1) <==> StuckFrom(reg, fields, data, rest, k) {
    }
    if k: nat :| 0 <= k < n && StuckFrom(reg, fields, data, bytes, k) {
      assert StuckFrom(reg, fields, data, rest, k - 1);
    }
    if k: nat :| 0 <= k < n - 1 && StuckFrom(reg, fields, data, rest, k) {
      assert StuckFrom(reg, fields, data, bytes, k + 1);
    }
  }

  /**
   A decoding does not end if and only if its loop reaches some record start twice, or
   comes to a record that holds a submessage whose decoding does not end.
   */
  lemma {:induction false} EndlessIff(reg: Registry, fields: Fields, data: Bytes)
    ensures IsEndless(Decode(reg, fields, data)) <==>
            Repeats(reg, fields, data) || exists k: nat :: Stuck(reg, fields, data, k)
  {
    hide ReadFields, Start, ReadRecord;
    FieldsEndless(reg, fields, DefaultMsg(fields), data, data, |data|);
    if Running(reg, fields, data, |data|) { LongRunRepeats(reg, fields, data); }
    RepeatsIffForever(reg, fields, data);
    if Repeats(reg, fields, data) { assert Running(reg, fields, data, |data|); }
    if k: nat :| 0 <= k < |data| && StuckFrom(reg, fields, data, data, k) { assert Stuck(reg, fields, data, k); }
    if k: nat :| Stuck(reg, fields, data, k) {
      if k >= |data| {
        RunningEarlier(reg, fields, data, |data|, k);
      } else {
        assert StuckFrom(reg, fields, data, data, k);
      }
    }
  }

  // -------------------------------------------------------- only messages loop

  lemma {:induction false} GroupsEnd(bytes: Bytes, k: nat)
    ensures ReadGroups(bytes, k) != Throw(Endless)
    ensures SkipVarint(bytes) != Throw(Endless)
  {
    if bytes != [] && bytes[0] >= 128 {
      GroupsEnd(bytes[1..], k + 1);
    }
  }

  lemma {:induction false} ScalarEnds(kind: Kind, bytes: Bytes)
    ensures ReadVarint(bytes, Modulus(kind)) != Throw(Endless) && ReadVarint(bytes, TWO32) != Throw(Endless)
    ensures ReadPrefixed(bytes) != Throw(Endless) && ReadScalar(kind, bytes) != Throw(Endless)
  {
    GroupsEnd(bytes, 0);
  }

  lemma {:induction false} ElementsEnd(kind: Kind, bytes: Bytes, end: nat, out: seq<Scalar>)
    ensures ReadElements(kind, bytes, end, out) != Throw(Endless)
    decreases |bytes|
  {
    hide ReadScalar;
    ScalarEnds(kind, bytes);
    if |bytes| != end {
      match ReadScalar(kind, bytes)
      case Throw(_) =>
      case Got(s, rest) => ElementsEnd(kind, rest, end, out + [s]);
    }
  }

  lemma {:induction false} BlockEnds(size: nat, bytes: Bytes)
    ensures BlockEnd(size, bytes) != Throw(Endless) && ReadTag(bytes) != Throw(Endless)
  {
    ScalarEnds(Int32, bytes);
  }

  lemma {:induction false} SkipEnds(wire: nat, data: Bytes, bytes: Bytes)
    requires Suffix(bytes, data)
    ensures Skip(wire, data, bytes) != Throw(Endless)
  {
    ScalarEnds(Int32, bytes);
    GroupsEnd(bytes, 0);
  }

  /** A part of some bytes that decodes endlessly as a message of the named type. */
  ghost predicate EndlessPart(reg: Registry, bytes: Bytes, name: Name, from: nat, block: Bytes)
  {
    && name in reg && from + |block| <= |bytes| && block == bytes[from..from + |block|] && |block| < |bytes|
    && IsEndless(Decode(reg, reg[name], block))
  }

  ghost predicate HasEndlessPart(reg: Registry, bytes: Bytes)
  {
    exists name: Name, from: nat, block: Bytes :: EndlessPart(reg, bytes, name, from, block)
  }

  lemma {:induction false} PartOfSuffix(reg: Registry, rest: Bytes, bytes: Bytes)
    requires Suffix(rest, bytes) && HasEndlessPart(reg, rest)
    ensures HasEndlessPart(reg, bytes)
  {
    hide Decode;
    var name: Name, from: nat, block: Bytes :| EndlessPart(reg, rest, name, from, block);
    assert EndlessPart(reg, bytes, name, from + (|bytes| - |rest|), block);
  }

  lemma {:induction false} PrefixedWhere(bytes: Bytes) returns (from: nat)
    requires ReadPrefixed(bytes).Got?
    ensures
      var block := ReadPrefixed(bytes).value;
      from + |block| <= |bytes| && block == bytes[from..from + |block|] && |block| < |bytes|
  {
    var rest := ReadVarint(bytes, TWO32).rest;
    from := |bytes| - |rest|;
  }

  lemma {:induction false} EndlessChild(reg: Registry, name: Name, bytes: Bytes)
    requires ReadChild(reg, name, bytes) == Throw(Endless)
    ensures HasEndlessPart(reg, bytes)
  {
    hide Decode, ReadPrefixed;
    ScalarEnds(Blob, bytes);
    var block := ReadPrefixed(bytes).value;
    var from := PrefixedWhere(bytes);
    assert EndlessPart(reg, bytes, name, from, block);
  }

  lemma {:induction false} EndlessValue(reg: Registry, size: nat, ty: FieldType, prior: Value, bytes: Bytes)
    requires ReadValue(reg, size, ty, prior, bytes) == Throw(Endless)
    ensures HasEndlessPart(reg, bytes)
    decreases |bytes|, 3
  {
    hide ReadScalar, ReadChild, ReadPrefixed, BlockEnd, ReadElements, ReadPair, HasEndlessPart;
    ScalarEnds(if ty.Single? then ty.kind else Blob, bytes);
    BlockEnds(size, bytes);
    match ty
    case Packed(kind) =>
      var end, rest := BlockEnd(size, bytes).value, BlockEnd(size, bytes).rest;
      ElementsEnd(kind, rest, end, if kind == Enum then ScalarsOf(prior) else []);
    case Message(name) => EndlessChild(reg, name, bytes);
    case Messages(name) => EndlessChild(reg, name, bytes);
    case MapOf(key, value) =>
      var end, rest := BlockEnd(size, bytes).value, BlockEnd(size, bytes).rest;
      EndlessPair(reg, size, key, value, Pair(DefaultScalar(key), Default(value)), rest, end);
      PartOfSuffix(reg, rest, bytes);
    case _ =>
  }

  lemma {:induction false} EndlessPair(
      reg: Registry, size: nat, key: Kind, value: FieldType, e: Pair, bytes: Bytes, end: nat)
    requires ReadPair(reg, size, key, value, e, bytes, end) == Throw(Endless)
    ensures HasEndlessPart(reg, bytes)
    decreases |bytes|, 4
  {
    hide ReadScalar, ReadValue, ReadTag, HasEndlessPart, Suffix;
    BlockEnds(size, bytes);
    var t, rest := ReadTag(bytes).value, ReadTag(bytes).rest;
    ScalarEnds(key, rest);
    if t.number == 1 {
      var k, rest' := ReadScalar(key, rest).value, ReadScalar(key, rest).rest;
      EndlessPair(reg, size, key, value, Pair(k, e.val), rest', end);
      SuffixTrans(rest', rest, bytes);
      PartOfSuffix(reg, rest', bytes);
    } else {
      match ReadValue(reg, size, value, e.val, rest)
      case Throw(_) =>
        EndlessValue(reg, size, value, e.val, rest);
        PartOfSuffix(reg, rest, bytes);
      case Got(v, rest') =>
        EndlessPair(reg, size, key, value, Pair(e.key, v), rest', end);
        SuffixTrans(rest', rest, bytes);
        PartOfSuffix(reg, rest', bytes);
    }
  }

  /** A record that does not end holds, as a proper part, a message whose decoding does not end. */
  lemma {:induction false} StuckHoldsEndless(reg: Registry, fields: Fields, data: Bytes, k: nat)
    requires Stuck(reg, fields, data, k)
    ensures HasEndlessPart(reg, data)
  {
    hide ReadValue, Skip, ReadTag, HasEndlessPart, Start;
    var bytes := Start(reg, fields, data, data, k).rest;
    BlockEnds(0, bytes);
    var t, rest := ReadTag(bytes).value, ReadTag(bytes).rest;
    SuffixTrans(rest, bytes, data);
    SkipEnds(t.wire, data, rest);
    var ty := TypeOf(fields, t.number);
    var obj := DefaultMsg(fields);
    EndlessValue(reg, |data|, ty, if t.number in obj.fields then obj.fields[t.number] else Default(ty), rest);
    PartOfSuffix(reg, rest, data);
  }

  // ------------------------------------------- no skipped length above INT_MAX

  /** The field in front of the iterator is skipped, and its declared length is above INT_MAX. */
  predicate SkipsHuge(fields: Fields, bytes: Bytes)
  {
    var h := ReadTag(bytes);
    && h.Got? && TagAllowed(h.value) && !HasField(fields, h.value.number) && h.value.wire == DELIMITED
    && var n := ReadVarint(h.rest, TWO32);
       n.Got? && n.value > INT_MAX
  }

  /** No record the loop comes to skips such a length, nor does one in the messages they hold. */
  ghost predicate Tame(reg: Registry, fields: Fields, data: Bytes)
    decreases |data|, 1
  {
    forall k: nat :: Running(reg, fields, data, k) ==>
      TameRecord(reg, fields, data, Start(reg, fields, data, data, k).rest)
  }

  ghost predicate TameRecord(reg: Registry, fields: Fields, data: Bytes, bytes: Bytes)
    requires Suffix(bytes, data)
    decreases |bytes|, 0
  {
    && !SkipsHuge(fields, bytes)
    && var h := ReadTag(bytes);
       (h.Got? && HasField(fields, h.value.number) ==> TameValue(reg, |data|, TypeOf(fields, h.value.number), h.rest))
  }

  ghost predicate TameValue(reg: Registry, size: nat, ty: FieldType, bytes: Bytes)
    decreases |bytes|, 3
  {
    match ty
    case Message(name) => TameChild(reg, name, bytes)
    case Messages(name) => TameChild(reg, name, bytes)
    case MapOf(key, value) => (
      var b := BlockEnd(size, bytes);
      b.Got? ==> TamePair(reg, size, key, value, b.rest, b.value))
    case _ => true
  }

  ghost predicate TameChild(reg: Registry, name: Name, bytes: Bytes)
    decreases |bytes|, 2
  {
    name in reg && ReadPrefixed(bytes).Got? ==> Tame(reg, reg[name], ReadPrefixed(bytes).value)
  }

  ghost predicate TamePair(reg: Registry, size: nat, key: Kind, value: FieldType, bytes: Bytes, end: nat)
    decreases |bytes|, 4
  {
    var h := ReadTag(bytes);
    |bytes| == end || h.Throw? ||
    if h.value.number == 1 then
      var k := ReadScalar(key, h.rest);
      k.Got? ==> TamePair(reg, size, key, value, k.rest, end)
    else
      var v := ReadValue(reg, size, value, Default(value), h.rest);
      TameValue(reg, size, value, h.rest) && (v.Got? ==> TamePair(reg, size, key, value, v.rest, end))
  }

  lemma {:induction false} TameValueEnds(reg: Registry, size: nat, ty: FieldType, prior: Value, bytes: Bytes)
    requires TameValue(reg, size, ty, bytes)
    ensures ReadValue(reg, size, ty, prior, bytes) != Throw(Endless)
    decreases |bytes|, 3
  {
    hide ReadScalar, ReadChild, ReadPrefixed, BlockEnd, ReadElements, ReadPair, TamePair, TameChild;
    ScalarEnds(if ty.Single? then ty.kind else Blob, bytes);
    BlockEnds(size, bytes);
    match ty
    case Packed(kind) =>
      if BlockEnd(size, bytes).Got? {
        var end, rest := BlockEnd(size, bytes).value, BlockEnd(size, bytes).rest;
        ElementsEnd(kind, rest, end, if kind == Enum then ScalarsOf(prior) else []);
      }
    case Message(name) => TameChildEnds(reg, name, bytes);
    case Messages(name) => TameChildEnds(reg, name, bytes);
    case MapOf(key, value) =>
      if BlockEnd(size, bytes).Got? {
        var end, rest := BlockEnd(size, bytes).value, BlockEnd(size, bytes).rest;
        TamePairEnds(reg, size, key, value, Pair(DefaultScalar(key), Default(value)), rest, end);
      }
    case _ =>
  }

  lemma {:induction false} TameChildEnds(reg: Registry, name: Name, bytes: Bytes)
    requires TameChild(reg, name, bytes)
    ensures ReadChild(reg, name, bytes) != Throw(Endless)
    decreases |bytes|, 2
  {
    hide Decode, ReadPrefixed, Tame;
    ScalarEnds(Blob, bytes);
    if name in reg && ReadPrefixed(bytes).Got? {
      TameEnds(reg, reg[name], ReadPrefixed(bytes).value);
    }
  }

  lemma {:induction false} TamePairEnds(
      reg: Registry, size: nat, key: Kind, value: FieldType, e: Pair, bytes: Bytes, end: nat)
    requires TamePair(reg, size, key, value, bytes, end)
    ensures ReadPair(reg, size, key, value, e, bytes, end) != Throw(Endless)
    decreases |bytes|, 4
  {
    hide ReadScalar, ReadValue, ReadTag, TameValue, Default;
    BlockEnds(size, bytes);
    if |bytes| != end && ReadTag(bytes).Got? {
      var t, rest := ReadTag(bytes).value, ReadTag(bytes).rest;
      ScalarEnds(key, rest);
      if t.number == 1 {
        if key != Enum && ReadScalar(key, rest).Got? {
          var k, rest' := ReadScalar(key, rest).value, ReadScalar(key, rest).rest;
          TamePairEnds(reg, size, key, value, Pair(k, e.val), rest', end);
        }
      } else {
        TamePairValueEnds(reg, size, key, value, e, bytes, end);
      }
    }
  }

  lemma {:induction false} TamePairValueEnds(
      reg: Registry, size: nat, key: Kind, value: FieldType, e: Pair, bytes: Bytes, end: nat)
    requires TamePair(reg, size, key, value, bytes, end)
    requires |bytes| != end && ReadTag(bytes).Got? && ReadTag(bytes).value.number != 1
    ensures ReadPair(reg, size, key, value, e, bytes, end) != Throw(Endless)
    decreases |bytes|, 3
  {
    hide ReadScalar, ReadValue, ReadTag, TameValue, Default, Suffix;
    var rest := ReadTag(bytes).rest;
    TameValueEnds(reg, size, value, e.val, rest);
    ValueSameWay(reg, size, value, e.val, Default(value), rest);
    match ReadValue(reg, size, value, e.val, rest)
    case Throw(_) =>
    case Got(v, rest') => TamePairEnds(reg, size, key, value, Pair(e.key, v), rest', end);
  }

  lemma {:induction false} TameSkipAdvances(wire: nat, data: Bytes, bytes: Bytes)
    requires Suffix(bytes, data)
    requires wire == DELIMITED && ReadVarint(bytes, TWO32).Got? ==> ReadVarint(bytes, TWO32).value <= INT_MAX
    ensures var r := Skip(wire, data, bytes); r.Got? ==> |r.rest| <= |bytes|
  {
    hide ReadVarint, SkipVarint;
  }

  lemma {:induction false} TameRecordAdvances(reg: Registry, fields: Fields, obj: Msg, data: Bytes, bytes: Bytes)
    requires Suffix(bytes, data) && TameRecord(reg, fields, data, bytes)
    ensures
      var r := ReadRecord(reg, fields, obj, data, bytes);
      if r.Got? then |r.rest| < |bytes| else r.error != Endless
    decreases |bytes|, 0
  {
    hide ReadValue, Skip, ReadTag, TameValue, ReadVarint;
    BlockEnds(0, bytes);
    if ReadTag(bytes).Got? {
      var t, rest := ReadTag(bytes).value, ReadTag(bytes).rest;
      SuffixTrans(rest, bytes, data);
      if TagAllowed(t) {
        if HasField(fields, t.number) {
          var ty := TypeOf(fields, t.number);
          TameValueEnds(reg, |data|, ty, if t.number in obj.fields then obj.fields[t.number] else Default(ty), rest);
        } else {
          SkipEnds(t.wire, data, rest);
          TameSkipAdvances(t.wire, data, rest);
        }
      }
    }
  }

  /** Every record brings the loop nearer to the end of its container. */
  lemma {:induction false} TameShrinks(reg: Registry, fields: Fields, data: Bytes, k: nat)
    requires Tame(reg, fields, data)
    ensures Running(reg, fields, data, k) ==> |Start(reg, fields, data, data, k).rest| + k <= |data|
    decreases |data|, 1, k
  {
    hide Start, ReadRecord, TameRecord;
    if k == 0 {
      StartLater(reg, fields, data, data, 0, 0);
      assert Start(reg, fields, data, data, 0) == At(data) by { StartOne(reg, fields, data, data); }
    } else if Running(reg, fields, data, k) {
      RunningEarlier(reg, fields, data, k - 1, k);
      TameShrinks(reg, fields, data, k - 1);
      StartLater(reg, fields, data, data, k - 1, 1);
      var bytes := Start(reg, fields, data, data, k - 1).rest;
      StartOne(reg, fields, data, bytes);
      TameRecordAdvances(reg, fields, DefaultMsg(fields), data, bytes);
    }
  }

  lemma {:induction false} StartOne(reg: Registry, fields: Fields, data: Bytes, bytes: Bytes)
    requires Suffix(bytes, data)
    ensures Start(reg, fields, data, bytes, 0) == At(bytes)
    ensures
      var r := ReadRecord(reg, fields, DefaultMsg(fields), data, bytes);
      Start(reg, fields, data, bytes, 1) == if r.Got? then At(r.rest) else Over
  {
    hide ReadRecord;
  }

  /**
   Decoding ends on every byte string on which no record that is reached, at any depth,
   skips a field with a declared length above INT_MAX.
   */
  lemma {:induction false} TameEnds(reg: Registry, fields: Fields, data: Bytes)
    requires Tame(reg, fields, data)
    ensures !IsEndless(Decode(reg, fields, data))
    decreases |data|, 1
  {
    hide Decode, Start, ReadRecord, TameRecord;
    EndlessIff(reg, fields, data);
    if Repeats(reg, fields, data) {
      RepeatsIffForever(reg, fields, data);
      assert Running(reg, fields, data, |data|);
      TameShrinks(reg, fields, data, |data|);
    }
    if k: nat :| Stuck(reg, fields, data, k) {
      var bytes := Start(reg, fields, data, data, k).rest;
      TameRecordAdvances(reg, fields, DefaultMsg(fields), data, bytes);
    }
  }

  /** Six bytes on which the loop comes back to its first record, for every type without a field 1. */
  lemma {:induction false} SixBytesLoop(reg: Registry, fields: Fields)
    requires !HasField(fields, 1)
    ensures IsEndless(Decode(reg, fields, [0x0A, 0xFA, 0xFF, 0xFF, 0xFF, 0x0F]))
  {
    hide Decode;
    var data: Bytes := [0x0A, 0xFA, 0xFF, 0xFF, 0xFF, 0x0F];
    SixBytesStep(reg, fields, data);
    StartOne(reg, fields, data, data);
    hide ReadRecord, Start;
    assert ReachedTwice(reg, fields, data, 0, 1);
    EndlessIff(reg, fields, data);
  }

  lemma {:induction false} SixBytesStep(reg: Registry, fields: Fields, data: Bytes)
    requires data == [0x0A, 0xFA, 0xFF, 0xFF, 0xFF, 0x0F] && !HasField(fields, 1)
    ensures ReadRecord(reg, fields, DefaultMsg(fields), data, data) == Got(DefaultMsg(fields), data)
  {
    var r1 := data[1..];
    assert r1 == [0xFA, 0xFF, 0xFF, 0xFF, 0x0F];
    assert ReadTag(data) == Got(Tag(1, DELIMITED), r1) by {
      assert ReadGroups(data, 0) == Got(0x0A, r1);
    }
    assert ReadVarint(r1, TWO32) == Got(0xFFFF_FFFA, []) by {
      MinusSix(r1);
    }
    assert data[0..] == data;
  }

  lemma {:induction false} MinusSix(bytes: Bytes)
    requires bytes == [0xFA, 0xFF, 0xFF, 0xFF, 0x0F]
    ensures ReadGroups(bytes, 0) == Got(0xFFFF_FFFA, [])
  {
    var b1, b2, b3, b4 := bytes[1..], bytes[2..], bytes[3..], bytes[4..];
    assert b1[1..] == b2 && b2[1..] == b3 && b3[1..] == b4 && b4[1..] == [];
    assert ReadGroups(b4, 4) == Got(0x0F, []);
    assert ReadGroups(b3, 3) == Got(0x7FF, []);
    assert ReadGroups(b2, 2) == Got(0x3_FFFF, []);
    assert ReadGroups(b1, 1) == Got(0x1FF_FFFF, []);
  }
}
