/**
 Message types and message objects.

 A message type is the list of its fields in the order in which the unordered
 propertyOrdering table happens to iterate. Types are named and refer to each
 other by name through the handler registry, so they may be recursive.
 */
module Messages {
  import opened Wire

  /** The basic types; Fixed32 stands for fixed32, sfixed32 and float, Fixed64 for the 64-bit
      ones, Blob for string and bytes. */
  datatype Kind =
    | Int32 | Int64 | UInt32 | UInt64 | SInt32 | SInt64 | Bool | Enum
    | Fixed32 | Fixed64 | Blob

  type Name = string

  datatype FieldType =
    | Single(kind: Kind)
    | Packed(kind: Kind)
    | Blobs
    | Message(name: Name)
    | Messages(name: Name)
    | MapOf(key: Kind, value: FieldType)

  datatype Field = Field(number: nat, ty: FieldType)

  type Fields = seq<Field>

  /** The registered message types. */
  type Registry = map<Name, Fields>

  // ------------------------------------------------------------------- values

  /** A number, or the memory block of a fixed-width value, a string or a byte array. */
  datatype Scalar = Num(n: int) | Block(data: Bytes)

  /** A message pointer, null or holding a message. */
  datatype Lazy = Null | Held(msg: Msg)

  datatype Pair = Pair(key: Scalar, val: Value)

  datatype Value =
    | One(s: Scalar)
    | Many(ss: seq<Scalar>)
    | Child(p: Lazy)
    | Children(ps: seq<Lazy>)
    | Pairs(entries: seq<Pair>)

  /** The property values of a message object, by field number. */
  datatype Msg = Msg(fields: map<nat, Value>)

  // --------------------------------------------------------------- type rules

  predicate IsVarint(kind: Kind)
  {
    kind in {Int32, Int64, UInt32, UInt64, SInt32, SInt64, Bool, Enum}
  }

  function KindWire(kind: Kind): (w: nat)
    ensures w in {VARINT, FIXED64, FIXED32, DELIMITED}
  {
    if IsVarint(kind) then VARINT
    else if kind == Fixed32 then FIXED32
    else if kind == Fixed64 then FIXED64
    else DELIMITED
  }

  /** The wire type under which a property of this type is written. */
  function WireOf(ty: FieldType): (w: nat)
    ensures w in {VARINT, FIXED64, FIXED32, DELIMITED}
  {
    if ty.Single? then KindWire(ty.kind) else DELIMITED
  }

  predicate InRange(kind: Kind, n: int)
    requires IsVarint(kind)
  {
    match kind
    case Int32 => SignedRange(n, TWO32)
    case Enum => SignedRange(n, TWO32)
    case SInt32 => SignedRange(n, TWO32)
    case Int64 => SignedRange(n, TWO64)
    case SInt64 => SignedRange(n, TWO64)
    case UInt32 => 0 <= n < TWO32
    case UInt64 => 0 <= n < TWO64
    case Bool => 0 <= n < 2
  }

  predicate ScalarOk(kind: Kind, s: Scalar)
  {
    if IsVarint(kind) then s.Num? && InRange(kind, s.n)
    else s.Block? && (kind == Fixed32 ==> |s.data| == 4) && (kind == Fixed64 ==> |s.data| == 8)
  }

  /** The basic types whose lists have a packed form; there is no handler for lists of bool. */
  predicate PackedKind(kind: Kind)
  {
    kind != Blob && kind != Bool
  }

  /** Maps have simple keys, and values that are neither repeated nor maps. */
  predicate TypeOk(ty: FieldType)
  {
    match ty
    case Packed(kind) => PackedKind(kind)
    case MapOf(key, value) => key != Enum && (value.Single? || value.Message?)
    case _ => true
  }

  /** The message type a property refers to must be registered. */
  predicate TypeRegistered(reg: Registry, ty: FieldType)
  {
    match ty
    case Message(name) => name in reg
    case Messages(name) => name in reg
    case MapOf(_, value) => value.Message? ==> value.name in reg
    case _ => true
  }

  /** Distinct field numbers in the range the protobuf format allows. */
  ghost predicate FieldsOk(fields: Fields)
  {
    (forall i :: 0 <= i < |fields| ==> 0 < fields[i].number <= MAX_FIELD && TypeOk(fields[i].ty)) &&
    (forall i, j :: 0 <= i < j < |fields| ==> fields[i].number != fields[j].number)
  }

  /** A registry of well-formed types whose references all resolve. */
  ghost predicate RegistryOk(reg: Registry)
  {
    forall name :: name in reg ==>
      FieldsOk(reg[name]) &&
      forall i :: 0 <= i < |reg[name]| ==> TypeRegistered(reg, reg[name][i].ty)
  }

  // ------------------------------------------------- properties of an object

  /** propertyOrdering.find */
  predicate HasField(fields: Fields, number: nat)
  {
    exists i :: 0 <= i < |fields| && fields[i].number == number
  }

  function TypeOf(fields: Fields, number: nat): (ty: FieldType)
    requires HasField(fields, number)
    ensures exists i :: 0 <= i < |fields| && fields[i] == Field(number, ty)
  {
    if fields[0].number == number then
      assert fields[0] == Field(number, fields[0].ty);
      fields[0].ty
    else
      var ty := TypeOf(fields[1..], number);
      assert forall i :: 0 <= i < |fields| - 1 ==> fields[1..][i] == fields[i + 1];
      ty
  }

  lemma {:induction false} TypeOfField(fields: Fields, i: nat)
    requires FieldsOk(fields) && i < |fields|
    ensures HasField(fields, fields[i].number) && TypeOf(fields, fields[i].number) == fields[i].ty
  {
    var j :| 0 <= j < |fields| && fields[j] == Field(fields[i].number, TypeOf(fields, fields[i].number));
  }

  function Numbers(fields: Fields): set<nat>
  {
    set i | 0 <= i < |fields| :: fields[i].number
  }

  function Zeros(n: nat): (z: Bytes)
    ensures |z| == n
  {
    seq(n, _ => 0)
  }

  function DefaultScalar(kind: Kind): (s: Scalar)
    ensures ScalarOk(kind, s)
  {
    if IsVarint(kind) then Num(0)
    else if kind == Fixed32 then Block(Zeros(4))
    else if kind == Fixed64 then Block(Zeros(8))
    else Block([])
  }

  /** The value of a property of a default-constructed object; submessages start as null. */
  function Default(ty: FieldType): Value
  {
    match ty
    case Single(kind) => One(DefaultScalar(kind))
    case Packed(_) => Many([])
    case Blobs => Many([])
    case Message(_) => Child(Null)
    case Messages(_) => Children([])
    case MapOf(_, _) => Pairs([])
  }

  function DefaultMsg(fields: Fields): Msg
  {
    Msg(map n | n in Numbers(fields) :: Default(TypeOf(fields, n)))
  }

  // ------------------------------------------------------------- typed values

  predicate IsNull(v: Value)
  {
    v.Child? && v.p.Null?
  }

  /**
   A value that serialization can be applied to. Reading a submessage property
   creates the submessage, so singular children are held; list and map elements
   may be null.
   */
  ghost predicate Encodable(reg: Registry, ty: FieldType, v: Value)
    decreases v
  {
    match ty
    case Single(kind) => v.One? && ScalarOk(kind, v.s)
    case Packed(kind) => PackedKind(kind) && v.Many? && forall i :: 0 <= i < |v.ss| ==> ScalarOk(kind, v.ss[i])
    case Blobs => v.Many? && forall i :: 0 <= i < |v.ss| ==> ScalarOk(Blob, v.ss[i])
    case Message(name) => name in reg && v.Child? && v.p.Held? && EncodableMsg(reg, reg[name], v.p.msg)
    case Messages(name) => (
      && name in reg && v.Children?
      && forall i :: 0 <= i < |v.ps| && v.ps[i].Held? ==> EncodableMsg(reg, reg[name], v.ps[i].msg))
    case MapOf(key, value) => (
      && v.Pairs?
      && (forall i :: 0 <= i < |v.entries| ==>
            ScalarOk(key, v.entries[i].key) &&
            ((value.Message? && IsNull(v.entries[i].val)) || Encodable(reg, value, v.entries[i].val)))
      && (forall i, j :: 0 <= i < j < |v.entries| ==> v.entries[i].key != v.entries[j].key))
  }

  /** An object of the given message type: exactly its properties, each of its type. */
  ghost predicate EncodableMsg(reg: Registry, fields: Fields, m: Msg)
    decreases m
  {
    m.fields.Keys == Numbers(fields) &&
    forall i :: 0 <= i < |fields| ==>
      fields[i].number in m.fields && Encodable(reg, fields[i].ty, m.fields[fields[i].number])
  }
}
