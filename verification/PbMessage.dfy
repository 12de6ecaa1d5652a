/** nanopb's field descriptors (pb.h) and the message structures they describe. A message is what
    memory holds at the addresses that the descriptors assign to the fields. */
module PbMessage {
  import opened Common
  import opened Coding
  import opened Wire

  /** Fields are described with 32-bit sizes (PB_FIELD_32BIT), as the largest descriptors need. */
  const PB_SIZE_MAX: int := 0xFFFF_FFFF

  type PbSize = x: int | 0 <= x <= PB_SIZE_MAX

  /** The size field in front of a bytes array. */
  const BYTES_OFFSET: nat := 4

  const PB_MAX_REQUIRED_FIELDS: nat := 64

  datatype HType = Required | Optional | Repeated | OneOf

  datatype LType =
    | Bool | Varint | Uvarint | Svarint | Fixed32 | Fixed64
    | Bytes | String | Submessage(fields: seq<Field>) | FixedLengthBytes

  /** dataOffset counts from the end of the previous field, or is PB_SIZE_MAX for a further member of
      a union. sizeOffset leads to the count, has-flag or which-field; zero means there is none. */
  datatype Field = Field(tag: PbSize, htype: HType, ltype: LType, dataOffset: PbSize, sizeOffset: int,
                         dataSize: PbSize, arraySize: PbSize, default: Option<Value>)

  /** The contents of one item: an integer, a byte or character array, or a nested structure. Of an
      array only the part that has been filled is kept; after a shorter string comes a terminator. */
  datatype Value = VInt(i: int) | VBytes(b: seq<Byte>) | VMsg(m: map<int, Slot>)

  /** What a field's memory holds, together with its has-flag, count or which-field. */
  datatype Slot = One(v: Value) | Maybe(has: bool, v: Value) | Many(items: seq<Value>) | Union(which: nat, v: Value)

  type Message = map<int, Slot>

  // ---- Memory --------------------------------------------------------------

  function Get(m: Message, address: int): Slot {
    if address in m then m[address] else One(VInt(0))
  }

  function AsInt(v: Value): int {
    if v.VInt? then v.i else 0
  }

  function AsBytes(v: Value): seq<Byte> {
    if v.VBytes? then v.b else []
  }

  function AsMessage(v: Value): Message {
    if v.VMsg? then v.m else map[]
  }

  function ValueOf(slot: Slot): Value {
    if slot.Many? then VInt(0) else slot.v
  }

  function HasOf(slot: Slot): bool {
    slot.Maybe? && slot.has
  }

  function WhichOf(slot: Slot): nat {
    if slot.Union? then slot.which else 0
  }

  function ItemsOf(slot: Slot): seq<Value> {
    if slot.Many? then slot.items else []
  }

  // ---- Addresses -----------------------------------------------------------

  predicate Packable(f: Field) {
    f.ltype.Bool? || f.ltype.Varint? || f.ltype.Uvarint? || f.ltype.Svarint? || f.ltype.Fixed32? || f.ltype.Fixed64?
  }

  /** An array without a count of its own always has array_size items. */
  predicate FixedCount(f: Field) {
    f.htype.Repeated? && f.sizeOffset == 0
  }

  /** A singular field without a has-flag counts as present when it is not zero. */
  predicate ImplicitPresence(f: Field) {
    f.htype.Optional? && f.sizeOffset == 0
  }

  /** The field shares its memory with the one before it. */
  predicate JoinsUnion(fields: seq<Field>, i: nat) {
    0 < i < |fields| && fields[i - 1].htype.OneOf? && fields[i].htype.OneOf? && fields[i].dataOffset == PB_SIZE_MAX
  }

  function SizeInStruct(f: Field): nat {
    if f.htype.Repeated? then f.dataSize * f.arraySize else f.dataSize
  }

  /** Where field i lives: every field follows its predecessor, except inside a union. */
  function Address(fields: seq<Field>, i: nat): int
    requires i < |fields|
  {
    if i == 0 then fields[0].dataOffset
    else if JoinsUnion(fields, i) then Address(fields, i - 1)
    else Address(fields, i - 1) + SizeInStruct(fields[i - 1]) + fields[i].dataOffset
  }

  /** How many required fields come before field i. */
  function RequiredBefore(fields: seq<Field>, i: nat): (r: nat)
    requires i <= |fields|
    ensures r <= i
  {
    if i == 0 then 0 else RequiredBefore(fields, i - 1) + if fields[i - 1].htype.Required? then 1 else 0
  }

  ghost predicate DistinctTags(fields: seq<Field>) {
    forall i, j :: 0 <= i < j < |fields| ==> fields[i].tag != fields[j].tag
  }

  /** The members of a union share their which-field too. */
  ghost predicate UnionsAgree(fields: seq<Field>) {
    forall i :: 0 <= i < |fields| && JoinsUnion(fields, i) ==> fields[i].sizeOffset == fields[i - 1].sizeOffset
  }

  /** A descriptor as the generator makes it. */
  ghost predicate WellFormed(fields: seq<Field>) {
    && DistinctTags(fields) && UnionsAgree(fields)
    && forall i :: 0 <= i < |fields| ==> WellFormedField(fields[i])
  }

  ghost predicate WellFormedField(f: Field) {
    && 0 < f.tag < TWO32 / 8
    && 0 < f.dataSize && (f.htype.Repeated? ==> 0 < f.arraySize)
    && (f.htype.OneOf? ==> f.sizeOffset != 0)
    && match f.ltype case Submessage(fields) => WellFormed(fields) case _ => true
  }

  lemma {:induction false} AddressesIncrease(fields: seq<Field>, i: nat, j: nat)
    requires WellFormed(fields) && i < j < |fields|
    ensures Address(fields, i) <= Address(fields, j)
    ensures Address(fields, i) == Address(fields, j) ==> fields[i].htype.OneOf? && fields[j].htype.OneOf?
  {
    assert WellFormedField(fields[j - 1]);
    if i < j - 1 {
      AddressesIncrease(fields, i, j - 1);
    }
    if !JoinsUnion(fields, j) {
      SizeIsPositive(fields[j - 1]);
    }
  }

  lemma SizeIsPositive(f: Field)
    requires WellFormedField(f)
    ensures SizeInStruct(f) > 0
  {
    if f.htype.Repeated? {
      assert f.dataSize * f.arraySize >= f.dataSize * 1;
    }
  }

  /** Only members of a union share memory. */
  lemma AddressesDiffer(fields: seq<Field>, i: nat, j: nat)
    requires WellFormed(fields) && i < |fields| && j < |fields| && i != j && !fields[i].htype.OneOf?
    ensures Address(fields, i) != Address(fields, j)
  {
    if i < j {
      AddressesIncrease(fields, i, j);
    } else {
      AddressesIncrease(fields, j, i);
    }
  }

  /** A field's memory ends before that of any later one begins. */
  lemma {:induction false} FieldsDoNotOverlap(fields: seq<Field>, i: nat, j: nat)
    requires WellFormed(fields) && i < j < |fields| && !fields[i].htype.OneOf?
    ensures Address(fields, i) + fields[i].dataSize * (if fields[i].htype.Repeated? then fields[i].arraySize else 1) <= Address(fields, j)
  {
    if i < j - 1 {
      FieldsDoNotOverlap(fields, i, j - 1);
      AddressesIncrease(fields, j - 1, j);
    }
  }

  // ---- Initial contents ---------------------------------------------------

  function Zeros(n: nat): (s: seq<Byte>)
    ensures |s| == n
  {
    seq(n, _ => 0)
  }

  function Zero(f: Field): Value
    decreases f, 1
  {
    match f.ltype
    case Submessage(fields) => VMsg(Defaults(fields, |fields|))
    case Bytes => VBytes([])
    case String => VBytes([])
    case FixedLengthBytes => VBytes(Zeros(f.dataSize))
    case _ => VInt(0)
  }

  function InitialValue(f: Field): Value
    decreases f, 2
  {
    if f.ltype.Submessage? || f.default.None? then Zero(f) else f.default.value
  }

  function InitialSlot(f: Field): Slot
    decreases f, 3
  {
    match f.htype
    case Required => One(InitialValue(f))
    case Optional => if f.sizeOffset == 0 then One(InitialValue(f)) else Maybe(false, InitialValue(f))
    case Repeated => Many([])
    case OneOf => Union(0, VInt(0))
  }

  /** The first n fields set to their defaults. */
  function Defaults(fields: seq<Field>, n: nat): Message
    requires n <= |fields|
    decreases fields, n
  {
    if n == 0 then map[] else Defaults(fields, n - 1)[Address(fields, n - 1) := InitialSlot(fields[n - 1])]
  }

  lemma {:induction false} DefaultsAt(fields: seq<Field>, n: nat, i: nat)
    requires WellFormed(fields) && i < n <= |fields|
    ensures Get(Defaults(fields, n), Address(fields, i)) == InitialSlot(fields[i])
    decreases n
  {
    if i < n - 1 {
      DefaultsAt(fields, n - 1, i);
      AddressesIncrease(fields, i, n - 1);
    }
  }

  // ---- Content -------------------------------------------------------------

  /** A string's characters: up to its terminator, or all of the array. */
  function CString(b: seq<Byte>, max: nat): (s: seq<Byte>)
    ensures |s| <= max && |s| <= |b| && s == b[..|s|]
    ensures forall i :: 0 <= i < |s| ==> s[i] != 0
    ensures |s| < max && |s| < |b| ==> b[|s|] == 0
  {
    if max == 0 || b == [] || b[0] == 0 then [] else [b[0]] + CString(b[1..], max - 1)
  }

  /** Field by field, the same presence and, where present, the same value. */
  ghost predicate SameContent(fields: seq<Field>, a: Message, b: Message)
    decreases fields
  {
    forall i :: 0 <= i < |fields| ==> SameSlot(fields[i], Get(a, Address(fields, i)), Get(b, Address(fields, i)))
  }

  ghost predicate SameSlot(f: Field, a: Slot, b: Slot)
    decreases f, 1
  {
    match f.htype
    case Required => SameValue(f, ValueOf(a), ValueOf(b))
    case Optional =>
      if f.sizeOffset == 0 then SameValue(f, ValueOf(a), ValueOf(b))
      else HasOf(a) == HasOf(b) && (HasOf(a) ==> SameValue(f, ValueOf(a), ValueOf(b)))
    case Repeated =>
      && |ItemsOf(a)| == |ItemsOf(b)|
      && forall k :: 0 <= k < |ItemsOf(a)| ==> SameValue(f, ItemsOf(a)[k], ItemsOf(b)[k])
    case OneOf => WhichOf(a) == WhichOf(b) && (WhichOf(a) == f.tag ==> SameValue(f, ValueOf(a), ValueOf(b)))
  }

  ghost predicate SameValue(f: Field, a: Value, b: Value)
    decreases f, 0
  {
    match f.ltype
    case Bool => AsInt(a) != 0 <==> AsInt(b) != 0
    case Bytes => AsBytes(a) == AsBytes(b)
    case FixedLengthBytes => AsBytes(a) == AsBytes(b)
    case String => CString(AsBytes(a), f.dataSize) == CString(AsBytes(b), f.dataSize)
    case Submessage(fields) => SameContent(fields, AsMessage(a), AsMessage(b))
    case _ => AsInt(a) == AsInt(b)
  }

  // ---- Messages in range ---------------------------------------------------

  predicate IntegerSize(size: nat) {
    size == 1 || size == 2 || size == 4 || size == 8
  }

  predicate FitsSigned(i: int, size: nat) {
    || (size == 1 && -0x80 <= i < 0x80) || (size == 2 && -0x8000 <= i < 0x8000)
    || (size == 4 && -TWO31 <= i < TWO31) || (size == 8 && -TWO63 <= i < TWO63)
  }

  predicate FitsUnsigned(i: int, size: nat) {
    || (size == 1 && 0 <= i < 0x100) || (size == 2 && 0 <= i < 0x1_0000)
    || (size == 4 && 0 <= i < TWO32) || (size == 8 && 0 <= i < TWO64)
  }

  /** Any message that a program can build by filling in the generated structure: integers of their
      width, arrays within their bounds, strings terminated, which-fields naming a member. */
  ghost predicate InRange(fields: seq<Field>, m: Message)
    decreases fields
  {
    forall i :: 0 <= i < |fields| ==>
      && InRangeSlot(fields[i], Get(m, Address(fields, i)))
      && (fields[i].htype.OneOf? && WhichOf(Get(m, Address(fields, i))) != 0 ==>
            exists j :: 0 <= j < |fields| && NamesMember(fields, i, j, WhichOf(Get(m, Address(fields, i)))))
  }

  predicate NamesMember(fields: seq<Field>, i: nat, j: nat, which: nat)
    requires i < |fields| && j < |fields|
  {
    fields[j].htype.OneOf? && Address(fields, j) == Address(fields, i) && fields[j].tag == which
  }

  ghost predicate InRangeSlot(f: Field, slot: Slot)
    decreases f, 1
  {
    match f.htype
    case Required => InRangeValue(f, ValueOf(slot))
    case Optional => f.sizeOffset == 0 || HasOf(slot) ==> InRangeValue(f, ValueOf(slot))
    case Repeated =>
      && |ItemsOf(slot)| <= f.arraySize && (f.sizeOffset == 0 ==> |ItemsOf(slot)| == f.arraySize)
      && forall k :: 0 <= k < |ItemsOf(slot)| ==> InRangeValue(f, ItemsOf(slot)[k])
    case OneOf => WhichOf(slot) == f.tag ==> InRangeValue(f, ValueOf(slot))
  }

  ghost predicate InRangeValue(f: Field, v: Value)
    decreases f, 0
  {
    match f.ltype
    case Bool => true
    case Varint => FitsSigned(AsInt(v), f.dataSize)
    case Uvarint => FitsUnsigned(AsInt(v), f.dataSize)
    case Svarint => FitsSigned(AsInt(v), f.dataSize)
    case Fixed32 => 0 <= AsInt(v) < TWO32
    case Fixed64 => 0 <= AsInt(v) < TWO64
    case Bytes => |AsBytes(v)| + BYTES_OFFSET <= f.dataSize
    case String => |CString(AsBytes(v), f.dataSize)| < f.dataSize
    case FixedLengthBytes => |AsBytes(v)| == f.dataSize
    case Submessage(fields) => InRange(fields, AsMessage(v))
  }

  /** Fields with implicit presence start out as zero, at every depth. */
  ghost predicate ZeroDefaults(fields: seq<Field>)
    decreases fields
  {
    forall i :: 0 <= i < |fields| ==> ZeroDefault(fields[i])
  }

  ghost predicate ZeroDefault(f: Field)
    decreases f
  {
    && (ImplicitPresence(f) ==> InitialValue(f) == Zero(f))
    && match f.ltype case Submessage(fields) => ZeroDefaults(fields) case _ => true
  }
}
