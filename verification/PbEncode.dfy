/** The bytes that nanopb's encoder (pb_encode.c) produces for a message, or None where it reports an
    error that no amount of room would cure. */
module PbEncode {
  import opened Common
  import opened Coding
  import opened Wire
  import opened PbMessage

  type Encoding = Option<seq<Byte>>

  /** One encoding after the other. */
  function Join(a: Encoding, b: Encoding): (r: Encoding)
    ensures r.Some? <==> a.Some? && b.Some?
    ensures r.Some? ==> r.value == a.value + b.value
  {
    if a.None? || b.None? then None else Some(a.value + b.value)
  }

  lemma JoinAssociates(a: Encoding, b: Encoding, c: Encoding)
    ensures Join(Join(a, b), c) == Join(a, Join(b, c))
  {
    if a.Some? && b.Some? && c.Some? {
      assert a.value + b.value + c.value == a.value + (b.value + c.value);
    }
  }

  lemma JoinEmpty(e: Encoding)
    ensures Join(Some([]), e) == e && Join(e, Some([])) == e
  {
    if e.Some? {
      assert [] + e.value == e.value && e.value + [] == e.value;
    }
  }

  function WireTypeFor(f: Field): (w: WireType)
    ensures !w.WtInvalid?
  {
    match f.ltype
    case Fixed32 => Wt32Bit
    case Fixed64 => Wt64Bit
    case Bytes => WtString
    case String => WtString
    case Submessage(_) => WtString
    case FixedLengthBytes => WtString
    case _ => WtVarint
  }

  function TagFor(f: Field): seq<Byte> {
    PutTag(f.tag, WireTypeFor(f))
  }

  /** Exactly n bytes of memory. */
  function Sized(b: seq<Byte>, n: nat): (s: seq<Byte>)
    ensures |s| == n
  {
    if |b| >= n then b[..n] else b + Zeros(n - |b|)
  }

  /** Values of the packable types. */
  function ScalarBytes(f: Field, v: Value): Encoding
    requires Packable(f)
  {
    match f.ltype
    case Bool => Some(PutVarint(if AsInt(v) != 0 then 1 else 0))
    case Varint => if IntegerSize(f.dataSize) then Some(PutVarint(ToUnsigned64(AsInt(v)))) else None
    case Uvarint => if IntegerSize(f.dataSize) then Some(PutVarint(ToUnsigned64(AsInt(v)))) else None
    case Svarint => if IntegerSize(f.dataSize) then Some(PutVarint(ZigZag(AsInt(v)))) else None
    case Fixed32 => Some(PutFixed(AsInt(v) % TWO32, 4))
    case Fixed64 => Some(PutFixed(AsInt(v) % TWO64, 8))
  }

  function ValueBytes(f: Field, v: Value): Encoding
    decreases f, 1
  {
    match f.ltype
    case Bytes => if |AsBytes(v)| + BYTES_OFFSET > f.dataSize then None else Some(PutString(AsBytes(v)))
    case String => Some(PutString(CString(AsBytes(v), f.dataSize)))
    case Submessage(fields) =>
      (match MessageBytes(fields, AsMessage(v), 0)
       case None => None
       case Some(b) => Some(PutString(b)))
    case FixedLengthBytes => Some(PutString(Sized(AsBytes(v), f.dataSize)))
    case _ => ScalarBytes(f, v)
  }

  function TaggedBytes(f: Field, v: Value): Encoding
    decreases f, 2
  {
    Join(Some(TagFor(f)), ValueBytes(f, v))
  }

  function PackedBytes(f: Field, items: seq<Value>): Encoding
    requires Packable(f)
  {
    if items == [] then Some([]) else Join(ScalarBytes(f, items[0]), PackedBytes(f, items[1..]))
  }

  function UnpackedBytes(f: Field, items: seq<Value>): Encoding
    decreases f, 3, |items|
  {
    if items == [] then Some([]) else Join(TaggedBytes(f, items[0]), UnpackedBytes(f, items[1..]))
  }

  function ArrayBytes(f: Field, items: seq<Value>): Encoding
    decreases f, 4
  {
    if items == [] then Some([])
    else if |items| > f.arraySize then None
    else if Packable(f) then
      match PackedBytes(f, items)
      case None => None
      case Some(b) => Some(PutTag(f.tag, WtString) + PutString(b))
    else UnpackedBytes(f, items)
  }

  /** The items that are sent: as many as the count says, or all there is room for. */
  function ItemsToSend(f: Field, slot: Slot): (items: seq<Value>)
    ensures f.sizeOffset == 0 ==> |items| == f.arraySize
    ensures f.sizeOffset == 0 && |ItemsOf(slot)| == f.arraySize ==> items == ItemsOf(slot)
  {
    var items := ItemsOf(slot);
    if f.sizeOffset != 0 then items
    else if |items| >= f.arraySize then items[..f.arraySize]
    else items + seq(f.arraySize - |items|, _ => VInt(0))
  }

  /** Whether a field without a has-flag is to be left out. */
  predicate IsDefault(f: Field, slot: Slot)
    decreases f, 1
  {
    match f.htype
    case Required => false
    case Repeated => f.sizeOffset != 0 && ItemsOf(slot) == []
    case OneOf => WhichOf(slot) == 0
    case Optional => if f.sizeOffset != 0 then !HasOf(slot) else IsZero(f, ValueOf(slot))
  }

  predicate IsZero(f: Field, v: Value)
    decreases f, 0
  {
    match f.ltype
    case Bytes => AsBytes(v) == []
    case String => CString(AsBytes(v), 1) == []
    case FixedLengthBytes => f.dataSize == 0
    case Submessage(fields) => AllDefault(fields, AsMessage(v), 0)
    case _ => AsInt(v) == 0
  }

  predicate AllDefault(fields: seq<Field>, m: Message, i: nat)
    requires i <= |fields|
    decreases fields, |fields| - i
  {
    i == |fields| || (IsDefault(fields[i], Get(m, Address(fields, i))) && AllDefault(fields, m, i + 1))
  }

  function FieldBytes(f: Field, slot: Slot): Encoding
    decreases f, 5
  {
    match f.htype
    case Required => TaggedBytes(f, ValueOf(slot))
    case Optional =>
      var present := if f.sizeOffset != 0 then HasOf(slot) else !IsDefault(f, slot);
      if present then TaggedBytes(f, ValueOf(slot)) else Some([])
    case Repeated => ArrayBytes(f, ItemsToSend(f, slot))
    case OneOf => if WhichOf(slot) == f.tag then TaggedBytes(f, ValueOf(slot)) else Some([])
  }

  /** Fields i and up. */
  function MessageBytes(fields: seq<Field>, m: Message, i: nat): Encoding
    requires i <= |fields|
    decreases fields, |fields| - i
  {
    if i == |fields| then Some([])
    else Join(FieldBytes(fields[i], Get(m, Address(fields, i))), MessageBytes(fields, m, i + 1))
  }

  // ---- Lengths -------------------------------------------------------------

  ghost predicate Below32(e: Encoding) {
    e.Some? ==> |e.value| < TWO32
  }

  /** Every length prefix that the encoding of the message contains, at any depth, has at most 32 bits. */
  ghost predicate LengthsFit(fields: seq<Field>, m: Message)
    decreases fields, 0
  {
    forall i :: 0 <= i < |fields| ==> LengthsFitSlot(fields[i], Get(m, Address(fields, i)))
  }

  ghost predicate LengthsFitSlot(f: Field, slot: Slot)
    decreases f, 1
  {
    match f.htype
    case Required => LengthFits(f, ValueOf(slot))
    case Optional => (if f.sizeOffset != 0 then HasOf(slot) else !IsDefault(f, slot)) ==> LengthFits(f, ValueOf(slot))
    case Repeated => LengthsFitItems(f, ItemsToSend(f, slot))
    case OneOf => WhichOf(slot) == f.tag ==> LengthFits(f, ValueOf(slot))
  }

  ghost predicate LengthsFitItems(f: Field, items: seq<Value>)
    decreases f, 0, 1
  {
    if Packable(f) then Below32(PackedBytes(f, items)) else forall k :: 0 <= k < |items| ==> LengthFits(f, items[k])
  }

  ghost predicate LengthFits(f: Field, v: Value)
    decreases f, 0, 0
  {
    match f.ltype
    case Bytes => |AsBytes(v)| < TWO32
    case String => |CString(AsBytes(v), f.dataSize)| < TWO32
    case FixedLengthBytes => f.dataSize < TWO32
    case Submessage(fields) => Below32(MessageBytes(fields, AsMessage(v), 0)) && LengthsFit(fields, AsMessage(v))
    case _ => true
  }

  // ---- Sizes ---------------------------------------------------------------

  ghost predicate Below64(e: Encoding) {
    e.Some? ==> |e.value| < TWO64
  }

  /** No nested message that is sent is too large for a 64-bit size. */
  ghost predicate Addressable(fields: seq<Field>, m: Message)
    decreases fields, 0
  {
    forall i :: 0 <= i < |fields| ==> AddressableSlot(fields[i], Get(m, Address(fields, i)))
  }

  ghost predicate AddressableSlot(f: Field, slot: Slot)
    decreases f, 1
  {
    match f.htype
    case Required => AddressableValue(f, ValueOf(slot))
    case Optional => (if f.sizeOffset != 0 then HasOf(slot) else !IsDefault(f, slot)) ==> AddressableValue(f, ValueOf(slot))
    case Repeated => AddressableItems(f, ItemsToSend(f, slot))
    case OneOf => WhichOf(slot) == f.tag ==> AddressableValue(f, ValueOf(slot))
  }

  ghost predicate AddressableItems(f: Field, items: seq<Value>)
    decreases f, 0, 1
  {
    forall k :: 0 <= k < |items| ==> AddressableValue(f, items[k])
  }

  ghost predicate AddressableValue(f: Field, v: Value)
    decreases f, 0, 0
  {
    match f.ltype
    case Submessage(fields) => Below64(MessageBytes(fields, AsMessage(v), 0)) && Addressable(fields, AsMessage(v))
    case _ => true
  }
}
