/** What nanopb's decoder (pb_decode.c) makes of a byte string: the message that results, or Malformed
    where it reports an error. */
module PbDecode {
  import opened Common
  import opened Coding
  import opened Wire
  import opened PbMessage

  /** The decoder's state between two fields: the message, the required fields seen so far, and the
      array without a count that was met last, with the number of its items received. */
  datatype Progress = Progress(m: Message, seen: set<nat>, fixed: Option<nat>, count: nat)

  /** How a message ends: with the input, or early with a zero tag. */
  datatype Outcome = Outcome(progress: Progress, used: nat, terminated: bool) | Failed

  datatype StepResult = Next(progress: Progress, used: nat) | Stop(used: nat) | Abort

  // ---- Scalars -------------------------------------------------------------

  function IntegerOr(ok: bool, i: int, used: nat): (r: Parsed<Value>)
    ensures r.Parsed? ==> r == Parsed(VInt(i), used)
  {
    if ok then Parsed(VInt(i), used) else Malformed
  }

  /** Values of the packable types. A signed value of at most 32 bits is first cut to 32 bits, as some
      encoders send it so. */
  function ReadScalar(f: Field, s: seq<Byte>): (r: Parsed<Value>)
    requires Packable(f)
    ensures r.Parsed? ==> 0 < r.used <= |s|
  {
    if f.ltype.Bool? then
      var r := ReadVarint32(s);
      if r.Malformed? then Malformed else Parsed(VInt(if r.value != 0 then 1 else 0), r.used)
    else if f.ltype.Fixed32? then
      if |s| < 4 then Malformed else Parsed(VInt(DecodeFixed(s[..4])), 4)
    else if f.ltype.Fixed64? then
      if |s| < 8 then Malformed else Parsed(VInt(DecodeFixed(s[..8])), 8)
    else
      var r := ReadVarint(s);
      if r.Malformed? || !IntegerSize(f.dataSize) then Malformed
      else if f.ltype.Varint? then
        var i := ToSigned(r.value, if f.dataSize == 8 then TWO64 else TWO32);
        IntegerOr(FitsSigned(i, f.dataSize), i, r.used)
      else if f.ltype.Uvarint? then IntegerOr(FitsUnsigned(r.value, f.dataSize), r.value, r.used)
      else IntegerOr(FitsSigned(UnZigZag(r.value), f.dataSize), UnZigZag(r.value), r.used)
  }

  /** Items until the bytes run out, within the bounds of the array. */
  function ReadPacked(f: Field, s: seq<Byte>, items: seq<Value>): Option<seq<Value>>
    requires Packable(f)
    decreases |s|
  {
    if s == [] then Some(items)
    else if |items| >= f.arraySize then None
    else
      match ReadScalar(f, s)
      case Malformed => None
      case Parsed(v, used) => ReadPacked(f, s[used..], items + [v])
  }

  // ---- Values --------------------------------------------------------------

  /** base is what the memory holds: a structure is decoded on top of it. */
  function ReadValue(f: Field, s: seq<Byte>, base: Value): (r: Parsed<Value>)
    ensures r.Parsed? ==> 0 < r.used <= |s|
    decreases |s|, 3
  {
    match f.ltype
    case Bytes =>
      var r := ReadString(s);
      if r.Malformed? || |r.value| + BYTES_OFFSET > f.dataSize then Malformed else Parsed(VBytes(r.value), r.used)
    case String =>
      var r := ReadString(s);
      if r.Malformed? || |r.value| + 1 > f.dataSize then Malformed else Parsed(VBytes(r.value), r.used)
    case FixedLengthBytes =>
      var r := ReadString(s);
      if r.Malformed? then Malformed
      else if |r.value| == 0 then Parsed(VBytes(Zeros(f.dataSize)), r.used)
      else if |r.value| != f.dataSize then Malformed
      else Parsed(VBytes(r.value), r.used)
    case Submessage(fields) =>
      var r := ReadString(s);
      if r.Malformed? then Malformed
      else
        var start := if f.htype.Repeated? then Defaults(fields, |fields|) else AsMessage(base);
        (match ReadMessage(fields, r.value, start)
         case Failed => Malformed
         case Outcome(progress, _, _) => Parsed(VMsg(progress.m), r.used))
    case _ => ReadScalar(f, s)
  }

  function Taken(items: seq<Value>, count: nat): seq<Value> {
    if count <= |items| then items[..count] else items
  }

  /** The field's memory after one occurrence on the wire; an array has count items so far. */
  function ReadField(f: Field, w: WireType, s: seq<Byte>, slot: Slot, count: nat): (r: Parsed<Slot>)
    ensures r.Parsed? ==> 0 < r.used <= |s|
    ensures r.Parsed? && f.htype.Repeated? ==> r.value.Many?
    decreases |s|, 4
  {
    match f.htype
    case Required =>
      (match ReadValue(f, s, ValueOf(slot))
       case Malformed => Malformed
       case Parsed(v, used) => Parsed(One(v), used))
    case Optional =>
      (match ReadValue(f, s, ValueOf(slot))
       case Malformed => Malformed
       case Parsed(v, used) => Parsed(if f.sizeOffset != 0 then Maybe(true, v) else One(v), used))
    case Repeated =>
      var items := Taken(ItemsOf(slot), count);
      if w == WtString && Packable(f) then
        var r := ReadString(s);
        if r.Malformed? then Malformed
        else
          match ReadPacked(f, r.value, items)
          case None => Malformed
          case Some(all) => Parsed(Many(all), r.used)
      else if |items| >= f.arraySize then Malformed
      else
        (match ReadValue(f, s, VInt(0))
         case Malformed => Malformed
         case Parsed(v, used) => Parsed(Many(items + [v]), used))
    case OneOf =>
      var base := if f.ltype.Submessage? && WhichOf(slot) != f.tag then Zero(f) else ValueOf(slot);
      (match ReadValue(f, s, base)
       case Malformed => Malformed
       case Parsed(v, used) => Parsed(Union(f.tag, v), used))
  }

  // ---- Messages ------------------------------------------------------------

  /** The first field with the tag. */
  function FindField(fields: seq<Field>, tag: nat): (r: Option<nat>)
    ensures r.Some? ==> r.value < |fields| && fields[r.value].tag == tag
    ensures r.None? ==> forall i :: 0 <= i < |fields| ==> fields[i].tag != tag
  {
    if fields == [] then None
    else if fields[|fields| - 1].tag == tag && FindField(fields[..|fields| - 1], tag).None? then Some(|fields| - 1)
    else FindField(fields[..|fields| - 1], tag)
  }

  /** With distinct tags there is only one field to find. */
  lemma {:induction false} FindFieldFinds(fields: seq<Field>, i: nat)
    requires DistinctTags(fields) && i < |fields|
    ensures FindField(fields, fields[i].tag) == Some(i)
  {
    if i < |fields| - 1 {
      FindFieldFinds(fields[..|fields| - 1], i);
    }
  }

  predicate FixedComplete(fields: seq<Field>, p: Progress) {
    p.fixed.Some? && p.fixed.value < |fields| ==> p.count == fields[p.fixed.value].arraySize
  }

  /** An array without a count must be complete before another one may begin. */
  function Begin(fields: seq<Field>, i: nat, p: Progress): Option<Progress>
    requires i < |fields|
  {
    if !FixedCount(fields[i]) || p.fixed == Some(i) then Some(p)
    else if !FixedComplete(fields, p) then None
    else Some(p.(fixed := Some(i), count := 0))
  }

  /** The number of items received for field i. */
  function CountFor(f: Field, slot: Slot, p: Progress): nat {
    if FixedCount(f) then p.count else |ItemsOf(slot)|
  }

  function WithField(fields: seq<Field>, i: nat, p: Progress, slot: Slot): Progress
    requires i < |fields|
  {
    Progress(p.m[Address(fields, i) := slot],
             if fields[i].htype.Required? then p.seen + {i} else p.seen,
             p.fixed,
             if FixedCount(fields[i]) then |ItemsOf(slot)| else p.count)
  }

  /** One round of the decoding loop: a tag, and a field or something unknown. */
  function DecodeStep(fields: seq<Field>, s: seq<Byte>, p: Progress): (r: StepResult)
    ensures r.Stop? ==> 0 < r.used <= |s|
    ensures r.Next? ==> 0 < r.used <= |s|
    decreases |s|, 0
  {
    match ReadTag(s)
    case BadTag => Abort
    case Terminator(used) => Stop(used)
    case Tag(number, w, used) =>
      match FindField(fields, number)
      case None =>
        (match SkipLength(w, s[used..])
         case None => Abort
         case Some(n) => Next(p, used + n))
      case Some(i) =>
        match Begin(fields, i, p)
        case None => Abort
        case Some(p1) =>
          var slot := Get(p1.m, Address(fields, i));
          match ReadField(fields[i], w, s[used..], slot, CountFor(fields[i], slot, p1))
          case Malformed => Abort
          case Parsed(slot2, n) => Next(WithField(fields, i, p1, slot2), used + n)
  }

  function Shift(o: Outcome, n: nat): Outcome {
    if o.Failed? then Failed else o.(used := o.used + n)
  }

  function ReadFields(fields: seq<Field>, s: seq<Byte>, p: Progress): (r: Outcome)
    ensures r.Outcome? ==> r.used <= |s| && (!r.terminated ==> r.used == |s|)
    decreases |s|, 1
  {
    if s == [] then Outcome(p, 0, false)
    else
      match DecodeStep(fields, s, p)
      case Abort => Failed
      case Stop(used) => Outcome(p, used, true)
      case Next(p2, used) => Shift(ReadFields(fields, s[used..], p2), used)
  }

  /** No more than the first 64 required fields are kept track of. */
  predicate AllRequiredSeen(fields: seq<Field>, seen: set<nat>) {
    forall i :: 0 <= i < |fields| && fields[i].htype.Required? && RequiredBefore(fields, i) < PB_MAX_REQUIRED_FIELDS ==> i in seen
  }

  predicate Complete(fields: seq<Field>, p: Progress) {
    FixedComplete(fields, p) && AllRequiredSeen(fields, p.seen)
  }

  function Start(m: Message): Progress {
    Progress(m, {}, None, 0)
  }

  /** pb_decode_noinit: decode on top of what the structure holds. */
  function ReadMessage(fields: seq<Field>, s: seq<Byte>, m: Message): (r: Outcome)
    ensures r.Outcome? ==> r.used <= |s| && (!r.terminated ==> r.used == |s|)
    decreases |s|, 2
  {
    var o := ReadFields(fields, s, Start(m));
    if o.Outcome? && Complete(fields, o.progress) then o else Failed
  }
}
