/** What the decoder accepts can be sent on: the message it makes of any bytes is in range, and its encoding decodes
    to the same content and is its own re-encoding. */
module PbReencode {
  import opened Common
  import opened Coding
  import opened Wire
  import opened PbMessage
  import opened PbEncode
  import opened PbDecode
  import opened PbRoundTrip

  // ---- What decoding keeps -------------------------------------------------

  /** Like InRange, but absent fields with a flag are in range as well, and arrays without a count may be incomplete. */
  ghost predicate Sound(fields: seq<Field>, m: Message)
    decreases fields
  {
    forall i :: 0 <= i < |fields| ==>
      && SoundSlot(fields[i], Get(m, Address(fields, i)))
      && (fields[i].htype.OneOf? && WhichOf(Get(m, Address(fields, i))) != 0 ==>
            exists j :: 0 <= j < |fields| && NamesMember(fields, i, j, WhichOf(Get(m, Address(fields, i)))))
  }

  ghost predicate SoundSlot(f: Field, slot: Slot)
    decreases f, 1
  {
    match f.htype
    case Required => SoundValue(f, ValueOf(slot))
    case Optional => SoundValue(f, ValueOf(slot))
    case Repeated => |ItemsOf(slot)| <= f.arraySize && forall k :: 0 <= k < |ItemsOf(slot)| ==> SoundValue(f, ItemsOf(slot)[k])
    case OneOf => WhichOf(slot) == f.tag ==> SoundValue(f, ValueOf(slot))
  }

  ghost predicate SoundValue(f: Field, v: Value)
    decreases f, 0
  {
    match f.ltype
    case Submessage(fields) => Sound(fields, AsMessage(v))
    case _ => InRangeValue(f, v)
  }

  /** Whatever arrays without a count are present, at any depth, have all of their items. */
  ghost predicate ArraysFull(fields: seq<Field>, m: Message)
    decreases fields
  {
    forall i :: 0 <= i < |fields| ==> ArrayFull(fields[i], Get(m, Address(fields, i)))
  }

  ghost predicate ArrayFull(f: Field, slot: Slot)
    decreases f, 1
  {
    match f.htype
    case Required => FullValue(f, ValueOf(slot))
    case Optional => f.sizeOffset == 0 || HasOf(slot) ==> FullValue(f, ValueOf(slot))
    case Repeated =>
      && (f.sizeOffset == 0 ==> |ItemsOf(slot)| == f.arraySize)
      && forall k :: 0 <= k < |ItemsOf(slot)| ==> FullValue(f, ItemsOf(slot)[k])
    case OneOf => WhichOf(slot) == f.tag ==> FullValue(f, ValueOf(slot))
  }

  ghost predicate FullValue(f: Field, v: Value)
    decreases f, 0
  {
    match f.ltype case Submessage(fields) => ArraysFull(fields, AsMessage(v)) case _ => true
  }

  lemma {:induction false} SoundIsInRange(fields: seq<Field>, m: Message)
    requires Sound(fields, m)
    ensures InRange(fields, m) <==> ArraysFull(fields, m)
    decreases fields, 2
  {
    hide InRangeSlot, SoundSlot, ArrayFull;
    forall i | 0 <= i < |fields| ensures InRangeSlot(fields[i], Get(m, Address(fields, i))) <==> ArrayFull(fields[i], Get(m, Address(fields, i))) {
      SoundSlotIsInRange(fields[i], Get(m, Address(fields, i)));
    }
  }

  lemma {:induction false} SoundSlotIsInRange(f: Field, slot: Slot)
    requires SoundSlot(f, slot)
    ensures InRangeSlot(f, slot) <==> ArrayFull(f, slot)
    decreases f, 1
  {
    hide SoundValue, InRangeValue, FullValue;
    if f.htype.Repeated? {
      forall k | 0 <= k < |ItemsOf(slot)| ensures InRangeValue(f, ItemsOf(slot)[k]) <==> FullValue(f, ItemsOf(slot)[k]) {
        SoundValueIsInRange(f, ItemsOf(slot)[k]);
      }
    } else if SoundValue(f, ValueOf(slot)) {
      SoundValueIsInRange(f, ValueOf(slot));
    }
  }

  lemma {:induction false} SoundValueIsInRange(f: Field, v: Value)
    requires SoundValue(f, v)
    ensures InRangeValue(f, v) <==> FullValue(f, v)
    decreases f, 0
  {
    match f.ltype
    case Submessage(fields) => SoundIsInRange(fields, AsMessage(v));
    case _ =>
  }

  /** The message that decoding begins with is sound, at every depth. */
  ghost predicate SoundDefaults(fields: seq<Field>)
    decreases fields
  {
    && Sound(fields, Defaults(fields, |fields|))
    && forall i :: 0 <= i < |fields| ==> SoundDefault(fields[i])
  }

  ghost predicate SoundDefault(f: Field)
    decreases f
  {
    match f.ltype case Submessage(fields) => SoundDefaults(fields) case _ => true
  }

  // ---- Values --------------------------------------------------------------

  lemma ScalarIsSound(f: Field, s: seq<Byte>)
    requires Packable(f) && ReadScalar(f, s).Parsed?
    ensures InRangeValue(f, ReadScalar(f, s).value)
  {
    hide ReadVarint, ReadVarint32, ToSigned, UnZigZag, DecodeFixed;
    SmallPowers();
    Pow256Of8();
  }

  lemma {:induction false} PackedIsSound(f: Field, s: seq<Byte>, items: seq<Value>)
    requires Packable(f) && ReadPacked(f, s, items).Some?
    requires |items| <= f.arraySize && forall k :: 0 <= k < |items| ==> InRangeValue(f, items[k])
    ensures var r := ReadPacked(f, s, items).value; |r| <= f.arraySize && forall k :: 0 <= k < |r| ==> InRangeValue(f, r[k])
    decreases |s|
  {
    hide ReadScalar, InRangeValue;
    if s != [] {
      ScalarIsSound(f, s);
      PackedIsSound(f, s[ReadScalar(f, s).used..], items + [ReadScalar(f, s).value]);
    }
  }

  lemma {:induction false} ValueIsSound(f: Field, s: seq<Byte>, base: Value)
    requires WellFormedField(f) && SoundDefault(f) && ReadValue(f, s, base).Parsed?
    requires f.ltype.Submessage? && !f.htype.Repeated? ==> Sound(f.ltype.fields, AsMessage(base))
    ensures SoundValue(f, ReadValue(f, s, base).value)
    decreases |s|, 3
  {
    hide ReadScalar, ReadString, ReadMessage, Defaults, Sound;
    if Packable(f) {
      ScalarIsSound(f, s);
    } else if f.ltype.Submessage? {
      var fields := f.ltype.fields;
      MessageIsSound(fields, ReadString(s).value, if f.htype.Repeated? then Defaults(fields, |fields|) else AsMessage(base));
    } else if f.ltype.String? {
      ShortString(ReadString(s).value, f.dataSize);
    }
  }

  lemma ShortString(b: seq<Byte>, max: nat)
    requires |b| < max
    ensures |CString(b, max)| < max
  {
  }

  lemma {:induction false} FieldIsSound(f: Field, w: WireType, s: seq<Byte>, slot: Slot, count: nat)
    requires WellFormedField(f) && SoundDefault(f) && SoundSlot(f, slot) && ReadField(f, w, s, slot, count).Parsed?
    ensures SoundSlot(f, ReadField(f, w, s, slot, count).value)
    ensures f.htype.OneOf? ==> WhichOf(ReadField(f, w, s, slot, count).value) == f.tag
    decreases |s|, 4
  {
    hide ReadValue, ReadString, ReadPacked, Sound, Defaults, InRangeValue;
    match f.htype {
      case Required => ValueIsSound(f, s, ValueOf(slot));
      case Optional => ValueIsSound(f, s, ValueOf(slot));
      case OneOf => ValueIsSound(f, s, if f.ltype.Submessage? && WhichOf(slot) != f.tag then Zero(f) else ValueOf(slot));
      case Repeated =>
        if w == WtString && Packable(f) {
          PackedIsSound(f, ReadString(s).value, Taken(ItemsOf(slot), count));
        } else {
          ValueIsSound(f, s, VInt(0));
        }
    }
  }

  // ---- Messages ------------------------------------------------------------

  /** Writing one field leaves the others sound: those it shares memory with are no longer set. */
  lemma WriteIsSound(fields: seq<Field>, m: Message, i: nat, slot: Slot)
    requires WellFormed(fields) && Sound(fields, m) && i < |fields| && SoundSlot(fields[i], slot)
    requires fields[i].htype.OneOf? ==> WhichOf(slot) == fields[i].tag
    ensures Sound(fields, m[Address(fields, i) := slot])
  {
    hide SoundSlot, Address;
    var m2 := m[Address(fields, i) := slot];
    forall j | 0 <= j < |fields|
      ensures SoundSlot(fields[j], Get(m2, Address(fields, j)))
      ensures fields[j].htype.OneOf? && WhichOf(Get(m2, Address(fields, j))) != 0 ==>
                exists n :: 0 <= n < |fields| && NamesMember(fields, j, n, WhichOf(Get(m2, Address(fields, j))))
    {
      if Address(fields, j) != Address(fields, i) {
        assert Get(m2, Address(fields, j)) == Get(m, Address(fields, j));
      } else if j == i {
        assert fields[i].htype.OneOf? ==> NamesMember(fields, i, i, WhichOf(slot));
      } else {
        BothOneOf(fields, i, j);
        assert NamesMember(fields, j, i, WhichOf(slot));
        OtherMember(fields[j], slot);
      }
    }
  }

  lemma BothOneOf(fields: seq<Field>, i: nat, j: nat)
    requires WellFormed(fields) && i < |fields| && j < |fields| && i != j && Address(fields, i) == Address(fields, j)
    ensures fields[i].htype.OneOf? && fields[j].htype.OneOf? && fields[i].tag != fields[j].tag
  {
    if !fields[i].htype.OneOf? {
      AddressesDiffer(fields, i, j);
    } else if !fields[j].htype.OneOf? {
      AddressesDiffer(fields, j, i);
    }
  }

  lemma OtherMember(f: Field, slot: Slot)
    requires f.htype.OneOf? && WhichOf(slot) != f.tag
    ensures SoundSlot(f, slot)
  {
  }

  lemma {:induction false} StepIsSound(fields: seq<Field>, s: seq<Byte>, p: Progress)
    requires WellFormed(fields) && SoundDefaults(fields) && Sound(fields, p.m) && DecodeStep(fields, s, p).Next?
    ensures Sound(fields, DecodeStep(fields, s, p).progress.m)
    decreases |s|, 0
  {
    hide ReadTag, FindField, ReadField, Sound, Defaults, Address, SoundSlot, WellFormedField, SoundDefault;
    var at := FindField(fields, ReadTag(s).number);
    if at.Some? {
      var i, used := at.value, ReadTag(s).used;
      var slot := Get(p.m, Address(fields, i));
      var count := CountFor(fields[i], slot, Begin(fields, i, p).value);
      SlotOfSound(fields, p.m, i);
      assert |s[used..]| < |s|;
      FieldIsSound(fields[i], ReadTag(s).wireType, s[used..], slot, count);
      WriteIsSound(fields, p.m, i, ReadField(fields[i], ReadTag(s).wireType, s[used..], slot, count).value);
    }
  }

  lemma SlotOfSound(fields: seq<Field>, m: Message, i: nat)
    requires Sound(fields, m) && i < |fields|
    ensures SoundSlot(fields[i], Get(m, Address(fields, i)))
  {
  }

  lemma {:induction false} FieldsAreSound(fields: seq<Field>, s: seq<Byte>, p: Progress)
    requires WellFormed(fields) && SoundDefaults(fields) && Sound(fields, p.m) && ReadFields(fields, s, p).Outcome?
    ensures Sound(fields, ReadFields(fields, s, p).progress.m)
    decreases |s|, 1
  {
    hide DecodeStep, Sound, SoundDefaults, WellFormed;
    if s != [] {
      var step := DecodeStep(fields, s, p);
      if step.Next? {
        StepIsSound(fields, s, p);
        FieldsAreSound(fields, s[step.used..], step.progress);
      }
    }
  }

  lemma {:induction false} MessageIsSound(fields: seq<Field>, s: seq<Byte>, m: Message)
    requires WellFormed(fields) && SoundDefaults(fields) && Sound(fields, m) && ReadMessage(fields, s, m).Outcome?
    ensures Sound(fields, ReadMessage(fields, s, m).progress.m)
    decreases |s|, 2
  {
    hide ReadFields, Sound, SoundDefaults, WellFormed, Complete;
    FieldsAreSound(fields, s, Start(m));
  }

  // ---- Sending it on -------------------------------------------------------

  /** Whatever bytes are decoded, from defaults or on top of a sound message: the result is in range exactly if the
      arrays without a count that it has are complete. */
  lemma DecodedIsInRange(fields: seq<Field>, s: seq<Byte>, m: Message)
    requires WellFormed(fields) && SoundDefaults(fields) && Sound(fields, m) && ReadMessage(fields, s, m).Outcome?
    ensures var r := ReadMessage(fields, s, m).progress.m; InRange(fields, r) <==> ArraysFull(fields, r)
  {
    hide ReadMessage, Sound, SoundDefaults, WellFormed, InRange, ArraysFull;
    MessageIsSound(fields, s, m);
    SoundIsInRange(fields, ReadMessage(fields, s, m).progress.m);
  }

  /** What was decoded, whoever encoded it and however, can be encoded; decoding that gives the same content, and
      encoding the result gives the same bytes again. */
  lemma DecodedCanBeSentOn(fields: seq<Field>, s: seq<Byte>)
    requires WellFormed(fields) && SoundDefaults(fields) && ZeroDefaults(fields)
    requires ReadMessage(fields, s, Defaults(fields, |fields|)).Outcome?
    requires ArraysFull(fields, ReadMessage(fields, s, Defaults(fields, |fields|)).progress.m)
    ensures var m := ReadMessage(fields, s, Defaults(fields, |fields|)).progress.m;
            var e := MessageBytes(fields, m, 0);
            && e.Some?
            && (LengthsFit(fields, m) ==>
                  var again := ReadMessage(fields, e.value, Defaults(fields, |fields|));
                  && again.Outcome? && again.used == |e.value|
                  && SameContent(fields, m, again.progress.m) && MessageBytes(fields, again.progress.m, 0) == e)
  {
    hide ReadMessage, Sound, WellFormed, InRange, ArraysFull, MessageBytes, LengthsFit, SameContent, ZeroDefaults, Defaults;
    var start := Defaults(fields, |fields|);
    var m := ReadMessage(fields, s, start).progress.m;
    DecodedIsInRange(fields, s, start);
    RoundTrip(fields, m);
    if LengthsFit(fields, m) {
      SameContentSameBytes(fields, m, ReadMessage(fields, MessageBytes(fields, m, 0).value, start).progress.m, 0);
    }
  }
}
