/** Decoding what was encoded gives back the same content, for every descriptor and every message. */
module PbRoundTrip {
  import opened Common
  import opened Coding
  import opened Wire
  import opened PbMessage
  import opened PbEncode
  import opened PbDecode
  import opened PbMerge

  // ---- Scalars -------------------------------------------------------------

  lemma SignedAgain(i: int, size: nat)
    requires FitsSigned(i, size)
    ensures ToSigned(ToUnsigned64(i), if size == 8 then TWO64 else TWO32) == i
  {
    assert i % TWO64 % TWO32 == i % TWO32 by {
      ModMod(i);
    }
  }

  lemma ModMod(i: int)
    ensures i % TWO64 % TWO32 == i % TWO32
  {
    var q := i / TWO64;
    assert i == TWO32 * (TWO32 * q) + i % TWO64;
  }

  lemma FixedWords()
    ensures Pow256(4) == TWO32 && Pow256(8) == TWO64
  {
    Pow256Of8();
    assert Pow256(2) == 0x1_0000;
  }

  lemma ScalarRoundTrip(f: Field, v: Value, t: seq<Byte>) returns (v2: Value)
    requires Packable(f) && InRangeValue(f, v)
    ensures ScalarBytes(f, v).Some? && |ScalarBytes(f, v).value| > 0
    ensures ReadScalar(f, ScalarBytes(f, v).value + t) == Parsed(v2, |ScalarBytes(f, v).value|)
    ensures SameValue(f, v, v2)
  {
    hide PutVarint, ReadVarint, ReadVarint32, ZigZag, UnZigZag, ToSigned, PutFixed, DecodeFixed, Pow256;
    v2 := v;
    match f.ltype
    case Bool =>
      v2 := VInt(if AsInt(v) != 0 then 1 else 0);
      ReadPutVarint32(v2.i, t);
    case Varint =>
      v2 := VInt(AsInt(v));
      ReadPutVarint(ToUnsigned64(v2.i), t);
      SignedAgain(v2.i, f.dataSize);
    case Uvarint =>
      v2 := VInt(AsInt(v));
      ReadPutVarint(ToUnsigned64(v2.i), t);
    case Svarint =>
      v2 := VInt(AsInt(v));
      ZigZagIsBijection(v2.i, 0);
      ReadPutVarint(ZigZag(v2.i), t);
    case Fixed32 =>
      v2 := VInt(AsInt(v));
      FixedWords();
      DecodePutFixed(v2.i, 4);
      assert (PutFixed(v2.i, 4) + t)[..4] == PutFixed(v2.i, 4);
    case Fixed64 =>
      v2 := VInt(AsInt(v));
      FixedWords();
      DecodePutFixed(v2.i, 8);
      assert (PutFixed(v2.i, 8) + t)[..8] == PutFixed(v2.i, 8);
  }

  ghost predicate SameItems(f: Field, a: seq<Value>, b: seq<Value>) {
    |a| == |b| && forall k :: 0 <= k < |a| ==> SameValue(f, a[k], b[k])
  }

  lemma {:induction false} PackedRoundTrip(f: Field, items: seq<Value>, prior: seq<Value>) returns (items2: seq<Value>)
    requires Packable(f) && (forall k :: 0 <= k < |items| ==> InRangeValue(f, items[k]))
    requires |prior| + |items| <= f.arraySize
    ensures PackedBytes(f, items).Some?
    ensures ReadPacked(f, PackedBytes(f, items).value, prior) == Some(prior + items2) && SameItems(f, items, items2)
    decreases |items|
  {
    hide SameValue, InRangeValue, ReadScalar, ScalarBytes;
    if items == [] {
      items2 := [];
      assert prior + [] == prior;
    } else {
      var rest := PackedRoundTrip(f, items[1..], prior);
      var tail := PackedBytes(f, items[1..]).value;
      var v := ScalarRoundTrip(f, items[0], tail);
      var head := ScalarBytes(f, items[0]).value;
      assert (head + tail)[|head|..] == tail;
      var more := PackedRoundTrip(f, items[1..], prior + [v]);
      items2 := [v] + more;
      assert prior + [v] + more == prior + items2;
    }
  }

  // ---- Encodable messages --------------------------------------------------

  lemma {:induction false} InRangeValueEncodes(f: Field, v: Value)
    requires InRangeValue(f, v)
    ensures ValueBytes(f, v).Some?
    decreases f, 0
  {
    match f.ltype
    case Submessage(fields) => InRangeEncodes(fields, AsMessage(v), 0);
    case _ =>
      if Packable(f) {
        var _ := ScalarRoundTrip(f, v, []);
      }
  }

  lemma {:induction false} InRangeItemsEncode(f: Field, items: seq<Value>)
    requires forall k :: 0 <= k < |items| ==> InRangeValue(f, items[k])
    ensures UnpackedBytes(f, items).Some?
    decreases f, 1, |items|
  {
    if items != [] {
      InRangeValueEncodes(f, items[0]);
      InRangeItemsEncode(f, items[1..]);
    }
  }

  lemma {:induction false} InRangeSlotEncodes(f: Field, slot: Slot)
    requires InRangeSlot(f, slot)
    ensures FieldBytes(f, slot).Some?
    decreases f, 2
  {
    hide InRangeValue, ValueBytes, PackedBytes, IsDefault;
    if f.htype.Repeated? {
      if Packable(f) {
        var _ := PackedRoundTrip(f, ItemsToSend(f, slot), []);
      } else {
        InRangeItemsEncode(f, ItemsToSend(f, slot));
      }
    } else if InRangeValue(f, ValueOf(slot)) {
      InRangeValueEncodes(f, ValueOf(slot));
    }
  }

  /** The encoder has nothing to complain about in a message that is in range. */
  lemma {:induction false} InRangeEncodes(fields: seq<Field>, m: Message, i: nat)
    requires InRange(fields, m) && i <= |fields|
    ensures MessageBytes(fields, m, i).Some?
    decreases fields, |fields| - i
  {
    hide InRangeSlot, FieldBytes;
    if i < |fields| {
      InRangeSlotEncodes(fields[i], Get(m, Address(fields, i)));
      InRangeEncodes(fields, m, i + 1);
    }
  }

  // ---- Values left out -----------------------------------------------------

  /** What the encoder leaves out is what the decoder fills in by itself. */
  lemma {:induction false} ZeroIsInitial(f: Field, v: Value)
    requires WellFormedField(f) && IsZero(f, v) && ZeroDefault(f) && InRangeValue(f, v)
    ensures SameValue(f, v, Zero(f))
    decreases f, 0
  {
    match f.ltype
    case Submessage(fields) => AllDefaultIsInitial(fields, AsMessage(v));
    case _ =>
  }

  lemma {:induction false} DefaultIsInitial(f: Field, slot: Slot)
    requires WellFormedField(f) && IsDefault(f, slot) && ZeroDefault(f) && InRangeSlot(f, slot)
    ensures SameSlot(f, slot, InitialSlot(f))
    decreases f, 1
  {
    if ImplicitPresence(f) {
      ZeroIsInitial(f, ValueOf(slot));
    }
  }

  lemma {:induction false} AllDefaultAt(fields: seq<Field>, m: Message, i: nat, j: nat)
    requires j <= i < |fields| && AllDefault(fields, m, j)
    ensures IsDefault(fields[i], Get(m, Address(fields, i)))
    decreases i - j
  {
    if j < i {
      AllDefaultAt(fields, m, i, j + 1);
    }
  }

  lemma {:induction false} AllDefaultIsInitial(fields: seq<Field>, m: Message)
    requires WellFormed(fields) && AllDefault(fields, m, 0) && ZeroDefaults(fields) && InRange(fields, m)
    ensures SameContent(fields, m, Defaults(fields, |fields|))
    decreases fields, 0
  {
    forall i | 0 <= i < |fields|
      ensures SameSlot(fields[i], Get(m, Address(fields, i)), Get(Defaults(fields, |fields|), Address(fields, i)))
    {
      AllDefaultAt(fields, m, i, 0);
      DefaultsAt(fields, |fields|, i);
      assert WellFormedField(fields[i]) && ZeroDefault(fields[i]);
      DefaultIsInitial(fields[i], Get(m, Address(fields, i)));
    }
  }

  // ---- One field on the wire ----------------------------------------------

  /** A tag and its field are one round of the decoding loop. */
  lemma OneField(fields: seq<Field>, i: nat, p: Progress, p1: Progress, w: WireType, body: seq<Byte>, t: seq<Byte>, slot2: Slot)
    requires WellFormed(fields) && i < |fields| && !w.WtInvalid? && Begin(fields, i, p) == Some(p1)
    requires var slot := Get(p1.m, Address(fields, i));
             ReadField(fields[i], w, body + t, slot, CountFor(fields[i], slot, p1)) == Parsed(slot2, |body|)
    ensures var e := PutTag(fields[i].tag, w) + body;
            ReadFields(fields, e + t, p) == Shift(ReadFields(fields, t, WithField(fields, i, p1, slot2)), |e|)
  {
    hide ReadField, PutTag, ReadTag, FindField;
    var tag := PutTag(fields[i].tag, w);
    assert WellFormedField(fields[i]);
    ReadPutTag(fields[i].tag, w, body + t);
    FindFieldFinds(fields, i);
    assert tag + body + t == tag + (body + t);
    assert (tag + body + t)[|tag|..] == body + t;
    assert (tag + body + t)[|tag| + |body|..] == t;
  }

  // ---- The state of a decoding in order -----------------------------------

  /** Among the first i fields is the member that the message says its union holds. */
  ghost predicate Written(fields: seq<Field>, m: Message, i: nat, j: nat)
    requires i <= |fields| && j < |fields|
  {
    exists k :: 0 <= k < i && NamesMember(fields, j, k, WhichOf(Get(m, Address(fields, j))))
  }

  /** Of a message encoded in order the first i fields have been decoded. */
  ghost predicate SlotReady(fields: seq<Field>, m: Message, got: Message, i: nat, j: nat)
    requires i <= |fields| && j < |fields|
  {
    var was, now := Get(m, Address(fields, j)), Get(got, Address(fields, j));
    if (if fields[j].htype.OneOf? then Written(fields, m, i, j) else j < i) then SameSlot(fields[j], was, now)
    else now == InitialSlot(fields[j])
  }

  ghost predicate Ready(fields: seq<Field>, m: Message, p: Progress, i: nat)
    requires i <= |fields|
  {
    && (forall j :: 0 <= j < |fields| ==> SlotReady(fields, m, p.m, i, j))
    && (forall j :: 0 <= j < i && fields[j].htype.Required? ==> j in p.seen)
    && FixedComplete(fields, p) && (p.fixed.Some? ==> p.fixed.value < i)
  }

  lemma ReadyAtStart(fields: seq<Field>, m: Message)
    requires WellFormed(fields)
    ensures Ready(fields, m, Start(Defaults(fields, |fields|)), 0)
  {
    forall j | 0 <= j < |fields| ensures SlotReady(fields, m, Defaults(fields, |fields|), 0, j) {
      DefaultsAt(fields, |fields|, j);
    }
  }

  lemma ReadyAtEnd(fields: seq<Field>, m: Message, p: Progress)
    requires WellFormed(fields) && InRange(fields, m) && Ready(fields, m, p, |fields|)
    ensures SameContent(fields, m, p.m) && Complete(fields, p)
  {
    hide SameValue, InRangeSlot;
    forall j | 0 <= j < |fields| ensures SameSlot(fields[j], Get(m, Address(fields, j)), Get(p.m, Address(fields, j))) {
      assert SlotReady(fields, m, p.m, |fields|, j) && WellFormedField(fields[j]);
    }
  }

  lemma WrittenNext(fields: seq<Field>, m: Message, i: nat, j: nat)
    requires i < |fields| && j < |fields|
    ensures Written(fields, m, i + 1, j) <==>
            Written(fields, m, i, j) || NamesMember(fields, j, i, WhichOf(Get(m, Address(fields, j))))
  {
    hide NamesMember;
  }

  /** A field that is absent leaves everything as it is. */
  lemma SkipField(fields: seq<Field>, m: Message, p: Progress, i: nat)
    requires WellFormed(fields) && i < |fields| && Ready(fields, m, p, i) && !fields[i].htype.Required?
    requires fields[i].htype.OneOf? ==> WhichOf(Get(m, Address(fields, i))) != fields[i].tag
    requires !fields[i].htype.OneOf? ==> SameSlot(fields[i], Get(m, Address(fields, i)), InitialSlot(fields[i]))
    ensures Ready(fields, m, p, i + 1)
  {
    hide SameSlot, Written;
    var n := i + 1;
    forall j | 0 <= j < |fields| ensures SlotReady(fields, m, p.m, n, j) {
      assert SlotReady(fields, m, p.m, i, j);
      WrittenNext(fields, m, i, j);
    }
  }

  lemma StoreAt(fields: seq<Field>, m: Message, got: Message, i: nat, slot2: Slot, j: nat)
    requires WellFormed(fields) && i < |fields| && j < |fields| && SlotReady(fields, m, got, i, j)
    requires SameSlot(fields[i], Get(m, Address(fields, i)), slot2)
    requires fields[i].htype.OneOf? ==> slot2.Union? && slot2.which == fields[i].tag
    ensures SlotReady(fields, m, got[Address(fields, i) := slot2], i + 1, j)
  {
    hide SameValue, InitialSlot, Written;
    WrittenNext(fields, m, i, j);
    if Address(fields, j) == Address(fields, i) && j != i {
      if !fields[i].htype.OneOf? {
        AddressesDiffer(fields, i, j);
      } else if !fields[j].htype.OneOf? {
        AddressesDiffer(fields, j, i);
      }
    }
  }

  /** A field that has arrived counts as decoded. */
  lemma StoreField(fields: seq<Field>, m: Message, p: Progress, p1: Progress, i: nat, slot2: Slot)
    requires WellFormed(fields) && i < |fields| && Ready(fields, m, p, i)
    requires p1.m == p.m && p1.seen >= p.seen && (p1 == p || (p1.fixed == Some(i) && FixedCount(fields[i])))
    requires FixedCount(fields[i]) ==> |ItemsOf(slot2)| == fields[i].arraySize && p1.fixed == Some(i)
    requires SameSlot(fields[i], Get(m, Address(fields, i)), slot2)
    requires fields[i].htype.OneOf? ==> slot2.Union? && slot2.which == fields[i].tag
    ensures Ready(fields, m, WithField(fields, i, p1, slot2), i + 1)
  {
    hide SameSlot, SlotReady;
    var n := i + 1;
    forall j | 0 <= j < |fields| ensures SlotReady(fields, m, WithField(fields, i, p1, slot2).m, n, j) {
      StoreAt(fields, m, p.m, i, slot2, j);
    }
  }

  /** A union whose member comes now has not been written to. */
  lemma UnionIsFresh(fields: seq<Field>, m: Message, p: Progress, i: nat)
    requires WellFormed(fields) && i < |fields| && Ready(fields, m, p, i)
    requires fields[i].htype.OneOf? && WhichOf(Get(m, Address(fields, i))) == fields[i].tag
    ensures WhichOf(Get(p.m, Address(fields, i))) == 0 != fields[i].tag
  {
    assert SlotReady(fields, m, p.m, i, i) && WellFormedField(fields[i]);
  }

  // ---- The round trip ------------------------------------------------------

  lemma {:induction false} ValueRoundTrip(f: Field, v: Value, t: seq<Byte>, base: Value) returns (v2: Value)
    requires WellFormedField(f) && ZeroDefault(f) && InRangeValue(f, v)
    requires ValueBytes(f, v).Some? && LengthFits(f, v)
    requires f.ltype.Submessage? && !f.htype.Repeated? ==> base == Zero(f)
    ensures ReadValue(f, ValueBytes(f, v).value + t, base) == Parsed(v2, |ValueBytes(f, v).value|)
    ensures SameValue(f, v, v2)
    decreases f, 0
  {
    hide PutString, ReadString, InRange, SameContent, ReadScalar, ScalarBytes;
    if Packable(f) {
      v2 := ScalarRoundTrip(f, v, t);
    } else if f.ltype.Submessage? {
      var fields, m := f.ltype.fields, AsMessage(v);
      var b := MessageBytes(fields, m, 0).value;
      ReadPutString(b, t);
      var p := MessageRoundTrip(fields, m);
      v2 := VMsg(p.m);
    } else {
      var b := if f.ltype.Bytes? then AsBytes(v)
               else if f.ltype.String? then CString(AsBytes(v), f.dataSize) else Sized(AsBytes(v), f.dataSize);
      ReadPutString(b, t);
      v2 := VBytes(b);
      if f.ltype.String? {
        CStringAgain(AsBytes(v), f.dataSize);
      }
    }
  }

  lemma {:induction false} CStringAgain(b: seq<Byte>, max: nat)
    ensures CString(CString(b, max), max) == CString(b, max)
    decreases max
  {
    if !(max == 0 || b == [] || b[0] == 0) {
      CStringAgain(b[1..], max - 1);
      assert CString(b, max)[1..] == CString(b[1..], max - 1);
    }
  }

  /** A field that has begun goes on. */
  lemma BeginAgain(fields: seq<Field>, i: nat, p: Progress, p1: Progress, slot: Slot)
    requires i < |fields| && Begin(fields, i, p) == Some(p1)
    ensures Begin(fields, i, WithField(fields, i, p1, slot)) == Some(WithField(fields, i, p1, slot))
  {
  }

  /** Items sent one by one are appended one by one. */
  lemma {:induction false} UnpackedRoundTrip(fields: seq<Field>, i: nat, items: seq<Value>, p: Progress, p1: Progress, done: seq<Value>, t: seq<Byte>)
      returns (items2: seq<Value>)
    requires WellFormed(fields) && i < |fields| && fields[i].htype.Repeated? && !Packable(fields[i]) && ZeroDefault(fields[i])
    requires forall k :: 0 <= k < |items| ==> InRangeValue(fields[i], items[k])
    requires UnpackedBytes(fields[i], items).Some? && forall k :: 0 <= k < |items| ==> LengthFits(fields[i], items[k])
    requires Begin(fields, i, p) == Some(p1) && items != []
    requires var slot := Get(p1.m, Address(fields, i)); done == Taken(ItemsOf(slot), CountFor(fields[i], slot, p1))
    requires |done| + |items| <= fields[i].arraySize
    ensures SameItems(fields[i], items, items2)
    ensures var e := UnpackedBytes(fields[i], items).value;
            ReadFields(fields, e + t, p) == Shift(ReadFields(fields, t, WithField(fields, i, p1, Many(done + items2))), |e|)
    decreases fields, 0, |items|
  {
    hide ReadFields, InRangeValue, SameValue, ValueBytes, ReadValue, LengthFits, Begin;
    var f := fields[i];
    assert WellFormedField(f);
    var rest := UnpackedBytes(f, items[1..]).value;
    var body := ValueBytes(f, items[0]).value;
    var v := ValueRoundTrip(f, items[0], rest + t, VInt(0));
    OneField(fields, i, p, p1, WireTypeFor(f), body, rest + t, Many(done + [v]));
    var q := WithField(fields, i, p1, Many(done + [v]));
    var e := UnpackedBytes(f, items).value;
    assert e + t == TagFor(f) + body + (rest + t);
    if |items| == 1 {
      items2 := [v];
      assert rest + t == t;
    } else {
      BeginAgain(fields, i, p, p1, Many(done + [v]));
      var more := UnpackedRoundTrip(fields, i, items[1..], q, q, done + [v], t);
      items2 := [v] + more;
      assert done + [v] + more == done + items2;
      assert WithField(fields, i, q, Many(done + items2)) == WithField(fields, i, p1, Many(done + items2));
    }
  }

  /** A packed array is one length-delimited field. */
  lemma PackedFieldRoundTrip(fields: seq<Field>, i: nat, items: seq<Value>, p: Progress, p1: Progress, t: seq<Byte>)
      returns (items2: seq<Value>)
    requires WellFormed(fields) && i < |fields| && fields[i].htype.Repeated? && Packable(fields[i])
    requires forall k :: 0 <= k < |items| ==> InRangeValue(fields[i], items[k])
    requires items != [] && |items| <= fields[i].arraySize
    requires ArrayBytes(fields[i], items).Some? && Below32(PackedBytes(fields[i], items))
    requires Begin(fields, i, p) == Some(p1)
    requires var slot := Get(p1.m, Address(fields, i)); Taken(ItemsOf(slot), CountFor(fields[i], slot, p1)) == []
    ensures SameItems(fields[i], items, items2)
    ensures var e := ArrayBytes(fields[i], items).value;
            ReadFields(fields, e + t, p) == Shift(ReadFields(fields, t, WithField(fields, i, p1, Many(items2))), |e|)
  {
    hide ReadFields, InRangeValue, SameValue, PackedBytes, ReadPacked, PutTag, ReadString, Begin;
    items2 := PackedRoundTrip(fields[i], items, []);
    var b := PackedBytes(fields[i], items).value;
    ReadPutString(b, t);
    assert [] + items2 == items2;
    OneField(fields, i, p, p1, WtString, PutString(b), t, Many(items2));
  }

  lemma BeginOrdinary(fields: seq<Field>, i: nat, p: Progress)
    requires i < |fields| && !FixedCount(fields[i])
    ensures Begin(fields, i, p) == Some(p)
  {
  }

  lemma AboutField(fields: seq<Field>, m: Message, p: Progress, i: nat)
    requires WellFormed(fields) && InRange(fields, m) && ZeroDefaults(fields) && i < |fields| && Ready(fields, m, p, i)
    ensures WellFormedField(fields[i]) && ZeroDefault(fields[i]) && InRangeSlot(fields[i], Get(m, Address(fields, i)))
    ensures SlotReady(fields, m, p.m, i, i) && Begin(fields, i, p).Some?
    ensures FixedCount(fields[i]) ==> Begin(fields, i, p) == Some(p.(fixed := Some(i), count := 0))
  {
    hide SlotReady, InRangeSlot, WellFormedField, ZeroDefault;
  }

  lemma {:induction false} ArrayRoundTrip(fields: seq<Field>, m: Message, i: nat, p: Progress, t: seq<Byte>) returns (p2: Progress)
    requires WellFormed(fields) && InRange(fields, m) && ZeroDefaults(fields)
    requires i < |fields| && Ready(fields, m, p, i) && fields[i].htype.Repeated?
    requires FieldBytes(fields[i], Get(m, Address(fields, i))).Some? && LengthsFitSlot(fields[i], Get(m, Address(fields, i)))
    ensures var e := FieldBytes(fields[i], Get(m, Address(fields, i))).value;
            ReadFields(fields, e + t, p) == Shift(ReadFields(fields, t, p2), |e|)
    ensures Ready(fields, m, p2, i + 1)
    decreases fields, 1
  {
    hide ReadFields, InRangeValue, SameValue, PackedBytes, UnpackedBytes, ReadPacked, PutTag, PutString, ReadString,
         Ready, InRange, ZeroDefaults, ZeroDefault, WellFormed, Begin;
    var f, slot := fields[i], Get(m, Address(fields, i));
    var items := ItemsOf(slot);
    AboutField(fields, m, p, i);
    if !FixedCount(f) { BeginOrdinary(fields, i, p); }
    if items == [] {
      SkipField(fields, m, p, i);
      p2 := p;
      assert [] + t == t;
    } else {
      var p1 := Begin(fields, i, p).value;
      var items2;
      if Packable(f) {
        items2 := PackedFieldRoundTrip(fields, i, items, p, p1, t);
      } else {
        items2 := UnpackedRoundTrip(fields, i, items, p, p1, [], t);
        assert [] + items2 == items2;
      }
      StoreField(fields, m, p, p1, i, Many(items2));
      p2 := WithField(fields, i, p1, Many(items2));
    }
  }

  lemma {:induction false} FieldRoundTrip(fields: seq<Field>, m: Message, i: nat, p: Progress, t: seq<Byte>) returns (p2: Progress)
    requires WellFormed(fields) && InRange(fields, m) && ZeroDefaults(fields)
    requires i < |fields| && Ready(fields, m, p, i)
    requires FieldBytes(fields[i], Get(m, Address(fields, i))).Some? && LengthsFitSlot(fields[i], Get(m, Address(fields, i)))
    ensures var e := FieldBytes(fields[i], Get(m, Address(fields, i))).value;
            ReadFields(fields, e + t, p) == Shift(ReadFields(fields, t, p2), |e|)
    ensures Ready(fields, m, p2, i + 1)
    decreases fields, 2
  {
    hide ReadFields, InRangeValue, SameValue, ValueBytes, ReadValue, PutTag, Ready, InRange, ZeroDefaults, ZeroDefault, WellFormed, Begin;
    var f, slot := fields[i], Get(m, Address(fields, i));
    AboutField(fields, m, p, i);
    if f.htype.Repeated? {
      p2 := ArrayRoundTrip(fields, m, i, p, t);
    } else if FieldBytes(f, slot) == Some([]) && !f.htype.Required? && !(f.htype.OneOf? && WhichOf(slot) == f.tag) {
      if ImplicitPresence(f) {
        DefaultIsInitial(f, slot);
      }
      SkipField(fields, m, p, i);
      p2 := p;
      assert [] + t == t;
    } else {
      var body := ValueBytes(f, ValueOf(slot)).value;
      var now := Get(p.m, Address(fields, i));
      if f.htype.OneOf? {
        UnionIsFresh(fields, m, p, i);
      }
      var base := if f.htype.OneOf? && f.ltype.Submessage? then Zero(f) else ValueOf(now);
      assert !f.htype.OneOf? ==> now == InitialSlot(f) && ValueOf(now) == InitialValue(f);
      var v := ValueRoundTrip(f, ValueOf(slot), t, base);
      var slot2 := if f.htype.OneOf? then Union(f.tag, v)
                   else if f.htype.Optional? && f.sizeOffset != 0 then Maybe(true, v) else One(v);
      BeginOrdinary(fields, i, p);
      OneField(fields, i, p, p, WireTypeFor(f), body, t, slot2);
      StoreField(fields, m, p, p, i, slot2);
      p2 := WithField(fields, i, p, slot2);
    }
  }

  lemma NothingToRead(fields: seq<Field>, p: Progress)
    ensures ReadFields(fields, [], p) == Outcome(p, 0, false)
  {
  }

  lemma {:induction false} FieldsRoundTrip(fields: seq<Field>, m: Message, i: nat, p: Progress) returns (p2: Progress)
    requires WellFormed(fields) && InRange(fields, m) && ZeroDefaults(fields)
    requires i <= |fields| && Ready(fields, m, p, i)
    requires MessageBytes(fields, m, i).Some? && LengthsFit(fields, m)
    ensures ReadFields(fields, MessageBytes(fields, m, i).value, p) == Outcome(p2, |MessageBytes(fields, m, i).value|, false)
    ensures Ready(fields, m, p2, |fields|)
    decreases fields, 3, |fields| - i
  {
    hide FieldBytes, Ready, InRange, ZeroDefaults, WellFormed, LengthsFitSlot, ReadFields;
    if i == |fields| {
      p2 := p;
      NothingToRead(fields, p);
    } else {
      var rest := MessageBytes(fields, m, i + 1).value;
      var q := FieldRoundTrip(fields, m, i, p, rest);
      p2 := FieldsRoundTrip(fields, m, i + 1, q);
    }
  }

  /** Every message that is in range comes back from its encoding, as long as no length prefix in it exceeds
      32 bits: decoding takes all of the encoding and yields the same content. */
  lemma {:induction false} MessageRoundTrip(fields: seq<Field>, m: Message) returns (p2: Progress)
    requires WellFormed(fields) && InRange(fields, m) && ZeroDefaults(fields)
    requires MessageBytes(fields, m, 0).Some? && LengthsFit(fields, m)
    ensures ReadMessage(fields, MessageBytes(fields, m, 0).value, Defaults(fields, |fields|))
            == Outcome(p2, |MessageBytes(fields, m, 0).value|, false)
    ensures SameContent(fields, m, p2.m)
    decreases fields, 4
  {
    hide Ready, ReadFields, MessageBytes, LengthsFit;
    ReadyAtStart(fields, m);
    p2 := FieldsRoundTrip(fields, m, 0, Start(Defaults(fields, |fields|)));
    ReadyAtEnd(fields, m, p2);
  }

  // ---- Lengths of more than 32 bits ----------------------------------------

  /** A tag whose field cannot be read ends the decoding. */
  lemma OneFieldFails(fields: seq<Field>, i: nat, p: Progress, p1: Progress, w: WireType, body: seq<Byte>, t: seq<Byte>)
    requires WellFormed(fields) && i < |fields| && !w.WtInvalid? && Begin(fields, i, p) == Some(p1)
    requires var slot := Get(p1.m, Address(fields, i)); ReadField(fields[i], w, body + t, slot, CountFor(fields[i], slot, p1)).Malformed?
    ensures ReadFields(fields, PutTag(fields[i].tag, w) + body + t, p).Failed?
  {
    hide ReadField, PutTag, ReadTag, FindField;
    var tag := PutTag(fields[i].tag, w);
    assert WellFormedField(fields[i]);
    ReadPutTag(fields[i].tag, w, body + t);
    FindFieldFinds(fields, i);
    assert tag + body + t == tag + (body + t);
    assert (tag + body + t)[|tag|..] == body + t;
  }

  lemma {:induction false} ValueFails(f: Field, v: Value, t: seq<Byte>, base: Value)
    requires WellFormedField(f) && ZeroDefault(f) && InRangeValue(f, v) && !LengthFits(f, v)
    requires ValueBytes(f, v).Some? && |ValueBytes(f, v).value| < TWO63
    requires f.ltype.Submessage? && !f.htype.Repeated? ==> base == Zero(f)
    ensures ReadValue(f, ValueBytes(f, v).value + t, base).Malformed?
    decreases f, 0
  {
    hide PutString, ReadString, InRange, SameContent, ReadScalar, ScalarBytes, LengthsFit;
    if f.ltype.Submessage? {
      var fields, m := f.ltype.fields, AsMessage(v);
      var b := MessageBytes(fields, m, 0).value;
      if |b| < TWO32 {
        ReadPutString(b, t);
        MessageFails(fields, m);
      } else {
        ReadPutLargeString(b, t);
      }
    } else {
      assert false;
    }
  }

  lemma {:induction false} UnpackedFails(fields: seq<Field>, i: nat, items: seq<Value>, p: Progress, p1: Progress, done: seq<Value>, t: seq<Byte>)
    requires WellFormed(fields) && i < |fields| && fields[i].htype.Repeated? && !Packable(fields[i]) && ZeroDefault(fields[i])
    requires forall k :: 0 <= k < |items| ==> InRangeValue(fields[i], items[k])
    requires exists k :: 0 <= k < |items| && !LengthFits(fields[i], items[k])
    requires UnpackedBytes(fields[i], items).Some? && |UnpackedBytes(fields[i], items).value| < TWO63
    requires Begin(fields, i, p) == Some(p1)
    requires var slot := Get(p1.m, Address(fields, i)); done == Taken(ItemsOf(slot), CountFor(fields[i], slot, p1))
    requires |done| + |items| <= fields[i].arraySize
    ensures ReadFields(fields, UnpackedBytes(fields[i], items).value + t, p).Failed?
    decreases fields, 0, |items|
  {
    hide ReadFields, InRangeValue, SameValue, ValueBytes, ReadValue, LengthFits, Begin;
    var f := fields[i];
    assert WellFormedField(f);
    var rest := UnpackedBytes(f, items[1..]).value;
    var body := ValueBytes(f, items[0]).value;
    var e := UnpackedBytes(f, items).value;
    assert e + t == TagFor(f) + body + (rest + t);
    if LengthFits(f, items[0]) {
      var k :| 0 <= k < |items| && !LengthFits(f, items[k]);
      assert items[1..][k - 1] == items[k];
      var v := ValueRoundTrip(f, items[0], rest + t, VInt(0));
      OneField(fields, i, p, p1, WireTypeFor(f), body, rest + t, Many(done + [v]));
      var q := WithField(fields, i, p1, Many(done + [v]));
      BeginAgain(fields, i, p, p1, Many(done + [v]));
      UnpackedFails(fields, i, items[1..], q, q, done + [v], t);
    } else {
      ValueFails(f, items[0], rest + t, VInt(0));
      OneFieldFails(fields, i, p, p1, WireTypeFor(f), body, rest + t);
    }
  }

  lemma PackedFails(fields: seq<Field>, i: nat, items: seq<Value>, p: Progress, p1: Progress, t: seq<Byte>)
    requires WellFormed(fields) && i < |fields| && fields[i].htype.Repeated? && Packable(fields[i])
    requires PackedBytes(fields[i], items).Some? && TWO32 <= |PackedBytes(fields[i], items).value| < TWO63
    requires items != [] && |items| <= fields[i].arraySize && Begin(fields, i, p) == Some(p1)
    ensures ReadFields(fields, ArrayBytes(fields[i], items).value + t, p).Failed?
  {
    hide ReadFields, PackedBytes, PutTag, ReadString, Begin;
    var b := PackedBytes(fields[i], items).value;
    ReadPutLargeString(b, t);
    OneFieldFails(fields, i, p, p1, WtString, PutString(b), t);
  }

  lemma {:induction false} ArrayFails(fields: seq<Field>, m: Message, i: nat, p: Progress, t: seq<Byte>)
    requires WellFormed(fields) && InRange(fields, m) && ZeroDefaults(fields)
    requires i < |fields| && Ready(fields, m, p, i) && fields[i].htype.Repeated? && !LengthsFitSlot(fields[i], Get(m, Address(fields, i)))
    requires var e := FieldBytes(fields[i], Get(m, Address(fields, i))); e.Some? && |e.value| < TWO63
    ensures ReadFields(fields, FieldBytes(fields[i], Get(m, Address(fields, i))).value + t, p).Failed?
    decreases fields, 1
  {
    hide ReadFields, InRangeValue, SameValue, UnpackedBytes, ReadPacked, PutTag, ReadString,
         Ready, InRange, ZeroDefaults, ZeroDefault, WellFormed, Begin, LengthFits;
    var f, slot := fields[i], Get(m, Address(fields, i));
    var items := ItemsOf(slot);
    AboutField(fields, m, p, i);
    if !FixedCount(f) { BeginOrdinary(fields, i, p); }
    assert items != [];
    var p1 := Begin(fields, i, p).value;
    if Packable(f) {
      PackedFails(fields, i, items, p, p1, t);
    } else {
      UnpackedFails(fields, i, items, p, p1, [], t);
    }
  }

  lemma {:induction false} FieldFails(fields: seq<Field>, m: Message, i: nat, p: Progress, t: seq<Byte>)
    requires WellFormed(fields) && InRange(fields, m) && ZeroDefaults(fields)
    requires i < |fields| && Ready(fields, m, p, i) && !LengthsFitSlot(fields[i], Get(m, Address(fields, i)))
    requires var e := FieldBytes(fields[i], Get(m, Address(fields, i))); e.Some? && |e.value| < TWO63
    ensures ReadFields(fields, FieldBytes(fields[i], Get(m, Address(fields, i))).value + t, p).Failed?
    decreases fields, 2
  {
    hide ReadFields, InRangeValue, SameValue, ValueBytes, ReadValue, PutTag, Ready, InRange, ZeroDefaults, ZeroDefault, WellFormed, Begin, LengthFits;
    var f, slot := fields[i], Get(m, Address(fields, i));
    AboutField(fields, m, p, i);
    if f.htype.Repeated? {
      ArrayFails(fields, m, i, p, t);
    } else {
      var body := ValueBytes(f, ValueOf(slot)).value;
      var now := Get(p.m, Address(fields, i));
      if f.htype.OneOf? {
        UnionIsFresh(fields, m, p, i);
      }
      var base := if f.htype.OneOf? && f.ltype.Submessage? then Zero(f) else ValueOf(now);
      assert !f.htype.OneOf? ==> now == InitialSlot(f) && ValueOf(now) == InitialValue(f);
      ValueFails(f, ValueOf(slot), t, base);
      BeginOrdinary(fields, i, p);
      OneFieldFails(fields, i, p, p, WireTypeFor(f), body, t);
    }
  }

  lemma {:induction false} FieldsFail(fields: seq<Field>, m: Message, i: nat, p: Progress)
    requires WellFormed(fields) && InRange(fields, m) && ZeroDefaults(fields)
    requires i <= |fields| && Ready(fields, m, p, i)
    requires exists j :: i <= j < |fields| && !LengthsFitSlot(fields[j], Get(m, Address(fields, j)))
    requires MessageBytes(fields, m, i).Some? && |MessageBytes(fields, m, i).value| < TWO63
    ensures ReadFields(fields, MessageBytes(fields, m, i).value, p).Failed?
    decreases fields, 3, |fields| - i
  {
    hide FieldBytes, Ready, InRange, ZeroDefaults, WellFormed, LengthsFitSlot;
    var rest := MessageBytes(fields, m, i + 1).value;
    if LengthsFitSlot(fields[i], Get(m, Address(fields, i))) {
      var q := FieldRoundTrip(fields, m, i, p, rest);
      FieldsFail(fields, m, i + 1, q);
    } else {
      FieldFails(fields, m, i, p, rest);
    }
  }

  lemma {:induction false} MessageFails(fields: seq<Field>, m: Message)
    requires WellFormed(fields) && InRange(fields, m) && ZeroDefaults(fields) && !LengthsFit(fields, m)
    requires MessageBytes(fields, m, 0).Some? && |MessageBytes(fields, m, 0).value| < TWO63
    ensures ReadMessage(fields, MessageBytes(fields, m, 0).value, Defaults(fields, |fields|)).Failed?
    decreases fields, 4
  {
    hide Ready, ReadFields, MessageBytes, LengthsFitSlot;
    ReadyAtStart(fields, m);
    FieldsFail(fields, m, 0, Start(Defaults(fields, |fields|)));
  }

  /** Every message that is in range can be encoded. Decoding takes all of the encoding and yields the same
      content, if every length prefix in it has at most 32 bits; otherwise it fails. (From 2^63 bytes up a
      length prefix can look like a negative number of 32 bits.) */
  lemma RoundTrip(fields: seq<Field>, m: Message)
    requires WellFormed(fields) && InRange(fields, m) && ZeroDefaults(fields)
    ensures MessageBytes(fields, m, 0).Some?
    ensures var e := MessageBytes(fields, m, 0).value;
            var o := ReadMessage(fields, e, Defaults(fields, |fields|));
            && (LengthsFit(fields, m) ==> o.Outcome? && o.used == |e| && !o.terminated && SameContent(fields, m, o.progress.m))
            && (|e| < TWO63 ==> (o.Outcome? <==> LengthsFit(fields, m)))
  {
    hide InRange, ZeroDefaults, WellFormed, SameContent, MessageBytes, ReadMessage, LengthsFit;
    InRangeEncodes(fields, m, 0);
    if LengthsFit(fields, m) {
      var _ := MessageRoundTrip(fields, m);
    } else if |MessageBytes(fields, m, 0).value| < TWO63 {
      MessageFails(fields, m);
    }
  }

  // ---- The encoding is the content ----------------------------------------

  lemma {:induction false} ReflexiveValue(f: Field, v: Value)
    ensures SameValue(f, v, v)
    decreases f, 0
  {
    match f.ltype
    case Submessage(fields) =>
      forall i | 0 <= i < |fields| {
        ReflexiveSlot(fields[i], Get(AsMessage(v), Address(fields, i)));
      }
    case _ =>
  }

  lemma {:induction false} ReflexiveSlot(f: Field, slot: Slot)
    ensures SameSlot(f, slot, slot)
    decreases f, 1
  {
    ReflexiveValue(f, ValueOf(slot));
    forall k | 0 <= k < |ItemsOf(slot)| {
      ReflexiveValue(f, ItemsOf(slot)[k]);
    }
  }

  lemma {:induction false} SameValueSameBytes(f: Field, a: Value, b: Value)
    requires WellFormedField(f) && SameValue(f, a, b)
    ensures IsZero(f, a) <==> IsZero(f, b)
    ensures ValueBytes(f, a) == ValueBytes(f, b)
    decreases f, 0
  {
    match f.ltype
    case Submessage(fields) => SameContentSameBytes(fields, AsMessage(a), AsMessage(b), 0);
    case String =>
      assert CString(AsBytes(a), 1) == [] <==> CString(AsBytes(a), f.dataSize) == [];
      assert CString(AsBytes(b), 1) == [] <==> CString(AsBytes(b), f.dataSize) == [];
    case _ =>
  }

  lemma {:induction false} SameItemsSameBytes(f: Field, a: seq<Value>, b: seq<Value>)
    requires WellFormedField(f) && SameItems(f, a, b)
    ensures Packable(f) ==> PackedBytes(f, a) == PackedBytes(f, b)
    ensures UnpackedBytes(f, a) == UnpackedBytes(f, b)
    decreases f, 1, |a|
  {
    hide SameValue, ValueBytes, ScalarBytes, IsZero;
    if a != [] {
      SameValueSameBytes(f, a[0], b[0]);
      SameItemsSameBytes(f, a[1..], b[1..]);
      if Packable(f) {
        ScalarIsValue(f, a[0]);
        ScalarIsValue(f, b[0]);
      }
    }
  }

  lemma ScalarIsValue(f: Field, v: Value)
    requires Packable(f)
    ensures ValueBytes(f, v) == ScalarBytes(f, v)
  {
  }

  lemma {:induction false} SameSlotSameBytes(f: Field, a: Slot, b: Slot)
    requires WellFormedField(f) && SameSlot(f, a, b)
    ensures IsDefault(f, a) <==> IsDefault(f, b)
    ensures FieldBytes(f, a) == FieldBytes(f, b)
    decreases f, 2
  {
    hide SameValue, ValueBytes, IsZero;
    if f.htype.Repeated? {
      ReflexiveValue(f, VInt(0));
      SameItemsSameBytes(f, ItemsToSend(f, a), ItemsToSend(f, b));
    } else if SameValue(f, ValueOf(a), ValueOf(b)) {
      SameValueSameBytes(f, ValueOf(a), ValueOf(b));
    }
  }

  lemma {:induction false} SameContentSameBytes(fields: seq<Field>, a: Message, b: Message, i: nat)
    requires WellFormed(fields) && SameContent(fields, a, b) && i <= |fields|
    ensures AllDefault(fields, a, i) <==> AllDefault(fields, b, i)
    ensures MessageBytes(fields, a, i) == MessageBytes(fields, b, i)
    decreases fields, |fields| - i
  {
    hide FieldBytes, IsDefault, SameSlot;
    if i < |fields| {
      assert WellFormedField(fields[i]);
      SameSlotSameBytes(fields[i], Get(a, Address(fields, i)), Get(b, Address(fields, i)));
      SameContentSameBytes(fields, a, b, i + 1);
    }
  }

  lemma {:induction false} SameValueEuclid(f: Field, a: Value, b: Value, c: Value)
    requires SameValue(f, a, c) && SameValue(f, b, c)
    ensures SameValue(f, a, b)
    decreases f, 0
  {
    match f.ltype
    case Submessage(fields) => SameContentEuclid(fields, AsMessage(a), AsMessage(b), AsMessage(c));
    case _ =>
  }

  lemma {:induction false} SameContentEuclid(fields: seq<Field>, a: Message, b: Message, c: Message)
    requires SameContent(fields, a, c) && SameContent(fields, b, c)
    ensures SameContent(fields, a, b)
    decreases fields, 0
  {
    forall i | 0 <= i < |fields| ensures SameSlot(fields[i], Get(a, Address(fields, i)), Get(b, Address(fields, i))) {
      var f, x, y, z := fields[i], Get(a, Address(fields, i)), Get(b, Address(fields, i)), Get(c, Address(fields, i));
      assert SameSlot(f, x, z) && SameSlot(f, y, z);
      if SameValue(f, ValueOf(x), ValueOf(z)) && SameValue(f, ValueOf(y), ValueOf(z)) {
        SameValueEuclid(f, ValueOf(x), ValueOf(y), ValueOf(z));
      }
      if f.htype.Repeated? {
        forall k | 0 <= k < |ItemsOf(x)| ensures SameValue(f, ItemsOf(x)[k], ItemsOf(y)[k]) {
          SameValueEuclid(f, ItemsOf(x)[k], ItemsOf(y)[k], ItemsOf(z)[k]);
        }
      }
    }
  }

  /** Two messages have the same encoding exactly when they have the same content. */
  lemma EncodingIsContent(fields: seq<Field>, a: Message, b: Message)
    requires WellFormed(fields) && InRange(fields, a) && InRange(fields, b) && ZeroDefaults(fields)
    requires MessageBytes(fields, a, 0).Some? && |MessageBytes(fields, a, 0).value| < TWO63 && LengthsFit(fields, a)
    ensures MessageBytes(fields, a, 0) == MessageBytes(fields, b, 0) <==> SameContent(fields, a, b)
  {
    hide InRange, ZeroDefaults, WellFormed, SameContent, MessageBytes, ReadMessage, LengthsFit;
    if MessageBytes(fields, a, 0) == MessageBytes(fields, b, 0) {
      RoundTrip(fields, a);
      RoundTrip(fields, b);
      var p := MessageRoundTrip(fields, a);
      var q := MessageRoundTrip(fields, b);
      SameContentEuclid(fields, a, b, p.m);
    }
    if SameContent(fields, a, b) {
      SameContentSameBytes(fields, a, b, 0);
    }
  }

  /** A message sent with a zero byte behind it comes back too, whatever follows the zero. */
  lemma NullTerminatedRoundTrip(fields: seq<Field>, m: Message, t: seq<Byte>)
    requires WellFormed(fields) && InRange(fields, m) && ZeroDefaults(fields)
    requires MessageBytes(fields, m, 0).Some? && LengthsFit(fields, m)
    ensures var e := MessageBytes(fields, m, 0).value;
            var o := ReadMessage(fields, e + ([0] + t), Defaults(fields, |fields|));
            o.Outcome? && o.used == |e| + 1 && o.terminated && SameContent(fields, m, o.progress.m)
  {
    hide ReadFields, MessageBytes, SameContent, InRange, ZeroDefaults, WellFormed;
    var e, start := MessageBytes(fields, m, 0).value, Start(Defaults(fields, |fields|));
    var p := MessageRoundTrip(fields, m);
    FieldsOfConcatenation(fields, e, [0] + t, start);
    ZeroEnds(fields, t, p);
  }

  lemma ZeroEnds(fields: seq<Field>, t: seq<Byte>, p: Progress)
    ensures ReadFields(fields, [0] + t, p) == Outcome(p, 1, true)
  {
    ReadPutVarint32(0, t);
    assert DecodeStep(fields, [0] + t, p) == Stop(1);
  }

  // ---- Sizes ---------------------------------------------------------------

  lemma {:induction false} InRangeValueIsAddressable(f: Field, v: Value)
    requires InRangeValue(f, v) && ValueBytes(f, v).Some? && |ValueBytes(f, v).value| < TWO64
    ensures AddressableValue(f, v)
    decreases f, 0
  {
    if f.ltype.Submessage? {
      InRangeIsAddressable(f.ltype.fields, AsMessage(v));
    }
  }

  lemma {:induction false} ItemWithin(f: Field, items: seq<Value>, k: nat)
    requires k < |items| && UnpackedBytes(f, items).Some?
    ensures ValueBytes(f, items[k]).Some? && |ValueBytes(f, items[k]).value| <= |UnpackedBytes(f, items).value|
    decreases k
  {
    hide ValueBytes;
    if k > 0 {
      ItemWithin(f, items[1..], k - 1);
    }
  }

  lemma {:induction false} FieldWithin(fields: seq<Field>, m: Message, i: nat, n: nat)
    requires i <= n < |fields| && MessageBytes(fields, m, i).Some?
    ensures var e := FieldBytes(fields[n], Get(m, Address(fields, n)));
            e.Some? && |e.value| <= |MessageBytes(fields, m, i).value|
    decreases n - i
  {
    hide FieldBytes;
    if i < n {
      FieldWithin(fields, m, i + 1, n);
    }
  }

  /** A message in range that is small enough as a whole is small enough in all its parts. */
  lemma {:induction false} InRangeIsAddressable(fields: seq<Field>, m: Message)
    requires InRange(fields, m) && MessageBytes(fields, m, 0).Some? && |MessageBytes(fields, m, 0).value| < TWO64
    ensures Addressable(fields, m)
    decreases fields, 1
  {
    hide InRangeValue, ValueBytes, AddressableValue, MessageBytes;
    forall i | 0 <= i < |fields| ensures AddressableSlot(fields[i], Get(m, Address(fields, i))) {
      var f, slot := fields[i], Get(m, Address(fields, i));
      FieldWithin(fields, m, 0, i);
      assert InRangeSlot(f, slot);
      if f.htype.Repeated? {
        forall k | 0 <= k < |ItemsToSend(f, slot)| ensures AddressableValue(f, ItemsToSend(f, slot)[k]) {
          if Packable(f) {
            ScalarIsAddressable(f, ItemsToSend(f, slot)[k]);
          } else {
            ItemWithin(f, ItemsToSend(f, slot), k);
            InRangeValueIsAddressable(f, ItemsToSend(f, slot)[k]);
          }
        }
      } else if ValueBytes(f, ValueOf(slot)).Some? && |ValueBytes(f, ValueOf(slot)).value| < TWO64 && InRangeValue(f, ValueOf(slot)) {
        InRangeValueIsAddressable(f, ValueOf(slot));
      }
    }
  }

  lemma ScalarIsAddressable(f: Field, v: Value)
    requires Packable(f)
    ensures AddressableValue(f, v)
  {
  }
}
