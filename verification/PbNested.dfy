/** Nested messages, plain values and arrays over several occurrences; and the contents that decoding begins with. */
module PbNested {
  import opened Common
  import opened Coding
  import opened Wire
  import opened PbMessage
  import opened PbDecode
  import opened PbMerge
  import opened PbRequired

  // ---- What is not mentioned stays -----------------------------------------

  /** A field stays as it is if neither its tag nor that of another member of its union occurs. */
  ghost predicate Untouched(fields: seq<Field>, s: seq<Byte>, p: Progress, i: nat)
    requires i < |fields|
  {
    forall j :: 0 <= j < |fields| && Address(fields, j) == Address(fields, i) ==> fields[j].tag !in TagsRead(fields, s, p)
  }

  lemma StepLeaves(fields: seq<Field>, s: seq<Byte>, p: Progress, i: nat)
    requires s != [] && i < |fields| && Untouched(fields, s, p, i) && DecodeStep(fields, s, p).Next?
    ensures var step := DecodeStep(fields, s, p);
            Get(step.progress.m, Address(fields, i)) == Get(p.m, Address(fields, i)) && Untouched(fields, s[step.used..], step.progress, i)
  {
    hide ReadField, SkipLength, Begin;
    var step := DecodeStep(fields, s, p);
    assert TagsRead(fields, s, p) >= TagsRead(fields, s[step.used..], step.progress);
    assert ReadTag(s).Tag?;
    var at := FindField(fields, ReadTag(s).number);
    if at.Some? {
      assert fields[at.value].tag in TagsRead(fields, s, p);
      BeginKeepsMessage(fields, at.value, p);
    }
  }

  lemma BeginKeepsMessage(fields: seq<Field>, i: nat, p: Progress)
    requires i < |fields|
    ensures Begin(fields, i, p).Some? ==> Begin(fields, i, p).value.m == p.m
  {
  }

  lemma {:induction false} UntouchedFieldsStay(fields: seq<Field>, s: seq<Byte>, p: Progress, i: nat)
    requires i < |fields| && ReadFields(fields, s, p).Outcome? && Untouched(fields, s, p, i)
    ensures Get(ReadFields(fields, s, p).progress.m, Address(fields, i)) == Get(p.m, Address(fields, i))
    decreases |s|
  {
    hide DecodeStep, Untouched;
    if s != [] {
      var step := DecodeStep(fields, s, p);
      if step.Next? {
        StepLeaves(fields, s, p, i);
        UntouchedFieldsStay(fields, s[step.used..], step.progress, i);
      }
    }
  }

  // ---- Nested messages -----------------------------------------------------

  predicate Nests(f: Field) {
    f.ltype.Submessage? && !f.htype.Repeated?
  }

  /** A member of a union that was not set is new. */
  predicate IsNew(f: Field, slot: Slot) {
    f.htype.OneOf? && WhichOf(slot) != f.tag
  }

  function Inside(slot: Slot): Message {
    AsMessage(ValueOf(slot))
  }

  lemma Occurrence(f: Field, w: WireType, a: seq<Byte>, t: seq<Byte>, slot: Slot, n: nat)
    requires Nests(f) && |a| < TWO32
    ensures var r := ReadField(f, w, PutString(a) + t, slot, n);
            var o := ReadMessage(f.ltype.fields, a, if IsNew(f, slot) then Defaults(f.ltype.fields, |f.ltype.fields|) else Inside(slot));
            && (r.Parsed? <==> o.Outcome?)
            && (r.Parsed? ==> Inside(r.value) == o.progress.m && !IsNew(f, r.value) && r.value == InSlot(f, o.progress.m))
  {
    hide ReadString, ReadMessage;
    ReadPutString(a, t);
  }

  function InSlot(f: Field, m: Message): Slot
    requires !f.htype.Repeated?
  {
    if f.htype.OneOf? then Union(f.tag, VMsg(m)) else if f.htype.Optional? && f.sizeOffset != 0 then Maybe(true, VMsg(m)) else One(VMsg(m))
  }

  /** Two occurrences of a singular nested message are one occurrence of both payloads, one behind the other. */
  lemma NestedMessagesMerge(f: Field, w: WireType, a: seq<Byte>, b: seq<Byte>, t: seq<Byte>, u: seq<Byte>, slot: Slot, n: nat)
    requires Nests(f) && Simple(f.ltype.fields) && |a| + |b| < TWO32
    requires var o := ReadMessage(f.ltype.fields, a, if IsNew(f, slot) then Defaults(f.ltype.fields, |f.ltype.fields|) else Inside(slot));
             o.Outcome? && !o.terminated
    ensures ReadField(f, w, PutString(a) + t, slot, n).Parsed?
    ensures var two := ReadField(f, w, PutString(b) + u, ReadField(f, w, PutString(a) + t, slot, n).value, n);
            var one := ReadField(f, w, PutString(a + b) + u, slot, n);
            (two.Parsed? <==> one.Parsed?) && (one.Parsed? ==> two.value == one.value)
  {
    hide ReadField, ReadMessage, PutString;
    var fields, m := f.ltype.fields, if IsNew(f, slot) then Defaults(f.ltype.fields, |f.ltype.fields|) else Inside(slot);
    Occurrence(f, w, a, t, slot, n);
    Occurrence(f, w, b, u, ReadField(f, w, PutString(a) + t, slot, n).value, n);
    Occurrence(f, w, a + b, u, slot, n);
    WholeIsUsed(fields, a, m);
    ConcatenationIsMerging(fields, a, m);
    assert ReadMessage(fields, a + b, m) == Shift(ReadMessage(fields, b, ReadMessage(fields, a, m).progress.m), |a|);
  }

  lemma WholeIsUsed(fields: seq<Field>, a: seq<Byte>, m: Message)
    requires ReadMessage(fields, a, m).Outcome? && !ReadMessage(fields, a, m).terminated
    ensures ReadMessage(fields, a, m).used == |a|
  {
    hide ReadFields, Complete;
  }

  /** What an occurrence does not mention keeps what an earlier one, or the given structure, put there; inside a new
      member of a union it is the default. */
  lemma NestedFieldsStay(f: Field, w: WireType, b: seq<Byte>, t: seq<Byte>, slot: Slot, n: nat, i: nat)
    requires Nests(f) && WellFormed(f.ltype.fields) && |b| < TWO32 && i < |f.ltype.fields|
    requires ReadField(f, w, PutString(b) + t, slot, n).Parsed?
    requires Untouched(f.ltype.fields, b, Start(if IsNew(f, slot) then Defaults(f.ltype.fields, |f.ltype.fields|) else Inside(slot)), i)
    ensures Get(Inside(ReadField(f, w, PutString(b) + t, slot, n).value), Address(f.ltype.fields, i)) ==
              if IsNew(f, slot) then InitialSlot(f.ltype.fields[i]) else Get(Inside(slot), Address(f.ltype.fields, i))
  {
    hide ReadField, ReadFields, PutString, Untouched, Complete, WellFormed;
    var fields, m := f.ltype.fields, if IsNew(f, slot) then Defaults(f.ltype.fields, |f.ltype.fields|) else Inside(slot);
    Occurrence(f, w, b, t, slot, n);
    UntouchedFieldsStay(fields, b, Start(m), i);
    if IsNew(f, slot) {
      DefaultsAt(fields, |fields|, i);
    }
  }

  lemma ItemOccurrence(f: Field, b: seq<Byte>, t: seq<Byte>, slot: Slot)
    requires f.ltype.Submessage? && f.htype.Repeated? && |b| < TWO32
    requires ReadField(f, WtString, PutString(b) + t, slot, |ItemsOf(slot)|).Parsed?
    ensures var o := ReadMessage(f.ltype.fields, b, Defaults(f.ltype.fields, |f.ltype.fields|));
            o.Outcome? && ReadField(f, WtString, PutString(b) + t, slot, |ItemsOf(slot)|).value == Many(ItemsOf(slot) + [VMsg(o.progress.m)])
  {
    hide ReadString, ReadMessage;
    ReadPutString(b, t);
    assert ItemsOf(slot)[..|ItemsOf(slot)|] == ItemsOf(slot);
  }

  /** A nested message in an array always begins with the defaults. */
  lemma NestedItemsAreNew(f: Field, b: seq<Byte>, t: seq<Byte>, slot: Slot, i: nat)
    requires f.ltype.Submessage? && f.htype.Repeated? && WellFormed(f.ltype.fields) && |b| < TWO32 && i < |f.ltype.fields|
    requires ReadField(f, WtString, PutString(b) + t, slot, |ItemsOf(slot)|).Parsed?
    requires Untouched(f.ltype.fields, b, Start(Defaults(f.ltype.fields, |f.ltype.fields|)), i)
    ensures var r := ReadField(f, WtString, PutString(b) + t, slot, |ItemsOf(slot)|).value;
            && |r.items| == |ItemsOf(slot)| + 1 && ItemsOf(slot) <= r.items
            && Get(AsMessage(r.items[|ItemsOf(slot)|]), Address(f.ltype.fields, i)) == InitialSlot(f.ltype.fields[i])
  {
    hide ReadField, ReadFields, PutString, Untouched, Complete, WellFormed;
    var fields := f.ltype.fields;
    ItemOccurrence(f, b, t, slot);
    UntouchedFieldsStay(fields, b, Start(Defaults(fields, |fields|)), i);
    DefaultsAt(fields, |fields|, i);
  }

  // ---- Plain values and arrays ---------------------------------------------

  /** A plain singular value is what its bytes say, marked as present, whatever the wire type and whatever was there. */
  lemma PlainOccurrence(f: Field, w: WireType, s: seq<Byte>, slot: Slot, n: nat, base: Value)
    requires !f.ltype.Submessage? && !f.htype.Repeated?
    ensures var r, v := ReadField(f, w, s, slot, n), ReadValue(f, s, base);
            && (r.Parsed? <==> v.Parsed?)
            && (r.Parsed? ==> r.used == v.used && ValueOf(r.value) == v.value)
            && (r.Parsed? && f.htype.Optional? && f.sizeOffset != 0 ==> HasOf(r.value))
            && (r.Parsed? && f.htype.OneOf? ==> WhichOf(r.value) == f.tag)
  {
    hide ReadString, ReadScalar;
    assert ReadValue(f, s, base) == ReadValue(f, s, ValueOf(slot));
  }

  function Concat(parts: seq<seq<Byte>>): seq<Byte> {
    if parts == [] then [] else parts[0] + Concat(parts[1..])
  }

  /** Each part is one scalar, and nothing else. */
  ghost predicate Scalars(f: Field, parts: seq<seq<Byte>>)
    requires Packable(f)
  {
    forall k :: 0 <= k < |parts| ==> ReadScalar(f, parts[k]).Parsed? && ReadScalar(f, parts[k]).used == |parts[k]|
  }

  /** One occurrence of the field for every part. */
  ghost function OneByOne(f: Field, w: WireType, parts: seq<seq<Byte>>, slot: Slot): Option<Slot> {
    if parts == [] then Some(slot)
    else match ReadField(f, w, parts[0], slot, |ItemsOf(slot)|)
         case Malformed => None
         case Parsed(slot2, _) => OneByOne(f, w, parts[1..], slot2)
  }

  lemma {:induction false} PackedOneByOne(f: Field, w: WireType, parts: seq<seq<Byte>>, items: seq<Value>)
    requires f.htype.Repeated? && Packable(f) && w != WtString && Scalars(f, parts)
    ensures OneByOne(f, w, parts, Many(items)) ==
              match ReadPacked(f, Concat(parts), items) case None => None case Some(all) => Some(Many(all))
    decreases |parts|
  {
    hide ReadScalar;
    if parts != [] {
      var head, rest := parts[0], Concat(parts[1..]);
      var v := ReadScalar(f, head);
      assert v.Parsed? && v.used == |head|;
      ScalarPrefix(f, head, rest);
      assert (head + rest)[|head|..] == rest;
      assert ReadPacked(f, head + rest, items) == if |items| >= f.arraySize then None else ReadPacked(f, rest, items + [v.value]);
      OneMoreOccurrence(f, w, head, items);
      assert ReadValue(f, head, VInt(0)) == v;
      assert Scalars(f, parts[1..]);
      PackedOneByOne(f, w, parts[1..], items + [ReadScalar(f, head).value]);
    }
  }

  /** Items sent packed, and the same items sent one by one, make the same array, or do not fit in it either way. */
  lemma PackedLikeUnpacked(f: Field, w: WireType, parts: seq<seq<Byte>>, t: seq<Byte>, items: seq<Value>)
    requires f.htype.Repeated? && Packable(f) && w != WtString && Scalars(f, parts) && |Concat(parts)| < TWO32
    ensures ReadField(f, WtString, PutString(Concat(parts)) + t, Many(items), |items|) ==
              match OneByOne(f, w, parts, Many(items)) case None => Malformed case Some(slot) => Parsed(slot, |PutString(Concat(parts))|)
  {
    hide ReadPacked, OneByOne, Concat, ReadString, PutString, Scalars;
    ReadPutString(Concat(parts), t);
    PackedOneByOne(f, w, parts, items);
    assert Taken(items, |items|) == items;
  }

  /** The next item is appended, as long as there is room. */
  lemma OneMoreOccurrence(f: Field, w: WireType, s: seq<Byte>, items: seq<Value>)
    requires f.htype.Repeated? && !(Packable(f) && w == WtString)
    ensures ReadField(f, w, s, Many(items), |items|) ==
              if |items| >= f.arraySize || ReadValue(f, s, VInt(0)).Malformed? then Malformed
              else Parsed(Many(items + [ReadValue(f, s, VInt(0)).value]), ReadValue(f, s, VInt(0)).used)
  {
    hide ReadValue;
    assert Taken(items, |items|) == items;
  }

  // ---- Arrays without a count ----------------------------------------------

  /** The array is complete, or it is the one being filled. */
  ghost predicate FullSoFar(fields: seq<Field>, p: Progress, i: nat)
    requires i < |fields|
  {
    var n := |ItemsOf(Get(p.m, Address(fields, i)))|;
    n == fields[i].arraySize || (p.fixed == Some(i) && p.count == n)
  }

  lemma StepFills(fields: seq<Field>, s: seq<Byte>, p: Progress, i: nat)
    requires WellFormed(fields) && i < |fields| && FixedCount(fields[i]) && s != [] && DecodeStep(fields, s, p).Next?
    ensures var p2 := DecodeStep(fields, s, p).progress;
            FullSoFar(fields, p, i) || (ReadTag(s).Tag? && ReadTag(s).number == fields[i].tag) ==> FullSoFar(fields, p2, i)
  {
    hide ReadField, SkipLength, ReadTag, FindField, WellFormed;
    var at := FindField(fields, ReadTag(s).number);
    if at.Some? {
      var k := at.value;
      if k != i {
        AddressesDiffer(fields, i, k);
        TagsDiffer(fields, i, k);
      }
    }
  }

  lemma TagsDiffer(fields: seq<Field>, i: nat, k: nat)
    requires WellFormed(fields) && i < |fields| && k < |fields| && i != k
    ensures fields[i].tag != fields[k].tag
  {
  }

  lemma {:induction false} ArraysFill(fields: seq<Field>, s: seq<Byte>, p: Progress, i: nat)
    requires WellFormed(fields) && i < |fields| && FixedCount(fields[i]) && ReadFields(fields, s, p).Outcome?
    ensures FullSoFar(fields, p, i) || fields[i].tag in TagsRead(fields, s, p) ==> FullSoFar(fields, ReadFields(fields, s, p).progress, i)
    decreases |s|
  {
    hide DecodeStep, FullSoFar, WellFormed, ReadTag;
    if s != [] {
      var step := DecodeStep(fields, s, p);
      if step.Next? {
        StepFills(fields, s, p, i);
        ArraysFill(fields, s[step.used..], step.progress, i);
      }
    }
  }

  /** When decoding succeeds, every array without a count that occurred on the wire has all of its items. */
  lemma ArraysAreComplete(fields: seq<Field>, s: seq<Byte>, m: Message, i: nat)
    requires WellFormed(fields) && i < |fields| && FixedCount(fields[i]) && ReadMessage(fields, s, m).Outcome?
    requires fields[i].tag in TagsRead(fields, s, Start(m))
    ensures |ItemsOf(Get(ReadMessage(fields, s, m).progress.m, Address(fields, i)))| == fields[i].arraySize
  {
    hide ReadFields, TagsRead, WellFormed;
    ArraysFill(fields, s, Start(m), i);
  }

  /** Whatever such an array held before, its first item on the wire starts it anew. */
  lemma FixedArrayStartsOver(fields: seq<Field>, s: seq<Byte>, p: Progress, i: nat, other: Slot)
    requires i < |fields| && FixedCount(fields[i]) && p.fixed != Some(i)
    requires ReadTag(s).Tag? && FindField(fields, ReadTag(s).number) == Some(i)
    ensures DecodeStep(fields, s, p.(m := p.m[Address(fields, i) := other])) == DecodeStep(fields, s, p)
  {
    hide ReadTag, FindField, ReadValue, ReadPacked, ReadString, Address;
    var at := Address(fields, i);
    assert Taken(ItemsOf(Get(p.m, at)), 0) == [] == Taken(ItemsOf(other), 0);
  }

  // ---- Defaults ------------------------------------------------------------

  /** A message to be decoded into begins with empty arrays, no flags, no members of unions, and the values that the
      descriptor gives or else zeros; nested messages begin the same way. */
  lemma DefaultsAre(fields: seq<Field>, i: nat)
    requires WellFormed(fields) && i < |fields|
    ensures var f, slot := fields[i], Get(Defaults(fields, |fields|), Address(fields, i));
            && (f.htype.Repeated? ==> slot == Many([]))
            && (f.htype.OneOf? ==> WhichOf(slot) == 0)
            && (f.htype.Optional? ==> !HasOf(slot))
            && (f.htype.Required? || f.htype.Optional? ==>
                  && (f.ltype.Submessage? ==> Inside(slot) == Defaults(f.ltype.fields, |f.ltype.fields|))
                  && (!f.ltype.Submessage? && f.default.Some? ==> ValueOf(slot) == f.default.value)
                  && (f.default.None? && Packable(f) ==> ValueOf(slot) == VInt(0))
                  && (f.default.None? && (f.ltype.Bytes? || f.ltype.String?) ==> ValueOf(slot) == VBytes([]))
                  && (f.default.None? && f.ltype.FixedLengthBytes? ==>
                        ValueOf(slot).VBytes? && |ValueOf(slot).b| == f.dataSize && forall k :: 0 <= k < f.dataSize ==> ValueOf(slot).b[k] == 0))
  {
    hide WellFormed, InitialValue;
    DefaultsAt(fields, |fields|, i);
    InitialValueIs(fields[i]);
  }

  lemma InitialValueIs(f: Field)
    ensures var v := InitialValue(f);
            && (f.ltype.Submessage? ==> v == VMsg(Defaults(f.ltype.fields, |f.ltype.fields|)))
            && (!f.ltype.Submessage? && f.default.Some? ==> v == f.default.value)
            && (f.default.None? && Packable(f) ==> v == VInt(0))
            && (f.default.None? && (f.ltype.Bytes? || f.ltype.String?) ==> v == VBytes([]))
            && (f.default.None? && f.ltype.FixedLengthBytes? ==> v == VBytes(Zeros(f.dataSize)))
  {
    hide Defaults;
  }
}
