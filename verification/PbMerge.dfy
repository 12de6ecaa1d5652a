/** Decoding piece by piece: concatenated messages merge, unknown fields go unnoticed, and every
    length-delimited value takes exactly its announced length. */
module PbMerge {
  import opened Common
  import opened Coding
  import opened Wire
  import opened PbMessage
  import opened PbDecode

  // ---- Bytes behind a field do not matter to it ----------------------------

  lemma ScalarPrefix(f: Field, s: seq<Byte>, t: seq<Byte>)
    requires Packable(f) && ReadScalar(f, s).Parsed?
    ensures ReadScalar(f, s + t) == ReadScalar(f, s)
  {
    if f.ltype.Fixed32? {
      assert (s + t)[..4] == s[..4];
    } else if f.ltype.Fixed64? {
      assert (s + t)[..8] == s[..8];
    } else {
      VarintPrefix(s, t);
    }
  }

  lemma ValuePrefix(f: Field, s: seq<Byte>, t: seq<Byte>, base: Value)
    requires ReadValue(f, s, base).Parsed?
    ensures ReadValue(f, s + t, base) == ReadValue(f, s, base)
  {
    if Packable(f) {
      ScalarPrefix(f, s, t);
    } else {
      StringPrefix(s, t);
    }
  }

  lemma FieldPrefix(f: Field, w: WireType, s: seq<Byte>, t: seq<Byte>, slot: Slot, count: nat)
    requires ReadField(f, w, s, slot, count).Parsed?
    ensures ReadField(f, w, s + t, slot, count) == ReadField(f, w, s, slot, count)
  {
    hide ReadValue, ReadString, ReadPacked;
    if f.htype.Repeated? && w == WtString && Packable(f) {
      StringPrefix(s, t);
    } else if f.htype.Repeated? {
      ValuePrefix(f, s, t, VInt(0));
    } else if f.htype.OneOf? {
      ValuePrefix(f, s, t, if f.ltype.Submessage? && WhichOf(slot) != f.tag then Zero(f) else ValueOf(slot));
    } else {
      ValuePrefix(f, s, t, ValueOf(slot));
    }
  }

  lemma StepPrefix(fields: seq<Field>, s: seq<Byte>, t: seq<Byte>, p: Progress)
    requires !DecodeStep(fields, s, p).Abort?
    ensures DecodeStep(fields, s + t, p) == DecodeStep(fields, s, p)
  {
    hide ReadField, ReadTag, FindField;
    TagPrefix(s, t);
    if ReadTag(s).Tag? {
      var used := ReadTag(s).used;
      assert (s + t)[used..] == s[used..] + t;
      var at := FindField(fields, ReadTag(s).number);
      if at.None? {
        SkipPrefix(ReadTag(s).wireType, s[used..], t);
      } else {
        var p1 := Begin(fields, at.value, p).value;
        var slot := Get(p1.m, Address(fields, at.value));
        FieldPrefix(fields[at.value], ReadTag(s).wireType, s[used..], t, slot, CountFor(fields[at.value], slot, p1));
      }
    }
  }

  // ---- Concatenation -------------------------------------------------------

  /** Unless a zero tag ends the first part, decoding goes on with the second as if nothing had been
      in between; behind a zero tag nothing is looked at. */
  lemma {:induction false} FieldsOfConcatenation(fields: seq<Field>, a: seq<Byte>, b: seq<Byte>, p: Progress)
    requires ReadFields(fields, a, p).Outcome?
    ensures var o := ReadFields(fields, a, p);
            ReadFields(fields, a + b, p) == if o.terminated then o else Shift(ReadFields(fields, b, o.progress), |a|)
    decreases |a|
  {
    hide DecodeStep;
    if a == [] {
      assert a + b == b;
    } else {
      StepPrefix(fields, a, b, p);
      var step := DecodeStep(fields, a, p);
      if step.Next? {
        assert (a + b)[step.used..] == a[step.used..] + b;
        FieldsOfConcatenation(fields, a[step.used..], b, step.progress);
      }
    }
  }

  /** Neither required fields nor arrays without a count: nothing to keep track of. */
  ghost predicate Simple(fields: seq<Field>) {
    forall i :: 0 <= i < |fields| ==> !fields[i].htype.Required? && !FixedCount(fields[i])
  }

  lemma {:induction false} SimpleNeedsNoTracking(fields: seq<Field>, s: seq<Byte>, p: Progress)
    requires Simple(fields) && p == Start(p.m) && ReadFields(fields, s, p).Outcome?
    ensures var p2 := ReadFields(fields, s, p).progress; p2 == Start(p2.m) && Complete(fields, p2)
    decreases |s|
  {
    hide ReadField, ReadTag, FindField, SkipLength;
    if s != [] {
      var step := DecodeStep(fields, s, p);
      if step.Next? {
        assert step.progress == Start(step.progress.m);
        SimpleNeedsNoTracking(fields, s[step.used..], step.progress);
      }
    }
  }

  /** Decoding a concatenation is decoding the second message on top of the first, for every second
      message exactly when the first does not end in a zero tag. */
  lemma ConcatenationIsMerging(fields: seq<Field>, a: seq<Byte>, m: Message)
    requires Simple(fields) && ReadMessage(fields, a, m).Outcome? && ReadMessage(fields, a, m).used == |a|
    ensures var o := ReadMessage(fields, a, m);
            (forall b :: ReadMessage(fields, a + b, m) == Shift(ReadMessage(fields, b, o.progress.m), |a|)) <==> !o.terminated
  {
    hide ReadFields, Complete;
    var o := ReadMessage(fields, a, m);
    SimpleNeedsNoTracking(fields, a, Start(m));
    if !o.terminated {
      forall b ensures ReadMessage(fields, a + b, m) == Shift(ReadMessage(fields, b, o.progress.m), |a|) {
        FieldsOfConcatenation(fields, a, b, Start(m));
      }
    } else {
      // A truncated varint fails on its own, but not behind the zero tag.
      var b := [0x80];
      TruncatedFails(fields, o.progress);
      FieldsOfConcatenation(fields, a, b, Start(m));
      assert ReadMessage(fields, a + b, m) != Shift(ReadMessage(fields, b, o.progress.m), |a|);
    }
  }

  lemma TruncatedFails(fields: seq<Field>, p: Progress)
    ensures ReadFields(fields, [0x80], p).Failed?
  {
    NoVarint([0x80]);
    assert DecodeStep(fields, [0x80], p).Abort?;
  }

  /** A plain value replaces what was there … */
  lemma LastOneWins(f: Field, w: WireType, s: seq<Byte>, slot: Slot, other: Slot)
    requires !f.ltype.Submessage? && !f.htype.Repeated?
    ensures ReadField(f, w, s, slot, 0) == ReadField(f, w, s, other, 0)
  {
    hide ReadString, ReadScalar;
    assert ReadValue(f, s, ValueOf(slot)) == ReadValue(f, s, ValueOf(other));
  }

  /** … and array items are appended to what was there. */
  lemma ArraysAppend(f: Field, w: WireType, s: seq<Byte>, slot: Slot)
    requires f.htype.Repeated? && |ItemsOf(slot)| <= f.arraySize
    requires ReadField(f, w, s, slot, |ItemsOf(slot)|).Parsed?
    ensures var r := ReadField(f, w, s, slot, |ItemsOf(slot)|).value;
            ItemsOf(slot) <= r.items && |r.items| <= f.arraySize
  {
    hide ReadString, ReadPacked, ReadValue;
    assert Taken(ItemsOf(slot), |ItemsOf(slot)|) == ItemsOf(slot);
    if w == WtString && Packable(f) {
      PackedAppends(f, ReadString(s).value, ItemsOf(slot));
    }
  }

  lemma {:induction false} PackedAppends(f: Field, s: seq<Byte>, items: seq<Value>)
    requires Packable(f) && ReadPacked(f, s, items).Some?
    ensures items <= ReadPacked(f, s, items).value
    ensures |items| <= f.arraySize ==> |ReadPacked(f, s, items).value| <= f.arraySize
    decreases |s|
  {
    if s != [] {
      var r := ReadScalar(f, s);
      PackedAppends(f, s[r.used..], items + [r.value]);
    }
  }

  // ---- Unknown fields ------------------------------------------------------

  /** A complete field that the descriptor does not know: a tag and a payload of its wire type. */
  predicate UnknownField(fields: seq<Field>, u: seq<Byte>) {
    match ReadTag(u)
    case Tag(number, w, used) => FindField(fields, number).None? && SkipLength(w, u[used..]) == Some(|u| - used)
    case _ => false
  }

  lemma UnknownStep(fields: seq<Field>, u: seq<Byte>, b: seq<Byte>, p: Progress)
    requires UnknownField(fields, u)
    ensures DecodeStep(fields, u + b, p) == Next(p, |u|)
  {
    assert DecodeStep(fields, u, p) == Next(p, |u|);
    StepPrefix(fields, u, b, p);
  }

  /** Put at any boundary between fields, it changes nothing but the length. */
  lemma UnknownFieldsAreTransparent(fields: seq<Field>, a: seq<Byte>, u: seq<Byte>, b: seq<Byte>, m: Message)
    requires UnknownField(fields, u)
    requires var o := ReadFields(fields, a, Start(m)); o.Outcome? && !o.terminated
    ensures ReadMessage(fields, a + u + b, m) == Shift(ReadMessage(fields, a + b, m), |u|)
  {
    hide DecodeStep, Complete, UnknownField;
    var p := ReadFields(fields, a, Start(m)).progress;
    FieldsOfConcatenation(fields, a, b, Start(m));
    FieldsOfConcatenation(fields, a, u + b, Start(m));
    assert a + u + b == a + (u + b);
    UnknownStep(fields, u, b, p);
    UnknownIsNotEmpty(fields, u);
    assert (u + b)[|u|..] == b;
  }

  lemma UnknownIsNotEmpty(fields: seq<Field>, u: seq<Byte>)
    requires UnknownField(fields, u)
    ensures u != []
  {
  }

  /** What another program may send: any tag number that is not in the descriptor, any of the four wire
      types, any payload. */
  lemma UnknownFieldsExist(fields: seq<Field>, number: nat, value: nat, data: seq<Byte>, word: seq<Byte>, half: seq<Byte>)
    requires 0 < number < TWO32 / 8 && FindField(fields, number).None?
    requires value < TWO64 && |data| < TWO32 && |word| == 8 && |half| == 4
    ensures UnknownField(fields, PutTag(number, WtVarint) + PutVarint(value))
    ensures UnknownField(fields, PutTag(number, WtString) + PutString(data))
    ensures UnknownField(fields, PutTag(number, Wt64Bit) + word)
    ensures UnknownField(fields, PutTag(number, Wt32Bit) + half)
  {
    hide FindField, ReadTag, PutTag, PutString, ReadString, PutVarint, VarintLength;
    ReadPutVarint(value, []);
    assert PutVarint(value) + [] == PutVarint(value);
    ReadPutString(data, []);
    assert PutString(data) + [] == PutString(data);
    TagThen(fields, number, WtVarint, PutVarint(value));
    TagThen(fields, number, WtString, PutString(data));
    TagThen(fields, number, Wt64Bit, word);
    TagThen(fields, number, Wt32Bit, half);
  }

  lemma TagThen(fields: seq<Field>, number: nat, w: WireType, payload: seq<Byte>)
    requires 0 < number < TWO32 / 8 && FindField(fields, number).None? && !w.WtInvalid?
    requires SkipLength(w, payload) == Some(|payload|)
    ensures UnknownField(fields, PutTag(number, w) + payload)
  {
    ReadPutTag(number, w, payload);
    assert (PutTag(number, w) + payload)[|PutTag(number, w)|..] == payload;
  }

  // ---- Framing -------------------------------------------------------------

  predicate LengthDelimited(f: Field, w: WireType) {
    !Packable(f) || (f.htype.Repeated? && w == WtString)
  }

  /** A length-delimited field takes its prefix and the announced length, whatever is inside; nothing
      behind it is looked at. */
  lemma Framing(f: Field, w: WireType, s: seq<Byte>, t: seq<Byte>, slot: Slot, count: nat)
    requires LengthDelimited(f, w) && ReadField(f, w, s, slot, count).Parsed?
    ensures var r := ReadField(f, w, s, slot, count);
            && ReadString(s).Parsed? && r.used == VarintLength(s) + |ReadString(s).value|
            && ReadField(f, w, s[..r.used] + t, slot, count) == r
  {
    hide ReadField, ReadValue, VarintLength, ReadString, ReadVarint32;
    DelimitedReadsString(f, w, s, s, slot, count);
    StringIsFramed(s);
    StringAlone(s);
    var own := s[..ReadString(s).used];
    StringPrefix(own, t);
    DelimitedReadsString(f, w, s, own + t, slot, count);
  }

  /** Of a length-delimited field nothing but the announced bytes matters. */
  lemma DelimitedReadsString(f: Field, w: WireType, s: seq<Byte>, s2: seq<Byte>, slot: Slot, count: nat)
    requires LengthDelimited(f, w) && ReadField(f, w, s, slot, count).Parsed? && (ReadString(s).Parsed? ==> ReadString(s2) == ReadString(s))
    ensures ReadString(s).Parsed? && ReadField(f, w, s, slot, count).used == ReadString(s).used
    ensures ReadField(f, w, s2, slot, count) == ReadField(f, w, s, slot, count)
  {
    hide ReadString, ReadPacked, ReadValue;
    if !Packable(f) {
      var base := if f.htype.Repeated? then VInt(0)
                  else if f.htype.OneOf? && f.ltype.Submessage? && WhichOf(slot) != f.tag then Zero(f)
                  else ValueOf(slot);
      ValueReadsString(f, s, s2, base);
    }
  }

  lemma ValueReadsString(f: Field, s: seq<Byte>, s2: seq<Byte>, base: Value)
    requires !Packable(f) && ReadValue(f, s, base).Parsed? && (ReadString(s).Parsed? ==> ReadString(s2) == ReadString(s))
    ensures ReadString(s).Parsed? && ReadValue(f, s, base).used == ReadString(s).used
    ensures ReadValue(f, s2, base) == ReadValue(f, s, base)
  {
    hide ReadString, ReadMessage;
  }

  lemma StringIsFramed(s: seq<Byte>)
    requires ReadString(s).Parsed?
    ensures ReadString(s).used == VarintLength(s) + |ReadString(s).value|
  {
  }

  lemma StringAlone(s: seq<Byte>)
    requires ReadString(s).Parsed?
    ensures ReadString(s[..ReadString(s).used]) == ReadString(s)
  {
    hide FitsVarint32, RawVarint;
    var n := VarintLength(s);
    var head := s[..ReadString(s).used];
    VarintLengthEnds(s);
    VarintLengthIs(head, n);
    assert s[..n] == head[..n];
    assert head[n..n + |ReadString(s).value|] == head[n..] == ReadString(s).value;
  }
}
