/** The encoder at work (pb_encode.c): it writes into a buffer, or only counts, field by field. Every
    method either appends exactly the bytes that PbEncode assigns to its argument, or fails. */
module PbEncodeStream {
  import opened Common
  import opened Coding
  import opened Wire
  import opened PbMessage
  import opened PbEncode
  import opened PbFieldIter

  /** The buffer, and where a stream stands in it. */
  datatype Snapshot = Snapshot(bytes: seq<Byte>, writing: bool, state: nat, maxSize: nat, bytesWritten: nat)

  ghost predicate Sound(s: Snapshot) {
    s.writing ==> s.bytesWritten <= s.maxSize && s.bytesWritten <= s.state && s.state - s.bytesWritten + s.maxSize <= |s.bytes|
  }

  /** From a to b a call succeeded exactly if e exists and there was room for it, and then appended it.
      In any case nothing outside the stream's own part of the buffer was touched, and nothing in front of
      where it stood. A stream that only counts has room for anything and touches nothing. */
  ghost predicate Appended(a: Snapshot, b: Snapshot, ok: bool, e: Encoding) {
    && Sound(a) && Sound(b) && b.writing == a.writing && b.maxSize == a.maxSize && |b.bytes| == |a.bytes|
    && b.bytesWritten >= a.bytesWritten
    && ok == (e.Some? && (a.writing ==> a.bytesWritten + |e.value| <= a.maxSize))
    && (ok ==> b.bytesWritten == a.bytesWritten + |e.value|)
    && (!a.writing ==> b.bytes == a.bytes)
    && (a.writing ==>
          && b.state - b.bytesWritten == a.state - a.bytesWritten
          && b.bytes[..a.state] == a.bytes[..a.state]
          && b.bytes[a.state - a.bytesWritten + a.maxSize..] == a.bytes[a.state - a.bytesWritten + a.maxSize..]
          && (ok ==> b.bytes[a.state..b.state] == e.value))
  }

  lemma Then(a: Snapshot, b: Snapshot, c: Snapshot, e1: Encoding, ok: bool, e2: Encoding)
    requires Appended(a, b, true, e1) && Appended(b, c, ok, e2)
    ensures Appended(a, c, ok, Join(e1, e2))
  {
    if a.writing {
      assert c.bytes[..a.state] == c.bytes[..b.state][..a.state];
      if ok {
        assert c.bytes[a.state..c.state] == c.bytes[..b.state][a.state..] + c.bytes[b.state..c.state];
        assert c.bytes[..b.state][a.state..] == b.bytes[..b.state][a.state..] == e1.value;
      }
    }
  }

  lemma StuckAt(a: Snapshot, b: Snapshot, e1: Encoding, e2: Encoding)
    requires Appended(a, b, false, e1)
    ensures Appended(a, b, false, Join(e1, e2))
  {
  }

  /** Counting ahead is as good as writing for a stream that does not write. */
  lemma Counted(a: Snapshot, b: Snapshot, e: Encoding)
    requires Sound(a) && !a.writing && e.Some? && b == a.(bytesWritten := a.bytesWritten + |e.value|)
    ensures Appended(a, b, true, e)
  {
  }

  /** Nothing has been written yet. */
  lemma Nothing(a: Snapshot)
    requires Sound(a)
    ensures Appended(a, a, true, Some([]))
  {
  }

  class OStream {
    const buf: array<Byte>
    /** A stream that does not write only counts. */
    var writing: bool
    /** Where in the buffer the next byte goes. */
    var state: nat
    var maxSize: nat
    var bytesWritten: nat

    ghost predicate Valid()
      reads this, buf
    {
      Sound(View())
    }

    constructor ToBuffer(buf: array<Byte>, size: nat)
      requires size <= buf.Length
      ensures Valid() && this.buf == buf && writing && state == 0 && maxSize == size && bytesWritten == 0
    {
      this.buf, writing, state, maxSize, bytesWritten := buf, true, 0, size, 0;
    }

    constructor Sizing()
      ensures Valid() && fresh(buf) && !writing && bytesWritten == 0
    {
      buf := new Byte[0];
      writing, state, maxSize, bytesWritten := false, 0, 0, 0;
    }

    /** A stream for exactly the next size bytes of another one. */
    constructor Substream(parent: OStream, size: nat)
      requires parent.Valid() && parent.writing && parent.bytesWritten + size <= parent.maxSize
      ensures Valid() && buf == parent.buf && writing && state == parent.state && maxSize == size && bytesWritten == 0
    {
      buf, writing, state, maxSize, bytesWritten := parent.buf, true, parent.state, size, 0;
    }

    ghost function View(): Snapshot
      reads this, buf
    {
      Snapshot(buf[..], writing, state, maxSize, bytesWritten)
    }

    /** data may be missing when the stream only counts. */
    method Write(data: seq<Byte>, count: nat) returns (ok: bool)
      requires Valid() && (writing ==> |data| == count)
      modifies this, buf
      ensures |data| == count ==> Appended(old(View()), View(), ok, Some(data))
      ensures !old(writing) ==> ok && View() == old(View()).(bytesWritten := old(bytesWritten) + count)
    {
      if count > 0 && writing {
        if bytesWritten + count > maxSize {
          return false;
        }
        var dest := state;
        state := state + count;
        for i := 0 to count
          invariant state == old(state) + count && dest == old(state)
          invariant writing == old(writing) && maxSize == old(maxSize) && bytesWritten == old(bytesWritten)
          invariant buf[..dest] == old(buf[..dest])
          invariant buf[dest..dest + i] == data[..i]
          invariant buf[dest + count..] == old(buf[dest + count..])
        {
          buf[dest + i] := data[i];
        }
        assert data[..count] == data;
        ghost var limit := old(state - bytesWritten + maxSize);
        assert forall k :: limit <= k < buf.Length ==> buf[k] == buf[dest + count..][k - dest - count];
        assert old(forall k :: limit <= k < buf.Length ==> buf[k] == buf[dest + count..][k - dest - count]);
      }
      bytesWritten := bytesWritten + count;
      return true;
    }
  }

  // ---- Primitive values ----------------------------------------------------

  method EncodeVarint(stream: OStream, value: nat) returns (ok: bool)
    requires stream.Valid() && value < TWO64
    modifies stream, stream.buf
    ensures Appended(old(stream.View()), stream.View(), ok, Some(PutVarint(value)))
  {
    if value <= 0x7F {
      ok := stream.Write([value], 1);
      return;
    }
    var buffer, n := VarintDigits(value);
    ok := stream.Write(buffer[..n], n);
  }

  /** Fills in digit after digit, then clears the top bit of the last. */
  method VarintDigits(value: nat) returns (buffer: array<Byte>, n: nat)
    requires 0x7F < value < TWO64
    ensures fresh(buffer) && n <= buffer.Length && buffer[..n] == PutVarint(value)
  {
    ReadPutVarint(value, []);
    hide PutVarint, LastCleared;
    buffer := new Byte[10];
    n := 0;
    var v := value;
    ghost var digits: seq<Byte> := [];
    while v != 0
      invariant 0 <= v && n == |digits| <= 10 && buffer[..n] == digits
      invariant v > 0 ==> PutVarint(value) == digits + PutVarint(v)
      invariant v == 0 ==> n > 0 && LastCleared(digits) == Some(PutVarint(value))
    {
      buffer[n] := v % 128 + 128;
      DigitWritten(v, digits, PutVarint(value));
      digits := digits + [v % 128 + 128];
      v := v / 128;
      n := n + 1;
    }
    ClearLast(digits);
    buffer[n - 1] := buffer[n - 1] - 128;
    assert buffer[..n] == digits[..n - 1] + [digits[n - 1] - 128];
  }

  lemma ClearLast(digits: seq<Byte>)
    requires LastCleared(digits).Some?
    ensures digits != [] && digits[|digits| - 1] >= 128
    ensures LastCleared(digits) == Some(digits[..|digits| - 1] + [digits[|digits| - 1] - 128])
  {
  }

  function LastCleared(digits: seq<Byte>): Option<seq<Byte>> {
    if digits == [] || digits[|digits| - 1] < 128 then None
    else Some(digits[..|digits| - 1] + [digits[|digits| - 1] - 128])
  }

  lemma DigitWritten(v: nat, digits: seq<Byte>, all: seq<Byte>)
    requires v > 0 && all == digits + PutVarint(v)
    ensures |digits| < |all|
    ensures v >= 128 ==> all == digits + [v % 128 + 128] + PutVarint(v / 128)
    ensures v < 128 ==> LastCleared(digits + [v % 128 + 128]) == Some(all)
  {
  }

  method EncodeTag(stream: OStream, wireType: WireType, number: PbSize) returns (ok: bool)
    requires stream.Valid() && !wireType.WtInvalid?
    modifies stream, stream.buf
    ensures Appended(old(stream.View()), stream.View(), ok, Some(PutTag(number, wireType)))
  {
    ok := EncodeVarint(stream, number * 8 + WireCode(wireType));
  }

  method EncodeTagForField(stream: OStream, f: Field) returns (ok: bool)
    requires stream.Valid()
    modifies stream, stream.buf
    ensures Appended(old(stream.View()), stream.View(), ok, Some(TagFor(f)))
  {
    ok := EncodeTag(stream, WireTypeFor(f), f.tag);
  }

  method EncodeString(stream: OStream, data: seq<Byte>) returns (ok: bool)
    requires stream.Valid() && |data| < TWO64
    modifies stream, stream.buf
    ensures Appended(old(stream.View()), stream.View(), ok, Some(PutString(data)))
  {
    hide Appended;
    ghost var a := stream.View();
    ok := EncodeVarint(stream, |data|);
    ghost var b := stream.View();
    if !ok {
      StuckAt(a, b, Some(PutVarint(|data|)), Some(data));
      return;
    }
    ok := stream.Write(data, |data|);
    Then(a, b, stream.View(), Some(PutVarint(|data|)), ok, Some(data));
  }

  /** The packable types. */
  method EncodeScalar(stream: OStream, f: Field, v: Value) returns (ok: bool)
    requires stream.Valid() && Packable(f)
    modifies stream, stream.buf
    ensures Appended(old(stream.View()), stream.View(), ok, ScalarBytes(f, v))
  {
    match f.ltype
    case Bool => ok := EncodeVarint(stream, if AsInt(v) != 0 then 1 else 0);
    case Varint =>
      if !IntegerSize(f.dataSize) { return false; }
      ok := EncodeVarint(stream, ToUnsigned64(AsInt(v)));
    case Uvarint =>
      if !IntegerSize(f.dataSize) { return false; }
      ok := EncodeVarint(stream, ToUnsigned64(AsInt(v)));
    case Svarint =>
      if !IntegerSize(f.dataSize) { return false; }
      ok := EncodeVarint(stream, ZigZag(AsInt(v)));
    case Fixed32 => ok := stream.Write(PutFixed(AsInt(v) % TWO32, 4), 4);
    case Fixed64 => ok := stream.Write(PutFixed(AsInt(v) % TWO64, 8), 8);
  }

  // ---- Values left out -----------------------------------------------------

  lemma CStringIs(b: seq<Byte>, max: nat, n: nat)
    requires n <= max && n <= |b| && (forall i :: 0 <= i < n ==> b[i] != 0)
    requires n == max || n == |b| || b[n] == 0
    ensures CString(b, max) == b[..n]
  {
  }

  /** pb_check_proto3_default_value. */
  method CheckDefault(f: Field, slot: Slot) returns (isDefault: bool)
    requires WellFormedField(f)
    ensures isDefault == IsDefault(f, slot)
    decreases f
  {
    if f.htype.Required? {
      return false;
    } else if f.htype.Repeated? {
      if f.sizeOffset != 0 {
        return |ItemsOf(slot)| == 0;
      }
      return false;
    } else if f.htype.OneOf? {
      return WhichOf(slot) == 0;
    } else if f.sizeOffset != 0 {
      return !HasOf(slot);
    }
    var v := ValueOf(slot);
    match f.ltype
    case Bytes => return |AsBytes(v)| == 0;
    case String => return |AsBytes(v)| == 0 || AsBytes(v)[0] == 0;
    case FixedLengthBytes => return f.dataSize == 0;
    case Submessage(fields) =>
      var m := AsMessage(v);
      var iter := new FieldIter(fields);
      var any := iter.Begin();
      while any
        invariant iter.Valid() && iter.fields == fields && fresh(iter)
        invariant any ==> iter.pos < |fields| && (IsDefault(f, slot) <==> AllDefault(fields, m, iter.pos))
        invariant !any ==> IsDefault(f, slot)
        decreases any, |fields| - iter.pos
      {
        assert WellFormedField(fields[iter.pos]);
        var fieldDefault := CheckDefault(fields[iter.pos], Get(m, iter.pData));
        if !fieldDefault {
          return false;
        }
        any := iter.Next();
      }
      return true;
    case _ => return AsInt(v) == 0;
  }

  // ---- Fields --------------------------------------------------------------

  method EncodeValue(stream: OStream, f: Field, v: Value) returns (ok: bool)
    requires stream.Valid() && WellFormedField(f) && AddressableValue(f, v)
    modifies stream, stream.buf
    ensures Appended(old(stream.View()), stream.View(), ok, ValueBytes(f, v))
    decreases f, 1
  {
    match f.ltype
    case Bytes =>
      if |AsBytes(v)| + BYTES_OFFSET > f.dataSize { return false; }
      ok := EncodeString(stream, AsBytes(v));
    case String =>
      var b := AsBytes(v);
      var size := 0;
      while size < f.dataSize && size < |b| && b[size] != 0
        invariant size <= f.dataSize && size <= |b| && forall i :: 0 <= i < size ==> b[i] != 0
      {
        size := size + 1;
      }
      CStringIs(b, f.dataSize, size);
      ok := EncodeString(stream, b[..size]);
    case Submessage(fields) =>
      var sizeChanged;
      ok, sizeChanged := EncodeSubmessage(stream, fields, AsMessage(v));
    case FixedLengthBytes => ok := EncodeString(stream, Sized(AsBytes(v), f.dataSize));
    case _ => ok := EncodeScalar(stream, f, v);
  }

  lemma {:induction false} PackedSplit(f: Field, items: seq<Value>, i: nat)
    requires Packable(f) && i < |items|
    ensures PackedBytes(f, items[..i + 1]) == Join(PackedBytes(f, items[..i]), ScalarBytes(f, items[i]))
    ensures PackedBytes(f, items) == Join(PackedBytes(f, items[..i + 1]), PackedBytes(f, items[i + 1..]))
    decreases |items|
  {
    hide ScalarBytes;
    var first := ScalarBytes(f, items[0]);
    if i == 0 {
      assert items[..1] == [items[0]] && items[..1][1..] == [];
      JoinEmpty(first);
    } else {
      PackedSplit(f, items[1..], i - 1);
      assert items[..i + 1][1..] == items[1..][..i] && items[..i][1..] == items[1..][..i - 1];
      JoinAssociates(first, PackedBytes(f, items[1..][..i - 1]), ScalarBytes(f, items[i]));
      JoinAssociates(first, PackedBytes(f, items[1..][..i]), PackedBytes(f, items[i + 1..]));
    }
  }

  lemma {:induction false} PackedIsSmall(f: Field, items: seq<Value>)
    requires Packable(f) && PackedBytes(f, items).Some?
    ensures |PackedBytes(f, items).value| <= 10 * |items|
  {
    if items != [] {
      PackedIsSmall(f, items[1..]);
      ScalarIsSmall(f, items[0]);
    }
  }

  lemma ScalarIsSmall(f: Field, v: Value)
    requires Packable(f) && ScalarBytes(f, v).Some?
    ensures |ScalarBytes(f, v).value| <= 10
    ensures f.ltype.Fixed32? ==> |ScalarBytes(f, v).value| == 4
    ensures f.ltype.Fixed64? ==> |ScalarBytes(f, v).value| == 8
  {
    if f.ltype.Bool? {
      ReadPutVarint(if AsInt(v) != 0 then 1 else 0, []);
    } else if f.ltype.Svarint? {
      ReadPutVarint(ZigZag(AsInt(v)), []);
    } else {
      ReadPutVarint(ToUnsigned64(AsInt(v)), []);
    }
  }

  lemma {:induction false} PackedFixedSize(f: Field, items: seq<Value>)
    requires f.ltype.Fixed32? || f.ltype.Fixed64?
    ensures PackedBytes(f, items).Some?
    ensures |PackedBytes(f, items).value| == (if f.ltype.Fixed32? then 4 else 8) * |items|
  {
    if items != [] {
      PackedFixedSize(f, items[1..]);
      ScalarIsSmall(f, items[0]);
    }
  }

  /** Items one after the other, with nothing in between. */
  method EncodeItems(stream: OStream, f: Field, items: seq<Value>) returns (ok: bool)
    requires stream.Valid() && Packable(f)
    modifies stream, stream.buf
    ensures Appended(old(stream.View()), stream.View(), ok, PackedBytes(f, items))
  {
    hide Appended, ScalarBytes;
    ghost var a := stream.View();
    Nothing(a);
    for i := 0 to |items|
      invariant Appended(a, stream.View(), true, PackedBytes(f, items[..i])) && stream.Valid()
    {
      ghost var b := stream.View();
      PackedSplit(f, items, i);
      ok := EncodeScalar(stream, f, items[i]);
      Then(a, b, stream.View(), PackedBytes(f, items[..i]), ok, ScalarBytes(f, items[i]));
      if !ok {
        StuckAt(a, stream.View(), PackedBytes(f, items[..i + 1]), PackedBytes(f, items[i + 1..]));
        return false;
      }
    }
    assert items[..|items|] == items;
    return true;
  }

  /** The size of a packed array: known beforehand for fixed-width items, otherwise measured. */
  method PackedSize(f: Field, items: seq<Value>) returns (ok: bool, size: nat)
    requires Packable(f) && |items| <= PB_SIZE_MAX
    ensures ok <==> PackedBytes(f, items).Some?
    ensures ok ==> size == |PackedBytes(f, items).value| < TWO64
  {
    if f.ltype.Fixed32? {
      PackedFixedSize(f, items);
      return true, 4 * |items|;
    } else if f.ltype.Fixed64? {
      PackedFixedSize(f, items);
      return true, 8 * |items|;
    }
    var sizeStream := new OStream.Sizing();
    ok := EncodeItems(sizeStream, f, items);
    size := sizeStream.bytesWritten;
    if ok { PackedIsSmall(f, items); }
  }

  lemma {:induction false} UnpackedSplit(f: Field, items: seq<Value>, i: nat)
    requires i < |items|
    ensures UnpackedBytes(f, items[..i + 1]) == Join(UnpackedBytes(f, items[..i]), TaggedBytes(f, items[i]))
    ensures UnpackedBytes(f, items) == Join(UnpackedBytes(f, items[..i + 1]), UnpackedBytes(f, items[i + 1..]))
    decreases |items|
  {
    hide TaggedBytes;
    var first := TaggedBytes(f, items[0]);
    if i == 0 {
      assert items[..1] == [items[0]] && items[..1][1..] == [];
      JoinEmpty(first);
    } else {
      UnpackedSplit(f, items[1..], i - 1);
      assert items[..i + 1][1..] == items[1..][..i] && items[..i][1..] == items[1..][..i - 1];
      JoinAssociates(first, UnpackedBytes(f, items[1..][..i - 1]), TaggedBytes(f, items[i]));
      JoinAssociates(first, UnpackedBytes(f, items[1..][..i]), UnpackedBytes(f, items[i + 1..]));
    }
  }

  method EncodeTagged(stream: OStream, f: Field, v: Value) returns (ok: bool)
    requires stream.Valid() && WellFormedField(f) && AddressableValue(f, v)
    modifies stream, stream.buf
    ensures Appended(old(stream.View()), stream.View(), ok, TaggedBytes(f, v))
    decreases f, 2
  {
    hide Appended, ValueBytes;
    ghost var a := stream.View();
    ok := EncodeTagForField(stream, f);
    ghost var b := stream.View();
    if !ok {
      StuckAt(a, b, Some(TagFor(f)), ValueBytes(f, v));
      return false;
    }
    ok := EncodeValue(stream, f, v);
    Then(a, b, stream.View(), Some(TagFor(f)), ok, ValueBytes(f, v));
  }

  method EncodePacked(stream: OStream, f: Field, items: seq<Value>) returns (ok: bool)
    requires stream.Valid() && Packable(f) && items != [] && |items| <= f.arraySize
    modifies stream, stream.buf
    ensures Appended(old(stream.View()), stream.View(), ok, ArrayBytes(f, items))
  {
    hide Appended, PackedBytes;
    ghost var tag, data := Some(PutTag(f.tag, WtString)), PackedBytes(f, items);
    ghost var a := stream.View();
    ok := EncodeTag(stream, WtString, f.tag);
    ghost var b := stream.View();
    if !ok {
      StuckAt(a, b, tag, Join(Some(PutVarint(if data.Some? then |data.value| else 0)), data));
      return false;
    }
    var size;
    ok, size := PackedSize(f, items);
    if !ok {
      FailsLater(a, b, tag);
      return false;
    }
    JoinAssociates(tag, Some(PutVarint(size)), data);
    ok := EncodeVarint(stream, size);
    ghost var c := stream.View();
    Then(a, b, c, tag, ok, Some(PutVarint(size)));
    ghost var head := Join(tag, Some(PutVarint(size)));
    if !ok {
      StuckAt(a, c, head, data);
      return false;
    }
    if !stream.writing {
      ok := stream.Write([], size);
      Counted(c, stream.View(), data);
    } else {
      ok := EncodeItems(stream, f, items);
    }
    Then(a, c, stream.View(), head, ok, data);
  }

  /** An error after something has been written. */
  lemma FailsLater(a: Snapshot, b: Snapshot, e: Encoding)
    requires Appended(a, b, true, e)
    ensures Appended(a, b, false, None)
  {
  }

  method EncodeArray(stream: OStream, f: Field, items: seq<Value>) returns (ok: bool)
    requires stream.Valid() && WellFormedField(f) && AddressableItems(f, items)
    modifies stream, stream.buf
    ensures Appended(old(stream.View()), stream.View(), ok, ArrayBytes(f, items))
    decreases f, 3
  {
    ghost var a := stream.View();
    Nothing(a);
    if |items| == 0 {
      return true;
    }
    if |items| > f.arraySize {
      return false;
    }
    if Packable(f) {
      ok := EncodePacked(stream, f, items);
      return;
    }
    hide Appended, TaggedBytes;
    for i := 0 to |items|
      invariant Appended(a, stream.View(), true, UnpackedBytes(f, items[..i])) && stream.Valid()
    {
      ghost var b := stream.View();
      UnpackedSplit(f, items, i);
      ok := EncodeTagged(stream, f, items[i]);
      Then(a, b, stream.View(), UnpackedBytes(f, items[..i]), ok, TaggedBytes(f, items[i]));
      if !ok {
        StuckAt(a, stream.View(), UnpackedBytes(f, items[..i + 1]), UnpackedBytes(f, items[i + 1..]));
        return false;
      }
    }
    assert items[..|items|] == items;
    return true;
  }

  /** encode_basic_field. */
  method EncodeField(stream: OStream, f: Field, slot: Slot) returns (ok: bool)
    requires stream.Valid() && WellFormedField(f) && AddressableSlot(f, slot)
    modifies stream, stream.buf
    ensures Appended(old(stream.View()), stream.View(), ok, FieldBytes(f, slot))
    decreases f, 4
  {
    Nothing(stream.View());
    hide Appended, TaggedBytes, ArrayBytes;
    match f.htype
    case Required => ok := EncodeTagged(stream, f, ValueOf(slot));
    case Optional =>
      var has := HasOf(slot);
      if f.sizeOffset == 0 {
        var isDefault := CheckDefault(f, slot);
        has := !isDefault;
      }
      ok := true;
      if has {
        ok := EncodeTagged(stream, f, ValueOf(slot));
      }
    case Repeated => ok := EncodeArray(stream, f, ItemsToSend(f, slot));
    case OneOf =>
      ok := true;
      if WhichOf(slot) == f.tag {
        ok := EncodeTagged(stream, f, ValueOf(slot));
      }
  }

  // ---- Messages ------------------------------------------------------------

  /** Between a and now the first i fields were written, and nothing else. */
  ghost predicate WrittenUpto(fields: seq<Field>, m: Message, a: Snapshot, now: Snapshot, i: nat)
    requires i <= |fields|
  {
    exists done: Encoding :: Appended(a, now, true, done) && MessageBytes(fields, m, 0) == Join(done, MessageBytes(fields, m, i))
  }

  lemma NothingWritten(fields: seq<Field>, m: Message, a: Snapshot)
    requires Sound(a)
    ensures WrittenUpto(fields, m, a, a, 0)
  {
    hide Appended, MessageBytes;
    Nothing(a);
    JoinEmpty(MessageBytes(fields, m, 0));
    assert Appended(a, a, true, Some([])) && MessageBytes(fields, m, 0) == Join(Some([]), MessageBytes(fields, m, 0));
  }

  lemma AllWritten(fields: seq<Field>, m: Message, a: Snapshot, now: Snapshot)
    requires WrittenUpto(fields, m, a, now, |fields|)
    ensures Appended(a, now, true, MessageBytes(fields, m, 0))
  {
    hide Appended, FieldBytes;
    var done: Encoding :| Appended(a, now, true, done) && MessageBytes(fields, m, 0) == Join(done, MessageBytes(fields, m, |fields|));
    JoinEmpty(done);
  }

  /** One field more, or no room for the message. */
  lemma OneMoreField(fields: seq<Field>, m: Message, a: Snapshot, b: Snapshot, c: Snapshot, i: nat, ok: bool)
    requires i < |fields| && WrittenUpto(fields, m, a, b, i)
    requires Appended(b, c, ok, FieldBytes(fields[i], Get(m, Address(fields, i))))
    ensures ok ==> WrittenUpto(fields, m, a, c, i + 1)
    ensures !ok ==> Appended(a, c, false, MessageBytes(fields, m, 0))
  {
    hide Appended, FieldBytes;
    var done: Encoding :| Appended(a, b, true, done) && MessageBytes(fields, m, 0) == Join(done, MessageBytes(fields, m, i));
    var e, rest := FieldBytes(fields[i], Get(m, Address(fields, i))), MessageBytes(fields, m, i + 1);
    Then(a, b, c, done, ok, e);
    JoinAssociates(done, e, rest);
    if !ok {
      StuckAt(a, c, Join(done, e), rest);
    }
  }

  lemma FieldFacts(fields: seq<Field>, m: Message, i: nat)
    requires WellFormed(fields) && Addressable(fields, m)
    ensures UnionsAgree(fields)
    ensures i < |fields| ==> WellFormedField(fields[i]) && AddressableSlot(fields[i], Get(m, Address(fields, i)))
  {
    hide WellFormedField, AddressableSlot;
  }

  /** pb_encode: succeeds exactly if the message can be encoded and fits, and then appends it. */
  method EncodeMessage(stream: OStream, fields: seq<Field>, m: Message) returns (ok: bool)
    requires stream.Valid() && WellFormed(fields) && Addressable(fields, m)
    modifies stream, stream.buf
    ensures stream.Valid() && Appended(old(stream.View()), stream.View(), ok, MessageBytes(fields, m, 0))
    decreases fields, 0
  {
    FieldFacts(fields, m, 0);
    hide MessageBytes, FieldBytes, AddressableSlot, WellFormedField, WellFormed, Addressable, WrittenUpto, UnionsAgree;
    ghost var a := stream.View();
    NothingWritten(fields, m, a);
    var iter := new FieldIter(fields);
    var any := iter.Begin();
    while any
      invariant iter.Valid() && iter.fields == fields && fresh(iter) && stream.Valid()
      invariant any ==> iter.pos < |fields|
      invariant WrittenUpto(fields, m, a, stream.View(), if any then iter.pos else |fields|)
      decreases any, |fields| - iter.pos
    {
      FieldFacts(fields, m, iter.pos);
      ghost var b := stream.View();
      ok := EncodeField(stream, fields[iter.pos], Get(m, iter.pData));
      OneMoreField(fields, m, a, b, stream.View(), iter.pos, ok);
      if !ok {
        return false;
      }
      any := iter.Next();
    }
    AllWritten(fields, m, a, stream.View());
    return true;
  }

  /** pb_encode_submessage: the length first, then the message in a substream of exactly that length.
      The second pass never disagrees with the first. */
  method EncodeSubmessage(stream: OStream, fields: seq<Field>, m: Message) returns (ok: bool, sizeChanged: bool)
    requires stream.Valid() && WellFormed(fields) && Addressable(fields, m) && Below64(MessageBytes(fields, m, 0))
    modifies stream, stream.buf
    ensures Appended(old(stream.View()), stream.View(), ok, match MessageBytes(fields, m, 0) case None => None case Some(b) => Some(PutString(b)))
    ensures !sizeChanged
    decreases fields, 2
  {
    hide Appended, MessageBytes;
    sizeChanged := false;
    ghost var a := stream.View();
    ghost var data := MessageBytes(fields, m, 0);
    Nothing(a);
    var size;
    ok, size := GetEncodedSize(fields, m);
    if !ok {
      FailsLater(a, a, Some([]));
      return;
    }
    ghost var head := Some(PutVarint(size));
    ok := EncodeVarint(stream, size);
    ghost var b := stream.View();
    if !ok {
      StuckAt(a, b, head, data);
      return;
    }
    if !stream.writing {
      ok := stream.Write([], size);
      Counted(b, stream.View(), data);
    } else if stream.bytesWritten + size > stream.maxSize {
      ok := false;
      NoRoom(b, data);
    } else {
      ok, sizeChanged := EncodeNested(stream, fields, m, size);
    }
    Then(a, b, stream.View(), head, ok, data);
  }

  lemma NoRoom(a: Snapshot, e: Encoding)
    requires Sound(a) && a.writing && e.Some? && a.bytesWritten + |e.value| > a.maxSize
    ensures Appended(a, a, false, e)
  {
  }

  /** The writing pass. */
  method EncodeNested(stream: OStream, fields: seq<Field>, m: Message, size: nat) returns (ok: bool, sizeChanged: bool)
    requires stream.Valid() && WellFormed(fields) && Addressable(fields, m)
    requires stream.writing && stream.bytesWritten + size <= stream.maxSize
    requires MessageBytes(fields, m, 0).Some? && |MessageBytes(fields, m, 0).value| == size
    modifies stream, stream.buf
    ensures Appended(old(stream.View()), stream.View(), ok, MessageBytes(fields, m, 0)) && !sizeChanged
    decreases fields, 1
  {
    var substream := new OStream.Substream(stream, size);
    ok := EncodeMessage(substream, fields, m);
    stream.bytesWritten := stream.bytesWritten + substream.bytesWritten;
    stream.state := substream.state;
    sizeChanged := substream.bytesWritten != size;
    if sizeChanged {
      ok := false;
    }
  }

  /** pb_get_encoded_size: the number of bytes that pb_encode writes given room enough. */
  method GetEncodedSize(fields: seq<Field>, m: Message) returns (ok: bool, size: nat)
    requires WellFormed(fields) && Addressable(fields, m)
    ensures ok <==> MessageBytes(fields, m, 0).Some?
    ensures ok ==> size == |MessageBytes(fields, m, 0).value|
    decreases fields, 1
  {
    var stream := new OStream.Sizing();
    ok := EncodeMessage(stream, fields, m);
    size := stream.bytesWritten;
  }

  /** pb_encode_nullterminated: the message and a zero byte. */
  method EncodeNullTerminated(stream: OStream, fields: seq<Field>, m: Message) returns (ok: bool)
    requires stream.Valid() && WellFormed(fields) && Addressable(fields, m)
    modifies stream, stream.buf
    ensures Appended(old(stream.View()), stream.View(), ok, Join(MessageBytes(fields, m, 0), Some([0])))
  {
    hide Appended, MessageBytes;
    ghost var a := stream.View();
    ok := EncodeMessage(stream, fields, m);
    ghost var b := stream.View();
    if !ok {
      StuckAt(a, b, MessageBytes(fields, m, 0), Some([0]));
      return;
    }
    ok := stream.Write([0], 1);
    Then(a, b, stream.View(), MessageBytes(fields, m, 0), ok, Some([0]));
  }
}
