/** The bytes of scalars, fields and arrays, spelled out as numbers (the sections "Encoding", "Signed Integers",
    "Non-varint Numbers", "Length-Delimited Records" and "Repeated Elements" of the Protocol Buffers encoding
    document), and what the decoder makes of any number it meets. */
module PbLayout {
  import opened Common
  import opened Coding
  import opened Wire
  import opened PbMessage
  import opened PbEncode
  import opened PbDecode

  // ---- Scalars -------------------------------------------------------------

  /** A bool is 0 or 1; integers go as they are, negative ones as their complement on 64 bits; only the sint types
      fold the sign; the fixed types are little-endian words. */
  lemma ScalarNumber(f: Field, i: int)
    requires Packable(f) && InRangeValue(f, VInt(i))
    ensures f.ltype.Bool? ==> ScalarBytes(f, VInt(i)) == Some(if i == 0 then [0] else [1])
    ensures f.ltype.Varint? ==> ScalarBytes(f, VInt(i)) == Some(PutVarint(if i >= 0 then i else i + TWO64))
    ensures f.ltype.Uvarint? ==> ScalarBytes(f, VInt(i)) == Some(PutVarint(i))
    ensures f.ltype.Svarint? ==> ScalarBytes(f, VInt(i)) == Some(PutVarint(if i >= 0 then 2 * i else -2 * i - 1))
    ensures f.ltype.Fixed32? ==> ScalarBytes(f, VInt(i)) == Some([i % 256, i / 0x100 % 256, i / 0x1_0000 % 256, i / 0x100_0000 % 256])
    ensures f.ltype.Fixed64? ==>
              ScalarBytes(f, VInt(i)) == Some([i % 256, i / 0x100 % 256, i / 0x1_0000 % 256, i / 0x100_0000 % 256, i / 0x1_0000_0000 % 256,
                                               i / 0x100_0000_0000 % 256, i / 0x1_0000_0000_0000 % 256, i / 0x100_0000_0000_0000 % 256])
  {
    hide ZigZag, PutFixed;
    if f.ltype.Svarint? {
      ZigZagIs(i);
    } else if f.ltype.Fixed32? || f.ltype.Fixed64? {
      FixedBytes(i);
    }
  }

  /** The smallest number that a signed integer of the size cannot hold. */
  function SignedLimit(size: nat): int {
    if size == 1 then 0x80 else if size == 2 then 0x8000 else if size == 4 then TWO31 else TWO63
  }

  function UnsignedLimit(size: nat): int {
    if size == 1 then 0x100 else if size == 2 then 0x1_0000 else if size == 4 then TWO32 else TWO64
  }

  /** The signed number whose complement on 32 or 64 bits has the low bits of n. */
  lemma FromComplement(n: nat)
    requires n < TWO64
    ensures ToSigned(n, TWO64) == if n < TWO63 then n else n - TWO64
    ensures ToSigned(n, TWO32) == if n % TWO32 < TWO31 then n % TWO32 else n % TWO32 - TWO32
  {
  }

  /** What each varint type makes of a number: an int of at most 32 bits is what the low 32 bits stand for, and must
      fit its size; nothing else is cut. */
  lemma ScalarFromNumber(f: Field, n: nat, t: seq<Byte>)
    requires n < TWO64
    ensures f.ltype.Bool? && n < TWO32 ==> ReadScalar(f, PutVarint(n) + t) == Parsed(VInt(if n == 0 then 0 else 1), |PutVarint(n)|)
    ensures f.ltype.Varint? ==>
              var i := if f.dataSize == 8 then (if n < TWO63 then n else n - TWO64)
                       else if n % TWO32 < TWO31 then n % TWO32 else n % TWO32 - TWO32;
              ReadScalar(f, PutVarint(n) + t) ==
                if IntegerSize(f.dataSize) && -SignedLimit(f.dataSize) <= i < SignedLimit(f.dataSize) then Parsed(VInt(i), |PutVarint(n)|) else Malformed
    ensures f.ltype.Uvarint? ==>
              ReadScalar(f, PutVarint(n) + t) ==
                if IntegerSize(f.dataSize) && n < UnsignedLimit(f.dataSize) then Parsed(VInt(n), |PutVarint(n)|) else Malformed
    ensures f.ltype.Svarint? ==>
              var i := if n % 2 == 0 then n / 2 else -(n + 1) / 2;
              ReadScalar(f, PutVarint(n) + t) ==
                if IntegerSize(f.dataSize) && -SignedLimit(f.dataSize) <= i < SignedLimit(f.dataSize) then Parsed(VInt(i), |PutVarint(n)|) else Malformed
  {
    hide ReadVarint, ReadVarint32, PutVarint, UnZigZag, ToSigned;
    if f.ltype.Bool? {
      if n < TWO32 { ReadPutVarint32(n, t); }
    } else {
      ReadPutVarint(n, t);
      FromComplement(n);
      UnZigZagIs(n);
    }
  }

  /** A bool of more than 32 bits is refused, unless it is a negative number. */
  lemma LargeBoolFails(f: Field, n: nat, t: seq<Byte>)
    requires f.ltype.Bool? && TWO32 <= n < TWO63
    ensures ReadScalar(f, PutVarint(n) + t).Malformed?
  {
    ReadVarint32OfLarge(n, t);
  }

  /** The fixed types are little-endian words, and need all of their bytes. */
  lemma FixedFromBytes(f: Field, s: seq<Byte>)
    ensures f.ltype.Fixed32? ==>
              ReadScalar(f, s) == if |s| < 4 then Malformed else Parsed(VInt(s[0] + 0x100 * (s[1] as int) + 0x1_0000 * (s[2] as int) + 0x100_0000 * (s[3] as int)), 4)
    ensures f.ltype.Fixed64? ==>
              ReadScalar(f, s) == if |s| < 8 then Malformed
                                  else Parsed(VInt(s[0] + 0x100 * (s[1] as int) + 0x1_0000 * (s[2] as int) + 0x100_0000 * (s[3] as int) + 0x1_0000_0000 * (s[4] as int)
                                                   + 0x100_0000_0000 * (s[5] as int) + 0x1_0000_0000_0000 * (s[6] as int) + 0x100_0000_0000_0000 * (s[7] as int)), 8)
  {
    hide DecodeFixed;
    if |s| >= 4 {
      DecodeFour(s[..4]);
    }
    if |s| >= 8 {
      DecodeFour(s[..8][4..]);
      DecodeEight(s[..8]);
    }
  }

  lemma DecodeFour(s: seq<Byte>)
    requires |s| == 4
    ensures DecodeFixed(s) == s[0] + 0x100 * (s[1] as int) + 0x1_0000 * (s[2] as int) + 0x100_0000 * (s[3] as int)
  {
    assert DecodeFixed(s[1..]) == s[1] + 0x100 * (s[2] as int) + 0x1_0000 * (s[3] as int) by {
      assert DecodeFixed(s[1..][1..]) == s[2] + 0x100 * (s[3] as int) by {
        assert DecodeFixed(s[1..][1..][1..]) == s[3];
      }
    }
  }

  lemma DecodeEight(s: seq<Byte>)
    requires |s| == 8
    ensures DecodeFixed(s) == s[0] + 0x100 * (s[1] as int) + 0x1_0000 * (s[2] as int) + 0x100_0000 * (s[3] as int) + 0x1_0000_0000 * DecodeFixed(s[4..])
  {
    assert s[1..][1..] == s[2..] && s[2..][1..] == s[3..] && s[3..][1..] == s[4..];
    assert DecodeFixed(s[3..]) == s[3] + 256 * DecodeFixed(s[4..]);
    assert DecodeFixed(s[2..]) == s[2] + 256 * DecodeFixed(s[3..]);
    assert DecodeFixed(s[1..]) == s[1] + 256 * DecodeFixed(s[2..]);
  }

  // ---- Length-delimited values ---------------------------------------------

  /** Bytes, the characters of a string without its terminator, a fixed number of bytes, and nested messages all
      go behind their length. */
  lemma DelimitedBytes(f: Field, v: Value)
    requires !Packable(f) && InRangeValue(f, v)
    ensures f.ltype.Bytes? || f.ltype.FixedLengthBytes? ==> ValueBytes(f, v) == Some(PutString(AsBytes(v)))
    ensures f.ltype.String? ==> exists n :: 0 <= n <= |AsBytes(v)| && ValueBytes(f, v) == Some(PutString(AsBytes(v)[..n]))
                                           && 0 !in AsBytes(v)[..n] && (n < |AsBytes(v)| ==> AsBytes(v)[n] == 0)
    ensures f.ltype.Submessage? ==> var e := MessageBytes(f.ltype.fields, AsMessage(v), 0);
                                    ValueBytes(f, v) == if e.None? then None else Some(PutString(e.value))
  {
    hide CString, PutString, MessageBytes;
    if f.ltype.String? {
      var c := CString(AsBytes(v), f.dataSize);
      assert c == AsBytes(v)[..|c|];
    } else if f.ltype.FixedLengthBytes? {
      assert AsBytes(v)[..f.dataSize] == AsBytes(v);
    }
  }

  /** Bytes and strings are accepted exactly if they fit their memory, a string with a terminator; a fixed number of
      bytes must be met, and nothing stands for zeros. */
  lemma DelimitedFits(f: Field, b: seq<Byte>, t: seq<Byte>, base: Value)
    requires |b| < TWO32
    ensures var r, all := ReadValue(f, PutString(b) + t, base), Parsed(VBytes(b), |PutString(b)|);
            && (f.ltype.Bytes? ==> r == if |b| + 4 <= f.dataSize then all else Malformed)
            && (f.ltype.String? ==> r == if |b| < f.dataSize then all else Malformed)
            && (f.ltype.FixedLengthBytes? && b != [] ==> r == if |b| == f.dataSize then all else Malformed)
            && (f.ltype.FixedLengthBytes? && b == [] ==>
                  && r.Parsed? && r.used == |PutString(b)| && |AsBytes(r.value)| == f.dataSize
                  && forall i :: 0 <= i < f.dataSize ==> AsBytes(r.value)[i] == 0)
  {
    hide ReadString, PutString;
    ReadPutString(b, t);
  }

  // ---- Fields --------------------------------------------------------------

  /** The key in front of a field: its number, and how its type is sent. */
  lemma FieldKey(f: Field)
    ensures TagFor(f) == PutVarint(8 * f.tag + (if f.ltype.Fixed32? then 5 else if f.ltype.Fixed64? then 1 else if Packable(f) then 0 else 2))
  {
  }

  /** A singular field is a key and a value, or left out: never if it is required, without its flag if it has one, with
      another member in its union, and otherwise if it is zero or empty. A nested message without a flag is left
      out exactly if its own encoding is empty. */
  lemma SingularLayout(f: Field, slot: Slot)
    requires WellFormedField(f) && !f.htype.Repeated? && InRangeSlot(f, slot)
    ensures var v := ValueOf(slot);
            var out := if f.htype.Required? then false
                       else if f.htype.OneOf? then WhichOf(slot) != f.tag
                       else if f.sizeOffset != 0 then !HasOf(slot)
                       else if f.ltype.Submessage? then MessageBytes(f.ltype.fields, AsMessage(v), 0) == Some([])
                       else if f.ltype.Bytes? then AsBytes(v) == []
                       else if f.ltype.String? then AsBytes(v) == [] || AsBytes(v)[0] == 0
                       else Packable(f) && AsInt(v) == 0;
            FieldBytes(f, slot) == if out then Some([]) else if ValueBytes(f, v).None? then None else Some(TagFor(f) + ValueBytes(f, v).value)
  {
    hide MessageBytes, ValueBytes, IsZero;
    if ImplicitPresence(f) {
      WhatIsZero(f, ValueOf(slot));
    }
  }

  lemma WhatIsZero(f: Field, v: Value)
    requires WellFormedField(f) && InRangeValue(f, v)
    ensures f.ltype.Submessage? ==> (IsZero(f, v) <==> MessageBytes(f.ltype.fields, AsMessage(v), 0) == Some([]))
    ensures f.ltype.Bytes? ==> (IsZero(f, v) <==> AsBytes(v) == [])
    ensures f.ltype.String? ==> (IsZero(f, v) <==> AsBytes(v) == [] || AsBytes(v)[0] == 0)
    ensures f.ltype.FixedLengthBytes? ==> !IsZero(f, v)
    ensures Packable(f) ==> (IsZero(f, v) <==> AsInt(v) == 0)
  {
    hide MessageBytes, AllDefault, CString;
    if f.ltype.Submessage? {
      NothingIsEmpty(f.ltype.fields, AsMessage(v), 0);
    } else if f.ltype.String? {
      EmptyString(AsBytes(v));
    }
  }

  lemma EmptyString(b: seq<Byte>)
    ensures CString(b, 1) == [] <==> b == [] || b[0] == 0
  {
  }

  /** An array is left out if it has a count that is zero. A packable one goes as one length-delimited field of all its
      items, any other item by item, each with a key. */
  lemma ArrayLayout(f: Field, slot: Slot)
    requires WellFormedField(f) && f.htype.Repeated? && InRangeSlot(f, slot)
    ensures var items := ItemsOf(slot);
            FieldBytes(f, slot) ==
              if items == [] then Some([])
              else if Packable(f) then
                (if PackedBytes(f, items).None? then None else Some(PutVarint(8 * f.tag + 2) + PutString(PackedBytes(f, items).value)))
              else UnpackedBytes(f, items)
  {
    hide PackedBytes, UnpackedBytes, PutString;
  }

  /** The items follow each other without anything in between. */
  lemma {:induction false} ItemsInOrder(f: Field, a: seq<Value>, b: seq<Value>)
    ensures Packable(f) ==> PackedBytes(f, a + b) == Join(PackedBytes(f, a), PackedBytes(f, b))
    ensures UnpackedBytes(f, a + b) == Join(UnpackedBytes(f, a), UnpackedBytes(f, b))
    decreases |a|
  {
    hide ScalarBytes, ValueBytes;
    if a == [] {
      assert a + b == b;
      JoinEmpty(UnpackedBytes(f, b));
      if Packable(f) { JoinEmpty(PackedBytes(f, b)); }
    } else {
      ItemsInOrder(f, a[1..], b);
      assert (a + b)[1..] == a[1..] + b;
      JoinAssociates(TaggedBytes(f, a[0]), UnpackedBytes(f, a[1..]), UnpackedBytes(f, b));
      if Packable(f) { JoinAssociates(ScalarBytes(f, a[0]), PackedBytes(f, a[1..]), PackedBytes(f, b)); }
    }
  }

  lemma OneItem(f: Field, v: Value)
    ensures Packable(f) ==> PackedBytes(f, [v]) == ScalarBytes(f, v)
    ensures UnpackedBytes(f, [v]) == if ValueBytes(f, v).None? then None else Some(TagFor(f) + ValueBytes(f, v).value)
  {
    hide ScalarBytes, ValueBytes;
    JoinEmpty(TaggedBytes(f, v));
    if Packable(f) { JoinEmpty(ScalarBytes(f, v)); }
    assert [v][1..] == [];
  }

  // ---- Messages ------------------------------------------------------------

  /** How many bytes the first n fields take. */
  function BytesBefore(fields: seq<Field>, m: Message, n: nat): nat
    requires n <= |fields|
  {
    if n == 0 then 0
    else BytesBefore(fields, m, n - 1) + match FieldBytes(fields[n - 1], Get(m, Address(fields, n - 1))) case None => 0 case Some(b) => |b|
  }

  lemma {:induction false} RestOfFields(fields: seq<Field>, m: Message, i: nat)
    requires i <= |fields| && MessageBytes(fields, m, 0).Some?
    ensures var all, at := MessageBytes(fields, m, 0).value, BytesBefore(fields, m, i);
            at <= |all| && MessageBytes(fields, m, i) == Some(all[at..])
  {
    hide FieldBytes;
    if i > 0 {
      RestOfFields(fields, m, i - 1);
      var f := FieldBytes(fields[i - 1], Get(m, Address(fields, i - 1)));
      var rest := MessageBytes(fields, m, i);
      assert MessageBytes(fields, m, i - 1) == Join(f, rest);
      assert (f.value + rest.value)[|f.value|..] == rest.value;
    }
  }

  /** The fields are sent in the order of their descriptors, each whole, and nothing in between. */
  lemma FieldsInOrder(fields: seq<Field>, m: Message, i: nat)
    requires i < |fields| && MessageBytes(fields, m, 0).Some?
    ensures var all, f, at := MessageBytes(fields, m, 0).value, FieldBytes(fields[i], Get(m, Address(fields, i))), BytesBefore(fields, m, i);
            && |all| == BytesBefore(fields, m, |fields|)
            && f.Some? && at + |f.value| <= |all| && all[at..at + |f.value|] == f.value
  {
    hide FieldBytes, BytesBefore;
    RestOfFields(fields, m, i);
    RestOfFields(fields, m, |fields|);
  }

  // ---- Empty encodings -----------------------------------------------------

  /** A field takes no bytes exactly if it is default, or another member of its union is set. */
  lemma {:induction false} NoBytes(f: Field, slot: Slot)
    requires WellFormedField(f) && InRangeSlot(f, slot)
    ensures FieldBytes(f, slot) == Some([]) <==> IsDefault(f, slot) || (f.htype.OneOf? && WhichOf(slot) != f.tag)
  {
    hide ValueBytes, PackedBytes, IsZero;
    if f.htype.Repeated? && !Packable(f) && ItemsToSend(f, slot) != [] {
      var items := ItemsToSend(f, slot);
      assert UnpackedBytes(f, items) == Join(TaggedBytes(f, items[0]), UnpackedBytes(f, items[1..]));
    }
  }

  /** A message is all default exactly if it has no bytes. */
  lemma NothingIsEmpty(fields: seq<Field>, m: Message, i: nat)
    requires WellFormed(fields) && InRange(fields, m) && i == 0
    ensures AllDefault(fields, m, 0) <==> MessageBytes(fields, m, 0) == Some([])
  {
    hide FieldBytes, IsDefault, InRangeSlot, WellFormedField;
    if MessageBytes(fields, m, 0) == Some([]) {
      forall j | 0 <= j < |fields| ensures IsDefault(fields[j], Get(m, Address(fields, j))) {
        NoBytesAt(fields, m, 0, j);
        UnionHasBytes(fields, m, j);
      }
      DefaultFrom(fields, m, 0);
    } else if AllDefault(fields, m, 0) {
      DefaultHasNoBytes(fields, m, 0);
    }
  }

  lemma {:induction false} NoBytesAt(fields: seq<Field>, m: Message, i: nat, j: nat)
    requires i <= j < |fields| && MessageBytes(fields, m, i) == Some([])
    ensures FieldBytes(fields[j], Get(m, Address(fields, j))) == Some([])
    decreases j - i
  {
    hide FieldBytes;
    if i < j {
      NoBytesAt(fields, m, i + 1, j);
    }
  }

  /** A field of an empty message is default: of a union that has a member, that member would have bytes. */
  lemma UnionHasBytes(fields: seq<Field>, m: Message, j: nat)
    requires WellFormed(fields) && InRange(fields, m) && MessageBytes(fields, m, 0) == Some([]) && j < |fields|
    requires FieldBytes(fields[j], Get(m, Address(fields, j))) == Some([])
    ensures IsDefault(fields[j], Get(m, Address(fields, j)))
  {
    hide FieldBytes, IsDefault, WellFormedField, InRangeSlot, MessageBytes;
    var slot := Get(m, Address(fields, j));
    NoBytes(fields[j], slot);
    if fields[j].htype.OneOf? {
      DefaultUnion(fields[j], slot);
      if WhichOf(slot) != 0 {
        var n :| 0 <= n < |fields| && NamesMember(fields, j, n, WhichOf(slot));
        NoBytesAt(fields, m, 0, n);
        NoBytes(fields[n], slot);
        DefaultUnion(fields[n], slot);
        assert false;
      }
    }
  }

  lemma DefaultUnion(f: Field, slot: Slot)
    requires f.htype.OneOf?
    ensures IsDefault(f, slot) <==> WhichOf(slot) == 0
  {
  }

  lemma {:induction false} DefaultFrom(fields: seq<Field>, m: Message, i: nat)
    requires i <= |fields| && forall j :: i <= j < |fields| ==> IsDefault(fields[j], Get(m, Address(fields, j)))
    ensures AllDefault(fields, m, i)
    decreases |fields| - i
  {
    hide IsDefault;
    if i < |fields| {
      DefaultFrom(fields, m, i + 1);
    }
  }

  lemma {:induction false} DefaultHasNoBytes(fields: seq<Field>, m: Message, i: nat)
    requires WellFormed(fields) && InRange(fields, m) && i <= |fields| && AllDefault(fields, m, i)
    ensures MessageBytes(fields, m, i) == Some([])
    decreases |fields| - i
  {
    hide FieldBytes, IsDefault, InRangeSlot, WellFormedField;
    if i < |fields| {
      NoBytes(fields[i], Get(m, Address(fields, i)));
      DefaultHasNoBytes(fields, m, i + 1);
    }
  }
}
