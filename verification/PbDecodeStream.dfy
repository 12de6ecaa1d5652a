/** The decoder at work (pb_decode.c): it reads a buffer byte by byte through streams and substreams.
    Every method takes exactly the bytes and returns exactly the value that Wire and PbDecode assign to
    what is in front of it, and never looks past the end of its stream. */
module PbDecodeStream {
  import opened Common
  import opened Coding
  import opened Wire
  import opened PbMessage
  import opened PbDecode
  import opened PbFieldIter
  import opened PbRequired

  /** Where a stream stands. */
  datatype Cursor = Cursor(state: nat, bytesLeft: nat)

  /** From a to b a call took exactly n bytes, or failed somewhere within the stream. */
  ghost predicate Took(a: Cursor, b: Cursor, ok: bool, n: nat) {
    && a.state <= b.state && b.state + b.bytesLeft <= a.state + a.bytesLeft
    && (ok ==> n <= a.bytesLeft && b == Cursor(a.state + n, a.bytesLeft - n))
  }

  class IStream {
    const buf: seq<Byte>
    var state: nat
    var bytesLeft: nat

    ghost predicate Valid()
      reads this
    {
      state + bytesLeft <= |buf|
    }

    ghost function At(): Cursor
      reads this
    {
      Cursor(state, bytesLeft)
    }

    /** What is still to be read. */
    ghost function Rest(): (s: seq<Byte>)
      requires Valid()
      reads this
      ensures |s| == bytesLeft
    {
      buf[state..state + bytesLeft]
    }

    constructor FromBuffer(buf: seq<Byte>)
      ensures Valid() && this.buf == buf && Rest() == buf
    {
      this.buf, state, bytesLeft := buf, 0, |buf|;
    }

    constructor Copy(other: IStream)
      requires other.Valid()
      ensures Valid() && buf == other.buf && At() == other.At()
    {
      buf, state, bytesLeft := other.buf, other.state, other.bytesLeft;
    }

    method Read(count: nat) returns (ok: bool, data: seq<Byte>)
      requires Valid()
      modifies this
      ensures Valid() && Took(old(At()), At(), ok, count)
      ensures ok <==> count <= old(bytesLeft)
      ensures ok ==> data == old(Rest())[..count] && Rest() == old(Rest())[count..]
    {
      if count == 0 {
        return true, [];
      }
      if bytesLeft < count {
        return false, [];
      }
      data := buf[state..state + count];
      state := state + count;
      bytesLeft := bytesLeft - count;
      return true, data;
    }

    method ReadByte() returns (ok: bool, byte: Byte)
      requires Valid()
      modifies this
      ensures Valid() && Took(old(At()), At(), ok, 1)
      ensures ok <==> old(bytesLeft) > 0
      ensures ok ==> byte == old(Rest())[0] && Rest() == old(Rest())[1..]
    {
      if bytesLeft == 0 {
        return false, 0;
      }
      byte := buf[state];
      state := state + 1;
      bytesLeft := bytesLeft - 1;
      return true, byte;
    }
  }

  // ---- Varints -------------------------------------------------------------

  lemma {:induction false} RawAppend(s: seq<Byte>, b: Byte)
    ensures RawVarint(s + [b]) == RawVarint(s) + b % 128 * Pow128(|s|)
  {
    if s == [] {
      assert s + [b] == [b];
    } else {
      RawAppend(s[1..], b);
      assert (s + [b])[1..] == s[1..] + [b];
      assert 128 * (b % 128 * Pow128(|s| - 1)) == b % 128 * Pow128(|s|);
    }
  }

  lemma AddMod(a: nat, b: nat, m: nat)
    requires m > 0
    ensures (a % m + b) % m == (a + b) % m
  {
    var q := a / m;
    assert a == m * q + a % m;
    ModShift(a % m + b, q, m);
  }

  lemma ModShift(x: nat, q: nat, m: nat)
    requires m > 0
    ensures (x + m * q) % m == x % m
  {
    var p := x / m;
    assert x + m * q == m * (p + q) + x % m;
    DivUnique(x + m * q, m, p + q, x % m);
  }

  /** From the sixth byte on nothing reaches the low 32 bits. */
  lemma {:induction false} LowBits(s: seq<Byte>, i: nat)
    requires 5 <= i <= |s|
    ensures RawVarint(s[..i]) % TWO32 == RawVarint(s[..5]) % TWO32
    decreases i
  {
    hide RawVarint, Pow128;
    if i > 5 {
      LowBits(s, i - 1);
      RawAppend(s[..i - 1], s[i - 1]);
      assert s[..i - 1] + [s[i - 1]] == s[..i];
      HighDigit(s[i - 1] % 128, i - 1);
      ModShift(RawVarint(s[..i - 1]), s[i - 1] % 128 * (8 * Pow128(i - 6)), TWO32);
    }
  }

  lemma HighDigit(d: nat, i: nat)
    requires i >= 5
    ensures d * Pow128(i) == TWO32 * (d * (8 * Pow128(i - 5)))
  {
    HighPower(i);
    Exchange(d, TWO32, 8 * Pow128(i - 5));
  }

  lemma Exchange(a: nat, b: nat, c: nat)
    ensures a * (b * c) == b * (a * c)
  {
  }

  lemma {:induction false} HighPower(i: nat)
    requires i >= 5
    ensures Pow128(i) == 8 * TWO32 * Pow128(i - 5)
  {
    Powers();
    if i > 5 {
      HighPower(i - 1);
    }
  }

  /** pb_decode_varint: up to ten bytes. No bit is set twice, so that or is addition. */
  method DecodeVarint(stream: IStream) returns (ok: bool, value: nat)
    requires stream.Valid()
    modifies stream
    ensures stream.Valid() && ok == ReadVarint(old(stream.Rest())).Parsed?
    ensures ok ==> value == ReadVarint(old(stream.Rest())).value
    ensures Took(old(stream.At()), stream.At(), ok, if ok then ReadVarint(old(stream.Rest())).used else 0)
    ensures ok ==> stream.Rest() == old(stream.Rest())[ReadVarint(old(stream.Rest())).used..]
  {
    hide RawVarint, VarintLength, Pow128;
    ghost var s := stream.Rest();
    var bitpos := 0;
    NoDigits(s);
    ghost var i := 0;
    value := 0;
    var more := true;
    while more
      invariant stream.Valid() && i <= |s| && bitpos == 7 * i && i <= 10
      invariant Took(old(stream.At()), stream.At(), true, i) && stream.Rest() == s[i..]
      invariant value == RawVarint(s[..i]) % TWO64
      invariant forall k :: 0 <= k < (if more then i else i - 1) ==> s[k] >= 128
      invariant !more ==> i > 0 && s[i - 1] < 128
      decreases more, |s| - i
    {
      if bitpos >= 64 {
        TooLong(s, i);
        return false, 0;
      }
      var byte;
      ok, byte := stream.ReadByte();
      if !ok {
        NoVarint(s);
        return false, 0;
      }
      AppendDigit(s, i, TWO64);
      value := (value + byte % 128 * Pow128(bitpos / 7)) % TWO64;
      bitpos := bitpos + 7;
      i := i + 1;
      more := byte >= 128;
    }
    VarintLengthIs(s, i);
    return true, value;
  }

  lemma NoDigits(s: seq<Byte>)
    ensures RawVarint(s[..0]) == 0
  {
  }

  lemma AppendDigit(s: seq<Byte>, i: nat, m: nat)
    requires i < |s| && m > 0
    ensures (RawVarint(s[..i]) % m + s[i] % 128 * Pow128(i)) % m == RawVarint(s[..i + 1]) % m
  {
    RawAppend(s[..i], s[i]);
    assert s[..i] + [s[i]] == s[..i + 1];
    AddMod(RawVarint(s[..i]), s[i] % 128 * Pow128(i), m);
  }

  lemma TooLong(s: seq<Byte>, n: nat)
    requires n <= |s| && forall k :: 0 <= k < n ==> s[k] >= 128
    ensures VarintLength(s) == 0 || VarintLength(s) > n
  {
    if VarintLength(s) > 0 {
      VarintLengthEnds(s);
    }
  }

  /** The bytes at and after the 32nd bit are padding or sign extension of result. */
  predicate HighBytesOk(s: seq<Byte>, i: nat, result: nat)
    requires i <= |s|
  {
    forall k :: 5 <= k < i ==> s[k] % 128 == 0 || (result >= TWO31 && s[k] == if 7 * k < 63 then 0xFF else 0x01)
  }

  /** pb_decode_varint32_eof. */
  method DecodeVarint32(stream: IStream) returns (ok: bool, value: nat, eof: bool)
    requires stream.Valid()
    modifies stream
    ensures stream.Valid() && ok == ReadVarint32(old(stream.Rest())).Parsed?
    ensures ok ==> value == ReadVarint32(old(stream.Rest())).value
    ensures Took(old(stream.At()), stream.At(), ok, if ok then ReadVarint32(old(stream.Rest())).used else 0)
    ensures ok ==> stream.Rest() == old(stream.Rest())[ReadVarint32(old(stream.Rest())).used..]
    ensures eof <==> old(stream.bytesLeft) == 0
  {
    ghost var s := stream.Rest();
    var byte;
    ok, byte := stream.ReadByte();
    eof := !ok && stream.bytesLeft == 0;
    if !ok {
      NoVarint(s);
      return false, 0, eof;
    }
    if byte < 128 {
      OneByte(s);
      return true, byte, eof;
    }
    ok, value := MoreBytes(stream, s, byte);
  }

  lemma OneByte(s: seq<Byte>)
    requires s != [] && s[0] < 128
    ensures ReadVarint32(s) == Parsed(s[0], 1)
  {
    assert s[..1] == [s[0]] && s[..1][1..] == [];
    assert RawVarint(s[..1]) == s[0];
  }

  /** The bytes after the first. */
  method MoreBytes(stream: IStream, ghost s: seq<Byte>, first: Byte) returns (ok: bool, value: nat)
    requires stream.Valid() && s != [] && s[0] == first >= 128 && stream.Rest() == s[1..]
    modifies stream
    ensures stream.Valid() && ok == ReadVarint32(s).Parsed?
    ensures ok ==> value == ReadVarint32(s).value && stream.Rest() == s[ReadVarint32(s).used..]
    ensures Took(old(stream.At()), stream.At(), ok, if ok then ReadVarint32(s).used - 1 else 0)
  {
    hide RawVarint, VarintLength, Pow128, HighBytesOk, ReadVarint32;
    var bitpos, byte, result: nat := 7, first, first % 128;
    ghost var i := 1;
    FirstByte(s);
    NoHighBytes(s, 1, result);
    var more := true;
    while more
      invariant stream.Valid() && 1 <= i <= |s| && bitpos == 7 * i && byte == s[i - 1]
      invariant Took(old(stream.At()), stream.At(), true, i - 1) && stream.Rest() == s[i..]
      invariant result == RawVarint(s[..i]) % TWO32
      invariant forall k :: 0 <= k < (if more then i else i - 1) ==> s[k] >= 128
      invariant !more ==> s[i - 1] < 128 && i > 1
      invariant HighBytesOk(s, i, result)
      decreases more, |s| - i
    {
      ok, byte := stream.ReadByte();
      if !ok {
        NoVarint(s);
        RejectsUnfinished(s);
        return false, 0;
      }
      AppendDigit(s, i, TWO32);
      if bitpos >= 32 {
        LowBits(s, i);
        LowBits(s, i + 1);
        var signExtension := if bitpos < 63 then 0xFF else 0x01;
        if byte % 128 != 0 && (result < TWO31 || byte != signExtension) {
          Overflows(s, i, result);
          return false, 0;
        }
        OneHighByte(s, i, result);
      } else {
        result := (result + byte % 128 * Pow128(bitpos / 7)) % TWO32;
        NoHighBytes(s, i + 1, result);
      }
      bitpos := bitpos + 7;
      i := i + 1;
      more := byte >= 128;
    }
    VarintLengthIs(s, i);
    Accepts(s, i, result);
    if bitpos == 35 && byte / 16 % 8 != 0 {
      return false, 0;
    }
    return true, result;
  }

  lemma NoHighBytes(s: seq<Byte>, i: nat, result: nat)
    requires i <= 5 && i <= |s|
    ensures HighBytesOk(s, i, result)
  {
  }

  lemma OneHighByte(s: seq<Byte>, i: nat, result: nat)
    requires 5 <= i < |s| && HighBytesOk(s, i, result)
    requires s[i] % 128 == 0 || (result >= TWO31 && s[i] == if 7 * i < 63 then 0xFF else 0x01)
    ensures HighBytesOk(s, i + 1, result)
  {
  }

  lemma RejectsUnfinished(s: seq<Byte>)
    requires VarintLength(s) == 0
    ensures ReadVarint32(s).Malformed?
  {
  }

  /** What the loop has checked when it ends, and what is left to check. */
  lemma Accepts(s: seq<Byte>, n: nat, result: nat)
    requires 0 < n <= |s| && VarintLength(s) == n
    requires result == RawVarint(s[..n]) % TWO32 && HighBytesOk(s, n, result)
    ensures ReadVarint32(s) == if n == 5 && s[4] / 16 % 8 != 0 then Malformed else Parsed(result, n)
  {
    hide RawVarint, VarintLength;
  }

  lemma FirstByte(s: seq<Byte>)
    requires s != []
    ensures RawVarint(s[..1]) % TWO32 == s[0] % 128
  {
    assert s[..1] == [s[0]] && s[..1][1..] == [];
  }

  lemma Overflows(s: seq<Byte>, i: nat, result: nat)
    requires 5 <= i < |s| && (forall k :: 0 <= k < i ==> s[k] >= 128)
    requires result == RawVarint(s[..i]) % TWO32
    requires s[i] % 128 != 0 && (result < TWO31 || s[i] != if 7 * i < 63 then 0xFF else 0x01)
    ensures ReadVarint32(s).Malformed?
  {
    hide RawVarint, VarintLength;
    TooLong(s, i);
    var n := VarintLength(s);
    if n > 0 {
      LowBits(s, i);
      LowBits(s, n);
      assert s[..n][i] == s[i];
    }
  }

  // ---- Tags and skipping ---------------------------------------------------

  method SkipVarint(stream: IStream) returns (ok: bool)
    requires stream.Valid()
    modifies stream
    ensures stream.Valid() && ok == (VarintLength(old(stream.Rest())) > 0)
    ensures Took(old(stream.At()), stream.At(), ok, VarintLength(old(stream.Rest())))
    ensures ok ==> stream.Rest() == old(stream.Rest())[VarintLength(old(stream.Rest()))..]
  {
    ghost var s := stream.Rest();
    ghost var i := 0;
    var more := true;
    while more
      invariant stream.Valid() && i <= |s|
      invariant Took(old(stream.At()), stream.At(), true, i) && stream.Rest() == s[i..]
      invariant forall k :: 0 <= k < (if more then i else i - 1) ==> s[k] >= 128
      invariant !more ==> i > 0 && s[i - 1] < 128
      decreases more, |s| - i
    {
      var data;
      ok, data := stream.Read(1);
      if !ok {
        NoVarint(s);
        return false;
      }
      i := i + 1;
      more := data[0] >= 128;
    }
    VarintLengthIs(s, i);
    return true;
  }

  method SkipString(stream: IStream) returns (ok: bool)
    requires stream.Valid()
    modifies stream
    ensures stream.Valid() && ok == ReadString(old(stream.Rest())).Parsed?
    ensures Took(old(stream.At()), stream.At(), ok, if ok then ReadString(old(stream.Rest())).used else 0)
    ensures ok ==> stream.Rest() == old(stream.Rest())[ReadString(old(stream.Rest())).used..]
  {
    hide ReadVarint32;
    var length, eof;
    ok, length, eof := DecodeVarint32(stream);
    if ok {
      var data;
      ok, data := stream.Read(length);
    }
  }

  method DecodeTag(stream: IStream) returns (ok: bool, wireType: WireType, tag: nat, eof: bool)
    requires stream.Valid()
    modifies stream
    ensures var r := ReadTag(old(stream.Rest()));
            && stream.Valid() && ok == r.Tag? && (ok ==> tag == r.number && wireType == r.wireType)
            && (old(stream.bytesLeft) > 0 ==> eof == r.Terminator?)
            && Took(old(stream.At()), stream.At(), !r.BadTag?, if r.BadTag? then 0 else r.used)
            && (!r.BadTag? ==> stream.Rest() == old(stream.Rest())[r.used..])
  {
    hide ReadVarint32;
    var key;
    ok, key, eof := DecodeVarint32(stream);
    wireType, tag := WtVarint, 0;
    if !ok {
      return;
    }
    if key == 0 {
      eof := true;
      ok := false;
      return;
    }
    tag := key / 8;
    wireType := WireTypeOf(key % 8);
  }

  method SkipField(stream: IStream, wireType: WireType) returns (ok: bool)
    requires stream.Valid()
    modifies stream
    ensures stream.Valid() && ok == SkipLength(wireType, old(stream.Rest())).Some?
    ensures Took(old(stream.At()), stream.At(), ok, if ok then SkipLength(wireType, old(stream.Rest())).value else 0)
    ensures ok ==> stream.Rest() == old(stream.Rest())[SkipLength(wireType, old(stream.Rest())).value..]
  {
    hide ReadString, VarintLength;
    var data;
    match wireType
    case WtVarint => ok := SkipVarint(stream);
    case Wt64Bit => ok, data := stream.Read(8);
    case WtString => ok := SkipString(stream);
    case Wt32Bit => ok, data := stream.Read(4);
    case WtInvalid => ok := false;
  }

  // ---- Substreams ----------------------------------------------------------

  /** pb_make_string_substream: the announced bytes go to a stream of their own. The parent is charged
      for them at once, but still stands in front of them. */
  method MakeSubstream(stream: IStream) returns (ok: bool, substream: IStream)
    requires stream.Valid()
    modifies stream
    ensures fresh(substream) && substream.buf == stream.buf && substream.Valid()
    ensures ok == ReadString(old(stream.Rest())).Parsed?
    ensures ok ==> var r := ReadString(old(stream.Rest()));
                   && substream.Rest() == r.value && stream.state == substream.state
                   && stream.state + |r.value| == old(stream.state) + r.used
                   && stream.bytesLeft + r.used == old(stream.bytesLeft)
    ensures stream.state >= old(stream.state) && stream.state + stream.bytesLeft <= old(stream.state + stream.bytesLeft)
  {
    hide ReadVarint32;
    ghost var s := stream.Rest();
    var size, eof;
    ok, size, eof := DecodeVarint32(stream);
    substream := new IStream.Copy(stream);
    if !ok {
      return;
    }
    if substream.bytesLeft < size {
      ok := false;
      return;
    }
    substream.bytesLeft := size;
    stream.bytesLeft := stream.bytesLeft - size;
    ghost var n := ReadVarint32(s).used;
    assert s[n..][..size] == s[n..n + size];
    assert substream.Rest() == s[n..][..size];
  }

  /** pb_close_string_substream: whatever is left of the substream is skipped. */
  method CloseSubstream(stream: IStream, substream: IStream) returns (ok: bool)
    requires substream.Valid() && stream != substream && stream.buf == substream.buf
    requires substream.state + substream.bytesLeft + stream.bytesLeft <= |stream.buf|
    modifies stream, substream
    ensures ok && stream.Valid()
    ensures stream.state == old(substream.state + substream.bytesLeft) && stream.bytesLeft == old(stream.bytesLeft)
  {
    if substream.bytesLeft != 0 {
      var data;
      ok, data := substream.Read(substream.bytesLeft);
      if !ok {
        return false;
      }
    }
    stream.state := substream.state;
    return true;
  }

  // ---- Values --------------------------------------------------------------

  /** The packable types. */
  method DecodeScalar(stream: IStream, f: Field) returns (ok: bool, v: Value)
    requires stream.Valid() && Packable(f)
    modifies stream
    ensures stream.Valid() && ok == ReadScalar(f, old(stream.Rest())).Parsed?
    ensures ok ==> v == ReadScalar(f, old(stream.Rest())).value
    ensures Took(old(stream.At()), stream.At(), ok, if ok then ReadScalar(f, old(stream.Rest())).used else 0)
    ensures ok ==> stream.Rest() == old(stream.Rest())[ReadScalar(f, old(stream.Rest())).used..]
  {
    hide ReadVarint, ReadVarint32, UnZigZag, ToSigned, DecodeFixed;
    var raw, eof, data;
    v := VInt(0);
    if f.ltype.Bool? {
      ok, raw, eof := DecodeVarint32(stream);
      v := VInt(if ok && raw != 0 then 1 else 0);
    } else if f.ltype.Fixed32? {
      ok, data := stream.Read(4);
      if ok { v := VInt(DecodeFixed(data)); }
    } else if f.ltype.Fixed64? {
      ok, data := stream.Read(8);
      if ok { v := VInt(DecodeFixed(data)); }
    } else {
      ok, raw := DecodeVarint(stream);
      if !ok {
        return;
      }
      var value: int;
      if f.ltype.Varint? {
        value := ToSigned(raw, if f.dataSize == 8 then TWO64 else TWO32);
        ok := FitsSigned(value, f.dataSize);
      } else if f.ltype.Uvarint? {
        value := raw;
        ok := FitsUnsigned(value, f.dataSize);
      } else {
        value := UnZigZag(raw);
        ok := FitsSigned(value, f.dataSize);
      }
      v := VInt(value);
    }
  }

  /** Byte arrays, strings and structures. A structure is decoded from a substream on top of base. */
  method DecodeDelimitedValue(stream: IStream, f: Field, base: Value) returns (ok: bool, v: Value)
    requires stream.Valid() && !Packable(f) && WellFormedField(f)
    modifies stream
    ensures stream.Valid() && ok == ReadValue(f, old(stream.Rest()), base).Parsed?
    ensures ok ==> v == ReadValue(f, old(stream.Rest()), base).value
    ensures Took(old(stream.At()), stream.At(), ok, if ok then ReadValue(f, old(stream.Rest()), base).used else 0)
    ensures ok ==> stream.Rest() == old(stream.Rest())[ReadValue(f, old(stream.Rest()), base).used..]
    decreases stream.bytesLeft, 1
  {
    hide ReadString, ReadMessage;
    v := VInt(0);
    if f.ltype.Submessage? {
      var substream, m;
      ok, substream := MakeSubstream(stream);
      if !ok {
        return;
      }
      var fields := f.ltype.fields;
      if f.htype.Repeated? {
        ok, m := Decode(substream, fields);
      } else {
        ok, m := DecodeNoInit(substream, fields, AsMessage(base));
      }
      var closed := CloseSubstream(stream, substream);
      ok := ok && closed;
      v := VMsg(m);
    } else {
      var data;
      ok, data := DecodeBytes(stream, f);
      v := VBytes(data);
    }
  }

  /** pb_dec_bytes, pb_dec_string and pb_dec_fixed_length_bytes. */
  method DecodeBytes(stream: IStream, f: Field) returns (ok: bool, data: seq<Byte>)
    requires stream.Valid() && (f.ltype.Bytes? || f.ltype.String? || f.ltype.FixedLengthBytes?)
    modifies stream
    ensures stream.Valid() && ok == ReadValue(f, old(stream.Rest()), VInt(0)).Parsed?
    ensures ok ==> VBytes(data) == ReadValue(f, old(stream.Rest()), VInt(0)).value
    ensures Took(old(stream.At()), stream.At(), ok, if ok then ReadValue(f, old(stream.Rest()), VInt(0)).used else 0)
    ensures ok ==> stream.Rest() == old(stream.Rest())[ReadValue(f, old(stream.Rest()), VInt(0)).used..]
  {
    hide ReadVarint32;
    ghost var s := stream.Rest();
    var size, eof;
    data := [];
    ok, size, eof := DecodeVarint32(stream);
    if !ok {
      return;
    }
    if f.ltype.FixedLengthBytes? && size == 0 {
      data := Zeros(f.dataSize);
      return;
    }
    var fits := if f.ltype.Bytes? then size + BYTES_OFFSET <= f.dataSize
                else if f.ltype.String? then size + 1 <= f.dataSize else size == f.dataSize;
    if !fits {
      ok := false;
      return;
    }
    ghost var rest := stream.Rest();
    ok, data := stream.Read(size);
    assert ok ==> rest[..size] == ReadString(s).value;
  }

  method DecodeValue(stream: IStream, f: Field, base: Value) returns (ok: bool, v: Value)
    requires stream.Valid() && WellFormedField(f)
    modifies stream
    ensures stream.Valid() && ok == ReadValue(f, old(stream.Rest()), base).Parsed?
    ensures ok ==> v == ReadValue(f, old(stream.Rest()), base).value
    ensures Took(old(stream.At()), stream.At(), ok, if ok then ReadValue(f, old(stream.Rest()), base).used else 0)
    ensures ok ==> stream.Rest() == old(stream.Rest())[ReadValue(f, old(stream.Rest()), base).used..]
    decreases stream.bytesLeft, 2
  {
    hide ReadScalar;
    if Packable(f) {
      ok, v := DecodeScalar(stream, f);
    } else {
      ok, v := DecodeDelimitedValue(stream, f, base);
    }
  }

  // ---- Fields --------------------------------------------------------------

  /** A packed array: items from a substream as long as there is room for them. */
  method DecodePacked(stream: IStream, f: Field, prior: seq<Value>) returns (ok: bool, items: seq<Value>)
    requires stream.Valid() && Packable(f)
    modifies stream
    ensures var r := ReadString(old(stream.Rest()));
            && stream.Valid() && ok == (r.Parsed? && ReadPacked(f, r.value, prior).Some?)
            && (ok ==> items == ReadPacked(f, r.value, prior).value)
            && Took(old(stream.At()), stream.At(), ok, if ok then r.used else 0)
            && (ok ==> stream.Rest() == old(stream.Rest())[r.used..])
  {
    hide ReadString, ReadScalar;
    var substream;
    items := prior;
    ok, substream := MakeSubstream(stream);
    if !ok {
      return;
    }
    ghost var all, parent := ReadPacked(f, substream.Rest(), prior), stream.At();
    var status := true;
    while status && substream.bytesLeft > 0 && |items| < f.arraySize
      invariant substream.Valid() && fresh(substream) && substream.buf == stream.buf && stream.At() == parent
      invariant old(stream.state) <= substream.state
      invariant substream.state + substream.bytesLeft + stream.bytesLeft <= old(stream.state + stream.bytesLeft)
      invariant status ==> all == ReadPacked(f, substream.Rest(), items)
      invariant status ==> substream.state + substream.bytesLeft == old(stream.state) + ReadString(old(stream.Rest())).used
      invariant !status ==> all.None? && substream.bytesLeft >= 0
      decreases status, substream.bytesLeft
    {
      var v;
      status, v := DecodeScalar(substream, f);
      if status {
        items := items + [v];
      }
    }
    if substream.bytesLeft != 0 {
      return false, items;
    }
    var closed := CloseSubstream(stream, substream);
    ok := closed && status;
  }

  /** Further items of an array: packed ones all together, others one at a time. */
  method DecodeRepeated(stream: IStream, f: Field, w: WireType, items: seq<Value>) returns (ok: bool, slot: Slot)
    requires stream.Valid() && WellFormedField(f) && f.htype.Repeated?
    modifies stream
    ensures var r := ReadField(f, w, old(stream.Rest()), Many(items), |items|);
            && stream.Valid() && ok == r.Parsed? && (ok ==> slot == r.value)
            && Took(old(stream.At()), stream.At(), ok, if ok then r.used else 0)
            && (ok ==> stream.Rest() == old(stream.Rest())[r.used..])
    decreases stream.bytesLeft, 3
  {
    hide ReadValue, ReadString, ReadPacked;
    slot := Many(items);
    assert Taken(items, |items|) == items;
    if w == WtString && Packable(f) {
      var all;
      ok, all := DecodePacked(stream, f, items);
      slot := Many(all);
    } else {
      if |items| >= f.arraySize {
        return false, slot;
      }
      var v;
      ok, v := DecodeValue(stream, f, VInt(0));
      slot := Many(items + [v]);
    }
  }

  lemma OnlyItemsCount(f: Field, w: WireType, s: seq<Byte>, slot: Slot, count: nat)
    requires f.htype.Repeated?
    ensures var items := Taken(ItemsOf(slot), count); ReadField(f, w, s, slot, count) == ReadField(f, w, s, Many(items), |items|)
  {
    hide ReadValue, ReadString, ReadPacked;
    var items := Taken(ItemsOf(slot), count);
    assert Taken(items, |items|) == items;
  }

  /** decode_static_field: one occurrence of a field, whose array has count items so far. */
  method DecodeStaticField(stream: IStream, f: Field, w: WireType, slot: Slot, count: nat) returns (ok: bool, slot2: Slot)
    requires stream.Valid() && WellFormedField(f)
    modifies stream
    ensures stream.Valid() && ok == ReadField(f, w, old(stream.Rest()), slot, count).Parsed?
    ensures ok ==> slot2 == ReadField(f, w, old(stream.Rest()), slot, count).value
    ensures Took(old(stream.At()), stream.At(), ok, if ok then ReadField(f, w, old(stream.Rest()), slot, count).used else 0)
    ensures ok ==> stream.Rest() == old(stream.Rest())[ReadField(f, w, old(stream.Rest()), slot, count).used..]
    decreases stream.bytesLeft, 4
  {
    if f.htype.Repeated? {
      OnlyItemsCount(f, w, stream.Rest(), slot, count);
    }
    hide ReadValue, ReadString, ReadPacked;
    slot2 := slot;
    var v;
    match f.htype
    case Required =>
      ok, v := DecodeValue(stream, f, ValueOf(slot));
      slot2 := One(v);
    case Optional =>
      ok, v := DecodeValue(stream, f, ValueOf(slot));
      slot2 := if f.sizeOffset != 0 then Maybe(true, v) else One(v);
    case Repeated => ok, slot2 := DecodeRepeated(stream, f, w, Taken(ItemsOf(slot), count));
    case OneOf =>
      var base := ValueOf(slot);
      if f.ltype.Submessage? && WhichOf(slot) != f.tag {
        base := ZeroValue(f);
      }
      ok, v := DecodeValue(stream, f, base);
      slot2 := Union(f.tag, v);
  }

  // ---- Defaults ------------------------------------------------------------

  method ZeroValue(f: Field) returns (v: Value)
    requires WellFormedField(f)
    ensures v == Zero(f)
    decreases f, 0
  {
    match f.ltype
    case Submessage(fields) =>
      var m := SetToDefaults(fields);
      v := VMsg(m);
    case FixedLengthBytes => v := VBytes(Zeros(f.dataSize));
    case Bytes => v := VBytes([]);
    case String => v := VBytes([]);
    case _ => v := VInt(0);
  }

  /** pb_field_set_to_default. */
  method FieldToDefault(f: Field) returns (slot: Slot)
    requires WellFormedField(f)
    ensures slot == InitialSlot(f)
    decreases f, 1
  {
    match f.htype
    case Repeated => slot := Many([]);
    case OneOf => slot := Union(0, VInt(0));
    case _ =>
      var v;
      if f.ltype.Submessage? || f.default.None? {
        v := ZeroValue(f);
      } else {
        v := f.default.value;
      }
      slot := if f.htype.Optional? && f.sizeOffset != 0 then Maybe(false, v) else One(v);
  }

  /** pb_message_set_to_defaults. */
  method SetToDefaults(fields: seq<Field>) returns (m: Message)
    requires WellFormed(fields)
    ensures m == Defaults(fields, |fields|)
    decreases fields, 0
  {
    m := map[];
    var iter := new FieldIter(fields);
    var any := iter.Begin();
    while any
      invariant iter.Valid() && iter.fields == fields && fresh(iter)
      invariant any ==> iter.pos < |fields| && m == Defaults(fields, iter.pos)
      invariant !any ==> m == Defaults(fields, |fields|)
      decreases any, |fields| - iter.pos
    {
      assert WellFormedField(fields[iter.pos]);
      var slot := FieldToDefault(fields[iter.pos]);
      m := m[iter.pData := slot];
      any := iter.Next();
    }
  }

  // ---- The decoding loop ---------------------------------------------------

  /** Where the decoder keeps the count of an array that has none: outside the message. */
  const COUNTER_ADDRESS: int := -1

  lemma {:induction false} AddressIsNatural(fields: seq<Field>, i: nat)
    requires i < |fields|
    ensures Address(fields, i) >= 0
  {
    if i > 0 {
      AddressIsNatural(fields, i - 1);
    }
  }

  /** The iterator points at its own size, or at the decoder's counter for the current array. */
  ghost predicate SizeKnown(iter: FieldIter, fixedField: Option<nat>)
    requires iter.Valid()
    reads iter
  {
    iter.fields != [] ==> iter.SizeIsOwn() || (fixedField == Some(iter.pos) && iter.pSize != iter.pData)
  }

  /** Where in the descriptor the tag is; the search starts from wherever the iterator stands. */
  method Locate(iter: FieldIter, tag: nat, ghost fixedField: Option<nat>) returns (found: bool)
    requires iter.Valid() && WellFormed(iter.fields) && SizeKnown(iter, fixedField)
    modifies iter
    ensures iter.Valid() && SizeKnown(iter, fixedField)
    ensures FindField(iter.fields, tag) == if found then Some(iter.pos) else None
    ensures found ==> iter.pos < |iter.fields|
  {
    hide WellFormedField;
    if iter.fields == [] {
      return false;
    }
    found := iter.Find(tag);
    if found {
      FindFieldFinds(iter.fields, iter.pos);
    }
  }

  /** Turns to the counter when the field is an array without a count. */
  method BeginField(iter: FieldIter, fixedField: Option<nat>, fixedSize: nat, ghost p: Progress)
      returns (ok: bool, fixedField2: Option<nat>, fixedSize2: nat)
    requires iter.Valid() && iter.pos < |iter.fields| && SizeKnown(iter, fixedField)
    requires p.fixed == fixedField && p.count == fixedSize && (fixedField.Some? ==> fixedField.value < |iter.fields|)
    modifies iter`pSize
    ensures iter.Valid() && SizeKnown(iter, fixedField2)
    ensures ok == Begin(iter.fields, iter.pos, p).Some?
    ensures ok ==> Begin(iter.fields, iter.pos, p) == Some(p.(fixed := fixedField2, count := fixedSize2))
    ensures ok && FixedCount(iter.fields[iter.pos]) ==> fixedField2 == Some(iter.pos)
    ensures fixedField2.Some? ==> fixedField2.value < |iter.fields|
  {
    fixedField2, fixedSize2 := fixedField, fixedSize;
    if iter.fields[iter.pos].htype.Repeated? && iter.pSize == iter.pData {
      if fixedField != Some(iter.pos) {
        if fixedField.Some? && fixedSize != iter.fields[fixedField.value].arraySize {
          return false, fixedField2, fixedSize2;
        }
        fixedField2 := Some(iter.pos);
        fixedSize2 := 0;
      }
      AddressIsNatural(iter.fields, iter.pos);
      iter.pSize := COUNTER_ADDRESS;
    }
    ok := true;
  }

  /** Sets the bit of a required field. */
  method MarkRequired(iter: FieldIter, words: array<nat>, ghost seen: set<nat>)
    requires iter.Valid() && iter.pos < |iter.fields| && words.Length == WORDS && Tracks(iter.fields, words[..], seen)
    modifies words
    ensures Tracks(iter.fields, words[..], if iter.fields[iter.pos].htype.Required? then seen + {iter.pos} else seen)
  {
    if iter.fields[iter.pos].htype.Required? {
      SeeRequired(iter.fields, words[..], seen, iter.pos);
      if iter.requiredFieldIndex < PB_MAX_REQUIRED_FIELDS {
        ghost var before := words[..];
        var w := iter.requiredFieldIndex / 32;
        words[w] := SetBit(words[w], iter.requiredFieldIndex % 32);
        assert words[..] == before[w := words[w]];
      }
    }
  }

  /** The field under the iterator. */
  method DecodeKnown(stream: IStream, iter: FieldIter, words: array<nat>, w: WireType, m: Message,
                     fixedField: Option<nat>, fixedSize: nat, ghost seen: set<nat>)
      returns (ok: bool, m2: Message, fixedField2: Option<nat>, fixedSize2: nat, ghost seen2: set<nat>)
    requires stream.Valid() && iter.Valid() && WellFormed(iter.fields) && iter.pos < |iter.fields| && SizeKnown(iter, fixedField)
    requires words.Length == WORDS && Tracks(iter.fields, words[..], seen)
    requires fixedField.Some? ==> fixedField.value < |iter.fields|
    modifies stream, iter, words
    ensures stream.Valid() && iter.Valid() && SizeKnown(iter, fixedField2) && Tracks(iter.fields, words[..], seen2)
    ensures fixedField2.Some? ==> fixedField2.value < |iter.fields|
    ensures var i, p := old(iter.pos), Progress(m, seen, fixedField, fixedSize);
            var r := ReadKnown(iter.fields, i, w, old(stream.Rest()), p);
            && ok == r.Next? && (ok ==> Progress(m2, seen2, fixedField2, fixedSize2) == r.progress)
            && Took(old(stream.At()), stream.At(), ok, if ok then r.used else 0)
            && (ok ==> stream.Rest() == old(stream.Rest())[r.used..])
    decreases stream.bytesLeft, 5
  {
    hide ReadField, Begin;
    m2, seen2 := m, seen;
    ok, fixedField2, fixedSize2 := BeginField(iter, fixedField, fixedSize, Progress(m, seen, fixedField, fixedSize));
    if !ok {
      return;
    }
    var f, slot := iter.fields[iter.pos], Get(m, iter.pData);
    assert WellFormedField(f);
    MarkRequired(iter, words, seen);
    seen2 := if f.htype.Required? then seen + {iter.pos} else seen;
    var count := if FixedCount(f) then fixedSize2 else |ItemsOf(slot)|;
    ok, slot := DecodeStaticField(stream, f, w, slot, count);
    if !ok {
      return;
    }
    m2 := m[iter.pData := slot];
    if FixedCount(f) {
      fixedSize2 := |ItemsOf(slot)|;
    }
  }

  function ReadKnown(fields: seq<Field>, i: nat, w: WireType, s: seq<Byte>, p: Progress): (r: StepResult)
    requires i < |fields|
    ensures r.Next? ==> 0 < r.used <= |s|
    ensures !r.Stop?
  {
    match Begin(fields, i, p)
    case None => Abort
    case Some(p1) =>
      var slot := Get(p1.m, Address(fields, i));
      match ReadField(fields[i], w, s, slot, CountFor(fields[i], slot, p1))
      case Malformed => Abort
      case Parsed(slot2, n) => Next(WithField(fields, i, p1, slot2), n)
  }

  /** One round of the loop: a tag, then a known field or something to skip. */
  method DecodeRound(stream: IStream, iter: FieldIter, words: array<nat>, m: Message,
                     fixedField: Option<nat>, fixedSize: nat, ghost seen: set<nat>)
      returns (ok: bool, stopped: bool, m2: Message, fixedField2: Option<nat>, fixedSize2: nat, ghost seen2: set<nat>)
    requires stream.Valid() && stream.bytesLeft > 0 && iter.Valid() && WellFormed(iter.fields) && SizeKnown(iter, fixedField)
    requires words.Length == WORDS && Tracks(iter.fields, words[..], seen)
    requires fixedField.Some? ==> fixedField.value < |iter.fields|
    modifies stream, iter, words
    ensures stream.Valid() && iter.Valid() && SizeKnown(iter, fixedField2) && Tracks(iter.fields, words[..], seen2)
    ensures fixedField2.Some? ==> fixedField2.value < |iter.fields|
    ensures var p, p2 := Progress(m, seen, fixedField, fixedSize), Progress(m2, seen2, fixedField2, fixedSize2);
            var r := DecodeStep(iter.fields, old(stream.Rest()), p);
            && ok == !r.Abort? && (ok ==> stopped == r.Stop? && p2 == if stopped then p else r.progress)
            && Took(old(stream.At()), stream.At(), ok, if ok then r.used else 0)
            && (ok ==> stream.Rest() == old(stream.Rest())[r.used..])
    decreases stream.bytesLeft, 6
  {
    hide ReadTag, SkipLength, ReadKnown, FindField;
    m2, fixedField2, fixedSize2, seen2, stopped := m, fixedField, fixedSize, seen, false;
    ghost var s, p := stream.Rest(), Progress(m, seen, fixedField, fixedSize);
    var wireType, tag, eof;
    ok, wireType, tag, eof := DecodeTag(stream);
    if !ok {
      stopped := eof;
      ok := eof;
      return;
    }
    var found := Locate(iter, tag, fixedField);
    StepIs(iter.fields, s, p);
    if !found {
      ok := SkipField(stream, wireType);
    } else {
      ok, m2, fixedField2, fixedSize2, seen2 := DecodeKnown(stream, iter, words, wireType, m, fixedField, fixedSize, seen);
    }
  }

  /** DecodeStep in terms of its parts. */
  lemma StepIs(fields: seq<Field>, s: seq<Byte>, p: Progress)
    requires ReadTag(s).Tag?
    ensures var tag, at := ReadTag(s), FindField(fields, ReadTag(s).number);
            DecodeStep(fields, s, p) ==
              if at.Some? then
                var r := ReadKnown(fields, at.value, tag.wireType, s[tag.used..], p);
                if r.Next? then r.(used := tag.used + r.used) else Abort
              else
                var n := SkipLength(tag.wireType, s[tag.used..]);
                if n.Some? then Next(p, tag.used + n.value) else Abort
  {
    hide ReadField, ReadTag, FindField, SkipLength, Begin;
  }

  /** c bytes of s have led to p, and rest is still to be read, unless a zero tag stopped the loop. */
  ghost predicate Reached(fields: seq<Field>, s: seq<Byte>, m: Message, rest: seq<Byte>, p: Progress, c: nat, stopped: bool) {
    ReadFields(fields, s, Start(m)) == if stopped then Outcome(p, c, true) else Shift(ReadFields(fields, rest, p), c)
  }

  lemma OneRound(fields: seq<Field>, s: seq<Byte>, m: Message, rest: seq<Byte>, p: Progress, c: nat)
    requires Reached(fields, s, m, rest, p, c, false) && rest != []
    ensures var r := DecodeStep(fields, rest, p);
            if r.Abort? then ReadFields(fields, s, Start(m)).Failed?
            else Reached(fields, s, m, rest[r.used..], if r.Stop? then p else r.progress, c + r.used, r.Stop?)
  {
    hide DecodeStep;
  }

  lemma LoopEnds(fields: seq<Field>, s: seq<Byte>, m: Message, rest: seq<Byte>, p: Progress, c: nat, stopped: bool)
    requires Reached(fields, s, m, rest, p, c, stopped) && (stopped || rest == [])
    ensures ReadFields(fields, s, Start(m)) == Outcome(p, c, stopped)
  {
  }

  /** The loop of pb_decode_noinit. */
  method DecodeFields(stream: IStream, iter: FieldIter, words: array<nat>, m: Message)
      returns (ok: bool, out: Message, fixedField: Option<nat>, fixedSize: nat, ghost seen: set<nat>)
    requires stream.Valid() && iter.Valid() && iter.SizeIsOwn() && WellFormed(iter.fields)
    requires words.Length == WORDS && Tracks(iter.fields, words[..], {})
    modifies stream, iter, words
    ensures stream.Valid() && iter.Valid() && Tracks(iter.fields, words[..], seen)
    ensures fixedField.Some? ==> fixedField.value < |iter.fields|
    ensures var o := ReadFields(iter.fields, old(stream.Rest()), Start(m));
            && ok == o.Outcome? && (ok ==> o.progress == Progress(out, seen, fixedField, fixedSize))
            && Took(old(stream.At()), stream.At(), ok, if ok then o.used else 0)
    decreases stream.bytesLeft, 7
  {
    hide ReadFields, DecodeStep, Tracks, Reached, WellFormed;
    ghost var fields, s, at := iter.fields, stream.Rest(), stream.At();
    ghost var c: nat := 0;
    var stopped := false;
    out, fixedField, fixedSize, seen := m, None, 0, {};
    Beginning(fields, s, m);
    while !stopped && stream.bytesLeft > 0
      invariant stream.Valid() && iter.Valid() && SizeKnown(iter, fixedField) && Tracks(fields, words[..], seen)
      invariant fixedField.Some? ==> fixedField.value < |fields|
      invariant Took(at, stream.At(), true, c)
      invariant Reached(fields, s, m, stream.Rest(), Progress(out, seen, fixedField, fixedSize), c, stopped)
      decreases !stopped, stream.bytesLeft
    {
      ghost var left := stream.bytesLeft;
      OneRound(fields, s, m, stream.Rest(), Progress(out, seen, fixedField, fixedSize), c);
      ok, stopped, out, fixedField, fixedSize, seen := DecodeRound(stream, iter, words, out, fixedField, fixedSize, seen);
      if !ok {
        return;
      }
      c := c + (left - stream.bytesLeft);
    }
    LoopEnds(fields, s, m, stream.Rest(), Progress(out, seen, fixedField, fixedSize), c, stopped);
    ok := true;
  }

  /** pb_decode_noinit. */
  method DecodeNoInit(stream: IStream, fields: seq<Field>, m: Message) returns (ok: bool, out: Message)
    requires stream.Valid() && WellFormed(fields)
    modifies stream
    ensures var o := ReadMessage(fields, old(stream.Rest()), m);
            && stream.Valid() && ok == o.Outcome? && (ok ==> out == o.progress.m)
            && Took(old(stream.At()), stream.At(), ok, if ok then o.used else 0)
    decreases stream.bytesLeft, 8
  {
    Agreeing(fields);
    hide ReadFields, AllRequiredSeen, Tracks, WellFormed;
    var iter := new FieldIter(fields);
    var words := new nat[WORDS](_ => 0);
    NothingSeen(fields);
    assert words[..] == [0, 0];
    var fixedField, fixedSize;
    ghost var seen;
    ok, out, fixedField, fixedSize, seen := DecodeFields(stream, iter, words, m);
    if !ok {
      return;
    }
    // All elements of the last array without a count must have come …
    if fixedField.Some? && fixedSize != fields[fixedField.value].arraySize {
      return false, out;
    }
    // … and all required fields.
    ok := CheckRequired(iter, words, seen);
  }

  lemma Agreeing(fields: seq<Field>)
    requires WellFormed(fields)
    ensures UnionsAgree(fields)
  {
  }

  lemma Beginning(fields: seq<Field>, s: seq<Byte>, m: Message)
    ensures Reached(fields, s, m, s, Start(m), 0, false)
  {
    hide ReadFields;
  }

  /** pb_decode. */
  method Decode(stream: IStream, fields: seq<Field>) returns (ok: bool, m: Message)
    requires stream.Valid() && WellFormed(fields)
    modifies stream
    ensures var o := ReadMessage(fields, old(stream.Rest()), Defaults(fields, |fields|));
            && stream.Valid() && ok == o.Outcome? && (ok ==> m == o.progress.m)
            && Took(old(stream.At()), stream.At(), ok, if ok then o.used else 0)
    decreases stream.bytesLeft, 9
  {
    m := SetToDefaults(fields);
    ok, m := DecodeNoInit(stream, fields, m);
  }

  /** pb_decode_delimited: a length, then a message that ends there. Whatever the message decodes to, a
      success has moved the stream by exactly the prefix and the length. */
  method DecodeDelimited(stream: IStream, fields: seq<Field>) returns (ok: bool, m: Message)
    requires stream.Valid() && WellFormed(fields)
    modifies stream
    ensures var r := ReadString(old(stream.Rest()));
            && stream.Valid()
            && ok == (r.Parsed? && ReadMessage(fields, r.value, Defaults(fields, |fields|)).Outcome?)
            && (ok ==> m == ReadMessage(fields, r.value, Defaults(fields, |fields|)).progress.m)
            && Took(old(stream.At()), stream.At(), ok, if ok then r.used else 0)
  {
    hide ReadString, ReadMessage;
    m := map[];
    var substream;
    ok, substream := MakeSubstream(stream);
    if !ok {
      return;
    }
    ok, m := Decode(substream, fields);
    var closed := CloseSubstream(stream, substream);
    ok := ok && closed;
  }

  /** pb_decode_delimited_noinit. */
  method DecodeDelimitedNoInit(stream: IStream, fields: seq<Field>, base: Message) returns (ok: bool, m: Message)
    requires stream.Valid() && WellFormed(fields)
    modifies stream
    ensures var r := ReadString(old(stream.Rest()));
            && stream.Valid()
            && ok == (r.Parsed? && ReadMessage(fields, r.value, base).Outcome?)
            && (ok ==> m == ReadMessage(fields, r.value, base).progress.m)
            && Took(old(stream.At()), stream.At(), ok, if ok then r.used else 0)
  {
    hide ReadString, ReadMessage;
    m := base;
    var substream;
    ok, substream := MakeSubstream(stream);
    if !ok {
      return;
    }
    ok, m := DecodeNoInit(substream, fields, base);
    var closed := CloseSubstream(stream, substream);
    ok := ok && closed;
  }
}
