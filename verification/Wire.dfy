/** The wire level of Protocol Buffers (the sections "Base 128 Varints", "Signed Integers" and
    "Message Structure" of its encoding document) as nanopb reads and writes it. */
module Wire {
  import opened Common
  import opened Coding

  const TWO31: int := 0x8000_0000
  const TWO32: int := 0x1_0000_0000
  const TWO63: int := 0x8000_0000_0000_0000
  const TWO64: int := 0x1_0000_0000_0000_0000

  datatype WireType = WtVarint | Wt64Bit | WtString | Wt32Bit | WtInvalid

  /** A value read from the front of a byte string, and how many bytes it took. */
  datatype Parsed<+T> = Parsed(value: T, used: nat) | Malformed

  // ---- Varints -------------------------------------------------------------

  /** Seven bits a byte, low bits first, the top bit set on all but the last byte. */
  function PutVarint(value: nat): (s: seq<Byte>)
    ensures |s| > 0
  {
    if value < 128 then [value] else [value % 128 + 128] + PutVarint(value / 128)
  }

  /** The bytes up to and including the first without its top bit; 0 if there is none. */
  function VarintLength(s: seq<Byte>): (n: nat)
    ensures n <= |s|
  {
    if s == [] then 0
    else if s[0] < 128 then 1
    else if VarintLength(s[1..]) == 0 then 0
    else 1 + VarintLength(s[1..])
  }

  /** The number that the digits stand for, without any limit on its size. */
  function RawVarint(s: seq<Byte>): nat {
    if s == [] then 0 else s[0] % 128 + 128 * RawVarint(s[1..])
  }

  /** At most ten bytes; bits beyond the 64th are lost. */
  function ReadVarint(s: seq<Byte>): (r: Parsed<nat>)
    ensures r.Parsed? ==> 0 < r.used <= |s| && r.value < TWO64
  {
    var n := VarintLength(s);
    if n == 0 || n > 10 then Malformed else Parsed(RawVarint(s[..n]) % TWO64, n)
  }

  /** What the 32-bit decoder accepts at and after the 32nd bit: nothing, padding, or the sign bits of
      a negative number. */
  predicate FitsVarint32(s: seq<Byte>) {
    var low := RawVarint(s) % TWO32;
    && (|s| == 5 ==> s[4] / 16 % 8 == 0)
    && forall i :: 5 <= i < |s| ==> s[i] % 128 == 0 || (low >= TWO31 && s[i] == if 7 * i < 63 then 0xFF else 0x01)
  }

  function ReadVarint32(s: seq<Byte>): (r: Parsed<nat>)
    ensures r.Parsed? ==> 0 < r.used <= |s| && r.value < TWO32
  {
    var n := VarintLength(s);
    if n == 0 || !FitsVarint32(s[..n]) then Malformed else Parsed(RawVarint(s[..n]) % TWO32, n)
  }

  function Pow128(n: nat): (r: nat)
    ensures r > 0
  {
    if n == 0 then 1 else 128 * Pow128(n - 1)
  }

  lemma {:induction false} VarintLengthIs(s: seq<Byte>, n: nat)
    requires 0 < n <= |s| && s[n - 1] < 128 && forall i :: 0 <= i < n - 1 ==> s[i] >= 128
    ensures VarintLength(s) == n
  {
    if n > 1 {
      VarintLengthIs(s[1..], n - 1);
    }
  }

  lemma {:induction false} VarintLengthEnds(s: seq<Byte>)
    requires VarintLength(s) > 0
    ensures s[VarintLength(s) - 1] < 128 && forall i :: 0 <= i < VarintLength(s) - 1 ==> s[i] >= 128
  {
    if s[0] >= 128 {
      VarintLengthEnds(s[1..]);
      forall i | 0 <= i < VarintLength(s) - 1 ensures s[i] >= 128 {
        if i > 0 { assert s[1..][i - 1] >= 128; }
      }
    }
  }

  lemma {:induction false} NoVarint(s: seq<Byte>)
    requires forall i :: 0 <= i < |s| ==> s[i] >= 128
    ensures VarintLength(s) == 0
  {
    if s != [] {
      NoVarint(s[1..]);
    }
  }

  /** Nothing after the end of a varint matters to it. */
  lemma VarintPrefix(s: seq<Byte>, t: seq<Byte>)
    requires VarintLength(s) > 0
    ensures VarintLength(s + t) == VarintLength(s) && (s + t)[..VarintLength(s)] == s[..VarintLength(s)]
    ensures VarintLength(s[..VarintLength(s)]) == VarintLength(s)
    ensures ReadVarint(s + t) == ReadVarint(s) && ReadVarint32(s + t) == ReadVarint32(s)
  {
    VarintLengthEnds(s);
    VarintLengthIs(s + t, VarintLength(s));
    VarintLengthIs(s[..VarintLength(s)], VarintLength(s));
  }

  lemma {:induction false} PutVarintEnds(value: nat)
    ensures var s := PutVarint(value); s[|s| - 1] < 128 && forall i :: 0 <= i < |s| - 1 ==> s[i] >= 128
  {
    if value >= 128 {
      PutVarintEnds(value / 128);
    }
  }

  lemma {:induction false} RawOfPut(value: nat)
    ensures RawVarint(PutVarint(value)) == value
  {
    if value >= 128 {
      RawOfPut(value / 128);
      assert PutVarint(value)[1..] == PutVarint(value / 128);
    }
  }

  lemma {:induction false} PutVarintLength(value: nat, n: nat)
    requires value < Pow128(n) && n > 0
    ensures |PutVarint(value)| <= n
  {
    if value >= 128 {
      PutVarintLength(value / 128, n - 1);
    }
  }

  /** Digit n of an encoding. */
  lemma {:induction false} PutVarintDigit(value: nat, n: nat)
    requires n < |PutVarint(value)|
    ensures PutVarint(value)[n] % 128 == value / Pow128(n) % 128
    ensures n + 1 == |PutVarint(value)| ==> PutVarint(value)[n] == value / Pow128(n)
  {
    if n > 0 {
      PutVarintDigit(value / 128, n - 1);
      DivDiv(value, Pow128(n - 1));
    }
  }

  lemma DivDiv(value: nat, p: nat)
    requires p > 0
    ensures value / 128 / p == value / (128 * p)
  {
    var q := value / 128;
    var r, rest := q / p, q % p;
    assert value == (128 * p) * r + (128 * rest + value % 128);
    assert 128 * rest + value % 128 < 128 * p;
    DivUnique(value, 128 * p, r, 128 * rest + value % 128);
  }

  lemma DivUnique(value: nat, d: nat, q: nat, r: nat)
    requires d > 0 && value == d * q + r && r < d
    ensures value / d == q
  {
    var q2 := value / d;
    assert value == d * q2 + value % d;
    assert d * (q2 - q) == r - value % d && d * (q - q2) == value % d - r;
    if q2 > q {
      MulAtLeast(d, q2 - q);
      assert false;
    } else if q2 < q {
      MulAtLeast(d, q - q2);
      assert false;
    }
  }

  lemma MulAtLeast(d: nat, k: nat)
    requires k >= 1
    ensures d * k >= d
  {
  }

  lemma Powers()
    ensures Pow128(0) == 1 && Pow128(1) == 128 && Pow128(2) == 0x4000 && Pow128(3) == 0x20_0000
    ensures Pow128(4) == 0x1000_0000 && Pow128(5) == 0x8_0000_0000 && Pow128(9) == TWO63 && Pow128(10) == 128 * TWO63
  {
    assert Pow128(3) == 0x20_0000;
    assert Pow128(6) == 128 * Pow128(5);
    assert Pow128(8) == 128 * 128 * Pow128(6);
  }

  /** What was written is read back, from exactly the bytes that were written. */
  lemma ReadPutVarint(value: nat, t: seq<Byte>)
    requires value < TWO64
    ensures ReadVarint(PutVarint(value) + t) == Parsed(value, |PutVarint(value)|)
    ensures 1 <= |PutVarint(value)| <= 10
  {
    var s := PutVarint(value);
    Powers();
    PutVarintLength(value, 10);
    PutVarintEnds(value);
    VarintLengthIs(s + t, |s|);
    assert (s + t)[..|s|] == s;
    RawOfPut(value);
  }

  lemma ReadPutVarint32(value: nat, t: seq<Byte>)
    requires value < TWO32
    ensures ReadVarint32(PutVarint(value) + t) == Parsed(value, |PutVarint(value)|)
    ensures 1 <= |PutVarint(value)| <= 5
  {
    hide PutVarint, RawVarint, VarintLength;
    var s := PutVarint(value);
    Powers();
    PutVarintLength(value, 5);
    PutVarintEnds(value);
    VarintLengthIs(s + t, |s|);
    assert (s + t)[..|s|] == s;
    RawOfPut(value);
    if |s| == 5 {
      PutVarintDigit(value, 4);
      assert s[4] == value / 0x1000_0000 < 16;
    }
  }

  /** The 32-bit decoder takes nothing from the 33rd bit up, short of the sign bits of a negative number. */
  lemma ReadVarint32OfLarge(value: nat, t: seq<Byte>)
    requires TWO32 <= value < TWO63
    ensures ReadVarint32(PutVarint(value) + t).Malformed?
  {
    hide PutVarint, RawVarint, VarintLength, Pow128;
    var s := PutVarint(value);
    var last := |s| - 1;
    Powers();
    PutVarintLength(value, 9);
    NotShorter(value, 4);
    PutVarintEnds(value);
    VarintLengthIs(s + t, |s|);
    assert (s + t)[..|s|] == s;
    PutVarintDigit(value, last);
    if last == 4 {
      assert s[4] == value / 0x1000_0000 >= 16;
    } else {
      if value < Pow128(last) { PutVarintLength(value, last); }
      AtLeastOnce(value, Pow128(last));
      assert s[last] % 128 == s[last] > 0;
      assert 7 * last < 63;
    }
  }

  lemma AtLeastOnce(value: nat, d: nat)
    requires 0 < d <= value
    ensures value / d >= 1
  {
    assert value == d * (value / d) + value % d;
  }

  /** The 32-bit decoder takes a negative int32 sent as 64 bits, and returns its low 32 bits. */
  lemma ReadVarint32OfNegative(value: int, t: seq<Byte>)
    requires -TWO31 <= value < 0
    ensures ReadVarint32(PutVarint(value + TWO64) + t) == Parsed(value + TWO32, 10)
  {
    hide PutVarint, RawVarint, VarintLength, Pow128, FitsVarint32;
    var v: nat := value + TWO64;
    var s := PutVarint(v);
    NegativeHasTen(v);
    VarintLengthIs(s + t, 10);
    assert (s + t)[..10] == s;
    RawOfPut(v);
    NegativeFits(s, v);
  }

  lemma NegativeHasTen(v: nat)
    requires TWO64 - TWO31 <= v < TWO64
    ensures var s := PutVarint(v); |s| == 10 && s[9] < 128 && forall i :: 0 <= i < 9 ==> s[i] >= 128
    ensures forall i :: 5 <= i < 10 ==> PutVarint(v)[i] == if i < 9 then 0xFF else 0x01
  {
    hide PutVarint, Pow128;
    var s := PutVarint(v);
    Powers();
    PutVarintLength(v, 10);
    NotShorter(v, 9);
    PutVarintEnds(v);
    forall i | 5 <= i < 10 ensures s[i] == if i < 9 then 0xFF else 0x01 {
      PutVarintDigit(v, i);
      HighDigits(v, i);
    }
  }

  /** The sign bits of a negative number are padding. */
  lemma NegativeFits(s: seq<Byte>, v: nat)
    requires |s| == 10 && RawVarint(s) == v && TWO64 - TWO31 <= v < TWO64
    requires forall i :: 5 <= i < 10 ==> s[i] == if i < 9 then 0xFF else 0x01
    ensures FitsVarint32(s) && v % TWO32 == v - TWO64 + TWO32
  {
    hide RawVarint;
  }

  lemma {:induction false} NotShorter(value: nat, n: nat)
    requires value >= Pow128(n)
    ensures |PutVarint(value)| > n
  {
    if n > 0 {
      assert Pow128(n) == 128 * Pow128(n - 1);
      NotShorter(value / 128, n - 1);
    }
  }

  lemma HighDigits(v: nat, i: nat)
    requires TWO64 - TWO31 <= v < TWO64 && 5 <= i <= 9
    ensures v / Pow128(i) % 128 == if i < 9 then 0x7F else 0x01
  {
    Powers();
    var w := v - (TWO64 - TWO31);
    if i == 5 {
      assert Pow128(5) == 0x8_0000_0000;
    } else if i == 6 {
      assert Pow128(6) == 128 * Pow128(5) == 0x400_0000_0000;
    } else if i == 7 {
      assert Pow128(7) == 128 * 128 * Pow128(5) == 0x2_0000_0000_0000;
    } else if i == 8 {
      assert Pow128(8) == 128 * 128 * 128 * Pow128(5) == 0x100_0000_0000_0000;
    }
  }

  /** Where both decoders accept, they agree on the low 32 bits; the 64-bit decoder accepts whatever
      the 32-bit one accepts in at most ten bytes. */
  lemma DecodersAgree(s: seq<Byte>)
    requires ReadVarint32(s).Parsed? && ReadVarint32(s).used <= 10
    ensures ReadVarint(s).Parsed? && ReadVarint(s).used == ReadVarint32(s).used
    ensures ReadVarint(s).value % TWO32 == ReadVarint32(s).value
  {
  }

  // ---- The bytes of a varint -----------------------------------------------

  /** The first n digits of the value to the base 128, low digits first, each but the last with its top bit set.
      With more digits than the value needs the rest are zeros. */
  function Padded(value: nat, n: nat): (s: seq<Byte>)
    ensures |s| == n
    ensures forall i :: 0 <= i < n ==> s[i] == value / Pow128(i) % 128 + (if i + 1 < n then 128 else 0)
  {
    seq(n, i requires 0 <= i < n => value / Pow128(i) % 128 + if i + 1 < n then 128 else 0)
  }

  /** What is written are the digits of the value, and no more of them than needed. */
  lemma VarintBytes(value: nat)
    ensures var s := PutVarint(value);
            && (forall i :: 0 <= i < |s| ==> s[i] == value / Pow128(i) % 128 + (if i + 1 < |s| then 128 else 0))
            && value < Pow128(|s|) && (|s| > 1 ==> value >= Pow128(|s| - 1))
    ensures value < 128 ==> PutVarint(value) == [value]
  {
    hide PutVarint, Pow128;
    var s := PutVarint(value);
    PutVarintEnds(value);
    forall i | 0 <= i < |s| ensures s[i] == value / Pow128(i) % 128 + (if i + 1 < |s| then 128 else 0) {
      PutVarintDigit(value, i);
    }
    PutVarintLimits(value);
    OneByte(value);
  }

  lemma OneByte(value: nat)
    ensures value < 128 ==> PutVarint(value) == [value]
  {
  }

  lemma {:induction false} PutVarintLimits(value: nat)
    ensures value < Pow128(|PutVarint(value)|) && (|PutVarint(value)| > 1 ==> value >= Pow128(|PutVarint(value)| - 1))
  {
    if value >= 128 {
      PutVarintLimits(value / 128);
    }
  }

  lemma {:induction false} RawOfPadded(value: nat, n: nat)
    requires n > 0 && value < Pow128(n)
    ensures RawVarint(Padded(value, n)) == value
  {
    var s := Padded(value, n);
    assert s[0] % 128 == value % 128;
    if n > 1 {
      RawOfPadded(value / 128, n - 1);
      var t := Padded(value / 128, n - 1);
      forall i | 0 <= i < n - 1 ensures s[1..][i] == t[i] {
        DivDiv(value, Pow128(i));
      }
      assert s[1..] == t;
    } else {
      assert s[1..] == [];
    }
  }

  /** Encodings with more digits than needed are read too: up to ten bytes by the 64-bit decoder, which cuts off bits
      from the 65th up, and by the 32-bit decoder, if nothing but zeros is behind the 32nd bit. */
  lemma ReadPadded(value: nat, n: nat, t: seq<Byte>)
    requires n > 0 && value < Pow128(n)
    ensures VarintLength(Padded(value, n) + t) == n
    ensures ReadVarint(Padded(value, n) + t) == if n <= 10 then Parsed(value % TWO64, n) else Malformed
    ensures value < TWO32 ==> ReadVarint32(Padded(value, n) + t) == Parsed(value, n)
  {
    hide RawVarint, VarintLength, Pow128, FitsVarint32, Padded;
    var s := Padded(value, n);
    RawOfPadded(value, n);
    PaddedEnds(value, n);
    VarintLengthIs(s + t, n);
    assert (s + t)[..n] == s;
    if value < TWO32 {
      PaddedFits(value, n);
    }
  }

  lemma PaddedEnds(value: nat, n: nat)
    requires n > 0
    ensures var s := Padded(value, n); s[n - 1] < 128 && forall i :: 0 <= i < n - 1 ==> s[i] >= 128
  {
    hide Pow128;
  }

  lemma PaddedFits(value: nat, n: nat)
    requires value < TWO32
    ensures FitsVarint32(Padded(value, n))
  {
    hide RawVarint, Pow128;
    var s := Padded(value, n);
    Powers();
    forall i | 4 <= i < n ensures value / Pow128(i) % 128 == if i == 4 then value / 0x1000_0000 else 0 {
      HighDigitsAreZero(value, i);
    }
    if n == 5 {
      assert s[4] == value / 0x1000_0000 < 16;
    }
  }

  lemma {:induction false} HighDigitsAreZero(value: nat, i: nat)
    requires value < TWO32 && i >= 4
    ensures value / Pow128(i) % 128 == if i == 4 then value / 0x1000_0000 else 0
  {
    Powers();
    if i > 4 {
      AtLeastPower(i);
    }
  }

  lemma {:induction false} AtLeastPower(i: nat)
    requires i >= 5
    ensures Pow128(i) >= 0x8_0000_0000
  {
    Powers();
    if i > 5 {
      AtLeastPower(i - 1);
    }
  }

  // ---- Zigzag --------------------------------------------------------------

  function ToUnsigned64(value: int): nat {
    value % TWO64
  }

  function ToSigned(value: nat, bits: nat): int
    requires bits == TWO64 || bits == TWO32
  {
    var low := value % bits;
    if low >= bits / 2 then low - bits else low
  }

  /** Complement on 64 bits. */
  function Complement(value: nat): nat
    requires value < TWO64
  {
    TWO64 - 1 - value
  }

  function ZigZag(value: int): nat {
    var shifted := ToUnsigned64(value) * 2 % TWO64;
    if value < 0 then Complement(shifted) else shifted
  }

  function UnZigZag(value: nat): int
    requires value < TWO64
  {
    if value % 2 == 1 then ToSigned(Complement(value / 2), TWO64) else ToSigned(value / 2, TWO64)
  }

  lemma ZigZagIs(i: int)
    requires -TWO63 <= i < TWO63
    ensures ZigZag(i) == if i < 0 then -2 * i - 1 else 2 * i
  {
    if i < 0 {
      assert ToUnsigned64(i) == i + TWO64;
      assert (i + TWO64) * 2 % TWO64 == (2 * i + TWO64) % TWO64;
    } else {
      assert ToUnsigned64(i) == i;
    }
  }

  lemma UnZigZagIs(u: nat)
    requires u < TWO64
    ensures UnZigZag(u) == if u % 2 == 1 then -(u + 1) / 2 else u / 2
  {
    assert u / 2 < TWO63;
    assert Complement(u / 2) % TWO64 == TWO64 - 1 - u / 2 >= TWO63;
  }

  /** 0, -1, 1, -2, 2, … become 0, 1, 2, 3, 4, …, without gap or overlap. */
  lemma ZigZagIsBijection(i: int, u: nat)
    requires -TWO63 <= i < TWO63 && u < TWO64
    ensures ZigZag(i) == (if i < 0 then -2 * i - 1 else 2 * i) < TWO64 && UnZigZag(ZigZag(i)) == i
    ensures -TWO63 <= UnZigZag(u) < TWO63 && ZigZag(UnZigZag(u)) == u
  {
    hide ZigZag, UnZigZag;
    ZigZagIs(i);
    UnZigZagIs(ZigZag(i));
    UnZigZagIs(u);
    ZigZagIs(UnZigZag(u));
  }

  // ---- Tags and skipping ---------------------------------------------------

  function WireCode(w: WireType): nat
    requires !w.WtInvalid?
  {
    match w case WtVarint => 0 case Wt64Bit => 1 case WtString => 2 case Wt32Bit => 5
  }

  function WireTypeOf(code: nat): WireType {
    if code == 0 then WtVarint else if code == 1 then Wt64Bit else if code == 2 then WtString
    else if code == 5 then Wt32Bit else WtInvalid
  }

  datatype TagResult = Tag(number: nat, wireType: WireType, used: nat) | Terminator(used: nat) | BadTag

  function PutTag(number: nat, w: WireType): (s: seq<Byte>)
    requires !w.WtInvalid?
    ensures |s| > 0
  {
    PutVarint(number * 8 + WireCode(w))
  }

  /** A tag of zero ends a message early. */
  function ReadTag(s: seq<Byte>): (r: TagResult)
    ensures !r.BadTag? ==> 0 < r.used <= |s|
    ensures r.Tag? ==> r.number < TWO32 / 8
  {
    match ReadVarint32(s)
    case Malformed => BadTag
    case Parsed(key, used) => if key == 0 then Terminator(used) else Tag(key / 8, WireTypeOf(key % 8), used)
  }

  lemma ReadPutTag(number: nat, w: WireType, t: seq<Byte>)
    requires 0 < number < TWO32 / 8 && !w.WtInvalid?
    ensures ReadTag(PutTag(number, w) + t) == Tag(number, w, |PutTag(number, w)|)
  {
    ReadPutVarint32(number * 8 + WireCode(w), t);
  }

  /** The key that a tag writes is eight times the number plus 0 for a varint, 1 for eight bytes, 2 for a length and
      5 for four bytes; up to number 15 that is one byte. */
  lemma TagBytes(number: nat, w: WireType)
    requires !w.WtInvalid?
    ensures var key := 8 * number + (match w case WtVarint => 0 case Wt64Bit => 1 case WtString => 2 case Wt32Bit => 5 case WtInvalid => 7);
            && (number < 16 ==> PutTag(number, w) == [key])
            && PutTag(number, w) == PutVarint(key)
            && (forall i :: 0 <= i < |PutTag(number, w)| ==>
                  PutTag(number, w)[i] == key / Pow128(i) % 128 + (if i + 1 < |PutTag(number, w)| then 128 else 0))
  {
    hide PutVarint, Pow128;
    VarintBytes(8 * number + WireCode(w));
  }

  /** What a key means: by its low three bits, of which 3, 4, 6 and 7 stand for nothing. */
  lemma TagOfKey(key: nat, t: seq<Byte>)
    requires key < TWO32
    ensures ReadTag(PutVarint(key) + t) ==
              if key == 0 then Terminator(1)
              else Tag(key / 8,
                       if key % 8 == 0 then WtVarint else if key % 8 == 1 then Wt64Bit else if key % 8 == 2 then WtString
                       else if key % 8 == 5 then Wt32Bit else WtInvalid,
                       |PutVarint(key)|)
  {
    ReadPutVarint32(key, t);
  }

  /** A length prefix and the bytes it announces. */
  function ReadString(s: seq<Byte>): (r: Parsed<seq<Byte>>)
    ensures r.Parsed? ==> 0 < r.used <= |s| && |r.value| < r.used
  {
    match ReadVarint32(s)
    case Malformed => Malformed
    case Parsed(size, used) => if used + size > |s| then Malformed else Parsed(s[used..used + size], used + size)
  }

  function PutString(data: seq<Byte>): (s: seq<Byte>)
    ensures |s| > |data|
  {
    PutVarint(|data|) + data
  }

  /** The digits of the length, then the bytes themselves; up to 127 bytes the length is one byte. */
  lemma StringBytes(data: seq<Byte>)
    ensures var s, n := PutString(data), |PutString(data)| - |data|;
            && s[n..] == data && |data| < Pow128(n) && (n > 1 ==> |data| >= Pow128(n - 1))
            && (forall i :: 0 <= i < n ==> s[i] == |data| / Pow128(i) % 128 + (if i + 1 < n then 128 else 0))
            && (|data| < 128 ==> s == [|data|] + data)
  {
    hide PutVarint, Pow128;
    VarintBytes(|data|);
  }

  lemma ReadPutString(data: seq<Byte>, t: seq<Byte>)
    requires |data| < TWO32
    ensures ReadString(PutString(data) + t) == Parsed(data, |PutString(data)|)
  {
    ReadPutVarint32(|data|, data + t);
    assert PutString(data) + t == PutVarint(|data|) + (data + t);
  }

  /** A length prefix of more than 32 bits is refused. */
  lemma ReadPutLargeString(data: seq<Byte>, t: seq<Byte>)
    requires TWO32 <= |data| < TWO63
    ensures ReadString(PutString(data) + t).Malformed?
  {
    ReadVarint32OfLarge(|data|, data + t);
    assert PutString(data) + t == PutVarint(|data|) + (data + t);
  }

  /** How many bytes the payload of an unknown field takes. */
  function SkipLength(w: WireType, s: seq<Byte>): (r: Option<nat>)
    ensures r.Some? ==> 0 < r.value <= |s|
  {
    match w
    case WtVarint => if VarintLength(s) == 0 then None else Some(VarintLength(s))
    case Wt64Bit => if |s| < 8 then None else Some(8)
    case Wt32Bit => if |s| < 4 then None else Some(4)
    case WtString => if ReadString(s).Malformed? then None else Some(ReadString(s).used)
    case WtInvalid => None
  }

  /** An unknown field takes eight bytes, four bytes, a varint of any length whatever, or a length and as many bytes. */
  lemma WhatIsSkipped(value: nat, n: nat, data: seq<Byte>, t: seq<Byte>)
    requires n > 0 && value < Pow128(n) && |data| < TWO32
    ensures SkipLength(WtVarint, Padded(value, n) + t) == Some(n)
    ensures SkipLength(WtString, PutString(data) + t) == Some(|PutString(data)|)
    ensures SkipLength(Wt64Bit, t) == (if |t| >= 8 then Some(8) else None)
    ensures SkipLength(Wt32Bit, t) == (if |t| >= 4 then Some(4) else None)
    ensures SkipLength(WtInvalid, t) == None
  {
    hide PutString, ReadString, Padded, VarintLength;
    ReadPadded(value, n, t);
    ReadPutString(data, t);
  }

  /** What stands behind the bytes that are read or skipped does not matter. */
  lemma TagPrefix(s: seq<Byte>, t: seq<Byte>)
    requires !ReadTag(s).BadTag?
    ensures ReadTag(s + t) == ReadTag(s)
  {
    VarintPrefix(s, t);
  }

  lemma StringPrefix(s: seq<Byte>, t: seq<Byte>)
    requires ReadString(s).Parsed?
    ensures ReadString(s + t) == ReadString(s)
  {
    VarintPrefix(s, t);
    var head := ReadVarint32(s);
    assert (s + t)[head.used..head.used + head.value] == s[head.used..head.used + head.value];
  }

  lemma SkipPrefix(w: WireType, s: seq<Byte>, t: seq<Byte>)
    requires SkipLength(w, s).Some?
    ensures SkipLength(w, s + t) == SkipLength(w, s)
  {
    match w
    case WtVarint => VarintPrefix(s, t);
    case WtString => StringPrefix(s, t);
    case Wt64Bit =>
    case Wt32Bit =>
    case WtInvalid =>
  }
}
