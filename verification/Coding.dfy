/** Bytes, and fixed-width words in little-endian order. */
module Coding {
  type Byte = b: int | 0 <= b < 256

  function Pow256(n: nat): (r: nat)
    ensures r > 0
  {
    if n == 0 then 1 else 256 * Pow256(n - 1)
  }

  function PutFixed(value: nat, width: nat): (s: seq<Byte>)
    ensures |s| == width
  {
    if width == 0 then [] else [value % 256] + PutFixed(value / 256, width - 1)
  }

  function DecodeFixed(s: seq<Byte>): (value: nat)
    ensures value < Pow256(|s|)
  {
    if s == [] then 0 else s[0] + 256 * DecodeFixed(s[1..])
  }

  lemma {:induction false} DecodePutFixed(value: nat, width: nat)
    requires value < Pow256(width)
    ensures DecodeFixed(PutFixed(value, width)) == value
  {
    if width > 0 {
      DecodePutFixed(value / 256, width - 1);
      assert PutFixed(value, width)[1..] == PutFixed(value / 256, width - 1);
    }
  }

  lemma {:induction false} PutDecodeFixed(s: seq<Byte>)
    ensures PutFixed(DecodeFixed(s), |s|) == s
  {
    if s != [] {
      var rest := DecodeFixed(s[1..]);
      PutDecodeFixed(s[1..]);
      assert DecodeFixed(s) % 256 == s[0] && DecodeFixed(s) / 256 == rest;
      assert s == [s[0]] + s[1..];
    }
  }

  /** Byte i is digit i to the base 256. */
  lemma {:induction false} PutFixedByte(value: nat, width: nat, i: nat)
    requires i < width
    ensures PutFixed(value, width)[i] == value / Pow256(i) % 256
  {
    if i > 0 {
      PutFixedByte(value / 256, width - 1, i - 1);
      DivAgain(value, Pow256(i - 1));
    }
  }

  lemma DivAgain(value: nat, p: nat)
    requires p > 0
    ensures value / 256 / p == value / (256 * p)
  {
    var q := value / 256 / p;
    var rest := value / 256 - p * q;
    assert value == 256 * p * q + (256 * rest + value % 256);
    assert 256 * rest + value % 256 < 256 * p;
    QuotientIs(value, 256 * p, q, 256 * rest + value % 256);
  }

  lemma QuotientIs(value: nat, d: nat, q: nat, r: nat)
    requires d > 0 && value == d * q + r && r < d
    ensures value / d == q
  {
    var q2 := value / d;
    assert d * (q2 - q) == r - value % d && d * (q - q2) == value % d - r;
    if q2 > q {
      AtLeastOne(d, q2 - q);
      assert false;
    } else if q2 < q {
      AtLeastOne(d, q - q2);
      assert false;
    }
  }

  lemma AtLeastOne(d: nat, k: nat)
    requires k >= 1
    ensures d * k >= d
  {
  }

  /** The bytes of 32-bit and 64-bit words, one by one. */
  lemma FixedBytes(value: nat)
    ensures PutFixed(value, 4) == [value % 256, value / 0x100 % 256, value / 0x1_0000 % 256, value / 0x100_0000 % 256]
    ensures PutFixed(value, 8) == [value % 256, value / 0x100 % 256, value / 0x1_0000 % 256, value / 0x100_0000 % 256,
                                   value / 0x1_0000_0000 % 256, value / 0x100_0000_0000 % 256,
                                   value / 0x1_0000_0000_0000 % 256, value / 0x100_0000_0000_0000 % 256]
  {
    hide PutFixed;
    SmallPowers();
    forall i | 0 <= i < 8 ensures PutFixed(value, 8)[i] == value / Pow256(i) % 256 {
      PutFixedByte(value, 8, i);
    }
    forall i | 0 <= i < 4 ensures PutFixed(value, 4)[i] == value / Pow256(i) % 256 {
      PutFixedByte(value, 4, i);
    }
  }

  lemma SmallPowers()
    ensures Pow256(0) == 1 && Pow256(1) == 0x100 && Pow256(2) == 0x1_0000 && Pow256(3) == 0x100_0000 && Pow256(4) == 0x1_0000_0000
    ensures Pow256(5) == 0x100_0000_0000 && Pow256(6) == 0x1_0000_0000_0000 && Pow256(7) == 0x100_0000_0000_0000
  {
    assert Pow256(2) == 256 * Pow256(1);
    assert Pow256(4) == 256 * Pow256(3);
    assert Pow256(6) == 256 * Pow256(5);
  }

  lemma Pow256Of8()
    ensures Pow256(8) == 0x1_0000_0000_0000_0000
  {
    assert Pow256(4) == 0x1_0000_0000;
    assert Pow256(6) == 256 * Pow256(5);
  }
}
