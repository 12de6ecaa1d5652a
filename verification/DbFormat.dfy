/** Internal keys of the storage engine (db/dbformat.h, db/dbformat.cc) and the
    byte-wise user comparator that the engine uses by default (util/comparator.cc). */
module DbFormat {
  import opened Coding

  type UserKey = seq<Byte>

  /** 56 bits of sequence number, so that sequence and type share one 64-bit word. */
  const MAX_SEQUENCE_NUMBER: nat := 0xff_ffff_ffff_ffff

  datatype ValueType = TypeDeletion | TypeValue

  /** The type used in seek keys: the highest-numbered one. */
  const VALUE_TYPE_FOR_SEEK := TypeValue

  datatype ParsedInternalKey = ParsedInternalKey(userKey: UserKey, sequence: nat, valueType: ValueType)

  // ---- Comparators ---------------------------------------------------------

  /** A user comparator is a three-way comparison. */
  type Comparator = (UserKey, UserKey) -> int

  ghost predicate TotalOrder(cmp: Comparator) {
    && (forall a, b :: cmp(a, b) == 0 <==> a == b)
    && (forall a, b :: cmp(a, b) < 0 <==> cmp(b, a) > 0)
    && (forall a, b, c :: cmp(a, b) < 0 && cmp(b, c) < 0 ==> cmp(a, c) < 0)
  }

  /** Lexicographic comparison of unsigned bytes; a proper prefix comes first. */
  function BytewiseCompare(a: UserKey, b: UserKey): int {
    if a == [] && b == [] then 0
    else if a == [] then -1
    else if b == [] then 1
    else if a[0] < b[0] then -1
    else if a[0] > b[0] then 1
    else BytewiseCompare(a[1..], b[1..])
  }

  lemma {:induction false} BytewiseEqual(a: UserKey, b: UserKey)
    ensures BytewiseCompare(a, b) == 0 <==> a == b
    ensures BytewiseCompare(a, b) < 0 <==> BytewiseCompare(b, a) > 0
    decreases |a|
  {
    if a != [] && b != [] && a[0] == b[0] {
      BytewiseEqual(a[1..], b[1..]);
      assert a == [a[0]] + a[1..] && b == [b[0]] + b[1..];
    }
  }

  lemma {:induction false} BytewiseTransitive(a: UserKey, b: UserKey, c: UserKey)
    requires BytewiseCompare(a, b) < 0 && BytewiseCompare(b, c) < 0
    ensures BytewiseCompare(a, c) < 0
    decreases |a|
  {
    if a != [] && b != [] && c != [] && a[0] == b[0] == c[0] {
      BytewiseTransitive(a[1..], b[1..], c[1..]);
    }
  }

  lemma BytewiseIsTotalOrder()
    ensures TotalOrder(BytewiseCompare)
  {
    forall a, b {
      BytewiseEqual(a, b);
    }
    forall a, b, c | BytewiseCompare(a, b) < 0 && BytewiseCompare(b, c) < 0 {
      BytewiseTransitive(a, b, c);
    }
  }

  /** The first byte in which they differ decides, and where one ends first it is the smaller. */
  lemma {:induction false} BytewiseIsLexicographic(a: UserKey, b: UserKey, i: nat)
    requires i <= |a| && i <= |b| && a[..i] == b[..i] && (i < |a| && i < |b| ==> a[i] != b[i])
    ensures BytewiseCompare(a, b) < 0 <==> i < |b| && (i == |a| || a[i] < b[i])
    ensures BytewiseCompare(a, b) > 0 <==> i < |a| && (i == |b| || a[i] > b[i])
  {
    if i > 0 {
      assert a[..i][0] == b[..i][0] && a[..i][1..] == a[1..][..i - 1] && b[..i][1..] == b[1..][..i - 1];
      BytewiseIsLexicographic(a[1..], b[1..], i - 1);
    }
  }

  // ---- Encoding and parsing internal keys ---------------------------------

  function TypeCode(t: ValueType): (c: Byte) {
    match t case TypeDeletion => 0 case TypeValue => 1
  }

  /** The sequence number in the high 56 bits, the type in the low 8. */
  function PackSequenceAndType(sequence: nat, t: ValueType): (r: nat)
    requires sequence <= MAX_SEQUENCE_NUMBER
    ensures r < 0x1_0000_0000_0000_0000
    ensures r / 256 == sequence && r % 256 == TypeCode(t)
  {
    sequence * 256 + TypeCode(t)
  }

  function EncodeInternalKey(key: ParsedInternalKey): (s: seq<Byte>)
    requires key.sequence <= MAX_SEQUENCE_NUMBER
    ensures |s| == |key.userKey| + 8
  {
    key.userKey + PutFixed(PackSequenceAndType(key.sequence, key.valueType), 8)
  }

  /** The user key, a byte for the type (0 for a deletion, 1 for a value), and the sequence number in seven bytes,
      low byte first. */
  lemma InternalKeyBytes(key: ParsedInternalKey)
    requires key.sequence <= MAX_SEQUENCE_NUMBER
    ensures var n := key.sequence;
            EncodeInternalKey(key) == key.userKey + [if key.valueType == TypeValue then 1 else 0]
              + [n % 256, n / 0x100 % 256, n / 0x1_0000 % 256, n / 0x100_0000 % 256,
                 n / 0x1_0000_0000 % 256, n / 0x100_0000_0000 % 256, n / 0x1_0000_0000_0000 % 256]
  {
    hide PutFixed;
    var num := PackSequenceAndType(key.sequence, key.valueType);
    FixedBytes(num);
    DivAgain(num, 0x100);
    DivAgain(num, 0x1_0000);
    DivAgain(num, 0x100_0000);
    DivAgain(num, 0x1_0000_0000);
    DivAgain(num, 0x100_0000_0000);
    DivAgain(num, 0x1_0000_0000_0000);
  }

  function ExtractUserKey(internalKey: seq<Byte>): UserKey
    requires |internalKey| >= 8
  {
    internalKey[..|internalKey| - 8]
  }

  function Trailer(internalKey: seq<Byte>): nat
    requires |internalKey| >= 8
  {
    DecodeFixed(internalKey[|internalKey| - 8..])
  }

  datatype ParseResult = Parsed(key: ParsedInternalKey) | Corrupt

  /** Rejects keys shorter than the trailer and keys whose type byte is unknown. */
  function ParseInternalKey(internalKey: seq<Byte>): ParseResult {
    if |internalKey| < 8 then Corrupt
    else
      var num := Trailer(internalKey);
      if num % 256 > TypeCode(TypeValue) then Corrupt
      else Parsed(ParsedInternalKey(ExtractUserKey(internalKey), num / 256,
                                    if num % 256 == 0 then TypeDeletion else TypeValue))
  }

  lemma TrailerOfEncoding(key: ParsedInternalKey)
    requires key.sequence <= MAX_SEQUENCE_NUMBER
    ensures ExtractUserKey(EncodeInternalKey(key)) == key.userKey
    ensures Trailer(EncodeInternalKey(key)) == PackSequenceAndType(key.sequence, key.valueType)
  {
    Pow256Of8();
    var num := PackSequenceAndType(key.sequence, key.valueType);
    DecodePutFixed(num, 8);
    assert EncodeInternalKey(key)[|key.userKey|..] == PutFixed(num, 8);
  }

  lemma ParseEncode(key: ParsedInternalKey)
    requires key.sequence <= MAX_SEQUENCE_NUMBER
    ensures ParseInternalKey(EncodeInternalKey(key)) == Parsed(key)
  {
    TrailerOfEncoding(key);
  }

  /** Parsing accepts exactly the encodings, and loses nothing. */
  lemma EncodeParse(s: seq<Byte>)
    ensures ParseInternalKey(s).Parsed? <==>
            exists k: ParsedInternalKey :: k.sequence <= MAX_SEQUENCE_NUMBER && EncodeInternalKey(k) == s
    ensures ParseInternalKey(s).Parsed? ==>
              var k := ParseInternalKey(s).key;
              k.sequence <= MAX_SEQUENCE_NUMBER && EncodeInternalKey(k) == s
  {
    Pow256Of8();
    if ParseInternalKey(s).Parsed? {
      var k := ParseInternalKey(s).key;
      PutDecodeFixed(s[|s| - 8..]);
      assert Trailer(s) < Pow256(8);
      assert PackSequenceAndType(k.sequence, k.valueType) == Trailer(s);
      assert EncodeInternalKey(k) == s[..|s| - 8] + s[|s| - 8..] == s;
    }
    forall k: ParsedInternalKey | k.sequence <= MAX_SEQUENCE_NUMBER && EncodeInternalKey(k) == s
      ensures ParseInternalKey(s).Parsed?
    {
      ParseEncode(k);
    }
  }

  // ---- Order of internal keys ---------------------------------------------

  /** InternalKeyComparator::Compare, on encoded keys. */
  function InternalCompare(cmp: Comparator, a: seq<Byte>, b: seq<Byte>): int
    requires |a| >= 8 && |b| >= 8
  {
    var r := cmp(ExtractUserKey(a), ExtractUserKey(b));
    if r != 0 then r
    else if Trailer(a) > Trailer(b) then -1
    else if Trailer(a) < Trailer(b) then 1
    else 0
  }

  /** User key ascending, then sequence descending, then type descending. */
  ghost predicate Before(cmp: Comparator, a: ParsedInternalKey, b: ParsedInternalKey) {
    || cmp(a.userKey, b.userKey) < 0
    || (a.userKey == b.userKey && a.sequence > b.sequence)
    || (a.userKey == b.userKey && a.sequence == b.sequence && a.valueType == TypeValue && b.valueType == TypeDeletion)
  }

  lemma CompareIsBefore(cmp: Comparator, a: ParsedInternalKey, b: ParsedInternalKey)
    requires TotalOrder(cmp) && a.sequence <= MAX_SEQUENCE_NUMBER && b.sequence <= MAX_SEQUENCE_NUMBER
    ensures InternalCompare(cmp, EncodeInternalKey(a), EncodeInternalKey(b)) < 0 <==> Before(cmp, a, b)
    ensures InternalCompare(cmp, EncodeInternalKey(a), EncodeInternalKey(b)) > 0 <==> Before(cmp, b, a)
  {
    TrailerOfEncoding(a);
    TrailerOfEncoding(b);
  }

  /** On byte strings long enough to hold a trailer the comparator is a total order. */
  lemma InternalCompareIsTotalOrder(cmp: Comparator, a: seq<Byte>, b: seq<Byte>, c: seq<Byte>)
    requires TotalOrder(cmp) && |a| >= 8 && |b| >= 8 && |c| >= 8
    ensures InternalCompare(cmp, a, b) == 0 <==> a == b
    ensures InternalCompare(cmp, a, b) < 0 <==> InternalCompare(cmp, b, a) > 0
    ensures InternalCompare(cmp, a, b) < 0 && InternalCompare(cmp, b, c) < 0 ==> InternalCompare(cmp, a, c) < 0
  {
    hide DecodeFixed, PutFixed;
    if InternalCompare(cmp, a, b) == 0 {
      PutDecodeFixed(a[|a| - 8..]);
      PutDecodeFixed(b[|b| - 8..]);
      assert a == ExtractUserKey(a) + a[|a| - 8..];
      assert b == ExtractUserKey(b) + b[|b| - 8..];
    }
    assert cmp(ExtractUserKey(a), ExtractUserKey(c)) == cmp(ExtractUserKey(a), ExtractUserKey(c));
  }

  /** The seek key (k, s) is at or before exactly the entries with a larger user key
      and the entries of k that are visible at s. */
  lemma SeekKeyPrecedesVisible(cmp: Comparator, k: UserKey, s: nat, e: ParsedInternalKey)
    requires TotalOrder(cmp) && s <= MAX_SEQUENCE_NUMBER && e.sequence <= MAX_SEQUENCE_NUMBER
    ensures InternalCompare(cmp, EncodeInternalKey(ParsedInternalKey(k, s, VALUE_TYPE_FOR_SEEK)), EncodeInternalKey(e)) <= 0
            <==> cmp(k, e.userKey) < 0 || (k == e.userKey && e.sequence <= s)
  {
    CompareIsBefore(cmp, ParsedInternalKey(k, s, VALUE_TYPE_FOR_SEEK), e);
  }

  // ---- Key shortening ------------------------------------------------------

  /** The first differing byte decides. */
  lemma {:induction false} FirstDifference(a: UserKey, b: UserKey, i: nat)
    requires i < |a| && i < |b| && a[..i] == b[..i] && a[i] != b[i]
    ensures BytewiseCompare(a, b) < 0 <==> a[i] < b[i]
  {
    if i > 0 {
      assert a[0] == a[..i][0] == b[..i][0] == b[0];
      assert a[1..][..i - 1] == a[..i][1..] == b[..i][1..] == b[1..][..i - 1];
      FirstDifference(a[1..], b[1..], i - 1);
    }
  }

  /** The common prefix, then one byte in between; start itself where there is no room. */
  function ShortestSeparator(start: UserKey, limit: UserKey): UserKey {
    if start == [] || limit == [] then start
    else if start[0] == limit[0] then [start[0]] + ShortestSeparator(start[1..], limit[1..])
    else if (start[0] as int) + 1 < limit[0] then [start[0] + 1]
    else start
  }

  lemma {:induction false} SeparatorIs(start: UserKey, limit: UserKey, i: nat)
    requires i <= |start| && i <= |limit| && start[..i] == limit[..i]
    requires i < |start| && i < |limit| ==> start[i] != limit[i]
    ensures ShortestSeparator(start, limit) ==
              if i < |start| && i < |limit| && (start[i] as int) + 1 < limit[i] then start[..i] + [start[i] + 1] else start
  {
    if i > 0 {
      assert start[0] == start[..i][0] == limit[..i][0] == limit[0];
      assert start[1..][..i - 1] == start[..i][1..] == limit[..i][1..] == limit[1..][..i - 1];
      SeparatorIs(start[1..], limit[1..], i - 1);
      assert start == [start[0]] + start[1..] && start[..i] == [start[0]] + start[1..][..i - 1];
    }
  }

  /** BytewiseComparatorImpl::FindShortestSeparator: a string in [start, limit) no longer than start. */
  method FindShortestSeparator(start: UserKey, limit: UserKey) returns (r: UserKey)
    ensures r == ShortestSeparator(start, limit) && |r| <= |start|
    ensures r != start ==> BytewiseCompare(start, r) < 0 && BytewiseCompare(r, limit) < 0
    ensures r != start <==> exists i :: 0 <= i < |start| && i < |limit| && start[..i] == limit[..i]
                                        && (start[i] as int) + 1 < limit[i]
  {
    var minLength := if |start| < |limit| then |start| else |limit|;
    var diffIndex := 0;
    while diffIndex < minLength && start[diffIndex] == limit[diffIndex]
      invariant diffIndex <= minLength && start[..diffIndex] == limit[..diffIndex]
    {
      diffIndex := diffIndex + 1;
    }
    r := start;
    SeparatorIs(start, limit, diffIndex);
    if diffIndex < minLength {
      var diffByte := start[diffIndex];
      if diffByte < 0xff && diffByte + 1 < limit[diffIndex] {
        r := start[..diffIndex] + [diffByte + 1];
        assert r[..diffIndex] == start[..diffIndex];
        FirstDifference(start, r, diffIndex);
        FirstDifference(r, limit, diffIndex);
      }
    }
  }

  /** Up to and with the first byte that can be incremented. */
  function ShortSuccessor(key: UserKey): UserKey {
    if key == [] then []
    else if key[0] != 0xff then [key[0] + 1]
    else [key[0]] + ShortSuccessor(key[1..])
  }

  lemma {:induction false} SuccessorIs(key: UserKey, i: nat)
    requires i <= |key| && (forall j :: 0 <= j < i ==> key[j] == 0xff) && (i < |key| ==> key[i] != 0xff)
    ensures ShortSuccessor(key) == if i < |key| then key[..i] + [key[i] + 1] else key
  {
    if i > 0 {
      SuccessorIs(key[1..], i - 1);
      assert key == [key[0]] + key[1..] && key[..i] == [key[0]] + key[1..][..i - 1];
    }
  }

  /** BytewiseComparatorImpl::FindShortSuccessor: a string at or after key, no longer than key. */
  method FindShortSuccessor(key: UserKey) returns (r: UserKey)
    ensures r == ShortSuccessor(key) && |r| <= |key|
    ensures r == key || BytewiseCompare(key, r) < 0
    ensures r == key <==> forall i :: 0 <= i < |key| ==> key[i] == 0xff
  {
    r := key;
    for i := 0 to |key|
      invariant r == key && forall j :: 0 <= j < i ==> key[j] == 0xff
    {
      if key[i] != 0xff {
        r := key[..i] + [key[i] + 1];
        SuccessorIs(key, i);
        assert r[..i] == key[..i];
        assert r[i] != key[i];
        FirstDifference(key, r, i);
        return;
      }
    }
    SuccessorIs(key, |key|);
  }

  /** A key buffer that is rewritten in place, as std::string is. */
  class KeyBuffer {
    var rep: seq<Byte>

    constructor ()
      ensures rep == []
    {
      rep := [];
    }

    method AppendInternalKey(key: ParsedInternalKey)
      requires key.sequence <= MAX_SEQUENCE_NUMBER
      modifies this
      ensures rep == old(rep) + EncodeInternalKey(key)
    {
      rep := rep + key.userKey;
      rep := rep + PutFixed(PackSequenceAndType(key.sequence, key.valueType), 8);
      assert rep == old(rep) + EncodeInternalKey(key);
    }

    /** InternalKeyComparator::FindShortestSeparator over the byte-wise comparator: a shorter user key
        with the earliest possible trailer, in [old key, limit); otherwise nothing changes. */
    method ShortenTo(limit: seq<Byte>)
      requires |rep| >= 8 && |limit| >= 8
      modifies this
      ensures |rep| >= 8 && |rep| <= |old(rep)|
      ensures var user, shorter := ExtractUserKey(old(rep)), ShortestSeparator(ExtractUserKey(old(rep)), ExtractUserKey(limit));
              rep == if |shorter| < |user| then EncodeInternalKey(ParsedInternalKey(shorter, MAX_SEQUENCE_NUMBER, VALUE_TYPE_FOR_SEEK))
                     else old(rep)
      ensures rep != old(rep) ==> InternalCompare(BytewiseCompare, old(rep), rep) < 0
                                  && InternalCompare(BytewiseCompare, rep, limit) < 0
    {
      var userStart := ExtractUserKey(rep);
      var tmp := FindShortestSeparator(userStart, ExtractUserKey(limit));
      if |tmp| < |userStart| && BytewiseCompare(userStart, tmp) < 0 {
        var earliest := ParsedInternalKey(tmp, MAX_SEQUENCE_NUMBER, VALUE_TYPE_FOR_SEEK);
        TrailerOfEncoding(earliest);
        rep := EncodeInternalKey(earliest);
      }
    }

    /** InternalKeyComparator::FindShortSuccessor over the byte-wise comparator. */
    method ShortenUp()
      requires |rep| >= 8
      modifies this
      ensures |rep| >= 8 && |rep| <= |old(rep)|
      ensures var user, shorter := ExtractUserKey(old(rep)), ShortSuccessor(ExtractUserKey(old(rep)));
              rep == if |shorter| < |user| then EncodeInternalKey(ParsedInternalKey(shorter, MAX_SEQUENCE_NUMBER, VALUE_TYPE_FOR_SEEK))
                     else old(rep)
      ensures rep != old(rep) ==> InternalCompare(BytewiseCompare, old(rep), rep) < 0
    {
      var userKey := ExtractUserKey(rep);
      var tmp := FindShortSuccessor(userKey);
      if |tmp| < |userKey| && BytewiseCompare(userKey, tmp) < 0 {
        var earliest := ParsedInternalKey(tmp, MAX_SEQUENCE_NUMBER, VALUE_TYPE_FOR_SEEK);
        TrailerOfEncoding(earliest);
        rep := EncodeInternalKey(earliest);
      }
    }
  }
}
