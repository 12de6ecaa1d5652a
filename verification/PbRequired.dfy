/** The bit map of required fields that pb_decode_noinit keeps (pb_decode.c), as a set. Words are the
    numbers that their bits stand for. */
module PbRequired {
  import opened Coding
  import opened Wire
  import opened PbMessage
  import opened PbDecode
  import opened PbFieldIter

  const WORDS: nat := 2

  /** (word >> j) & 1. */
  predicate Bit(word: nat, j: nat) {
    if j == 0 then word % 2 == 1 else Bit(word / 2, j - 1)
  }

  /** word | (1 << j). */
  function SetBit(word: nat, j: nat): nat {
    if j == 0 then word / 2 * 2 + 1 else SetBit(word / 2, j - 1) * 2 + word % 2
  }

  /** The n lowest bits: all bits shifted right by 32 - n. */
  function Ones(n: nat): nat {
    if n == 0 then 0 else Ones(n - 1) * 2 + 1
  }

  /** The word is less than the n-th power of two. */
  predicate Within(word: nat, n: nat) {
    if n == 0 then word == 0 else Within(word / 2, n - 1)
  }

  lemma {:induction false} BitOfSet(word: nat, j: nat, k: nat)
    ensures Bit(SetBit(word, j), k) <==> Bit(word, k) || j == k
  {
    if j > 0 && k > 0 {
      BitOfSet(word / 2, j - 1, k - 1);
    }
  }

  lemma {:induction false} SetWithin(word: nat, j: nat, n: nat)
    requires Within(word, n) && j < n
    ensures Within(SetBit(word, j), n)
  {
    if j > 0 {
      SetWithin(word / 2, j - 1, n - 1);
    }
  }

  lemma {:induction false} ZeroHasNoBit(j: nat)
    ensures !Bit(0, j) && Within(0, j)
  {
    if j > 0 {
      ZeroHasNoBit(j - 1);
    }
  }

  lemma {:induction false} WithinHasNoHighBit(word: nat, n: nat, k: nat)
    requires Within(word, n) && k >= n
    ensures !Bit(word, k)
  {
    if n == 0 {
      ZeroHasNoBit(k);
    } else {
      WithinHasNoHighBit(word / 2, n - 1, k - 1);
    }
  }

  lemma {:induction false} BitOfOnes(n: nat, k: nat)
    ensures Bit(Ones(n), k) <==> k < n
  {
    if n == 0 {
      ZeroHasNoBit(k);
    } else if k > 0 {
      BitOfOnes(n - 1, k - 1);
    }
  }

  lemma {:induction false} OnesWithin(n: nat, width: nat)
    requires n <= width
    ensures Within(Ones(n), width)
  {
    if n == 0 {
      ZeroHasNoBit(width);
    } else {
      OnesWithin(n - 1, width - 1);
    }
  }

  lemma {:induction false} SameBits(a: nat, b: nat, width: nat)
    requires Within(a, width) && Within(b, width)
    requires forall k :: 0 <= k < width ==> (Bit(a, k) <==> Bit(b, k))
    ensures a == b
  {
    if width > 0 {
      assert Bit(a, 0) <==> Bit(b, 0);
      forall k | 0 <= k < width - 1 ensures Bit(a / 2, k) <==> Bit(b / 2, k) {
        assert Bit(a, k + 1) <==> Bit(b, k + 1);
      }
      SameBits(a / 2, b / 2, width - 1);
    }
  }

  /** Of the bits below width exactly the n lowest are set. */
  ghost predicate LowestBits(word: nat, n: nat, width: nat) {
    forall k :: 0 <= k < width ==> (Bit(word, k) <==> k < n)
  }

  /** The comparison with a run of ones. */
  lemma IsOnes(word: nat, n: nat, width: nat)
    requires n <= width && Within(word, width)
    ensures word == Ones(n) <==> LowestBits(word, n, width)
  {
    OnesWithin(n, width);
    forall k | 0 <= k < width ensures Bit(Ones(n), k) <==> k < n {
      BitOfOnes(n, k);
    }
    if LowestBits(word, n, width) {
      SameBits(word, Ones(n), width);
    }
  }

  // ---- The bit map and the set ---------------------------------------------

  /** fields_seen[r >> 5] & (1 << (r & 31)). */
  predicate BitAt(words: seq<nat>, r: nat)
    requires |words| == WORDS && r < PB_MAX_REQUIRED_FIELDS
  {
    Bit(words[r / 32], r % 32)
  }

  /** fields_seen[r >> 5] |= 1 << (r & 31), for the fields that are tracked. */
  function WithBit(words: seq<nat>, r: nat): seq<nat>
    requires |words| == WORDS
  {
    if r < PB_MAX_REQUIRED_FIELDS then words[r / 32 := SetBit(words[r / 32], r % 32)] else words
  }

  /** Bit r is set exactly if the r-th required field has been seen. */
  ghost predicate Tracks(fields: seq<Field>, words: seq<nat>, seen: set<nat>) {
    && |words| == WORDS && (forall w :: 0 <= w < WORDS ==> Within(words[w], 32))
    && (forall i :: i in seen ==> i < |fields| && fields[i].htype.Required?)
    && forall r :: 0 <= r < PB_MAX_REQUIRED_FIELDS ==>
         (BitAt(words, r) <==> exists i :: i in seen && i < |fields| && RequiredBefore(fields, i) == r)
  }

  lemma NothingSeen(fields: seq<Field>)
    ensures Tracks(fields, [0, 0], {})
  {
    forall r | 0 <= r < PB_MAX_REQUIRED_FIELDS ensures !BitAt([0, 0], r) {
      ZeroHasNoBit(r % 32);
    }
    ZeroHasNoBit(32);
  }

  lemma {:induction false} RequiredGrows(fields: seq<Field>, i: nat, j: nat)
    requires i <= j <= |fields|
    ensures RequiredBefore(fields, i) <= RequiredBefore(fields, j)
    ensures i < j && fields[i].htype.Required? ==> RequiredBefore(fields, i) < RequiredBefore(fields, j)
    decreases j
  {
    if i < j {
      RequiredGrows(fields, i, j - 1);
    }
  }

  /** Every number below the count of required fields belongs to one of them. */
  lemma {:induction false} RequiredNumbered(fields: seq<Field>, n: nat, r: nat) returns (i: nat)
    requires n <= |fields| && r < RequiredBefore(fields, n)
    ensures i < n && fields[i].htype.Required? && RequiredBefore(fields, i) == r
  {
    if RequiredBefore(fields, n - 1) == r {
      i := n - 1;
    } else {
      i := RequiredNumbered(fields, n - 1, r);
    }
  }

  lemma SameNumber(fields: seq<Field>, i: nat, j: nat)
    requires i < |fields| && j < |fields| && fields[i].htype.Required? && fields[j].htype.Required?
    requires RequiredBefore(fields, i) == RequiredBefore(fields, j)
    ensures i == j
  {
    if i < j {
      RequiredGrows(fields, i, j);
    } else if j < i {
      RequiredGrows(fields, j, i);
    }
  }

  /** Setting the bit is adding to the set. */
  lemma SeeRequired(fields: seq<Field>, words: seq<nat>, seen: set<nat>, i: nat)
    requires Tracks(fields, words, seen) && i < |fields| && fields[i].htype.Required?
    ensures var r := RequiredBefore(fields, i);
            Tracks(fields, WithBit(words, r), seen + {i})
  {
    var r := RequiredBefore(fields, i);
    var words2 := WithBit(words, r);
    if r < PB_MAX_REQUIRED_FIELDS {
      SetWithin(words[r / 32], r % 32, 32);
    }
    forall q | 0 <= q < PB_MAX_REQUIRED_FIELDS
      ensures BitAt(words2, q) <==> exists j :: j in seen + {i} && j < |fields| && RequiredBefore(fields, j) == q
    {
      if r < PB_MAX_REQUIRED_FIELDS && q / 32 == r / 32 {
        BitOfSet(words[r / 32], r % 32, q % 32);
      }
      assert BitAt(words2, q) <==> BitAt(words, q) || q == r;
      if q == r { assert i in seen + {i}; }
    }
  }

  /** The words that the check compares: whole ones below the count, then the remaining bits. */
  ghost predicate WordsFull(words: seq<nat>, count: nat)
    requires |words| == WORDS && count <= PB_MAX_REQUIRED_FIELDS
  {
    && (forall w :: 0 <= w < count / 32 ==> words[w] == Ones(32))
    && (count % 32 != 0 ==> words[count / 32] == Ones(count % 32))
  }

  lemma FullMeansAllSeen(fields: seq<Field>, words: seq<nat>, seen: set<nat>)
    requires Tracks(fields, words, seen)
    ensures var total := RequiredBefore(fields, |fields|);
            WordsFull(words, if total > PB_MAX_REQUIRED_FIELDS then PB_MAX_REQUIRED_FIELDS else total) <==> AllRequiredSeen(fields, seen)
  {
    hide BitAt, WordsFull, RequiredBefore;
    var total := RequiredBefore(fields, |fields|);
    var count := if total > PB_MAX_REQUIRED_FIELDS then PB_MAX_REQUIRED_FIELDS else total;
    forall r: nat | r < PB_MAX_REQUIRED_FIELDS && r >= count ensures !BitAt(words, r) {
      if BitAt(words, r) {
        var i :| i in seen && i < |fields| && RequiredBefore(fields, i) == r;
        RequiredGrows(fields, i, |fields|);
      }
    }
    BitsFull(words, count);
    if AllRequiredSeen(fields, seen) {
      forall r: nat | r < count ensures BitAt(words, r) {
        var i := RequiredNumbered(fields, |fields|, r);
        assert i in seen;
      }
    }
    if forall r: nat :: r < count ==> BitAt(words, r) {
      forall i | 0 <= i < |fields| && fields[i].htype.Required? && RequiredBefore(fields, i) < PB_MAX_REQUIRED_FIELDS ensures i in seen {
        RequiredGrows(fields, i, |fields|);
        var r := RequiredBefore(fields, i);
        assert BitAt(words, r);
        var j :| j in seen && j < |fields| && RequiredBefore(fields, j) == r;
        SameNumber(fields, i, j);
      }
    }
  }

  /** Whole words and remaining bits together: every bit below the count, provided none is set above. */
  lemma BitsFull(words: seq<nat>, count: nat)
    requires |words| == WORDS && count <= PB_MAX_REQUIRED_FIELDS && forall w :: 0 <= w < WORDS ==> Within(words[w], 32)
    requires forall r: nat :: count <= r < PB_MAX_REQUIRED_FIELDS ==> !BitAt(words, r)
    ensures WordsFull(words, count) <==> forall r: nat :: r < count ==> BitAt(words, r)
  {
    hide BitAt, Ones, Within;
    if count < 32 {
      WordFull(words, 0, count);
    } else {
      WordFull(words, 0, 32);
      WordFull(words, 1, count - 32);
    }
  }

  lemma WordFull(words: seq<nat>, w: nat, n: nat)
    requires |words| == WORDS && w < WORDS && Within(words[w], 32) && n <= 32
    requires forall r: nat :: 32 * w + n <= r < 32 * w + 32 ==> !BitAt(words, r)
    ensures words[w] == Ones(n) <==> forall r: nat :: 32 * w <= r < 32 * w + n ==> BitAt(words, r)
  {
    hide Ones, Within, Bit;
    IsOnes(words[w], n, 32);
    forall k: nat | k < 32 ensures BitAt(words, 32 * w + k) <==> Bit(words[w], k) {
      assert (32 * w + k) / 32 == w && (32 * w + k) % 32 == k;
    }
    if LowestBits(words[w], n, 32) {
      forall r: nat | 32 * w <= r < 32 * w + n ensures BitAt(words, r) {
        assert BitAt(words, 32 * w + (r - 32 * w)) <==> Bit(words[w], r - 32 * w);
      }
    }
    if forall r: nat :: 32 * w <= r < 32 * w + n ==> BitAt(words, r) {
      forall k | 0 <= k < 32 ensures Bit(words[w], k) <==> k < n {
        assert BitAt(words, 32 * w + k) <==> Bit(words[w], k);
      }
    }
  }

  /** The end of pb_decode_noinit: counts the required fields by running the iterator to the end of the
      descriptor, then compares words. It succeeds exactly if every tracked field has been seen. */
  method CheckRequired(iter: FieldIter, words: array<nat>, ghost seen: set<nat>) returns (ok: bool)
    requires iter.Valid() && WellFormed(iter.fields) && words.Length == WORDS && Tracks(iter.fields, words[..], seen)
    modifies iter
    ensures ok == AllRequiredSeen(iter.fields, seen)
  {
    var count := CountRequired(iter);
    if count > PB_MAX_REQUIRED_FIELDS {
      count := PB_MAX_REQUIRED_FIELDS;
    }
    FullMeansAllSeen(iter.fields, words[..], seen);
    ok := CompareWords(words, count);
  }

  method CompareWords(words: array<nat>, count: nat) returns (ok: bool)
    requires words.Length == WORDS && count <= PB_MAX_REQUIRED_FIELDS
    ensures ok <==> WordsFull(words[..], count)
  {
    hide Ones;
    if count > 0 {
      for i := 0 to count / 32
        invariant forall w :: 0 <= w < i ==> words[..][w] == Ones(32)
      {
        if words[i] != Ones(32) {
          assert words[..][i] != Ones(32);
          return false;
        }
      }
      if count % 32 != 0 && words[count / 32] != Ones(count % 32) {
        return false;
      }
    }
    return true;
  }

  /** Runs to the last field; a required last field is not yet counted there. */
  method CountRequired(iter: FieldIter) returns (count: nat)
    requires iter.Valid() && WellFormed(iter.fields)
    modifies iter
    ensures iter.Valid() && count == RequiredBefore(iter.fields, |iter.fields|)
  {
    ghost var fields := iter.fields;
    var last;
    count, last := iter.requiredFieldIndex, iter.HTypeAt();
    var more := true;
    while more
      invariant iter.Valid() && iter.fields == fields
      invariant !more ==> iter.pos == 0 && last == if fields == [] then Required else fields[|fields| - 1].htype
      invariant !more && fields != [] ==> count == RequiredBefore(fields, |fields| - 1)
      invariant fields == [] && !more ==> count == iter.requiredFieldIndex
      decreases more, |fields| - iter.pos
    {
      count, last := iter.requiredFieldIndex, iter.HTypeAt();
      more := iter.Next();
    }
    if last.Required? && iter.TagAt() != 0 {
      count := count + 1;
    }
    assert fields != [] ==> WellFormedField(fields[0]);
  }

  // ---- On the wire ---------------------------------------------------------

  /** The tag numbers at the field boundaries, as far as decoding gets. */
  function TagsRead(fields: seq<Field>, s: seq<Byte>, p: Progress): set<nat>
    decreases |s|
  {
    if s == [] then {}
    else
      var step := DecodeStep(fields, s, p);
      if step.Next? then (if ReadTag(s).Tag? then {ReadTag(s).number} else {}) + TagsRead(fields, s[step.used..], step.progress) else {}
  }

  lemma StepSees(fields: seq<Field>, s: seq<Byte>, p: Progress, i: nat)
    requires DistinctTags(fields) && DecodeStep(fields, s, p).Next? && i < |fields| && fields[i].htype.Required?
    ensures ReadTag(s).Tag? && (i in DecodeStep(fields, s, p).progress.seen <==> i in p.seen || fields[i].tag == ReadTag(s).number)
  {
    hide ReadField, ReadTag, SkipLength;
  }

  lemma {:induction false} SeenIsOnTheWire(fields: seq<Field>, s: seq<Byte>, p: Progress, i: nat)
    requires DistinctTags(fields) && ReadFields(fields, s, p).Outcome? && i < |fields| && fields[i].htype.Required?
    ensures i in ReadFields(fields, s, p).progress.seen <==> i in p.seen || fields[i].tag in TagsRead(fields, s, p)
    decreases |s|
  {
    hide DecodeStep;
    if s != [] {
      var step := DecodeStep(fields, s, p);
      if step.Next? {
        StepSees(fields, s, p, i);
        SeenIsOnTheWire(fields, s[step.used..], step.progress, i);
      }
    }
  }

  /** With at most 64 required fields, decoding succeeds exactly if every field could be decoded, the last
      array without a count is complete, and every required field occurred on the wire, in whatever
      order and however often. */
  lemma RequiredFieldsAreChecked(fields: seq<Field>, s: seq<Byte>, m: Message)
    requires DistinctTags(fields) && RequiredBefore(fields, |fields|) <= PB_MAX_REQUIRED_FIELDS
    ensures var o := ReadFields(fields, s, Start(m));
            ReadMessage(fields, s, m).Outcome? <==>
              && o.Outcome? && FixedComplete(fields, o.progress)
              && forall i :: 0 <= i < |fields| && fields[i].htype.Required? ==> fields[i].tag in TagsRead(fields, s, Start(m))
  {
    hide ReadFields, TagsRead;
    var o := ReadFields(fields, s, Start(m));
    if o.Outcome? {
      forall i | 0 <= i < |fields| && fields[i].htype.Required?
        ensures RequiredBefore(fields, i) < PB_MAX_REQUIRED_FIELDS
        ensures i in o.progress.seen <==> fields[i].tag in TagsRead(fields, s, Start(m))
      {
        RequiredGrows(fields, i, |fields|);
        SeenIsOnTheWire(fields, s, Start(m), i);
      }
    }
  }
}
