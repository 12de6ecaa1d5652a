/** The user-visible iterator (db/db_iter.cc): a bidirectional cursor over the key/value map that
    a reader at one sequence number sees, built on an iterator over raw entries. */
module DbIter {
  import opened Common
  import opened Coding
  import opened DbFormat
  import opened Entries

  // ---- The raw iterator ----------------------------------------------------

  function InternalKeyOf(e: Entry): ParsedInternalKey {
    ParsedInternalKey(e.key, e.sequence, e.valueType)
  }

  /** An iterator over sorted entries. One state stands for "not valid", on either side. */
  class InternalIterator {
    const cmp: Comparator
    const entries: seq<Entry>
    var pos: nat

    constructor (cmp: Comparator, entries: seq<Entry>)
      ensures this.cmp == cmp && this.entries == entries && !Valid()
    {
      this.cmp, this.entries, pos := cmp, entries, |entries|;
    }

    predicate Valid()
      reads this
    {
      pos < |entries|
    }

    method SeekToFirst()
      modifies this
      ensures pos == 0
    {
      pos := 0;
    }

    method SeekToLast()
      modifies this
      ensures Valid() <==> entries != []
      ensures Valid() ==> pos == |entries| - 1
    {
      pos := if entries == [] then 0 else |entries| - 1;
    }

    method Next()
      requires Valid()
      modifies this
      ensures pos == old(pos) + 1
    {
      pos := pos + 1;
    }

    method Prev()
      requires Valid()
      modifies this
      ensures if old(pos) == 0 then !Valid() else pos == old(pos) - 1
    {
      pos := if pos == 0 then |entries| else pos - 1;
    }

    /** The first entry at or after the target internal key. */
    method Seek(target: ParsedInternalKey)
      modifies this
      ensures pos <= |entries|
      ensures forall i :: 0 <= i < pos ==> Before(cmp, InternalKeyOf(entries[i]), target)
      ensures Valid() ==> !Before(cmp, InternalKeyOf(entries[pos]), target)
    {
      pos := 0;
      while pos < |entries| && less(pos, target)
        invariant pos <= |entries|
        invariant forall i :: 0 <= i < pos ==> Before(cmp, InternalKeyOf(entries[i]), target)
      {
        pos := pos + 1;
      }
    }

    predicate less(i: nat, target: ParsedInternalKey)
      requires i < |entries|
      ensures less(i, target) <==> Before(cmp, InternalKeyOf(entries[i]), target)
    {
      var e := entries[i];
      || cmp(e.key, target.userKey) < 0
      || (e.key == target.userKey && e.sequence > target.sequence)
      || (e.key == target.userKey && e.sequence == target.sequence && e.valueType == TypeValue && target.valueType == TypeDeletion)
    }
  }

  // ---- The map a reader sees ----------------------------------------------

  /** k has a value for a reader at sequence s. */
  ghost predicate Live(es: seq<Entry>, s: nat, k: UserKey) {
    Lookup(Elements(es), s, k).Some?
  }

  /** r is the smallest live key among the admissible ones, or there is none. */
  ghost predicate IsLeast(cmp: Comparator, es: seq<Entry>, s: nat, admissible: UserKey -> bool, r: Option<UserKey>) {
    match r
    case Some(k) => Live(es, s, k) && admissible(k) && forall j :: Live(es, s, j) && admissible(j) ==> cmp(k, j) <= 0
    case None => forall j :: Live(es, s, j) ==> !admissible(j)
  }

  ghost predicate IsGreatest(cmp: Comparator, es: seq<Entry>, s: nat, admissible: UserKey -> bool, r: Option<UserKey>) {
    match r
    case Some(k) => Live(es, s, k) && admissible(k) && forall j :: Live(es, s, j) && admissible(j) ==> cmp(j, k) <= 0
    case None => forall j :: Live(es, s, j) ==> !admissible(j)
  }

  function After(cmp: Comparator, k: UserKey): UserKey -> bool {
    j => cmp(k, j) < 0
  }

  function AtOrAfter(cmp: Comparator, k: UserKey): UserKey -> bool {
    j => cmp(k, j) <= 0
  }

  function Preceding(cmp: Comparator, k: UserKey): UserKey -> bool {
    j => cmp(j, k) < 0
  }

  const ANY_KEY: UserKey -> bool := _ => true

  // ---- Which entry stands for a live key ----------------------------------

  predicate Seen(es: seq<Entry>, s: nat, i: nat) {
    i < |es| && es[i].sequence <= s
  }

  /** The newest visible entry of its key, and a value. */
  ghost predicate Shown(es: seq<Entry>, s: nat, i: nat) {
    && Seen(es, s, i) && es[i].valueType == TypeValue
    && forall j :: 0 <= j < i && Seen(es, s, j) ==> es[j].key != es[i].key
  }

  lemma ShownIsLive(cmp: Comparator, es: seq<Entry>, s: nat, i: nat)
    requires TotalOrder(cmp) && Sorted(cmp, es) && Shown(es, s, i)
    ensures Lookup(Elements(es), s, es[i].key) == Some(es[i].value)
  {
    var e := es[i];
    forall f | f in Elements(es) && Visible(f, s, e.key) ensures f.sequence <= e.sequence {
      var j :| 0 <= j < |es| && es[j] == f;
      assert i < j ==> EntryBefore(cmp, es[i], es[j]);
      assert cmp(e.key, e.key) == 0;
    }
    SortedIsDistinct(cmp, es);
    assert IsNewest(Elements(es), s, e.key, e);
    LookupIs(Elements(es), s, e.key, e);
  }

  lemma LiveIsShown(cmp: Comparator, es: seq<Entry>, s: nat, k: UserKey) returns (i: nat)
    requires TotalOrder(cmp) && Sorted(cmp, es) && Live(es, s, k)
    ensures Shown(es, s, i) && es[i].key == k
  {
    var e :| IsNewest(Elements(es), s, k, e);
    SortedIsDistinct(cmp, es);
    LookupIs(Elements(es), s, k, e);
    i :| 0 <= i < |es| && es[i] == e;
    forall j | 0 <= j < i && Seen(es, s, j) ensures es[j].key != k {
      assert EntryBefore(cmp, es[j], es[i]);
      assert es[j] in Elements(es);
      assert es[j].key == k ==> Visible(es[j], s, k);
      assert cmp(k, k) == 0;
    }
  }

  lemma KeysAscend(cmp: Comparator, es: seq<Entry>, i: nat, j: nat)
    requires TotalOrder(cmp) && Sorted(cmp, es) && i <= j < |es|
    ensures cmp(es[i].key, es[j].key) <= 0
  {
    assert i < j ==> EntryBefore(cmp, es[i], es[j]);
  }

  lemma ShownKeysAscend(cmp: Comparator, es: seq<Entry>, s: nat, i: nat, j: nat)
    requires TotalOrder(cmp) && Sorted(cmp, es) && Shown(es, s, i) && Shown(es, s, j)
    ensures i < j <==> cmp(es[i].key, es[j].key) < 0
  {
    if i < j {
      KeysAscend(cmp, es, i, j);
    } else if j < i {
      KeysAscend(cmp, es, j, i);
    }
  }

  /** c is the first shown entry past floor; c == |es| says there is none. */
  ghost predicate FirstShown(es: seq<Entry>, s: nat, floor: int, c: nat) {
    && c <= |es| && floor < c && (c < |es| ==> Shown(es, s, c))
    && forall i :: floor < i < c ==> i < 0 || !Shown(es, s, i)
  }

  /** c - 1 is the last shown entry below ceiling; c == 0 says there is none. */
  ghost predicate LastShown(es: seq<Entry>, s: nat, ceiling: nat, c: nat) {
    && c <= ceiling <= |es| && (c > 0 ==> Shown(es, s, c - 1))
    && forall i :: c <= i < ceiling ==> !Shown(es, s, i)
  }

  lemma FirstShownIsLeast(cmp: Comparator, es: seq<Entry>, s: nat, floor: int, c: nat, admissible: UserKey -> bool)
    requires TotalOrder(cmp) && Sorted(cmp, es) && FirstShown(es, s, floor, c)
    requires forall i :: 0 <= i < |es| && Shown(es, s, i) ==> (admissible(es[i].key) <==> floor < i)
    ensures IsLeast(cmp, es, s, admissible, if c < |es| then Some(es[c].key) else None)
    ensures c < |es| ==> Lookup(Elements(es), s, es[c].key) == Some(es[c].value)
  {
    forall k | Live(es, s, k) && admissible(k) ensures c < |es| && cmp(es[c].key, k) <= 0 {
      var i := LiveIsShown(cmp, es, s, k);
      if c <= i {
        KeysAscend(cmp, es, c, i);
      }
    }
    if c < |es| {
      ShownIsLive(cmp, es, s, c);
    }
  }

  lemma LastShownIsGreatest(cmp: Comparator, es: seq<Entry>, s: nat, ceiling: nat, c: nat, admissible: UserKey -> bool)
    requires TotalOrder(cmp) && Sorted(cmp, es) && LastShown(es, s, ceiling, c)
    requires forall i :: 0 <= i < |es| && Shown(es, s, i) ==> (admissible(es[i].key) <==> i < ceiling)
    ensures IsGreatest(cmp, es, s, admissible, if c > 0 then Some(es[c - 1].key) else None)
    ensures c > 0 ==> Lookup(Elements(es), s, es[c - 1].key) == Some(es[c - 1].value)
  {
    forall k | Live(es, s, k) && admissible(k) ensures c > 0 && cmp(k, es[c - 1].key) <= 0 {
      var i := LiveIsShown(cmp, es, s, k);
      if i < c {
        KeysAscend(cmp, es, i, c - 1);
      }
    }
    if c > 0 {
      ShownIsLive(cmp, es, s, c - 1);
    }
  }

  // ---- The iterator --------------------------------------------------------

  datatype Direction = Forward | Reverse

  class DBIter {
    const iter: InternalIterator
    const sequence: nat
    var savedKey: UserKey
    var savedValue: seq<Byte>
    var direction: Direction
    var valid: bool
    /** The shown entry under the cursor. */
    ghost var current: nat

    /** The first raw position not yet passed when moving backwards. */
    function Start(): nat
      reads iter
    {
      if iter.Valid() then iter.pos + 1 else 0
    }

    /** Forward: the raw iterator is on the current entry. Reverse: the current key and value are
        saved; the raw iterator is before all entries of the current key, and what lies between is
        too new to be seen. */
    ghost predicate Inv()
      reads this, iter
    {
      var es := iter.entries;
      && TotalOrder(iter.cmp) && Sorted(iter.cmp, es) && sequence <= MAX_SEQUENCE_NUMBER
      && (valid ==> current < |es| && Shown(es, sequence, current))
      && (valid && direction == Forward ==> iter.pos == current)
      && (valid && direction == Reverse ==>
            && savedKey == es[current].key && savedValue == es[current].value
            && Start() <= current
            && (iter.Valid() ==> iter.cmp(es[iter.pos].key, savedKey) < 0)
            && forall i :: Start() <= i < current ==> !Seen(es, sequence, i))
    }

    /** Key and value under the cursor; nothing when not valid. */
    ghost function At(): Option<(UserKey, seq<Byte>)>
      requires Inv()
      reads this, iter
    {
      if valid then Some((iter.entries[current].key, iter.entries[current].value)) else None
    }

    ghost function KeyAt(): Option<UserKey>
      requires Inv()
      reads this, iter
    {
      if valid then Some(At().value.0) else None
    }

    /** What the cursor shows is what a lookup at the iterator's sequence number returns. */
    ghost predicate Faithful()
      requires Inv()
      reads this, iter
    {
      valid ==> Lookup(Elements(iter.entries), sequence, At().value.0) == Some(At().value.1)
    }

    constructor (iter: InternalIterator, sequence: nat)
      requires TotalOrder(iter.cmp) && Sorted(iter.cmp, iter.entries) && sequence <= MAX_SEQUENCE_NUMBER
      ensures Inv() && !valid && this.iter == iter && this.sequence == sequence
    {
      this.iter, this.sequence := iter, sequence;
      savedKey, savedValue, direction, valid := [], [], Forward, false;
    }

    method Key() returns (k: UserKey)
      requires Inv() && valid
      ensures k == At().value.0
    {
      k := if direction == Forward then iter.entries[iter.pos].key else savedKey;
    }

    method Value() returns (v: seq<Byte>)
      requires Inv() && valid
      ensures v == At().value.1
    {
      v := if direction == Forward then iter.entries[iter.pos].value else savedValue;
    }

    // Invariants of the forward scan at raw position p. Nothing shown lies in (floor, p).
    ghost predicate Skips(p: nat, floor: int, skipping: bool, skip: UserKey) {
      var es := iter.entries;
      && (forall i :: floor < i < p ==> i < 0 || !Shown(es, sequence, i))
      // a key that was seen before p and continues at p is being skipped
      && (forall j, i :: 0 <= j < p <= i < |es| && Seen(es, sequence, j) && es[j].key == es[i].key
                         ==> skipping && iter.cmp(es[i].key, skip) <= 0)
      // what is skipped is not shown, or was shown before
      && (skipping ==> forall i :: p <= i < |es| && iter.cmp(es[i].key, skip) <= 0 ==> i <= floor || !Shown(es, sequence, i))
      && (forall i :: p <= i <= floor && Seen(es, sequence, i) ==> skipping && iter.cmp(es[i].key, skip) <= 0)
      && (skipping ==> forall i :: p <= i < |es| && Seen(es, sequence, i) ==> iter.cmp(skip, es[i].key) <= 0)
    }

    lemma HiddenEntry(p: nat, floor: int, skip: UserKey)
      requires Inv() && p < |iter.entries| && Skips(p, floor, true, skip) && floor < |iter.entries|
      requires iter.cmp(iter.entries[p].key, skip) <= 0 || !Seen(iter.entries, sequence, p)
      ensures Skips(p + 1, floor, true, skip)
    {
    }

    lemma UnseenEntry(p: nat, floor: int, skip: UserKey)
      requires Inv() && p < |iter.entries| && Skips(p, floor, false, skip)
      requires !Seen(iter.entries, sequence, p)
      ensures Skips(p + 1, floor, false, skip)
    {
    }

    lemma DeletionEntry(p: nat, floor: int, skipping: bool, skip: UserKey)
      requires Inv() && p < |iter.entries| && Skips(p, floor, skipping, skip)
      requires Seen(iter.entries, sequence, p) && iter.entries[p].valueType == TypeDeletion
      ensures Skips(p + 1, floor, true, iter.entries[p].key)
    {
      var es := iter.entries;
      forall i | p <= i < |es| ensures iter.cmp(es[p].key, es[i].key) <= 0 {
        KeysAscend(iter.cmp, es, p, i);
      }
    }

    lemma AcceptedEntry(p: nat, floor: int, skipping: bool, skip: UserKey)
      requires Inv() && p < |iter.entries| && Skips(p, floor, skipping, skip)
      requires Seen(iter.entries, sequence, p) && iter.entries[p].valueType == TypeValue
      requires !(skipping && iter.cmp(iter.entries[p].key, skip) <= 0)
      ensures FirstShown(iter.entries, sequence, floor, p) && Shown(iter.entries, sequence, p)
    {
    }

    lemma Exhausted(p: nat, floor: int, skipping: bool, skip: UserKey)
      requires Inv() && p == |iter.entries| && Skips(p, floor, skipping, skip) && floor < |iter.entries|
      ensures FirstShown(iter.entries, sequence, floor, p)
    {
    }

    /** Scans forward to the first shown entry past floor. */
    method FindNextUserEntry(skippingAtStart: bool, skipAtStart: UserKey, ghost floor: int)
      requires Inv() && iter.Valid() && direction == Forward && floor < |iter.entries|
      requires Skips(iter.pos, floor, skippingAtStart, skipAtStart)
      modifies this, iter
      ensures Inv() && direction == Forward
      ensures FirstShown(iter.entries, sequence, floor, if valid then current else |iter.entries|)
    {
      hide TotalOrder, Sorted, Skips, FirstShown, Shown;
      var skipping, skip := skippingAtStart, skipAtStart;
      valid := false;
      while iter.Valid()
        invariant Inv() && direction == Forward && !valid && iter.pos <= |iter.entries|
        invariant Skips(iter.pos, floor, skipping, skip)
        decreases |iter.entries| - iter.pos
      {
        var ikey := iter.entries[iter.pos];
        if ikey.sequence <= sequence {
          match ikey.valueType
          case TypeDeletion =>
            DeletionEntry(iter.pos, floor, skipping, skip);
            skip, skipping := ikey.key, true;
          case TypeValue =>
            if skipping && iter.cmp(ikey.key, skip) <= 0 {
              HiddenEntry(iter.pos, floor, skip);
            } else {
              AcceptedEntry(iter.pos, floor, skipping, skip);
              valid, current := true, iter.pos;
              savedKey := [];
              return;
            }
        } else if skipping {
          HiddenEntry(iter.pos, floor, skip);
        } else {
          UnseenEntry(iter.pos, floor, skip);
        }
        iter.Next();
      }
      Exhausted(iter.pos, floor, skipping, skip);
      savedKey := [];
    }

    // Invariant of the backward scan when the raw positions q and above have been passed: c is the
    // newest value seen for the key being assembled, or there is no candidate.
    ghost predicate Assembles(q: nat, ceiling: nat, valueType: ValueType, c: nat) {
      var es := iter.entries;
      && q <= ceiling <= |es|
      && match valueType
         case TypeDeletion =>
           forall i :: q <= i < ceiling ==> !Shown(es, sequence, i)
         case TypeValue =>
           && q <= c < ceiling && Seen(es, sequence, c) && es[c].valueType == TypeValue
           && (forall i :: q <= i < c ==> !Seen(es, sequence, i))
           && (forall i :: q <= i < ceiling && Shown(es, sequence, i) ==> i == c)
    }

    lemma UnseenBefore(p: nat, ceiling: nat, valueType: ValueType, c: nat)
      requires Inv() && Assembles(p + 1, ceiling, valueType, c) && !Seen(iter.entries, sequence, p)
      ensures Assembles(p, ceiling, valueType, c)
    {
    }

    /** An older sighting of a key gives way to a newer one. */
    lemma NewerSighting(p: nat, ceiling: nat, valueType: ValueType, c: nat)
      requires Inv() && Assembles(p + 1, ceiling, valueType, c) && Seen(iter.entries, sequence, p)
      requires valueType == TypeValue ==> iter.cmp(iter.entries[p].key, iter.entries[c].key) >= 0
      ensures Assembles(p, ceiling, iter.entries[p].valueType, p)
    {
      var es := iter.entries;
      if valueType == TypeValue {
        KeysAscend(iter.cmp, es, p, c);
        assert es[p].key == es[c].key;
      }
    }

    /** The candidate stands once everything before it is either unseen or of a smaller key. */
    lemma CandidateStands(q: nat, ceiling: nat, c: nat)
      requires Inv() && Assembles(q, ceiling, TypeValue, c)
      requires q > 0 ==> iter.cmp(iter.entries[q - 1].key, iter.entries[c].key) < 0
      ensures Shown(iter.entries, sequence, c) && LastShown(iter.entries, sequence, ceiling, c + 1)
    {
      var es := iter.entries;
      forall j | 0 <= j < c && Seen(es, sequence, j) ensures es[j].key != es[c].key {
        if j < q {
          KeysAscend(iter.cmp, es, j, q - 1);
        }
      }
    }

    /** Scans backward to the last shown entry below ceiling. */
    method FindPrevUserEntry(ghost ceiling: nat)
      requires Inv() && !valid && direction == Reverse
      requires Assembles(Start(), ceiling, TypeDeletion, 0)
      modifies this, iter
      ensures Inv() && (direction == Reverse <==> valid)
      ensures LastShown(iter.entries, sequence, ceiling, if valid then current + 1 else 0)
    {
      hide TotalOrder, Sorted, Shown, LastShown;
      var valueType := TypeDeletion;
      ghost var c: nat := 0;
      while iter.Valid()
        invariant Inv() && !valid && direction == Reverse
        invariant Assembles(Start(), ceiling, valueType, c)
        invariant valueType == TypeValue ==> savedKey == iter.entries[c].key && savedValue == iter.entries[c].value
        decreases Start()
      {
        var ikey := iter.entries[iter.pos];
        if ikey.sequence <= sequence {
          if valueType != TypeDeletion && iter.cmp(ikey.key, savedKey) < 0 {
            // a value of an earlier key: the assembled one is complete
            break;
          }
          NewerSighting(iter.pos, ceiling, valueType, c);
          c := iter.pos;
          valueType := ikey.valueType;
          if valueType == TypeDeletion {
            savedKey, savedValue := [], [];
          } else {
            savedKey, savedValue := ikey.key, ikey.value;
          }
        } else {
          UnseenBefore(iter.pos, ceiling, valueType, c);
        }
        iter.Prev();
      }
      if valueType == TypeDeletion {
        savedKey, savedValue, direction := [], [], Forward;
        NoCandidate(ceiling, c);
      } else {
        CandidateStands(Start(), ceiling, c);
        valid, current := true, c;
      }
    }

    lemma NoCandidate(ceiling: nat, c: nat)
      requires Assembles(0, ceiling, TypeDeletion, c)
      ensures LastShown(iter.entries, sequence, ceiling, 0)
    {
    }

    // ---- The public operations --------------------------------------------

    lemma SameKeyBetween(j: nat, p: nat, i: nat)
      requires Inv() && j <= p <= i < |iter.entries| && iter.entries[j].key == iter.entries[i].key
      ensures iter.entries[p].key == iter.entries[i].key
    {
      KeysAscend(iter.cmp, iter.entries, j, p);
      KeysAscend(iter.cmp, iter.entries, p, i);
    }

    lemma HiddenByCurrent(i: nat)
      requires Inv() && valid && current < i < |iter.entries|
      requires iter.cmp(iter.entries[i].key, iter.entries[current].key) <= 0
      ensures !Shown(iter.entries, sequence, i)
    {
      KeysAscend(iter.cmp, iter.entries, current, i);
    }

    lemma ReverseStart()
      requires Inv() && valid && direction == Reverse
      ensures Skips(Start(), current, true, savedKey) && Start() <= current
    {
      hide TotalOrder, Sorted;
      var es := iter.entries;
      forall i | current < i < |es| && iter.cmp(es[i].key, savedKey) <= 0 ensures !Shown(es, sequence, i) {
        HiddenByCurrent(i);
      }
      forall j, i | 0 <= j < Start() <= i < |es| && Seen(es, sequence, j) && es[j].key == es[i].key
        ensures iter.cmp(es[i].key, savedKey) <= 0
      {
        SameKeyBetween(j, iter.pos, i);
      }
      forall i | current <= i < |es| ensures iter.cmp(savedKey, es[i].key) <= 0 {
        KeysAscend(iter.cmp, es, current, i);
      }
      KeysAscend(iter.cmp, es, current, current);
    }

    lemma ForwardStart()
      requires Inv() && valid && direction == Forward
      ensures Skips(current, current, true, iter.entries[current].key)
    {
      var es := iter.entries;
      forall i | current <= i < |es| ensures iter.cmp(es[current].key, es[i].key) <= 0 {
        KeysAscend(iter.cmp, es, current, i);
      }
    }

    /** Shown entries past the current one are those with larger keys. */
    lemma NextIsLeast(was: nat, c: nat)
      requires Inv() && Shown(iter.entries, sequence, was) && FirstShown(iter.entries, sequence, was, c)
      ensures IsLeast(iter.cmp, iter.entries, sequence, After(iter.cmp, iter.entries[was].key),
                      if c < |iter.entries| then Some(iter.entries[c].key) else None)
      ensures c < |iter.entries| ==>
                Lookup(Elements(iter.entries), sequence, iter.entries[c].key) == Some(iter.entries[c].value)
    {
      var es := iter.entries;
      forall i | 0 <= i < |es| && Shown(es, sequence, i)
        ensures After(iter.cmp, es[was].key)(es[i].key) <==> was < i
      {
        ShownKeysAscend(iter.cmp, es, sequence, was, i);
      }
      FirstShownIsLeast(iter.cmp, es, sequence, was, c, After(iter.cmp, es[was].key));
    }

    lemma PrevIsGreatest(was: nat, ceiling: nat, c: nat)
      requires Inv() && Shown(iter.entries, sequence, was) && LastShown(iter.entries, sequence, ceiling, c)
      requires ceiling <= was && forall i :: ceiling <= i < was ==> !Shown(iter.entries, sequence, i)
      ensures IsGreatest(iter.cmp, iter.entries, sequence, Preceding(iter.cmp, iter.entries[was].key),
                         if c > 0 then Some(iter.entries[c - 1].key) else None)
      ensures c > 0 ==>
                Lookup(Elements(iter.entries), sequence, iter.entries[c - 1].key) == Some(iter.entries[c - 1].value)
    {
      var es := iter.entries;
      forall i | 0 <= i < |es| && Shown(es, sequence, i)
        ensures Preceding(iter.cmp, es[was].key)(es[i].key) <==> i < ceiling
      {
        ShownKeysAscend(iter.cmp, es, sequence, i, was);
      }
      LastShownIsGreatest(iter.cmp, es, sequence, ceiling, c, Preceding(iter.cmp, es[was].key));
    }

    /** From the current key to the smallest larger live key. */
    method Next()
      requires Inv() && valid
      modifies this, iter
      ensures Inv() && Faithful()
      ensures IsLeast(iter.cmp, iter.entries, sequence, After(iter.cmp, old(KeyAt()).value), KeyAt())
    {
      hide TotalOrder, Sorted, Skips, Shown, FirstShown, IsLeast;
      ghost var was := current;
      if direction == Reverse {
        ReverseStart();
        direction := Forward;
        if !iter.Valid() {
          iter.SeekToFirst();
        } else {
          iter.Next();
        }
        valid := false;
      } else {
        ForwardStart();
        savedKey := iter.entries[iter.pos].key;
      }
      FindNextUserEntry(true, savedKey, was);
      NextIsLeast(was, if valid then current else |iter.entries|);
    }

    /** Moves the raw iterator back to the last entry of a smaller key; finds none at the front. */
    method SkipBackPastKey(ghost was: nat) returns (found: bool)
      requires Inv() && !valid && direction == Forward && iter.pos == was < |iter.entries|
      requires Shown(iter.entries, sequence, was) && savedKey == iter.entries[was].key
      modifies iter
      ensures Inv() && found == iter.Valid()
      ensures Assembles(Start(), was, TypeDeletion, 0)
    {
      var es := iter.entries;
      while true
        invariant iter.pos <= was && Inv() && !valid
        invariant forall i :: iter.pos <= i < was ==> es[i].key == savedKey && !Shown(es, sequence, i)
        decreases iter.pos
      {
        iter.Prev();
        if !iter.Valid() {
          return false;
        }
        if iter.cmp(es[iter.pos].key, savedKey) < 0 {
          return true;
        }
        KeysAscend(iter.cmp, es, iter.pos, was);
        assert es[iter.pos].key == savedKey;
      }
    }

    lemma ReversePrevStart()
      requires Inv() && valid && direction == Reverse
      ensures Assembles(Start(), current, TypeDeletion, 0)
    {
    }

    /** From the current key to the largest smaller live key. */
    method Prev()
      requires Inv() && valid
      modifies this, iter
      ensures Inv() && Faithful()
      ensures IsGreatest(iter.cmp, iter.entries, sequence, Preceding(iter.cmp, old(KeyAt()).value), KeyAt())
    {
      hide TotalOrder, Sorted, Shown, LastShown, IsGreatest, Assembles;
      ghost var was := current;
      if direction == Forward {
        savedKey := iter.entries[iter.pos].key;
        valid := false;
        var found := SkipBackPastKey(was);
        if !found {
          savedKey, savedValue := [], [];
          NoCandidate(was, 0);
          PrevIsGreatest(was, was, 0);
          return;
        }
        direction := Reverse;
      } else {
        ReversePrevStart();
        valid := false;
      }
      FindPrevUserEntry(was);
      PrevIsGreatest(was, was, if valid then current + 1 else 0);
    }

    /** To the smallest live key at or after the target. */
    method Seek(target: UserKey)
      requires Inv()
      modifies this, iter
      ensures Inv() && Faithful()
      ensures IsLeast(iter.cmp, iter.entries, sequence, AtOrAfter(iter.cmp, target), KeyAt())
    {
      hide TotalOrder, Sorted, Skips, Shown, FirstShown, IsLeast;
      direction, valid := Forward, false;
      savedKey, savedValue := [], [];
      iter.Seek(ParsedInternalKey(target, sequence, VALUE_TYPE_FOR_SEEK));
      ghost var floor: int := iter.pos as int - 1;
      SeekStart(target, iter.pos);
      if iter.Valid() {
        FindNextUserEntry(false, savedKey, floor);
      } else {
        Exhausted(iter.pos, floor, false, savedKey);
      }
      FirstShownIsLeast(iter.cmp, iter.entries, sequence, floor,
                        if valid then current else |iter.entries|, AtOrAfter(iter.cmp, target));
    }

    lemma SeekStart(target: UserKey, start: nat)
      requires Inv() && start <= |iter.entries|
      requires forall i :: 0 <= i < start ==> Before(iter.cmp, InternalKeyOf(iter.entries[i]), ParsedInternalKey(target, sequence, VALUE_TYPE_FOR_SEEK))
      requires start < |iter.entries| ==>
                 !Before(iter.cmp, InternalKeyOf(iter.entries[start]), ParsedInternalKey(target, sequence, VALUE_TYPE_FOR_SEEK))
      ensures Skips(start, start - 1, false, [])
      ensures forall i :: 0 <= i < |iter.entries| && Shown(iter.entries, sequence, i)
                ==> (AtOrAfter(iter.cmp, target)(iter.entries[i].key) <==> start - 1 < i)
    {
      var es := iter.entries;
      forall i | start <= i < |es| ensures iter.cmp(target, es[i].key) <= 0 {
        KeysAscend(iter.cmp, es, start, i);
      }
    }

    /** To the smallest live key. */
    method SeekToFirst()
      requires Inv()
      modifies this, iter
      ensures Inv() && Faithful()
      ensures IsLeast(iter.cmp, iter.entries, sequence, ANY_KEY, KeyAt())
    {
      hide TotalOrder, Sorted, Shown, FirstShown, IsLeast;
      direction, valid := Forward, false;
      savedValue := [];
      iter.SeekToFirst();
      if iter.Valid() {
        FindNextUserEntry(false, savedKey, -1);
      } else {
        Exhausted(0, -1, false, savedKey);
      }
      FirstShownIsLeast(iter.cmp, iter.entries, sequence, -1, if valid then current else |iter.entries|, ANY_KEY);
    }

    /** To the largest live key. */
    method SeekToLast()
      requires Inv()
      modifies this, iter
      ensures Inv() && Faithful()
      ensures IsGreatest(iter.cmp, iter.entries, sequence, ANY_KEY, KeyAt())
    {
      hide TotalOrder, Sorted, Shown, LastShown, IsGreatest;
      direction, valid := Reverse, false;
      savedValue := [];
      iter.SeekToLast();
      FindPrevUserEntry(|iter.entries|);
      LastShownIsGreatest(iter.cmp, iter.entries, sequence, |iter.entries|, if valid then current + 1 else 0, ANY_KEY);
    }
  }

  // ---- Consequences over whole walks --------------------------------------

  /** Stepping back and then forward, or forward and then back, returns to the same key. */
  lemma StepsCancel(cmp: Comparator, es: seq<Entry>, s: nat, k: UserKey, j: UserKey)
    requires TotalOrder(cmp) && Live(es, s, k) && Live(es, s, j)
    ensures IsLeast(cmp, es, s, After(cmp, k), Some(j)) <==> IsGreatest(cmp, es, s, Preceding(cmp, j), Some(k))
  {
  }

  /** The keys met by SeekToFirst and then Next until the cursor is no longer valid. */
  ghost predicate ForwardWalk(cmp: Comparator, es: seq<Entry>, s: nat, ks: seq<UserKey>) {
    && IsLeast(cmp, es, s, ANY_KEY, if ks == [] then None else Some(ks[0]))
    && forall i :: 0 <= i < |ks| ==>
         IsLeast(cmp, es, s, After(cmp, ks[i]), if i + 1 < |ks| then Some(ks[i + 1]) else None)
  }

  /** The keys met by SeekToLast and then Prev until the cursor is no longer valid. */
  ghost predicate BackwardWalk(cmp: Comparator, es: seq<Entry>, s: nat, ks: seq<UserKey>) {
    && IsGreatest(cmp, es, s, ANY_KEY, if ks == [] then None else Some(ks[0]))
    && forall i :: 0 <= i < |ks| ==>
         IsGreatest(cmp, es, s, Preceding(cmp, ks[i]), if i + 1 < |ks| then Some(ks[i + 1]) else None)
  }

  lemma {:induction false} ForwardWalkAscends(cmp: Comparator, es: seq<Entry>, s: nat, ks: seq<UserKey>, i: nat, j: nat)
    requires TotalOrder(cmp) && ForwardWalk(cmp, es, s, ks) && i < j < |ks|
    ensures cmp(ks[i], ks[j]) < 0
    decreases j
  {
    assert IsLeast(cmp, es, s, After(cmp, ks[j - 1]), Some(ks[j]));
    if i < j - 1 {
      ForwardWalkAscends(cmp, es, s, ks, i, j - 1);
    }
  }

  lemma {:induction false} WalkStaysBelow(cmp: Comparator, es: seq<Entry>, s: nat, ks: seq<UserKey>, k: UserKey, n: nat)
    requires TotalOrder(cmp) && ForwardWalk(cmp, es, s, ks) && n <= |ks|
    requires Live(es, s, k) && k !in ks
    ensures n < |ks| && cmp(ks[n], k) < 0
  {
    if n == 0 {
      assert ANY_KEY(k);
    } else {
      WalkStaysBelow(cmp, es, s, ks, k, n - 1);
      assert After(cmp, ks[n - 1])(k);
      assert IsLeast(cmp, es, s, After(cmp, ks[n - 1]), if (n - 1) + 1 < |ks| then Some(ks[(n - 1) + 1]) else None);
    }
  }

  lemma WalkIsLive(cmp: Comparator, es: seq<Entry>, s: nat, ks: seq<UserKey>, i: nat)
    requires ForwardWalk(cmp, es, s, ks) && i < |ks|
    ensures Live(es, s, ks[i])
  {
    if i > 0 {
      assert IsLeast(cmp, es, s, After(cmp, ks[i - 1]), Some(ks[i]));
    }
  }

  /** A forward walk meets every key that has a value at s, and nothing else, once, in order. */
  lemma ForwardWalkMeetsAll(cmp: Comparator, es: seq<Entry>, s: nat, ks: seq<UserKey>)
    requires TotalOrder(cmp) && ForwardWalk(cmp, es, s, ks)
    ensures forall k :: Live(es, s, k) <==> k in ks
    ensures forall i, j :: 0 <= i < j < |ks| ==> cmp(ks[i], ks[j]) < 0
  {
    forall k ensures Live(es, s, k) <==> k in ks {
      if Live(es, s, k) && k !in ks {
        WalkStaysBelow(cmp, es, s, ks, k, |ks|);
      }
      if i :| 0 <= i < |ks| && ks[i] == k {
        WalkIsLive(cmp, es, s, ks, i);
      }
    }
    forall i, j | 0 <= i < j < |ks| {
      ForwardWalkAscends(cmp, es, s, ks, i, j);
    }
  }

  lemma {:induction false} BackwardMirrorsAt(cmp: Comparator, es: seq<Entry>, s: nat, f: seq<UserKey>, b: seq<UserKey>, i: nat)
    requires TotalOrder(cmp) && ForwardWalk(cmp, es, s, f) && BackwardWalk(cmp, es, s, b) && i <= |f|
    ensures if i < |f| then i < |b| && b[i] == f[|f| - 1 - i] else i == |b|
  {
    hide IsLeast;
    if i > 0 {
      BackwardMirrorsAt(cmp, es, s, f, b, i - 1);
    }
    var before := if i == 0 then ANY_KEY else Preceding(cmp, b[i - 1]);
    assert IsGreatest(cmp, es, s, before, if i < |b| then Some(b[i]) else None);
    if i == |f| {
      if i > 0 { assert IsLeast(cmp, es, s, ANY_KEY, Some(f[0])); }
      NothingBelowFirst(cmp, es, s, f, before);
    } else {
      var j := |f| - 1 - i;
      WalkIsLive(cmp, es, s, f, j);
      if i > 0 {
        WalkIsLive(cmp, es, s, f, j + 1);
        StepsCancel(cmp, es, s, f[j], f[j + 1]);
      } else {
        LastIsGreatest(cmp, es, s, f);
      }
      assert IsGreatest(cmp, es, s, before, Some(f[j]));
      GreatestUnique(cmp, es, s, before, f[j], if i < |b| then Some(b[i]) else None);
    }
  }

  lemma GreatestUnique(cmp: Comparator, es: seq<Entry>, s: nat, admissible: UserKey -> bool, k: UserKey, r: Option<UserKey>)
    requires TotalOrder(cmp) && IsGreatest(cmp, es, s, admissible, Some(k)) && IsGreatest(cmp, es, s, admissible, r)
    ensures r == Some(k)
  {
  }

  lemma LastIsGreatest(cmp: Comparator, es: seq<Entry>, s: nat, f: seq<UserKey>)
    requires TotalOrder(cmp) && ForwardWalk(cmp, es, s, f) && f != []
    ensures IsGreatest(cmp, es, s, ANY_KEY, Some(f[|f| - 1]))
  {
    ForwardWalkMeetsAll(cmp, es, s, f);
  }

  lemma NothingBelowFirst(cmp: Comparator, es: seq<Entry>, s: nat, f: seq<UserKey>, admissible: UserKey -> bool)
    requires TotalOrder(cmp) && ForwardWalk(cmp, es, s, f)
    requires admissible == if f == [] then ANY_KEY else Preceding(cmp, f[0])
    ensures forall k :: Live(es, s, k) ==> !admissible(k)
  {
    forall k | Live(es, s, k) ensures !admissible(k) {
      assert ANY_KEY(k);
    }
  }

  /** Walking backward meets the same keys as walking forward, in the opposite order. */
  lemma BackwardMirrorsForward(cmp: Comparator, es: seq<Entry>, s: nat, f: seq<UserKey>, b: seq<UserKey>)
    requires TotalOrder(cmp) && ForwardWalk(cmp, es, s, f) && BackwardWalk(cmp, es, s, b)
    ensures |b| == |f| && forall i :: 0 <= i < |f| ==> b[i] == f[|f| - 1 - i]
  {
    BackwardMirrorsAt(cmp, es, s, f, b, |f|);
    forall i | 0 <= i < |f| ensures b[i] == f[|f| - 1 - i] {
      BackwardMirrorsAt(cmp, es, s, f, b, i);
    }
  }
}
