/** The compaction loop (db/db_impl.cc, DBImpl::DoCompactionWork and the output-file helpers;
    db/version_set.cc, Compaction::IsBaseLevelForKey). */
module CompactionJob {
  import opened Common
  import opened DbFormat
  import opened Entries
  import opened Compaction

  // ---- Which levels still hold a key --------------------------------------

  datatype FileRange = FileRange(smallest: UserKey, largest: UserKey)

  predicate InRange(cmp: Comparator, f: FileRange, k: UserKey) {
    cmp(k, f.largest) <= 0 && cmp(k, f.smallest) >= 0
  }

  ghost predicate LevelCovers(cmp: Comparator, files: seq<FileRange>, k: UserKey) {
    exists i :: 0 <= i < |files| && InRange(cmp, files[i], k)
  }

  ghost predicate NoFileCovers(cmp: Comparator, levels: seq<seq<FileRange>>, k: UserKey) {
    forall l :: 0 <= l < |levels| ==> !LevelCovers(cmp, levels[l], k)
  }

  /** The files of a level are in the order of their smallest keys. */
  ghost predicate LevelSorted(cmp: Comparator, files: seq<FileRange>) {
    forall i, j :: 0 <= i < j < |files| ==> cmp(files[i].smallest, files[j].smallest) <= 0
  }

  ghost predicate LevelsSorted(cmp: Comparator, levels: seq<seq<FileRange>>) {
    forall l :: 0 <= l < |levels| ==> LevelSorted(cmp, levels[l])
  }

  /** The level_ptrs_ cursor of a compaction: one position per level, moved forward only. */
  class BaseLevelCursor {
    const cmp: Comparator
    const levels: seq<seq<FileRange>>
    var ptrs: seq<nat>

    ghost predicate Valid()
      reads this
    {
      && TotalOrder(cmp) && LevelsSorted(cmp, levels)
      && |ptrs| == |levels| && forall l :: 0 <= l < |levels| ==> ptrs[l] <= |levels[l]|
    }

    /** Everything the cursor has passed lies before k. */
    ghost predicate Passed(k: UserKey)
      requires Valid()
      reads this
    {
      forall l, i :: 0 <= l < |levels| && 0 <= i < ptrs[l] ==> cmp(levels[l][i].largest, k) < 0
    }

    constructor (cmp: Comparator, levels: seq<seq<FileRange>>)
      requires TotalOrder(cmp) && LevelsSorted(cmp, levels)
      ensures Valid() && this.cmp == cmp && this.levels == levels && forall k :: Passed(k)
    {
      this.cmp, this.levels := cmp, levels;
      ptrs := seq(|levels|, _ => 0);
    }

    lemma PassedLater(k: UserKey, later: UserKey)
      requires Valid() && Passed(k) && cmp(k, later) <= 0
      ensures Passed(later)
    {
    }

    /** Moves one level's position up to the first file that ends at or after the key. */
    method AdvanceLevel(lvl: nat, userKey: UserKey) returns (covered: bool)
      requires Valid() && Passed(userKey) && lvl < |levels|
      modifies this
      ensures Valid() && Passed(userKey)
      ensures covered <==> LevelCovers(cmp, levels[lvl], userKey)
    {
      var files := levels[lvl];
      while ptrs[lvl] < |files| && cmp(userKey, files[ptrs[lvl]].largest) > 0
        invariant Valid() && Passed(userKey)
        decreases |files| - ptrs[lvl]
      {
        ptrs := ptrs[lvl := ptrs[lvl] + 1];
      }
      covered := ptrs[lvl] < |files| && cmp(userKey, files[ptrs[lvl]].smallest) >= 0;
      AdvancedFar(files, ptrs[lvl], userKey);
    }

    lemma AdvancedFar(files: seq<FileRange>, ptr: nat, k: UserKey)
      requires TotalOrder(cmp) && LevelSorted(cmp, files) && ptr <= |files|
      requires forall i :: 0 <= i < ptr ==> cmp(files[i].largest, k) < 0
      requires ptr < |files| ==> cmp(k, files[ptr].largest) <= 0
      ensures ptr < |files| && cmp(k, files[ptr].smallest) >= 0 <==> LevelCovers(cmp, files, k)
    {
      if ptr < |files| && cmp(k, files[ptr].smallest) < 0 {
        forall i | 0 <= i < |files| ensures !InRange(cmp, files[i], k) {
          if ptr < i {
            assert files[ptr].smallest == files[i].smallest || cmp(files[ptr].smallest, files[i].smallest) < 0;
          }
        }
      }
    }

    method IsBaseLevelForKey(userKey: UserKey) returns (r: bool)
      requires Valid() && Passed(userKey)
      modifies this
      ensures Valid() && Passed(userKey)
      ensures r <==> NoFileCovers(cmp, levels, userKey)
    {
      for lvl := 0 to |levels|
        invariant Valid() && Passed(userKey)
        invariant forall l :: 0 <= l < lvl ==> !LevelCovers(cmp, levels[l], userKey)
      {
        var covered := AdvanceLevel(lvl, userKey);
        if covered {
          return false;
        }
      }
      return true;
    }
  }

  // ---- What the loop keeps, entry by entry --------------------------------

  /** The value of last_sequence_for_key when the loop looks at input[i]. */
  function LastSequenceForKey(input: seq<Entry>, i: nat): nat
    requires i < |input|
  {
    if i > 0 && input[i - 1].key == input[i].key then input[i - 1].sequence else MAX_SEQUENCE_NUMBER
  }

  ghost predicate Drop(input: seq<Entry>, smallest: nat, base: UserKey -> bool, i: nat)
    requires i < |input|
  {
    LastSequenceForKey(input, i) <= smallest || ObsoleteDeletion(smallest, base, input[i])
  }

  ghost function KeptPrefix(input: seq<Entry>, smallest: nat, base: UserKey -> bool, n: nat): seq<Entry>
    requires n <= |input|
  {
    if n == 0 then []
    else if Drop(input, smallest, base, n - 1) then KeptPrefix(input, smallest, base, n - 1)
    else KeptPrefix(input, smallest, base, n - 1) + [input[n - 1]]
  }

  /** The one-entry look-back of the loop decides the same as the whole set does. */
  lemma DropIsNotKept(cmp: Comparator, input: seq<Entry>, smallest: nat, base: UserKey -> bool, i: nat)
    requires TotalOrder(cmp) && Sorted(cmp, input) && smallest < MAX_SEQUENCE_NUMBER && i < |input|
    ensures Drop(input, smallest, base, i) <==> input[i] !in Kept(Elements(input), smallest, base)
  {
    var e := input[i];
    if i > 0 && input[i - 1].key == e.key {
      assert EntryBefore(cmp, input[i - 1], e) && cmp(e.key, e.key) == 0;
      if input[i - 1].sequence <= smallest {
        assert Hides(input[i - 1], smallest, e);
      }
    }
    if f :| f in Elements(input) && Hides(f, smallest, e) {
      var j :| 0 <= j < |input| && input[j] == f;
      assert cmp(e.key, e.key) == 0;
      assert j < i;
      if j < i - 1 {
        var p := input[i - 1];
        assert EntryBefore(cmp, f, p) && EntryBefore(cmp, p, e);
        assert cmp(f.key, p.key) < 0 ==> cmp(p.key, e.key) >= 0;
      }
    }
  }

  lemma {:induction false} KeptPrefixSorted(cmp: Comparator, input: seq<Entry>, smallest: nat, base: UserKey -> bool, n: nat)
    requires TotalOrder(cmp) && Sorted(cmp, input) && n <= |input|
    ensures Sorted(cmp, KeptPrefix(input, smallest, base, n))
    ensures forall e :: e in KeptPrefix(input, smallest, base, n)
                        <==> exists i :: 0 <= i < n && input[i] == e && !Drop(input, smallest, base, i)
  {
    if n > 0 {
      KeptPrefixSorted(cmp, input, smallest, base, n - 1);
      var shorter, longer := KeptPrefix(input, smallest, base, n - 1), KeptPrefix(input, smallest, base, n);
      forall e ensures e in longer <==> e in shorter || (e == input[n - 1] && !Drop(input, smallest, base, n - 1)) {
      }
      forall i, j | 0 <= i < j < |longer| ensures EntryBefore(cmp, longer[i], longer[j]) {
        if j == |shorter| {
          assert shorter[i] in shorter;
        }
      }
    }
  }

  /** The loop keeps exactly the entries that Kept keeps, in strictly increasing order. */
  lemma LoopKeepsKept(cmp: Comparator, input: seq<Entry>, smallest: nat, base: UserKey -> bool)
    requires TotalOrder(cmp) && Sorted(cmp, input) && smallest < MAX_SEQUENCE_NUMBER
    ensures Sorted(cmp, KeptPrefix(input, smallest, base, |input|))
    ensures Elements(KeptPrefix(input, smallest, base, |input|)) == Kept(Elements(input), smallest, base)
  {
    KeptPrefixSorted(cmp, input, smallest, base, |input|);
    forall i | 0 <= i < |input| {
      DropIsNotKept(cmp, input, smallest, base, i);
    }
  }

  /** The loop lets nothing through that no reader needs: of a key, one entry at or below smallest_snapshot, and
      no deletion marker there whose key has nothing further down. */
  lemma LoopDropsEnough(cmp: Comparator, input: seq<Entry>, smallest: nat, base: UserKey -> bool, i: nat)
    requires TotalOrder(cmp) && Sorted(cmp, input) && smallest < MAX_SEQUENCE_NUMBER
    requires i < |KeptPrefix(input, smallest, base, |input|)|
    ensures var output := KeptPrefix(input, smallest, base, |input|);
            && (output[i].sequence <= smallest ==> forall j :: i < j < |output| ==> output[j].key != output[i].key)
            && (output[i].sequence <= smallest && base(output[i].key) ==> output[i].valueType == TypeValue)
  {
    var output, kept := KeptPrefix(input, smallest, base, |input|), Kept(Elements(input), smallest, base);
    LoopKeepsKept(cmp, input, smallest, base);
    hide Kept, KeptPrefix;
    assert output[i] in Elements(output);
    SortedIsDistinct(cmp, input);
    NothingElseIsKept(Elements(input), smallest, base, output[i].key);
    forall j | i < j < |output| && output[i].sequence <= smallest ensures output[j].key != output[i].key {
      assert output[j] in Elements(output) && EntryBefore(cmp, output[i], output[j]);
    }
  }

  /** At the largest sequence number the loop's "no previous entry" mark reads as a hiding entry, and
      everything is dropped. */
  lemma {:induction false} MaxSnapshotDropsEverything(cmp: Comparator, input: seq<Entry>, base: UserKey -> bool, n: nat)
    requires Sorted(cmp, input) && n <= |input|
    ensures KeptPrefix(input, MAX_SEQUENCE_NUMBER, base, n) == []
  {
    if n > 0 {
      MaxSnapshotDropsEverything(cmp, input, base, n - 1);
    }
  }

  // ---- Output files --------------------------------------------------------

  /** A finished or current output table; smallest and largest stay cleared until an entry is added. */
  datatype Output = Output(number: nat, smallest: Option<Entry>, largest: Option<Entry>, entries: seq<Entry>)

  function Flatten(outputs: seq<Output>): seq<Entry> {
    if outputs == [] then [] else Flatten(outputs[..|outputs| - 1]) + outputs[|outputs| - 1].entries
  }

  predicate GoodOutput(o: Output) {
    && o.entries != []
    && o.smallest == Some(o.entries[0]) && o.largest == Some(o.entries[|o.entries| - 1])
  }

  /** File numbers come from a counter, one after another. */
  ghost predicate Numbered(outputs: seq<Output>, first: nat, next: nat) {
    first + |outputs| == next && forall i :: 0 <= i < |outputs| ==> outputs[i].number == first + i
  }

  ghost function Numbers(outputs: seq<Output>): set<nat> {
    set i | 0 <= i < |outputs| :: outputs[i].number
  }

  datatype VersionEdit = VersionEdit(deleted: set<nat>, added: seq<Output>)

  class CompactionState {
    const cmp: Comparator
    const input: seq<Entry>
    const inputFiles: set<nat>
    const smallestSnapshot: nat
    const cursor: BaseLevelCursor
    const firstNumber: nat

    var outputs: seq<Output>
    var builder: bool
    var nextFileNumber: nat
    var pendingOutputs: set<nat>
    var shuttingDown: bool
    var bgError: bool

    ghost function Base(): UserKey -> bool {
      k => NoFileCovers(cursor.cmp, cursor.levels, k)
    }

    ghost function KeptUpTo(n: nat): seq<Entry>
      requires n <= |input|
    {
      KeptPrefix(input, smallestSnapshot, Base(), n)
    }

    ghost predicate Valid()
      reads this, cursor
    {
      && cursor.Valid() && cursor.cmp == cmp && Sorted(cmp, input)
      && Numbered(outputs, firstNumber, nextFileNumber)
      && Numbers(outputs) <= pendingOutputs
      && (builder ==> outputs != [])
      && (forall i :: 0 <= i < |outputs| - (if builder then 1 else 0) ==> GoodOutput(outputs[i]))
      && (builder ==> var o := outputs[|outputs| - 1];
                      GoodOutput(o) || (o.entries == [] && o.smallest == None && o.largest == None))
    }

    constructor (cmp: Comparator, input: seq<Entry>, inputFiles: set<nat>, smallestSnapshot: nat,
                 cursor: BaseLevelCursor, nextFileNumber: nat, pendingOutputs: set<nat>)
      requires Sorted(cmp, input) && cursor.Valid() && cursor.cmp == cmp
      ensures Valid() && outputs == [] && !builder && !bgError
      ensures this.cmp == cmp && this.input == input && this.inputFiles == inputFiles
      ensures this.smallestSnapshot == smallestSnapshot && this.cursor == cursor
      ensures this.nextFileNumber == nextFileNumber && this.pendingOutputs == pendingOutputs
    {
      this.cmp, this.input, this.inputFiles, this.cursor := cmp, input, inputFiles, cursor;
      this.smallestSnapshot, this.firstNumber, this.nextFileNumber := smallestSnapshot, nextFileNumber, nextFileNumber;
      this.pendingOutputs := pendingOutputs;
      outputs, builder, shuttingDown, bgError := [], false, false, false;
    }

    /** The number is reserved before the file is created; creating it may fail. */
    method OpenCompactionOutputFile() returns (status: Status)
      requires Valid() && !builder
      modifies this
      ensures status == Ok ==> Valid() && builder
      ensures Flatten(outputs) == old(Flatten(outputs))
      ensures Numbered(outputs, firstNumber, nextFileNumber) && Numbers(outputs) <= pendingOutputs
      ensures pendingOutputs == old(pendingOutputs) + {old(nextFileNumber)}
      ensures bgError == old(bgError) && shuttingDown == old(shuttingDown) && cursor.Valid()
    {
      var fileNumber := nextFileNumber;
      nextFileNumber := nextFileNumber + 1;
      pendingOutputs := pendingOutputs + {fileNumber};
      outputs := outputs + [Output(fileNumber, None, None, [])];
      assert outputs[..|outputs| - 1] == old(outputs);
      status := *;
      builder := status == Ok;
    }

    /** Input or file errors make the finished table unusable. */
    method FinishCompactionOutputFile(inputStatus: Status) returns (status: Status)
      requires Valid() && builder && outputs[|outputs| - 1].entries != []
      modifies this`builder
      ensures Valid() && !builder
      ensures inputStatus == Error ==> status == Error
    {
      status := *;
      if inputStatus == Error {
        status := Error;
      }
      builder := false;
    }

    /** Appends to the current table and widens its bounds. */
    method Add(e: Entry)
      requires Valid() && builder
      modifies this`outputs
      ensures Valid() && |outputs| == |old(outputs)| && outputs[|outputs| - 1].entries != []
      ensures Flatten(outputs) == old(Flatten(outputs)) + [e]
    {
      var n := |outputs| - 1;
      var o := outputs[n];
      var smallest := if o.entries == [] then Some(e) else o.smallest;
      outputs := outputs[n := Output(o.number, smallest, Some(e), o.entries + [e])];
      assert outputs[..n] == old(outputs)[..n];
    }

    lemma SameKey(a: UserKey, b: UserKey)
      requires Valid()
      ensures cmp(a, b) == 0 <==> a == b
    {
    }

    method ShouldDrop(i: nat, lastSequenceForKey: nat) returns (drop: bool)
      requires Valid() && i < |input| && cursor.Passed(input[i].key)
      requires lastSequenceForKey == LastSequenceForKey(input, i)
      modifies cursor
      ensures Valid() && cursor.Passed(input[i].key)
      ensures drop <==> Drop(input, smallestSnapshot, Base(), i)
    {
      var e := input[i];
      if lastSequenceForKey <= smallestSnapshot {
        drop := true; // (A)
      } else if e.valueType == TypeDeletion && e.sequence <= smallestSnapshot {
        drop := cursor.IsBaseLevelForKey(e.key);
      } else {
        drop := false;
      }
    }

    /** Writes one entry out, opening and closing output tables as needed. When no table can be
        opened the entry is not written. */
    method Keep(e: Entry, inputStatus: Status) returns (status: Status)
      requires Valid()
      modifies this
      ensures status == Ok ==> Valid() && (builder ==> outputs[|outputs| - 1].entries != [])
      ensures status == Ok ==> Flatten(outputs) == old(Flatten(outputs)) + [e]
      ensures Flatten(outputs) <= old(Flatten(outputs)) + [e]
      ensures Numbered(outputs, firstNumber, nextFileNumber) && Numbers(outputs) <= pendingOutputs
      ensures bgError == old(bgError) && shuttingDown == old(shuttingDown)
    {
      if !builder {
        status := OpenCompactionOutputFile();
        if status == Error {
          return;
        }
      }
      Add(e);
      status := Ok;
      var bigEnough: bool := *;
      if bigEnough {
        status := FinishCompactionOutputFile(inputStatus);
      }
    }

    lemma Advance(i: nat)
      requires Valid() && 0 < i <= |input| && cursor.Passed(input[i - 1].key)
      ensures i < |input| ==> cursor.Passed(input[i].key)
    {
      if i < |input| {
        assert EntryBefore(cmp, input[i - 1], input[i]);
        cursor.PassedLater(input[i - 1].key, input[i].key);
      }
    }

    lemma {:induction false} KeptGrows(n: nat, m: nat)
      requires n <= m <= |input|
      ensures KeptUpTo(n) <= KeptUpTo(m)
      decreases m - n
    {
      if n < m {
        KeptGrows(n + 1, m);
      }
    }

    /** One round of the loop, from ShouldStopBefore to the closing of a full table. */
    method ProcessEntry(i: nat, lastSequenceForKey: nat, inputStatus: Status) returns (status: Status)
      requires Valid() && i < |input| && cursor.Passed(input[i].key) && !bgError
      requires builder ==> outputs[|outputs| - 1].entries != []
      requires lastSequenceForKey == LastSequenceForKey(input, i)
      requires Flatten(outputs) == KeptUpTo(i)
      modifies this, cursor
      ensures status == Ok ==> Valid() && (builder ==> outputs[|outputs| - 1].entries != [])
      ensures status == Ok ==> Flatten(outputs) == KeptUpTo(i + 1)
      ensures status == Ok && i + 1 < |input| ==> cursor.Passed(input[i + 1].key)
      ensures Flatten(outputs) <= KeptUpTo(i + 1)
      ensures Numbered(outputs, firstNumber, nextFileNumber) && Numbers(outputs) <= pendingOutputs
      ensures bgError == old(bgError) && shuttingDown == old(shuttingDown)
    {
      hide TotalOrder;
      status := Ok;
      var shouldStopBefore: bool := *;
      if shouldStopBefore && builder {
        status := FinishCompactionOutputFile(inputStatus);
        if status == Error {
          return;
        }
      }
      var drop := ShouldDrop(i, lastSequenceForKey);
      Advance(i + 1);
      if !drop {
        status := Keep(input[i], inputStatus);
      }
    }

    /** The end of the run: close the last table, look at the input once more, install or give up. */
    method Conclude(inputStatus: Status) returns (edit: Option<VersionEdit>)
      requires Valid() && !bgError && (builder ==> outputs[|outputs| - 1].entries != [])
      modifies this`builder, this`bgError
      ensures edit.Some? ==> inputStatus == Ok && !shuttingDown && edit.value == VersionEdit(inputFiles, outputs)
      ensures edit.Some? ==> forall i :: 0 <= i < |outputs| ==> GoodOutput(outputs[i])
      ensures bgError <==> edit.None?
    {
      var status := if shuttingDown then Error else Ok;
      if status == Ok && builder {
        status := FinishCompactionOutputFile(inputStatus);
      }
      if status == Ok {
        status := inputStatus;
      }
      if status == Ok {
        edit := Some(VersionEdit(inputFiles, outputs));
      } else {
        edit := None;
        bgError := true;
      }
    }

    /** Merges the inputs into output tables. If there is an edit, the whole input was consumed and the tables
        hold what is kept of it, each with its true bounds. If there is none, they hold a prefix of that.
        An error is recorded exactly when there is no edit. */
    method DoCompactionWork() returns (edit: Option<VersionEdit>)
      requires Valid() && outputs == [] && !builder && !bgError
      requires forall k :: cursor.Passed(k)
      modifies this, cursor
      ensures edit.Some? ==> Flatten(outputs) == KeptUpTo(|input|)
      ensures edit.Some? ==> edit.value == VersionEdit(inputFiles, outputs)
      ensures edit.Some? ==> forall i :: 0 <= i < |outputs| ==> GoodOutput(outputs[i])
      ensures Flatten(outputs) <= KeptUpTo(|input|)
      ensures Numbered(outputs, firstNumber, nextFileNumber) && Numbers(outputs) <= pendingOutputs
      ensures bgError <==> edit.None?
    {
      hide TotalOrder, LevelsSorted, Sorted, Numbered, Numbers, GoodOutput, NoFileCovers, Drop, EntryBefore;
      var status, inputStatus := Ok, Ok;
      var i := 0;
      var currentUserKey: UserKey := [];
      var hasCurrentUserKey := false;
      var lastSequenceForKey := MAX_SEQUENCE_NUMBER;
      shuttingDown := *;
      while i < |input| && inputStatus == Ok && !shuttingDown
        invariant 0 <= i <= |input| && Valid() && status == Ok && !bgError
        invariant hasCurrentUserKey <==> i > 0
        invariant i > 0 ==> currentUserKey == input[i - 1].key && lastSequenceForKey == input[i - 1].sequence
        invariant Flatten(outputs) == KeptUpTo(i)
        invariant builder ==> outputs[|outputs| - 1].entries != []
        invariant i < |input| ==> cursor.Passed(input[i].key)
        decreases |input| - i
      {
        KeptGrows(i + 1, |input|);
        var e := input[i];
        SameKey(e.key, currentUserKey);
        if !hasCurrentUserKey || cmp(e.key, currentUserKey) != 0 {
          currentUserKey, hasCurrentUserKey, lastSequenceForKey := e.key, true, MAX_SEQUENCE_NUMBER;
        }
        status := ProcessEntry(i, lastSequenceForKey, inputStatus);
        if status == Error {
          bgError := true;
          return None;
        }
        lastSequenceForKey := e.sequence;
        i := i + 1;
        inputStatus := *;
        var stopping: bool := *;
        shuttingDown := shuttingDown || stopping;
      }
      KeptGrows(i, |input|);

      edit := Conclude(inputStatus);
    }
  }
}
