/** The compaction job, as the program runs it, is the engine's compaction step: its inputs are picked as
    the engine wants them, and its outputs are what the engine waits for. */
module CompactionStep {
  import opened Entries
  import opened Compaction
  import opened CompactionJob
  import opened Versions
  import opened VersionEdits
  import opened Picks
  import opened FileMetas
  import DbFormat
  import Picking
  import Engine

  // ---- Inputs --------------------------------------------------------------

  function RangesOf(files: seq<FileMeta>): seq<FileRange> {
    seq(|files|, i requires 0 <= i < |files| => FileRange(files[i].smallest.key, files[i].largest.key))
  }

  /** The levels that IsBaseLevelForKey looks at. */
  function LowerRanges(files: seq<seq<FileMeta>>, from: nat): seq<seq<FileRange>> {
    if from + 2 > |files| then [] else seq(|files| - from - 2, i requires 0 <= i < |files| - from - 2 => RangesOf(files[from + 2 + i]))
  }

  lemma RangesSorted(cmp: DbFormat.Comparator, files: seq<FileMeta>)
    requires DbFormat.TotalOrder(cmp) && SortedBySmallest(cmp, files)
    ensures LevelSorted(cmp, RangesOf(files))
  {
    hide DbFormat.TotalOrder;
    forall i, j | 0 <= i < j < |files| ensures cmp(files[i].smallest.key, files[j].smallest.key) <= 0 {
      assert !EntryBefore(cmp, files[j].smallest, files[i].smallest);
      KeyTurned(cmp, files[i].smallest.key, files[j].smallest.key);
    }
  }

  lemma LowerRangesSorted(cmp: DbFormat.Comparator, v: Version, tables: Tables, files: seq<seq<FileMeta>>, from: nat)
    requires DbFormat.TotalOrder(cmp) && Lists(cmp, v, tables, files)
    ensures LevelsSorted(cmp, LowerRanges(files, from))
  {
    hide Lists, DbFormat.TotalOrder, LevelSorted;
    var levels := LowerRanges(files, from);
    forall l | 0 <= l < |levels| ensures LevelSorted(cmp, levels[l]) {
      ListsLevel(cmp, v, tables, files, from + 2 + l);
      RangesSorted(cmp, files[from + 2 + l]);
      assert levels[l] == RangesOf(files[from + 2 + l]);
    }
  }

  /** A file covers a key as the cursor sees it exactly when the key lies within what is in the file. */
  lemma CoversIsSpans(cmp: DbFormat.Comparator, tables: Tables, f: FileMeta, k: DbFormat.UserKey)
    requires DbFormat.TotalOrder(cmp) && Describes(cmp, tables, f)
    ensures InRange(cmp, FileRange(f.smallest.key, f.largest.key), k) <==> Spans(cmp, EntriesOf(tables, f.number), k)
  {
    hide DbFormat.TotalOrder;
    KeyTurned(cmp, f.smallest.key, k);
    KeyTurned(cmp, f.largest.key, k);
    if e, x :| e in EntriesOf(tables, f.number) && cmp(e.key, k) <= 0 && x in EntriesOf(tables, f.number) && cmp(x.key, k) >= 0 {
      BeforeOrdersKeys(cmp, f.smallest, e);
      BeforeOrdersKeys(cmp, x, f.largest);
      KeyTurned(cmp, x.key, k);
      KeyTurned(cmp, x.key, f.largest.key);
      Picking.NotLess(cmp, f.smallest.key, e.key, k);
      Picking.NotLess(cmp, k, x.key, f.largest.key);
    }
  }

  lemma KeyTurned(cmp: DbFormat.Comparator, a: DbFormat.UserKey, b: DbFormat.UserKey)
    requires DbFormat.TotalOrder(cmp)
    ensures cmp(a, b) <= 0 <==> cmp(b, a) >= 0
    ensures cmp(a, b) >= 0 <==> cmp(b, a) <= 0
  {
  }

  /** The range test behind IsBaseLevelForKey is the base that the engine's compaction goes by. */
  lemma BaseIsNoFileCovers(cmp: DbFormat.Comparator, v: Version, tables: Tables, files: seq<seq<FileMeta>>, from: nat, k: DbFormat.UserKey)
    requires DbFormat.TotalOrder(cmp) && Lists(cmp, v, tables, files)
    ensures BaseOf(cmp, v, tables, from)(k) <==> NoFileCovers(cmp, LowerRanges(files, from), k)
  {
    hide DbFormat.TotalOrder, Lists, Spans, InRange;
    var levels := LowerRanges(files, from);
    if !BaseOf(cmp, v, tables, from)(k) {
      var i: nat, n :| i >= from + 2 && InLevel(v, i, n) && Spans(cmp, EntriesOf(tables, n), k);
      LevelExists(cmp, v, tables, files, i, n);
      ListsLevel(cmp, v, tables, files, i);
      var f := MetaOf(files[i], n);
      var j :| 0 <= j < |files[i]| && files[i][j] == f;
      CoversIsSpans(cmp, tables, f, k);
      assert levels[i - from - 2] == RangesOf(files[i]);
      assert InRange(cmp, levels[i - from - 2][j], k);
      assert LevelCovers(cmp, levels[i - from - 2], k);
    }
    if l :| 0 <= l < |levels| && LevelCovers(cmp, levels[l], k) {
      var i := from + 2 + l;
      assert levels[l] == RangesOf(files[i]);
      var j :| 0 <= j < |levels[l]| && InRange(cmp, levels[l][j], k);
      ListsLevel(cmp, v, tables, files, i);
      CoversIsSpans(cmp, tables, files[i][j], k);
      assert InLevel(v, i, files[i][j].number);
    }
  }

  lemma LevelExists(cmp: DbFormat.Comparator, v: Version, tables: Tables, files: seq<seq<FileMeta>>, i: nat, n: nat)
    requires Lists(cmp, v, tables, files) && InLevel(v, i, n)
    ensures i < |files|
  {
  }

  /** What PickCompaction returns is what the engine's compaction may begin with, unless a boundary file is left
      behind. */
  lemma PickIsEngineStep(s: Engine.State, c: Picking.CompactionInputs)
    requires s.active && s.immLog.None? && s.flush.NoFlush? && s.comp.NoComp? && s.apply.NoApply? && !s.bgError && !s.crashed
    requires Picked(s.cmp, s.current, s.tables, c.level, FileMetas.Numbers(c.inputs0), FileMetas.Numbers(c.inputs1))
    requires !BoundaryLeft(s.cmp, s.current, s.tables, c.level, FileMetas.Numbers(c.inputs1))
    ensures var step := Engine.CompBegin(c.level, FileMetas.Numbers(c.inputs0), FileMetas.Numbers(c.inputs1));
            && Engine.Enabled(s, step) && Engine.Apply(s, step).comp.Compacting?
            && Engine.Apply(s, step).comp.base == BaseOf(s.cmp, s.current, s.tables, c.level)
  {
    hide Picked, BoundaryLeft, BaseOf;
  }

  // ---- Outputs -------------------------------------------------------------

  /** The outputs are in the tables under their numbers. */
  ghost predicate Stored(outputs: seq<Output>, tables: Tables) {
    forall i :: 0 <= i < |outputs| ==> outputs[i].number in tables && tables[outputs[i].number] == Elements(outputs[i].entries)
  }

  lemma {:induction false} FlattenHas(outputs: seq<Output>, e: Entry)
    ensures e in Flatten(outputs) <==> exists i :: 0 <= i < |outputs| && e in outputs[i].entries
  {
    if outputs != [] {
      var n := |outputs| - 1;
      FlattenHas(outputs[..n], e);
      if i :| 0 <= i < |outputs| && e in outputs[i].entries {
        assert i < n ==> outputs[..n][i] == outputs[i];
      }
    }
  }

  lemma StoredContents(outputs: seq<Output>, tables: Tables)
    requires Stored(outputs, tables)
    ensures Contents(CompactionJob.Numbers(outputs), tables) == Elements(Flatten(outputs))
  {
    forall e ensures e in Contents(CompactionJob.Numbers(outputs), tables) <==> e in Elements(Flatten(outputs)) {
      FlattenHas(outputs, e);
      if f :| f in CompactionJob.Numbers(outputs) && e in EntriesOf(tables, f) {
        var i :| 0 <= i < |outputs| && outputs[i].number == f;
        assert e in outputs[i].entries;
      }
      if i :| 0 <= i < |outputs| && e in outputs[i].entries {
        assert outputs[i].number in CompactionJob.Numbers(outputs) && e in EntriesOf(tables, outputs[i].number);
      }
    }
  }

  lemma FrontSorted(cmp: DbFormat.Comparator, front: seq<Entry>, last: seq<Entry>)
    requires Sorted(cmp, front + last)
    ensures Sorted(cmp, front)
  {
    forall i | 0 <= i < |front| ensures (front + last)[i] == front[i] {
    }
    forall a, b | 0 <= a < b < |front| ensures EntryBefore(cmp, front[a], front[b]) {
      assert EntryBefore(cmp, (front + last)[a], (front + last)[b]);
    }
    forall i | 0 <= i < |front| ensures front[i].sequence <= DbFormat.MAX_SEQUENCE_NUMBER {
      assert (front + last)[i].sequence <= DbFormat.MAX_SEQUENCE_NUMBER;
    }
  }

  /** Cutting a sorted list into tables puts one table behind the other. */
  lemma {:induction false} OutputsInOrder(cmp: DbFormat.Comparator, outputs: seq<Output>, i: nat, j: nat)
    requires Sorted(cmp, Flatten(outputs)) && i < j < |outputs|
    ensures AllBefore(cmp, Elements(outputs[i].entries), Elements(outputs[j].entries))
    decreases |outputs|
  {
    var n := |outputs| - 1;
    var front, last := Flatten(outputs[..n]), outputs[n].entries;
    if j < n {
      FrontSorted(cmp, front, last);
      OutputsInOrder(cmp, outputs[..n], i, j);
    } else {
      forall e, x | e in outputs[i].entries && x in last ensures EntryBefore(cmp, e, x) {
        FlattenHas(outputs[..n], e);
        assert outputs[..n][i] == outputs[i];
        var a :| 0 <= a < |front| && front[a] == e;
        var b :| 0 <= b < |last| && last[b] == x;
        assert (front + last)[a] == e && (front + last)[|front| + b] == x;
      }
    }
  }

  lemma OutputsAreGood(cmp: DbFormat.Comparator, outputs: seq<Output>, tables: Tables)
    requires Sorted(cmp, Flatten(outputs)) && Stored(outputs, tables) && forall i :: 0 <= i < |outputs| ==> outputs[i].entries != []
    ensures GoodOutputs(cmp, tables, CompactionJob.Numbers(outputs))
  {
    hide Sorted, AllBefore, Flatten;
    var outs := CompactionJob.Numbers(outputs);
    forall o | o in outs ensures EntriesOf(tables, o) != {} {
      var i :| 0 <= i < |outputs| && outputs[i].number == o;
      assert outputs[i].entries[0] in EntriesOf(tables, o);
    }
    forall o, p | o in outs && p in outs && o != p ensures Apart(cmp, EntriesOf(tables, o), EntriesOf(tables, p)) {
      var i :| 0 <= i < |outputs| && outputs[i].number == o;
      var j :| 0 <= j < |outputs| && outputs[j].number == p;
      if i < j { OutputsInOrder(cmp, outputs, i, j); } else { OutputsInOrder(cmp, outputs, j, i); }
    }
  }

  lemma {:induction false} SameKept(input: seq<Entry>, smallest: nat, base: DbFormat.UserKey -> bool, base2: DbFormat.UserKey -> bool, n: nat)
    requires n <= |input| && forall k :: base(k) <==> base2(k)
    ensures KeptPrefix(input, smallest, base, n) == KeptPrefix(input, smallest, base2, n)
  {
    if n > 0 {
      SameKept(input, smallest, base, base2, n - 1);
    }
  }

  /** Outputs that hold what the loop keeps of the sorted inputs are what the engine waits for. */
  lemma JobIsEngineStep(s: Engine.State, input: seq<Entry>, base: DbFormat.UserKey -> bool, outputs: seq<Output>)
    requires s.comp.Compacting? && s.flush.NoFlush? && s.apply.NoApply? && !s.shuttingDown && !s.crashed
    requires DbFormat.TotalOrder(s.cmp) && Sorted(s.cmp, input) && s.comp.smallest < DbFormat.MAX_SEQUENCE_NUMBER
    requires Elements(input) == Contents(s.comp.in0 + s.comp.in1, s.tables)
    requires (forall k :: base(k) <==> s.comp.base(k)) && Flatten(outputs) == KeptPrefix(input, s.comp.smallest, base, |input|)
    requires (forall i :: 0 <= i < |outputs| ==> GoodOutput(outputs[i])) && Stored(outputs, s.tables) && CompactionJob.Numbers(outputs) == s.comp.outs
    ensures Engine.Enabled(s, Engine.CompFinish)
  {
    hide Contents, Kept, Flatten, KeptPrefix, Sorted, DbFormat.TotalOrder, GoodOutputs;
    SameKept(input, s.comp.smallest, base, s.comp.base, |input|);
    LoopKeepsKept(s.cmp, input, s.comp.smallest, s.comp.base);
    StoredContents(outputs, s.tables);
    OutputsAreGood(s.cmp, outputs, s.tables);
  }
}
