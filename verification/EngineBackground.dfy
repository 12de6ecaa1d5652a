/** Every step keeps the invariant: flushing, compacting, installing edits, collecting garbage. */
module EngineBackground {
  import opened Common
  import opened DbFormat
  import opened Entries
  import opened Compaction
  import opened Versions
  import opened VersionEdits
  import opened Picks
  import opened Engine
  import opened EngineInv
  import opened EngineReads
  import opened EngineSteps

  /** The two states differ at most in which tables exist, and no table in use has changed. */
  ghost predicate SameButTables(s: State, s2: State) {
    && s2 == s.(tables := s2.tables, flush := s2.flush)
    && (forall f :: f in InUse(s) ==> f in s.tables ==> f in s2.tables && s2.tables[f] == s.tables[f])
  }

  /** Every file that some version or edit may still refer to. */
  function InUse(s: State): set<nat> {
    Files(s.current) + Files(s.manifest.version) + s.copies.Keys
    + (set id, f | id in s.readers && f in Files(s.readers[id].version) :: f)
    + (if s.comp.Compacting? then Files(s.comp.inputVersion) else {})
    + (if s.apply.Applying? then Files(ApplyEdit(s.current, s.apply.edit)) else {})
    + (if s.apply.Applying? && !s.apply.written then Files(ApplyEdit(s.manifest.version, s.apply.edit)) else {})
  }

  lemma TablesFrame(s: State, s2: State)
    requires Inv(s) && SameButTables(s, s2)
    ensures WriteInv(s2) && HistoryInv(s2) && GroupsInv(s2) && TablesInv(s2) && ManifestInv(s2) && CopiesInv(s2) && SnapshotsInv(s2)
    ensures CompInv(s2) && ReadersInv(s2)
  {
    hide TotalOrder, WriteInv, HistoryInv, GroupsInv, NumbersInv, SchedulingInv, FlushInv, ApplyInv, TablesInv, ManifestInv, CopiesInv, CompInv, ReaderOk, InUse;
    VersionFrame(s, s2);
    HistoryFrame(s, s2);
    CopiesFrame(s, s2);
    forall id | id in s.readers ensures ReaderOk(s2.cmp, s2.readers[id], s2.memtables, s2.tables, s2.hist, s2.lastSequence) {
      ReaderFrame(s, s2, id);
    }
    CompFrame(s, s2);
  }

  lemma HistoryFrame(s: State, s2: State)
    requires WriteInv(s) && HistoryInv(s) && GroupsInv(s) && SameButTables(s, s2)
    ensures WriteInv(s2) && HistoryInv(s2) && GroupsInv(s2)
  {
    hide UniqueSequences, InUse, Upto, Beyond, Together, AllOrNone;
  }

  lemma ReaderFrame(s: State, s2: State, id: nat)
    requires Inv(s) && SameButTables(s, s2) && id in s.readers
    ensures ReaderOk(s2.cmp, s2.readers[id], s2.memtables, s2.tables, s2.hist, s2.lastSequence)
  {
    hide TotalOrder, WriteInv, HistoryInv, GroupsInv, NumbersInv, SchedulingInv, FlushInv, ApplyInv, TablesInv, ManifestInv, CopiesInv, SnapshotsInv, CompInv,
         ReadResult, Lookup, Files, LevelsApart, ReaderLayers, Union;
    ReaderWithTables(s.cmp, s.readers[id], s.memtables, s.tables, s2.tables, s.hist, s.lastSequence);
  }

  lemma SameEntries(s: State, s2: State, files: set<nat>)
    requires SameButTables(s, s2) && files <= InUse(s) && files <= s.tables.Keys
    ensures forall f :: f in files ==> f in s2.tables && EntriesOf(s2.tables, f) == EntriesOf(s.tables, f)
  {
    hide InUse;
  }

  lemma CompFrame(s: State, s2: State)
    requires Inv(s) && SameButTables(s, s2)
    ensures CompInv(s2)
  {
    hide TotalOrder, WriteInv, HistoryInv, GroupsInv, NumbersInv, SchedulingInv, FlushInv, ApplyInv, CopiesInv, SnapshotsInv, ReadersInv,
         GoodInputs, Files, SameAnswers, OrderedVersion, LevelsApart, OneLevelEach, Contents;
    if s.comp.Compacting? {
      SameEntries(s, s2, Files(s.current) + Files(s.manifest.version) + Files(s.comp.inputVersion));
      InputsWithTables(s.cmp, s.current, s.tables, s2.tables, s.comp.from, s.comp.in0, s.comp.in1, s.comp.base);
      if !CompactionWritten(s) {
        InputsWithTables(s.cmp, s.manifest.version, s.tables, s2.tables, s.comp.from, s.comp.in0, s.comp.in1, s.comp.base);
      }
    }
  }

  lemma CopiesFrame(s: State, s2: State)
    requires Inv(s) && SameButTables(s, s2)
    ensures CopiesInv(s2)
  {
    hide TotalOrder, WriteInv, HistoryInv, GroupsInv, NumbersInv, SchedulingInv, FlushInv, ApplyInv, SnapshotsInv, ReadersInv, CompInv, ManifestInv,
         CopyOk, Files, SameAnswers, OrderedVersion, LevelsApart, OneLevelEach, Contents;
    SameEntries(s, s2, Files(s.current) + s.copies.Keys);
    if s.immLog.Some? && Retrying(s) {
      forall f | f in s.copies ensures CopyOk(s2.cmp, s2.current, s2.tables, ImmEntries(s2), f, s2.copies[f]) {
        CopyWithTables(s.cmp, s.current, s.tables, s2.tables, ImmEntries(s), f, s.copies[f]);
      }
    }
  }

  lemma VersionFrame(s: State, s2: State)
    requires Inv(s) && SameButTables(s, s2)
    ensures TablesInv(s2) && ManifestInv(s2)
  {
    hide TotalOrder, WriteInv, HistoryInv, GroupsInv, NumbersInv, SchedulingInv, FlushInv, ApplyInv, SnapshotsInv, ReadersInv, CompInv, CopiesInv;
    hide SameAnswers, OrderedVersion, LevelsApart, OneLevelEach, Files, Contents, WithCopies, ApplyEdit, EditLog;
    GoodWithTables(s.cmp, s.current, s.tables, s2.tables, s.hist, TableFloor(s), s.horizon);
    GoodWithTables(s.cmp, s.manifest.version, s.tables, s2.tables, s.hist, ManifestFloor(s), s.horizon);
  }

  lemma InUseExists(s: State)
    requires Inv(s)
    ensures InUse(s) <= s.tables.Keys
  {
    hide TotalOrder, SameAnswers, OrderedVersion, LevelsApart, OneLevelEach, Contents, Files, WriteInv, HistoryInv, GroupsInv, NumbersInv, SnapshotsInv,
         SchedulingInv, FlushInv, ReadResult, GoodInputs, CopyOk, ReaderLayers, Union, Lookup, WithCopies, ApplyEdit;
  }

  // ---- Flush ---------------------------------------------------------------

  lemma FreshNumber(s: State)
    requires Inv(s)
    ensures forall f :: f in InUse(s) || f in s.pending ==> f < s.nextFile
    ensures forall f: nat :: InLevel(s.current, 0, f) ==> f < s.nextFile
  {
    InUseExists(s);
    hide InUse, TotalOrder, WriteInv, HistoryInv, GroupsInv, TablesInv, ManifestInv, CopiesInv, SnapshotsInv, ReadersInv, SchedulingInv, FlushInv, CompInv, ApplyInv;
    assert Files(s.current) <= InUse(s) by { UsesCurrent(s); }
    forall f: nat | InLevel(s.current, 0, f) ensures f < s.nextFile {
      FilesOf(s.current, f);
    }
  }

  lemma UsesCurrent(s: State)
    ensures Files(s.current) + Files(s.manifest.version) + s.copies.Keys <= InUse(s)
  {
    hide Files, ApplyEdit;
  }

  /** The two states agree on memtables, versions and files; file numbers may have been given away. */
  ghost predicate SameVersions(s: State, s2: State) {
    && s2.cmp == s.cmp && s2.crashed == s.crashed && s2.current == s.current && s2.logNumber == s.logNumber && s.nextFile <= s2.nextFile
    && s2.tables == s.tables && s2.manifest == s.manifest && s2.manifests == s.manifests && s2.manifestFile == s.manifestFile
    && s2.horizon == s.horizon && (s.bgError ==> s2.bgError)
    && s2.inDoubt == s.inDoubt && s2.copies == s.copies
    && (forall n :: n in s2.pending ==> n < s2.nextFile)
  }

  ghost predicate SamePast(s: State, s2: State) {
    && s2.memtables == s.memtables && s2.memLog == s.memLog && s2.immLog == s.immLog
    && s2.lastSequence == s.lastSequence && s2.write == s.write && s2.logs == s.logs
    && s2.hist == s.hist && s2.acked == s.acked && s2.appended == s.appended && s2.groups == s.groups
    && s2.memFloor == s.memFloor && s2.immFloor == s.immFloor
    && s2.snapshots == s.snapshots && s2.readers == s.readers
  }

  /** Pending files, file numbers and background state play no part in the history. */
  lemma PendingFrame(s: State, s2: State)
    requires WriteInv(s) && HistoryInv(s) && GroupsInv(s)
    requires SamePast(s, s2)
    ensures WriteInv(s2) && HistoryInv(s2) && GroupsInv(s2)
  {
    hide UniqueSequences, Upto, Beyond, Together, AllOrNone;
  }

  /** … nor in what versions and manifest stand for, as long as nothing is half installed. */
  lemma IdleFrame(s: State, s2: State)
    requires Inv(s) && SamePast(s, s2) && SameVersions(s, s2) && s.apply.NoApply? && !Written(s2) && (Retrying(s2) ==> Retrying(s))
    ensures NumbersInv(s2) && WriteInv(s2) && HistoryInv(s2) && GroupsInv(s2) && TablesInv(s2) && ManifestInv(s2) && CopiesInv(s2) && ReadersInv(s2)
  {
    PendingFrame(s, s2);
    hide TotalOrder, WriteInv, HistoryInv, GroupsInv, Good, CopyOk, ReaderOk, SnapshotsInv, SchedulingInv, FlushInv, CompInv, ApplyInv, WithCopies, EntriesOf;
  }

  lemma StepFlushBegin(s: State)
    requires Inv(s) && Enabled(s, FlushBegin)
    ensures Inv(Apply(s, FlushBegin))
  {
    hide TotalOrder, NumbersInv, HistoryInv, WriteInv, GroupsInv, TablesInv, ManifestInv, ReadersInv, ReaderOk, GoodInputs, CopyOk, InUse, Files;
    FreshNumber(s);
    UsesCurrent(s);
    IdleFrame(s, Apply(s, FlushBegin));
    PendingBelow(s);
  }

  lemma PendingBelow(s: State)
    requires NumbersInv(s)
    ensures (forall n :: n in s.pending ==> n < s.nextFile) && forall n :: n in s.tables ==> n < s.nextFile
  {
  }

  lemma StepFlushBuild(s: State)
    requires Inv(s) && Enabled(s, FlushBuild)
    ensures Inv(Apply(s, FlushBuild))
  {
    hide TotalOrder, Good, ReaderOk, GoodInputs, CopyOk, HistoryInv, WriteInv, GroupsInv, TablesInv, ManifestInv, CopiesInv, ReadersInv, CompInv, SnapshotsInv, InUse, Files;
    var s2 := Apply(s, FlushBuild);
    InUseExists(s);
    TablesFrame(s, s2);
  }

  /** With the flushed table both the current version and the manifest's stand for the history up to the memtable. */
  lemma FlushIsGood(s: State, file: nat, level: nat)
    requires Inv(s) && s.immLog.Some? && Retrying(s) && s.apply.NoApply? && ImmEntries(s) != {}
    requires CopyOk(s.cmp, s.current, s.tables, ImmEntries(s), file, level) && file !in s.copies
    ensures Good(s.cmp, ApplyEdit(s.current, Flushed(Some(file), level, s.memLog)), s.tables, s.hist, s.memFloor, s.horizon)
    ensures Good(s.cmp, ApplyEdit(s.manifest.version, Flushed(Some(file), level, s.memLog)), s.tables, s.hist, s.memFloor, s.horizon)
  {
    hide TotalOrder, NumbersInv, WriteInv, GroupsInv, SnapshotsInv, ReadersInv, SchedulingInv, FlushInv, CompInv, ApplyInv, Good, CopyOk, ApplyEdit, WithCopies,
         UniqueSequences, Upto, Beyond;
    HistoryFacts(s);
    LevelCount(s);
    CopyLevel(s.cmp, s.current, s.tables, ImmEntries(s), file, level);
    NoCopies(s.current);
    FlushIsCopy(s.current, file, level, s.memLog, map[]);
    FlushIsCopy(s.current, file, level, s.memLog, s.copies);
    CopiesAreGood(s.cmp, s.current, s.tables, s.hist, s.immFloor, s.memFloor, s.horizon, ImmEntries(s), map[file := level]);
    CopiesAreGood(s.cmp, s.current, s.tables, s.hist, s.immFloor, s.memFloor, s.horizon, ImmEntries(s), s.copies[file := level]);
  }

  lemma CopyLevel(cmp: Comparator, v: Version, tables: Tables, imm: set<Entry>, file: nat, level: nat)
    requires CopyOk(cmp, v, tables, imm, file, level)
    ensures level < |v.levels| && file in tables && tables[file] == imm && file !in Files(v) && EntriesOf(tables, file) == imm
    ensures level > 0 ==> RangeFree(cmp, v, tables, imm, level)
  {
    hide RangeFree;
  }

  /** Nothing lies between the two floors. */
  lemma NothingToFlush(s: State)
    requires HistoryInv(s) && s.immLog.Some? && ImmEntries(s) == {}
    ensures Upto(s.hist, s.immFloor) == Upto(s.hist, s.memFloor)
  {
    hide UniqueSequences;
    forall e | e in Upto(s.hist, s.memFloor) ensures e in Upto(s.hist, s.immFloor) {
      assert e !in Beyond(Upto(s.hist, s.memFloor), s.immFloor);
    }
  }

  lemma GoodAtFloor(cmp: Comparator, v: Version, tables: Tables, hist: set<Entry>, floor: nat, floor2: nat, horizon: nat)
    requires Good(cmp, v, tables, hist, floor, horizon) && Upto(hist, floor) == Upto(hist, floor2)
    ensures Good(cmp, v, tables, hist, floor2, horizon)
  {
    hide SameAnswers, OrderedVersion, LevelsApart;
  }

  lemma EmptyFlushIsGood(s: State)
    requires Inv(s) && s.immLog.Some? && ImmEntries(s) == {}
    ensures Good(s.cmp, s.current, s.tables, s.hist, s.memFloor, s.horizon) && s.copies == map[]
    ensures Good(s.cmp, s.manifest.version, s.tables, s.hist, s.immFloor, s.horizon)
    ensures Good(s.cmp, s.manifest.version, s.tables, s.hist, s.memFloor, s.horizon)
  {
    hide TotalOrder, NumbersInv, WriteInv, GroupsInv, SnapshotsInv, ReadersInv, SchedulingInv, FlushInv, CompInv, ApplyInv, Good, CopyOk, ImmEntries, HistoryInv;
    NothingToFlush(s);
    GoodAtFloor(s.cmp, s.current, s.tables, s.hist, s.immFloor, s.memFloor, s.horizon);
    GoodAtFloor(s.cmp, s.manifest.version, s.tables, s.hist, s.immFloor, s.memFloor, s.horizon);
  }

  lemma StepFlushEnd(s: State, ok: bool, level: nat)
    requires Inv(s) && Enabled(s, FlushEnd(ok, level))
    ensures Inv(Apply(s, FlushEnd(ok, level)))
  {
    hide TotalOrder, NumbersInv, HistoryInv, WriteInv, GroupsInv, TablesInv, ManifestInv, CopiesInv, ReadersInv, ReaderOk, GoodInputs, ApplyInv, Files, RangeFree;
    var s2 := Apply(s, FlushEnd(ok, level));
    PendingBelow(s);
    IdleFrame(s, s2);
    if ok && !s.shuttingDown {
      FlushedEdit(s, level);
    } else {
      assert ApplyInv(s2) by { NoEditNoClaim(s2); }
    }
  }

  lemma NoEditNoClaim(s: State)
    requires s.apply.NoApply?
    ensures ApplyInv(s)
  {
    hide Good, FlushEditOk;
  }

  lemma FloorsBelow(s: State)
    requires Inv(s)
    ensures s.memFloor <= s.lastSequence && TableFloor(s) <= s.memFloor && ManifestFloor(s) <= s.memFloor && s.horizon <= s.lastSequence
  {
    hide TotalOrder, NumbersInv, WriteInv, GroupsInv, TablesInv, ReadersInv, SchedulingInv, FlushInv, CompInv, ApplyInv, CopiesInv, ManifestInv;
  }

  lemma FlushedEdit(s: State, level: nat)
    requires Inv(s) && Enabled(s, FlushEnd(true, level)) && !s.shuttingDown
    ensures ApplyInv(Apply(s, FlushEnd(true, level)))
  {
    hide TotalOrder, NumbersInv, HistoryInv, WriteInv, GroupsInv, SnapshotsInv, ManifestInv, CopiesInv, ReadersInv, SchedulingInv, ApplyInv, CompInv, Good, RangeFree;
    var s2 := Apply(s, FlushEnd(true, level));
    FloorsBelow(s);
    PendingBelow(s);
    LevelCount(s);
    if ImmEntries(s) == {} {
      EmptyFlushIsGood(s);
      assert s2.apply.edit == Flushed(None, level, s.memLog);
      EditIsFine(s, s2);
    } else {
      var file := s.flush.file;
      assert CopyOk(s.cmp, s.current, s.tables, ImmEntries(s), file, level);
      FlushIsGood(s, file, level);
      assert s2.apply.edit == Flushed(Some(file), level, s.memLog);
      EditIsFine(s, s2);
    }
  }

  lemma EditIsFine(s: State, s2: State)
    requires SamePast(s, s2) && SameVersions(s, s2) && s2.comp == s.comp && s2.apply.Applying? && !s2.apply.written && s2.apply.edit.Flushed?
    requires s2.flush.NoFlush? && Retrying(s2) && !s2.collecting && FlushEditOk(s2) && s2.apply.lastSequence == s.lastSequence && s2.apply.smallest == 0
    requires s.memFloor <= s.lastSequence && ManifestFloor(s) <= s.memFloor && s.horizon <= s.lastSequence
    requires Good(s.cmp, ApplyEdit(s.current, s2.apply.edit), s.tables, s.hist, s.memFloor, s.horizon)
    requires Good(s.cmp, ApplyEdit(s.manifest.version, s2.apply.edit), s.tables, s.hist, EditedManifestFloor(s2), s.horizon)
    ensures ApplyInv(s2)
  {
    hide Good, FlushEditOk, ApplyEdit;
  }

  lemma LevelCount(s: State)
    requires TablesInv(s)
    ensures |s.current.levels| == NUM_LEVELS
  {
  }

  lemma HistoryFacts(s: State)
    requires HistoryInv(s)
    ensures UniqueSequences(s.hist) && s.immFloor <= s.memFloor && TableFloor(s) <= s.lastSequence
    ensures s.immLog.Some? ==> ImmEntries(s) == Beyond(Upto(s.hist, s.memFloor), s.immFloor)
  {
  }

  // ---- Compaction ----------------------------------------------------------

  /** As long as no installation has failed and no edit is on its way, the manifest says what is current. */
  lemma ManifestIsCurrent(s: State)
    requires Inv(s) && s.apply.NoApply? && !s.inDoubt
    ensures s.manifest.version == s.current && s.copies == map[] && s.manifest.logNumber == s.logNumber
  {
    hide TotalOrder, NumbersInv, WriteInv, HistoryInv, GroupsInv, TablesInv, SnapshotsInv, ReadersInv, SchedulingInv, FlushInv, CompInv, ApplyInv, Good, WithCopies,
         CopyOk;
    assert s.copies == map[];
    NoCopies(s.current);
  }

  lemma CurrentDistinct(s: State)
    requires Inv(s)
    ensures Distinct(Contents(Files(s.current), s.tables)) && LevelsApart(s.cmp, s.current, s.tables) && s.current.levels != []
  {
    hide TotalOrder, NumbersInv, WriteInv, GroupsInv, ManifestInv, CopiesInv, SnapshotsInv, ReadersInv, SchedulingInv, FlushInv, CompInv, ApplyInv,
         SameAnswers, OrderedVersion, LevelsApart, UniqueSequences;
    UniqueIsDistinct(s.appended, Contents(Files(s.current), s.tables));
  }

  lemma StepCompBegin(s: State, from: nat, in0: set<nat>, in1: set<nat>)
    requires Inv(s) && Enabled(s, CompBegin(from, in0, in1))
    ensures Inv(Apply(s, CompBegin(from, in0, in1)))
  {
    hide TotalOrder, NumbersInv, HistoryInv, WriteInv, GroupsInv, TablesInv, ManifestInv, ReadersInv, ApplyInv, GoodInputs, Picked, BoundaryLeft, BaseOf, CopyOk,
         Files, LevelsApart, Distinct;
    var s2 := Apply(s, CompBegin(from, in0, in1));
    PendingBelow(s);
    assert !s.inDoubt;
    IdleFrame(s, s2);
    NoEditNoClaim(s2);
    ManifestIsCurrent(s);
    CurrentDistinct(s);
    PickedIsGood(s.cmp, s.current, s.tables, from, in0, in1);
    assert Files(s.current) <= s.tables.Keys by { CurrentExists(s); }
  }

  lemma CurrentExists(s: State)
    requires TablesInv(s) && ManifestInv(s)
    ensures Files(s.current) <= s.tables.Keys && Files(s.manifest.version) <= s.tables.Keys
  {
    hide SameAnswers, OrderedVersion, LevelsApart;
  }

  lemma StepCompOpen(s: State)
    requires Inv(s) && Enabled(s, CompOpen)
    ensures Inv(Apply(s, CompOpen))
  {
    hide TotalOrder, NumbersInv, HistoryInv, WriteInv, GroupsInv, TablesInv, ManifestInv, CopiesInv, ReadersInv, ApplyInv, GoodInputs, Files, InUse;
    var s2 := Apply(s, CompOpen);
    PendingBelow(s);
    FreshNumber(s);
    UsesCurrent(s);
    IdleFrame(s, s2);
    NoEditNoClaim(s2);
  }

  lemma StepCompWrite(s: State, file: nat, contents: set<Entry>)
    requires Inv(s) && Enabled(s, CompWrite(file, contents))
    ensures Inv(Apply(s, CompWrite(file, contents)))
  {
    hide TotalOrder, Good, ReaderOk, GoodInputs, CopyOk, HistoryInv, WriteInv, GroupsInv, TablesInv, ManifestInv, CopiesInv, ReadersInv, SnapshotsInv, InUse, Files;
    var s2 := Apply(s, CompWrite(file, contents));
    InUseExists(s);
    TablesFrame(s, s2);
  }

  /** Replacing the inputs leaves both the current version and the manifest's good. */
  lemma CompactedIsGood(s: State)
    requires Inv(s) && Enabled(s, CompFinish)
    ensures var edit, h := Compacted(s.comp.from, s.comp.in0, s.comp.in1, s.comp.outs), if s.horizon < s.comp.smallest then s.comp.smallest else s.horizon;
            && Good(s.cmp, ApplyEdit(s.current, edit), s.tables, s.hist, TableFloor(s), h)
            && Good(s.cmp, ApplyEdit(s.manifest.version, edit), s.tables, s.hist, ManifestFloor(s), h)
  {
    hide TotalOrder, NumbersInv, WriteInv, HistoryInv, GroupsInv, SnapshotsInv, ReadersInv, SchedulingInv, FlushInv, ApplyInv, CopiesInv, Good, GoodInputs, GoodOutputs,
         Contents, Kept, Files, ApplyEdit, UniqueSequences;
    HistoryFacts(s);
    assert s.comp.outs !! Files(s.current) - s.comp.in0 - s.comp.in1;
    assert s.comp.outs !! Files(s.manifest.version) - s.comp.in0 - s.comp.in1;
    CompactionIsGood(s.cmp, s.current, s.tables, s.hist, TableFloor(s), s.horizon, s.comp.from, s.comp.in0, s.comp.in1,
                     s.comp.outs, s.comp.smallest, s.comp.base);
    CompactionIsGood(s.cmp, s.manifest.version, s.tables, s.hist, ManifestFloor(s), s.horizon, s.comp.from, s.comp.in0, s.comp.in1,
                     s.comp.outs, s.comp.smallest, s.comp.base);
  }

  lemma StepCompFinish(s: State)
    requires Inv(s) && Enabled(s, CompFinish)
    ensures Inv(Apply(s, CompFinish))
  {
    hide TotalOrder, Good, ReaderOk, GoodInputs, GoodOutputs, HistoryInv, WriteInv, GroupsInv, NumbersInv, TablesInv, ManifestInv, CopiesInv, ReadersInv,
         Contents, Kept, Files, ApplyEdit;
    var s2 := Apply(s, CompFinish);
    PendingBelow(s);
    IdleFrame(s, s2);
    FloorsBelow(s);
    CompactedIsGood(s);
  }

  lemma StepCompAbort(s: State)
    requires Inv(s) && Enabled(s, CompAbort)
    ensures Inv(Apply(s, CompAbort))
  {
    hide TotalOrder, Good, ReaderOk, GoodInputs, HistoryInv, WriteInv, GroupsInv, NumbersInv, TablesInv, ManifestInv, CopiesInv, ReadersInv, ApplyInv, Files;
    var s2 := Apply(s, CompAbort);
    PendingBelow(s);
    IdleFrame(s, s2);
    NoEditNoClaim(s2);
  }

  /** A moved file is a compaction that keeps everything. */
  lemma MovedIsGood(s: State, from: nat, file: nat)
    requires Inv(s) && Enabled(s, TrivialMove(from, file))
    ensures Good(s.cmp, ApplyEdit(s.current, Compacted(from, {file}, {}, {file})), s.tables, s.hist, TableFloor(s), s.horizon)
  {
    hide TotalOrder, NumbersInv, WriteInv, HistoryInv, GroupsInv, SnapshotsInv, ReadersInv, SchedulingInv, FlushInv, ApplyInv, CopiesInv, Good, GoodInputs, GoodOutputs,
         Contents, Kept, Files, ApplyEdit, UniqueSequences, Picked, BaseOf, BoundaryLeft, LevelsApart, Distinct;
    HistoryFacts(s);
    CurrentDistinct(s);
    NoBoundaryIsLeft(s.cmp, s.current, s.tables, from);
    PickedIsGood(s.cmp, s.current, s.tables, from, {file}, {});
    WithoutBase(s.cmp, s.current, s.tables, from, {file}, {}, BaseOf(s.cmp, s.current, s.tables, from));
    MoveKeepsEverything(Contents({file}, s.tables));
    assert {file} + {} == {file};
    MovedFile(s, from, file);
    CompactionIsGood(s.cmp, s.current, s.tables, s.hist, TableFloor(s), s.horizon, from, {file}, {}, {file}, 0, _ => false);
  }

  lemma NoBoundaryIsLeft(cmp: Comparator, v: Version, tables: Tables, from: nat)
    ensures !BoundaryLeft(cmp, v, tables, from, {})
  {
  }

  lemma WithoutBase(cmp: Comparator, v: Version, tables: Tables, from: nat, in0: set<nat>, in1: set<nat>, base: UserKey -> bool)
    requires GoodInputs(cmp, v, tables, from, in0, in1, base)
    ensures GoodInputs(cmp, v, tables, from, in0, in1, _ => false)
  {
    hide UpperSafe, LowerSafe, HullFree, Solid, Contents;
  }

  lemma MovedFile(s: State, from: nat, file: nat)
    requires Inv(s) && Picked(s.cmp, s.current, s.tables, from, {file}, {})
    ensures file in s.tables && GoodOutputs(s.cmp, s.tables, {file}) && {file} !! (Files(s.current) - {file} - {})
  {
    hide TotalOrder, NumbersInv, WriteInv, HistoryInv, GroupsInv, SnapshotsInv, ReadersInv, SchedulingInv, FlushInv, ApplyInv, CompInv, CopiesInv, ManifestInv,
         UpperPicked, LowerPicked, Solid, SameAnswers, OrderedVersion, PairsApart, TwinsAlone, Contents;
    assert file in s.current.levels[from];
    assert InLevel(s.current, from, file);
    FilesOf(s.current, file);
  }

  lemma StepTrivialMove(s: State, from: nat, file: nat)
    requires Inv(s) && Enabled(s, TrivialMove(from, file))
    ensures Inv(Apply(s, TrivialMove(from, file)))
  {
    hide TotalOrder, Good, ReaderOk, GoodInputs, HistoryInv, WriteInv, GroupsInv, NumbersInv, TablesInv, ManifestInv, ReadersInv, Files, ApplyEdit, Picked, CopyOk;
    var s2 := Apply(s, TrivialMove(from, file));
    PendingBelow(s);
    assert !s.inDoubt;
    IdleFrame(s, s2);
    FloorsBelow(s);
    ManifestIsCurrent(s);
    MovedIsGood(s, from, file);
    assert ManifestFloor(s) == TableFloor(s);
  }

  // ---- Installing edits ---------------------------------------------------

  lemma WrittenExpected(s: State)
    requires Inv(s) && Enabled(s, ManifestWrite)
    ensures var s2 := Apply(s, ManifestWrite); s2.manifest.version == Expected(s2)
  {
    hide TotalOrder, NumbersInv, WriteInv, HistoryInv, GroupsInv, SnapshotsInv, ReadersInv, SchedulingInv, FlushInv, CompInv, CopiesInv, Good, WithCopies, RangeFree, Files;
    LevelCount(s);
    if s.apply.edit.Flushed? && s.apply.edit.file.Some? {
      FlushIsCopy(s.current, s.apply.edit.file.value, s.apply.edit.level, s.apply.edit.log, s.copies);
    }
  }

  lemma WriteKeepsVersions(s: State)
    requires Inv(s) && Enabled(s, ManifestWrite)
    ensures var s2 := Apply(s, ManifestWrite); TablesInv(s2) && ManifestInv(s2) && ApplyInv(s2)
  {
    hide TotalOrder, WriteInv, GroupsInv, ReadersInv, SchedulingInv, FlushInv, CompInv, CopiesInv, Good, WithCopies, CopyOk, Files, ApplyEdit, Expected, EntriesOf,
         UniqueSequences, Upto, Beyond;
    var s2 := Apply(s, ManifestWrite);
    WrittenExpected(s);
    GoodWithHistory(s.cmp, s.current, s.tables, s.hist, s.hist, TableFloor(s), s.horizon, s2.horizon);
  }

  lemma WriteKeepsCopies(s: State)
    requires Inv(s) && Enabled(s, ManifestWrite)
    ensures CopiesInv(Apply(s, ManifestWrite))
  {
    hide TotalOrder, NumbersInv, WriteInv, HistoryInv, GroupsInv, SnapshotsInv, ReadersInv, SchedulingInv, FlushInv, CompInv, ManifestInv, Good, RangeFree, Files;
  }

  lemma WriteKeepsCompaction(s: State)
    requires Inv(s) && Enabled(s, ManifestWrite)
    ensures CompInv(Apply(s, ManifestWrite))
  {
    hide TotalOrder, NumbersInv, WriteInv, HistoryInv, GroupsInv, SnapshotsInv, ReadersInv, SchedulingInv, FlushInv, ManifestInv, CopiesInv, CompInv, Good, GoodInputs, Files,
         RangeFree, ApplyEdit, Apply;
    if s.comp.Compacting? && s.apply.edit.Flushed? {
      FilesAfterFlush(s.manifest.version, if s.apply.edit.file.Some? then s.apply.edit.file.value else 0, s.apply.edit.level, s.apply.edit.log);
      assert s.apply.edit.file.Some? ==> s.apply.edit.file.value !in s.comp.outs;
      OutsApart(s);
      if s.apply.edit.file.Some? {
        InputsAfterFlush(s);
      }
    }
    WrittenKeepsInputs(s);
  }

  lemma OutsApart(s: State)
    requires CompInv(s) && s.comp.Compacting? && !CompactionWritten(s)
    ensures s.comp.outs !! Files(s.manifest.version)
    ensures GoodInputs(s.cmp, s.manifest.version, s.tables, s.comp.from, s.comp.in0, s.comp.in1, s.comp.base)
  {
    hide GoodInputs, Files;
  }

  lemma WrittenKeepsInputs(s: State)
    requires CompInv(s) && Enabled(s, ManifestWrite)
    requires s.comp.Compacting? && s.apply.edit.Compacted? ==> s.apply.smallest == s.comp.smallest
    requires s.comp.Compacting? && s.apply.edit.Flushed? ==>
               GoodInputs(s.cmp, ApplyEdit(s.manifest.version, s.apply.edit), s.tables, s.comp.from, s.comp.in0, s.comp.in1, s.comp.base)
    requires s.comp.Compacting? && s.apply.edit.Flushed? ==> s.apply.smallest == 0 && s.comp.outs !! Files(ApplyEdit(s.manifest.version, s.apply.edit))
    ensures CompInv(Apply(s, ManifestWrite))
  {
    hide GoodInputs, Files, ApplyEdit, EditLog;
  }

  lemma FilesAfterFlush(v: Version, file: nat, level: nat, log: nat)
    ensures Files(ApplyEdit(v, Flushed(Some(file), level, log))) <= Files(v) + {file}
    ensures ApplyEdit(v, Flushed(None, level, log)) == v
  {
    var v2 := ApplyEdit(v, Flushed(Some(file), level, log));
    forall f | f in Files(v2) ensures f in Files(v) + {file} {
      FilesOf(v, f);
      FilesOf(v2, f);
      if i: nat :| InLevel(v2, i, f) && f != file {
        assert InLevel(v, i, f);
      }
    }
  }

  /** The flushed table leaves the inputs of a compaction usable. */
  lemma InputsAfterFlush(s: State)
    requires Inv(s) && s.comp.Compacting? && s.apply.Applying? && s.apply.edit.Flushed? && s.apply.edit.file.Some?
    ensures GoodInputs(s.cmp, ApplyEdit(s.current, s.apply.edit), s.tables, s.comp.from, s.comp.in0, s.comp.in1, s.comp.base)
    ensures !s.apply.written ==> GoodInputs(s.cmp, ApplyEdit(s.manifest.version, s.apply.edit), s.tables, s.comp.from, s.comp.in0, s.comp.in1, s.comp.base)
  {
    hide TotalOrder, NumbersInv, WriteInv, HistoryInv, GroupsInv, SnapshotsInv, ReadersInv, SchedulingInv, FlushInv, CopiesInv, Good, GoodInputs, Files, RangeFree, ApplyEdit,
         WithCopies, Contents, InLevel, KeysApart;
    var f, level, log := s.apply.edit.file.value, s.apply.edit.level, s.apply.edit.log;
    ImmIsNewer(s);
    LevelCount(s);
    ManifestLevelCount(s);
    CopyLevel(s.cmp, s.current, s.tables, ImmEntries(s), f, level);
    if level > s.comp.from {
      forall g | g in s.comp.in0 + s.comp.in1 ensures KeysApart(s.cmp, EntriesOf(s.tables, f), EntriesOf(s.tables, g)) {
        InputIsFree(s, level, g);
      }
    }
    InputsWithFile(s.cmp, s.current, s.tables, s.comp.from, s.comp.in0, s.comp.in1, s.comp.base, f, level, log);
    if !s.apply.written {
      InputsWithFile(s.cmp, s.manifest.version, s.tables, s.comp.from, s.comp.in0, s.comp.in1, s.comp.base, f, level, log);
    }
  }

  lemma ManifestLevelCount(s: State)
    requires ManifestInv(s)
    ensures |s.manifest.version.levels| == NUM_LEVELS
  {
    hide WithCopies;
  }

  lemma InputIsFree(s: State, level: nat, g: nat)
    requires s.comp.Compacting? && GoodInputs(s.cmp, s.current, s.tables, s.comp.from, s.comp.in0, s.comp.in1, s.comp.base)
    requires level > s.comp.from && RangeFree(s.cmp, s.current, s.tables, ImmEntries(s), level) && g in s.comp.in0 + s.comp.in1
    ensures KeysApart(s.cmp, ImmEntries(s), EntriesOf(s.tables, g))
  {
    hide UpperSafe, LowerSafe, BaseSound, HullFree, Solid, KeysApart;
    var i := if g in s.comp.in0 then s.comp.from else s.comp.from + 1;
    assert InLevel(s.current, i, g);
  }

  lemma ImmIsNewer(s: State)
    requires Inv(s) && s.comp.Compacting? && s.immLog.Some?
    ensures forall e, d :: e in ImmEntries(s) && d in Contents(s.comp.in0 + s.comp.in1, s.tables) ==> e.sequence > d.sequence
  {
    hide TotalOrder, NumbersInv, WriteInv, GroupsInv, SnapshotsInv, ReadersInv, SchedulingInv, FlushInv, CopiesInv, ManifestInv, ApplyInv, SameAnswers, LevelsApart,
         OrderedVersion, OneLevelEach, Contents, Files, UpperSafe, LowerSafe, BaseSound, HullFree, Solid, UniqueSequences;
    InputsExist(s.current, s.comp.from, s.comp.in0, s.comp.in1);
    MoreContents(s.comp.in0 + s.comp.in1, Files(s.current), s.tables);
  }

  lemma StepManifestWrite(s: State)
    requires Inv(s) && Enabled(s, ManifestWrite)
    ensures Inv(Apply(s, ManifestWrite))
  {
    hide TotalOrder, Good, ReaderOk, HistoryInv, WriteInv, GroupsInv, TablesInv, ManifestInv, CopiesInv, CompInv, ApplyEdit;
    var s2 := Apply(s, ManifestWrite);
    PendingFrame(s, s2);
    WriteKeepsVersions(s);
    WriteKeepsCopies(s);
    WriteKeepsCompaction(s);
  }

  lemma FlushedKeepsHistory(s: State)
    requires HistoryInv(s) && WriteInv(s) && GroupsInv(s) && s.immLog.Some?
    ensures HistoryInv(s.(immLog := None)) && WriteInv(s.(immLog := None)) && GroupsInv(s.(immLog := None))
  {
    hide UniqueSequences, Upto, Beyond, Together, AllOrNone;
  }

  lemma InstalledSamePast(s: State, needs: bool)
    requires s.apply.Applying?
    ensures SamePast(if s.apply.edit.Flushed? then s.(immLog := None) else s, Installed(s, needs))
  {
  }

  lemma FlushedFromImm(s: State)
    requires ApplyInv(s) && s.apply.Applying? && s.apply.edit.Flushed?
    ensures s.immLog.Some? && s.apply.edit.log == s.memLog
  {
    hide Good, CopyOk;
  }

  lemma ApplyOkKeepsHistory(s: State, needs: bool)
    requires Inv(s) && s.apply.Applying? && s.apply.written
    ensures HistoryInv(Installed(s, needs)) && WriteInv(Installed(s, needs)) && GroupsInv(Installed(s, needs))
  {
    hide TotalOrder, TablesInv, ManifestInv, CopiesInv, SnapshotsInv, ReadersInv, SchedulingInv, FlushInv, CompInv, NumbersInv, HistoryInv, WriteInv, GroupsInv, ApplyInv,
         SamePast, Installed;
    InstalledSamePast(s, needs);
    if s.apply.edit.Flushed? {
      FlushedFromImm(s);
      FlushedKeepsHistory(s);
      PendingFrame(s.(immLog := None), Installed(s, needs));
    } else {
      PendingFrame(s, Installed(s, needs));
    }
  }

  lemma ApplyOkKeepsNumbers(s: State, needs: bool)
    requires Inv(s) && s.apply.Applying? && s.apply.written
    ensures NumbersInv(Installed(s, needs))
  {
    if s.apply.edit.Flushed? {
      FlushedFromImm(s);
    }
    NumbersAfterInstall(s, needs);
  }

  lemma NumbersAfterInstall(s: State, needs: bool)
    requires NumbersInv(s) && s.apply.Applying? && (s.apply.edit.Flushed? ==> s.immLog.Some? && s.apply.edit.log == s.memLog)
    ensures NumbersInv(Installed(s, needs))
  {
    hide ApplyEdit;
  }

  /** Once the edit is installed, the manifest's version is what it should be. */
  lemma InstalledExpected(s: State, needs: bool)
    requires Inv(s) && s.apply.Applying? && s.apply.written && Retrying(Installed(s, needs))
    ensures var s2 := Installed(s, needs); s2.manifest.version == Expected(s2)
  {
    hide TotalOrder, NumbersInv, WriteInv, HistoryInv, GroupsInv, SnapshotsInv, ReadersInv, SchedulingInv, FlushInv, CompInv, Good, WithCopies, RangeFree, Files;
    LevelCount(s);
    if s.apply.edit.Flushed? && s.apply.edit.file.Some? {
      CopyInstalled(s.current, s.apply.edit.file.value, s.apply.edit.level, s.apply.edit.log, s.copies);
    } else if s.apply.edit.Compacted? {
      NoCopies(s.current);
      NoCopies(ApplyEdit(s.current, s.apply.edit));
    }
  }

  lemma ApplyOkKeepsVersions(s: State, needs: bool)
    requires Inv(s) && s.apply.Applying? && s.apply.written
    ensures TablesInv(Installed(s, needs)) && ManifestInv(Installed(s, needs))
  {
    var s2 := Installed(s, needs);
    if Retrying(s2) {
      InstalledExpected(s, needs);
    }
    if s.apply.edit.Flushed? {
      FlushedFromImm(s);
      if s.copies == map[] {
        NoneFlushed(s);
        EmptyFlushIsGood(s);
      }
    }
    hide TotalOrder, ReadersInv, SchedulingInv, FlushInv, CompInv, CopiesInv, WriteInv, GroupsInv, Good, CopyOk, ApplyEdit, WithCopies, Expected, EntriesOf, Files,
         UniqueSequences, Upto, Beyond;
  }

  lemma NoneFlushed(s: State)
    requires ApplyInv(s) && s.apply.Applying? && s.apply.written && s.apply.edit.Flushed? && s.copies == map[]
    ensures ImmEntries(s) == {}
  {
    hide Good, CopyOk;
  }

  lemma ApplyOkKeepsTheRest(s: State, needs: bool)
    requires Inv(s) && s.apply.Applying? && s.apply.written
    ensures SnapshotsInv(Installed(s, needs)) && ReadersInv(Installed(s, needs)) && SchedulingInv(Installed(s, needs))
    ensures FlushInv(Installed(s, needs)) && ApplyInv(Installed(s, needs)) && CopiesInv(Installed(s, needs))
  {
    hide TotalOrder, TablesInv, ManifestInv, CompInv, HistoryInv, WriteInv, GroupsInv, NumbersInv, Good, CopyOk, ReaderOk, ApplyEdit, Files;
  }

  lemma ApplyOkKeepsCompaction(s: State, needs: bool)
    requires Inv(s) && s.apply.Applying? && s.apply.written
    ensures CompInv(Installed(s, needs))
  {
    hide TotalOrder, ReaderOk, GoodInputs, HistoryInv, WriteInv, GroupsInv, Good, NumbersInv, SnapshotsInv, TablesInv, ManifestInv, CopiesInv, Files, CopyOk, ApplyEdit;
    if s.comp.Compacting? && s.apply.edit.Flushed? {
      FilesAfterFlush(s.current, if s.apply.edit.file.Some? then s.apply.edit.file.value else 0, s.apply.edit.level, s.apply.edit.log);
      assert s.apply.edit.file.Some? ==> s.apply.edit.file.value !in s.comp.outs;
      if s.apply.edit.file.Some? {
        InputsAfterFlush(s);
      }
      InstalledFlush(s, needs);
    }
  }

  lemma InstalledFlush(s: State, needs: bool)
    requires CompInv(s) && s.comp.Compacting? && s.apply.Applying? && s.apply.edit.Flushed?
    requires GoodInputs(s.cmp, ApplyEdit(s.current, s.apply.edit), s.tables, s.comp.from, s.comp.in0, s.comp.in1, s.comp.base)
    requires s.comp.outs !! Files(ApplyEdit(s.current, s.apply.edit))
    ensures CompInv(Installed(s, needs))
  {
    hide GoodInputs, Files, ApplyEdit;
  }

  lemma AsInstalled(s: State, needs: bool)
    requires Enabled(s, ApplyOk(needs))
    ensures s.apply.Applying? && s.apply.written && Apply(s, ApplyOk(needs)) == Installed(s, needs) && Installed(s, needs).cmp == s.cmp
  {
  }

  lemma StepApplyOk(s: State, needs: bool)
    requires Inv(s) && Enabled(s, ApplyOk(needs))
    ensures Inv(Apply(s, ApplyOk(needs)))
  {
    hide Apply, Enabled, TotalOrder, NumbersInv, WriteInv, HistoryInv, GroupsInv, TablesInv, ManifestInv, CopiesInv, SnapshotsInv, ReadersInv, SchedulingInv, FlushInv,
         CompInv, ApplyInv;
    AsInstalled(s, needs);
    ApplyOkKeepsHistory(s, needs);
    ApplyOkKeepsNumbers(s, needs);
    ApplyOkKeepsVersions(s, needs);
    ApplyOkKeepsTheRest(s, needs);
    ApplyOkKeepsCompaction(s, needs);
  }

  lemma ApplyFailKeepsVersions(s: State)
    requires Inv(s) && s.apply.Applying?
    ensures TablesInv(NotInstalled(s)) && ManifestInv(NotInstalled(s)) && NumbersInv(NotInstalled(s)) && CopiesInv(NotInstalled(s))
  {
    hide TotalOrder, ReadersInv, SchedulingInv, FlushInv, CompInv, HistoryInv, WriteInv, GroupsInv, Good, CopyOk, ApplyEdit, WithCopies, Files;
  }

  lemma ApplyFailKeepsTheRest(s: State)
    requires Inv(s) && s.apply.Applying?
    ensures var s2 := NotInstalled(s);
            SnapshotsInv(s2) && ReadersInv(s2) && SchedulingInv(s2) && FlushInv(s2) && CompInv(s2) && ApplyInv(s2)
  {
    hide TotalOrder, TablesInv, ManifestInv, CopiesInv, HistoryInv, WriteInv, GroupsInv, NumbersInv, Good, CopyOk, ReaderOk, GoodInputs, ApplyEdit, Files;
  }

  lemma StepApplyFail(s: State)
    requires Inv(s) && Enabled(s, ApplyFail)
    ensures Inv(Apply(s, ApplyFail))
  {
    hide TotalOrder, HistoryInv, WriteInv, GroupsInv, TablesInv, ManifestInv, CopiesInv, NumbersInv, SnapshotsInv, ReadersInv, SchedulingInv, FlushInv, CompInv, ApplyInv;
    PendingFrame(s, Apply(s, ApplyFail));
    ApplyFailKeepsVersions(s);
    ApplyFailKeepsTheRest(s);
  }

  // ---- Garbage collection -------------------------------------------------

  /** Nothing that anybody refers to is dead. */
  lemma DeadIsUnused(s: State, deadTables: set<nat>, deadLogs: set<nat>, deadManifests: set<nat>)
    requires Inv(s) && Enabled(s, DeleteObsoleteFiles(deadTables, deadLogs, deadManifests))
    ensures deadTables !! InUse(s) && s.apply.NoApply? && s.flush.NoFlush?
    ensures s.memLog !in deadLogs && (s.immLog.Some? ==> s.immLog.value !in deadLogs)
    ensures (forall n :: n in s.logs && n >= s.manifest.logNumber ==> n !in deadLogs) && s.manifestFile !in deadManifests
  {
    hide TotalOrder, Good, ReaderOk, GoodInputs, HistoryInv, WriteInv, GroupsInv, TablesInv, ManifestInv, SnapshotsInv, ReadersInv, CompInv, Files;
    assert s.apply.NoApply? && !s.inDoubt;
    ManifestIsCurrent(s);
    forall f | f in InUse(s) ensures f in LiveFiles(s) {
      assert s.current in PinnedVersions(s);
      if id :| id in s.readers && f in Files(s.readers[id].version) {
        assert s.readers[id].version in PinnedVersions(s);
      }
    }
  }

  lemma StepDeleteObsoleteFiles(s: State, deadTables: set<nat>, deadLogs: set<nat>, deadManifests: set<nat>)
    requires Inv(s) && Enabled(s, DeleteObsoleteFiles(deadTables, deadLogs, deadManifests))
    ensures Inv(Apply(s, DeleteObsoleteFiles(deadTables, deadLogs, deadManifests)))
  {
    hide TotalOrder, ReaderOk, HistoryInv, WriteInv, GroupsInv, NumbersInv, TablesInv, ManifestInv, CopiesInv, ReadersInv, SnapshotsInv, SchedulingInv,
         FlushInv, CompInv, ApplyInv, InUse, LiveFiles;
    var s1 := s.(tables := s.tables - deadTables);
    DeadIsUnused(s, deadTables, deadLogs, deadManifests);
    TablesFrame(s, s1);
    NoFlushNoClaim(s1);
    NoEditNoClaim(s1);
    FilesFrame(s1, s1.(logs := s1.logs - deadLogs, manifests := s1.manifests - deadManifests));
    LogsFrame(s1, deadLogs, deadManifests);
    NumbersAfterDelete(s, deadTables, deadLogs, deadManifests);
  }

  lemma NoFlushNoClaim(s: State)
    requires s.flush.NoFlush?
    ensures FlushInv(s)
  {
  }

  lemma NumbersAfterDelete(s: State, deadTables: set<nat>, deadLogs: set<nat>, deadManifests: set<nat>)
    requires NumbersInv(s) && SchedulingInv(s) && s.memLog !in deadLogs && (s.immLog.Some? ==> s.immLog.value !in deadLogs)
    requires s.manifestFile !in deadManifests
    ensures var s2 := s.(tables := s.tables - deadTables, logs := s.logs - deadLogs, manifests := s.manifests - deadManifests);
            NumbersInv(s2) && SchedulingInv(s2)
  {
  }

  lemma PendingIsLive(s: State)
    ensures s.pending <= LiveFiles(s)
  {
  }

  lemma LogsFrame(s: State, deadLogs: set<nat>, deadManifests: set<nat>)
    requires WriteInv(s) && HistoryInv(s) && GroupsInv(s) && ReadersInv(s) && SnapshotsInv(s)
    requires s.memLog !in deadLogs && (s.immLog.Some? ==> s.immLog.value !in deadLogs)
    ensures var s2 := s.(logs := s.logs - deadLogs, manifests := s.manifests - deadManifests);
            WriteInv(s2) && HistoryInv(s2) && GroupsInv(s2) && ReadersInv(s2) && SnapshotsInv(s2)
  {
    hide ReaderOk, UniqueSequences, Upto, Beyond, Together, AllOrNone;
  }
}
