/** Every step keeps the invariant: writing, reading and scheduling. */
module EngineSteps {
  import opened Common
  import opened DbFormat
  import opened Entries
  import opened Versions
  import opened VersionEdits
  import opened ReadOrder
  import opened Engine
  import opened EngineInv
  import opened EngineReads

  /** The two states agree on memtables, versions, files and what the background thread is doing. */
  ghost predicate SameFiles(s: State, s2: State) {
    && s2.cmp == s.cmp && s2.memtables == s.memtables && s2.memLog == s.memLog && s2.immLog == s.immLog
    && s2.current == s.current && s2.logNumber == s.logNumber && s.lastSequence <= s2.lastSequence
    && s2.pending == s.pending && s2.flush == s.flush && s2.comp == s.comp
    && s2.apply == s.apply && (s.bgError ==> s2.bgError) && (s2.collecting ==> s.collecting)
    && s2.inDoubt == s.inDoubt && s2.copies == s.copies
    && s2.tables == s.tables && s2.manifest == s.manifest && s2.hist == s.hist
    && s2.memFloor == s.memFloor && s2.immFloor == s.immFloor && s2.horizon == s.horizon
  }

  /** … and on the history and the group being written. */
  ghost predicate SameStore(s: State, s2: State) {
    && SameFiles(s, s2) && s2.crashed == s.crashed && s2.nextFile == s.nextFile && s2.lastSequence == s.lastSequence && s2.write == s.write && s2.logs == s.logs
    && s2.manifests == s.manifests && s2.manifestFile == s.manifestFile
    && s2.acked == s.acked && s2.appended == s.appended && s2.groups == s.groups
  }

  lemma FilesFrame(s: State, s2: State)
    requires TotalOrder(s.cmp) && TablesInv(s) && ManifestInv(s) && CopiesInv(s) && FlushInv(s) && CompInv(s) && ApplyInv(s) && SameFiles(s, s2)
    ensures TotalOrder(s2.cmp) && TablesInv(s2) && ManifestInv(s2) && CopiesInv(s2) && FlushInv(s2) && CompInv(s2) && ApplyInv(s2)
  {
    hide TotalOrder, Good, CopyOk, GoodInputs, Files, WithCopies, ApplyEdit, EditLog;
  }

  lemma Frame(s: State, s2: State)
    requires Inv(s) && SameStore(s, s2)
    ensures NumbersInv(s2) && WriteInv(s2) && HistoryInv(s2)
    ensures TotalOrder(s2.cmp) && TablesInv(s2) && ManifestInv(s2) && CopiesInv(s2) && FlushInv(s2) && CompInv(s2) && ApplyInv(s2)
    ensures forall g :: GroupOk(g, s) ==> GroupOk(g, s2)
  {
    FilesFrame(s, s2);
    hide TotalOrder, TablesInv, ManifestInv, CopiesInv, FlushInv, CompInv, ApplyInv, SnapshotsInv, ReadersInv, SchedulingInv, GroupsInv, TotalOrder, UniqueSequences;
  }

  lemma StepBeginWrite(s: State, ops: seq<Entry>)
    requires Inv(s) && Enabled(s, BeginWrite(ops))
    ensures Inv(Apply(s, BeginWrite(ops)))
  {
    hide TotalOrder, TablesInv, ManifestInv, CopiesInv, FlushInv, CompInv, ApplyInv, ReaderOk, UniqueSequences;
    FilesFrame(s, Apply(s, BeginWrite(ops)));
  }

  lemma AppendLogIsUnique(s: State, ok: bool, landed: bool)
    requires Inv(s) && Enabled(s, AppendLog(ok, landed))
    ensures forall e :: e in Elements(s.write.ops) ==> e.sequence > s.lastSequence
    ensures UniqueSequences(Apply(s, AppendLog(ok, landed)).appended)
  {
    hide TotalOrder, TablesInv, ManifestInv, CopiesInv, SnapshotsInv, ReadersInv, SchedulingInv, FlushInv, CompInv, ApplyInv;
  }

  lemma AppendLogKeepsHistory(s: State, ok: bool, landed: bool)
    requires Inv(s) && Enabled(s, AppendLog(ok, landed))
    ensures HistoryInv(Apply(s, AppendLog(ok, landed)))
  {
    hide TotalOrder, TablesInv, ManifestInv, CopiesInv, SnapshotsInv, ReadersInv, SchedulingInv, FlushInv, CompInv, ApplyInv, UniqueSequences, WriteInv;
    AppendLogIsUnique(s, ok, landed);
  }

  lemma AppendLogKeepsWrite(s: State, ok: bool, landed: bool)
    requires Inv(s) && Enabled(s, AppendLog(ok, landed))
    ensures WriteInv(Apply(s, AppendLog(ok, landed)))
  {
    hide TotalOrder, TablesInv, ManifestInv, CopiesInv, SnapshotsInv, ReadersInv, SchedulingInv, FlushInv, CompInv, ApplyInv, UniqueSequences, HistoryInv;
    AppendLogIsUnique(s, ok, landed);
  }

  lemma WriteAbove(s: State)
    requires Inv(s) && s.write.Writing?
    ensures forall b: nat :: b <= s.lastSequence ==> Together(Elements(s.write.ops), b)
    ensures s.memFloor <= s.lastSequence && s.immFloor <= s.lastSequence
    ensures forall id :: id in s.readers ==> s.readers[id].snapshot <= s.lastSequence
  {
    hide TotalOrder, TablesInv, ManifestInv, CopiesInv, SnapshotsInv, SchedulingInv, FlushInv, CompInv, ApplyInv, UniqueSequences, GroupsInv;
  }

  lemma AppendLogKeepsGroups(s: State, ok: bool, landed: bool)
    requires Inv(s) && Enabled(s, AppendLog(ok, landed))
    ensures GroupsInv(Apply(s, AppendLog(ok, landed)))
  {
    WriteAbove(s);
    SnapshotsBelow(s);
    hide Inv, Together, AllOrNone;
    var s2 := Apply(s, AppendLog(ok, landed));
    AppendedGroups(s, s2);
  }

  lemma SnapshotsBelow(s: State)
    requires Inv(s)
    ensures GroupsInv(s) && forall i :: 0 <= i < |s.snapshots| ==> s.snapshots[i] <= s.lastSequence
  {
    hide TotalOrder, NumbersInv, TablesInv, ManifestInv, CopiesInv, ReadersInv, SchedulingInv, FlushInv, CompInv, ApplyInv, HistoryInv, WriteInv, GroupsInv;
  }

  lemma AppendedGroups(s: State, s2: State)
    requires GroupsInv(s) && s.write.Writing? && s2.write.Writing? && s2.write.ops == s.write.ops && s2.hist == s.hist
    requires s2.lastSequence == s.lastSequence && s2.memFloor == s.memFloor && s2.immFloor == s.immFloor && s2.snapshots == s.snapshots && s2.readers == s.readers
    requires (s2.groups == s.groups && s2.appended == s.appended)
             || (s2.groups == s.groups + {Elements(s.write.ops)} && s2.appended == s.appended + Elements(s.write.ops))
    requires forall b: nat :: b <= s.lastSequence ==> Together(Elements(s.write.ops), b)
    requires s.memFloor <= s.lastSequence && s.immFloor <= s.lastSequence && (forall i :: 0 <= i < |s.snapshots| ==> s.snapshots[i] <= s.lastSequence)
    requires forall id :: id in s.readers ==> s.readers[id].snapshot <= s.lastSequence
    ensures GroupsInv(s2)
  {
    hide Together, AllOrNone, Elements;
  }

  lemma StepAppendLog(s: State, ok: bool, landed: bool)
    requires Inv(s) && Enabled(s, AppendLog(ok, landed))
    ensures Inv(Apply(s, AppendLog(ok, landed)))
  {
    hide TotalOrder, TablesInv, ManifestInv, CopiesInv, FlushInv, CompInv, ApplyInv, ReaderOk, HistoryInv, WriteInv, GroupsInv;
    FilesFrame(s, Apply(s, AppendLog(ok, landed)));
    AppendLogKeepsHistory(s, ok, landed);
    AppendLogKeepsWrite(s, ok, landed);
    AppendLogKeepsGroups(s, ok, landed);
  }

  lemma StepSyncFail(s: State)
    requires Inv(s) && Enabled(s, SyncFail)
    ensures Inv(Apply(s, SyncFail))
  {
    hide TotalOrder, TablesInv, ManifestInv, CopiesInv, FlushInv, CompInv, ApplyInv, ReaderOk, UniqueSequences;
    FilesFrame(s, Apply(s, SyncFail));
  }

  lemma InsertKeepsHistory(s: State)
    requires Inv(s) && Enabled(s, Insert)
    ensures HistoryInv(Apply(s, Insert)) && NumbersInv(Apply(s, Insert))
  {
    hide TotalOrder, TablesInv, ManifestInv, CopiesInv, SnapshotsInv, ReadersInv, SchedulingInv, FlushInv, CompInv, ApplyInv, UniqueSequences, Upto, Beyond;
    var e := s.write.ops[s.write.inserted];
    assert e in Elements(s.write.ops);
    AddAbove(s.hist, e, s.memFloor);
  }

  lemma InsertBelow(s: State)
    requires Inv(s) && Enabled(s, Insert)
    ensures forall floor: nat :: floor <= s.lastSequence ==> Upto(Apply(s, Insert).hist, floor) == Upto(s.hist, floor)
    ensures ImmEntries(Apply(s, Insert)) == ImmEntries(s)
    ensures s.memFloor <= s.lastSequence && s.immFloor <= s.memFloor
  {
    hide TotalOrder, TablesInv, ManifestInv, CopiesInv, SnapshotsInv, ReadersInv, SchedulingInv, FlushInv, CompInv, ApplyInv, UniqueSequences;
    assert s.write.ops[s.write.inserted].sequence > s.lastSequence;
  }

  lemma InsertKeepsVersions(s: State)
    requires Inv(s) && Enabled(s, Insert)
    ensures var s2 := Apply(s, Insert); TablesInv(s2) && ManifestInv(s2) && CopiesInv(s2) && FlushInv(s2) && CompInv(s2) && ApplyInv(s2)
  {
    hide TotalOrder, Good, NumbersInv, WriteInv, HistoryInv, GroupsInv, SnapshotsInv, ReadersInv, SchedulingInv, GoodInputs, CopyOk, ImmEntries, EntriesOf, Upto,
         ApplyEdit, WithCopies, EditLog;
    var s2 := Apply(s, Insert);
    InsertBelow(s);
    GoodWithHistory(s.cmp, s.current, s.tables, s.hist, s2.hist, TableFloor(s), s.horizon, s.horizon);
    GoodWithHistory(s.cmp, s.manifest.version, s.tables, s.hist, s2.hist, ManifestFloor(s), s.horizon, s.horizon);
    if s.apply.Applying? {
      var h := EditedHorizon(s);
      GoodWithHistory(s.cmp, ApplyEdit(s.current, s.apply.edit), s.tables, s.hist, s2.hist, EditFloor(s), h, h);
      if !s.apply.written {
        GoodWithHistory(s.cmp, ApplyEdit(s.manifest.version, s.apply.edit), s.tables, s.hist, s2.hist, EditedManifestFloor(s), h, h);
      }
    }
  }

  lemma InsertKeepsReaders(s: State)
    requires Inv(s) && Enabled(s, Insert)
    ensures ReadersInv(Apply(s, Insert))
  {
    hide TotalOrder, Good, SnapshotsInv, SchedulingInv, FlushInv, CompInv, ReaderOk, TablesInv, ManifestInv, CopiesInv, ApplyInv;
    var s2 := Apply(s, Insert);
    var e := s.write.ops[s.write.inserted];
    forall id | id in s.readers ensures ReaderOk(s2.cmp, s2.readers[id], s2.memtables, s2.tables, s2.hist, s2.lastSequence) {
      ReaderIgnoresNewer(s.cmp, s.readers[id], s.memtables, s2.memtables, s.tables, s.hist, s.lastSequence, s.memLog, e);
    }
  }

  lemma InsertKeepsGroups(s: State)
    requires Inv(s) && Enabled(s, Insert)
    ensures GroupsInv(Apply(s, Insert))
  {
    hide TotalOrder, TablesInv, ManifestInv, CopiesInv, SnapshotsInv, ReadersInv, SchedulingInv, FlushInv, CompInv, ApplyInv, HistoryInv, Together;
  }

  lemma StepInsert(s: State)
    requires Inv(s) && Enabled(s, Insert)
    ensures Inv(Apply(s, Insert))
  {
    hide TotalOrder, ReaderOk, HistoryInv, WriteInv, GroupsInv, NumbersInv, TablesInv, ManifestInv, CopiesInv, FlushInv, CompInv, ApplyInv, ReadersInv;
    InsertKeepsHistory(s);
    InsertKeepsWrite(s);
    InsertKeepsVersions(s);
    InsertKeepsReaders(s);
    InsertKeepsGroups(s);
  }

  lemma InsertKeepsWrite(s: State)
    requires Inv(s) && Enabled(s, Insert)
    ensures WriteInv(Apply(s, Insert))
  {
    hide TotalOrder, NumbersInv, HistoryInv, GroupsInv, TablesInv, ManifestInv, CopiesInv, FlushInv, CompInv, ApplyInv, ReadersInv, SnapshotsInv, SchedulingInv;
    var ops, n := s.write.ops, s.write.inserted;
    assert ops[..n + 1] == ops[..n] + [ops[n]];
    assert ops[n] in Elements(ops);
  }

  lemma EndWriteKeepsHistory(s: State)
    requires Inv(s) && Enabled(s, EndWrite)
    ensures HistoryInv(Apply(s, EndWrite)) && WriteInv(Apply(s, EndWrite))
  {
    hide TotalOrder, TablesInv, ManifestInv, CopiesInv, SnapshotsInv, ReadersInv, SchedulingInv, FlushInv, CompInv, ApplyInv, UniqueSequences;
    var ops := s.write.ops;
    if !s.write.failed {
      forall e | e in Elements(ops) ensures e in s.hist {
        var i :| 0 <= i < |ops| && ops[i] == e;
      }
    }
  }

  lemma EndWriteKeepsGroups(s: State)
    requires Inv(s) && Enabled(s, EndWrite)
    ensures GroupsInv(Apply(s, EndWrite))
  {
    hide TotalOrder, TablesInv, ManifestInv, CopiesInv, SnapshotsInv, ReadersInv, SchedulingInv, FlushInv, CompInv, ApplyInv, Together;
    EndWriteKeepsHistory(s);
    var s2 := Apply(s, EndWrite);
    forall g | g in s.groups ensures GroupOk(g, s2) {
      if s.write.Writing? && g == Elements(s.write.ops) {
        assert AllOrNone(g, s.hist) by {
          if s.write.failed { assert s.write.ops[..s.write.inserted] == []; }
        }
      }
    }
  }

  lemma StepEndWrite(s: State)
    requires Inv(s) && Enabled(s, EndWrite)
    ensures Inv(Apply(s, EndWrite))
  {
    hide TotalOrder, TablesInv, ManifestInv, CopiesInv, FlushInv, CompInv, ApplyInv, HistoryInv, WriteInv, GroupsInv,
         ReadResult, Lookup, Files, Contents, LevelsApart, Union, ReaderLayers;
    FilesFrame(s, Apply(s, EndWrite));
    EndWriteKeepsHistory(s);
    EndWriteKeepsGroups(s);
  }

  lemma SwitchKeepsNumbers(s: State)
    requires Inv(s) && Enabled(s, SwitchMemTable)
    ensures NumbersInv(Switched(s)) && WriteInv(Switched(s))
  {
    hide TotalOrder, TablesInv, ManifestInv, CopiesInv, SnapshotsInv, ReadersInv, SchedulingInv, FlushInv, CompInv, ApplyInv, HistoryInv;
  }

  lemma SwitchKeepsHistory(s: State)
    requires Inv(s) && Enabled(s, SwitchMemTable)
    ensures HistoryInv(Switched(s))
  {
    hide TotalOrder, TablesInv, ManifestInv, CopiesInv, SnapshotsInv, ReadersInv, SchedulingInv, FlushInv, CompInv, ApplyInv, UniqueSequences, Upto, Beyond;
    SwitchKeepsNumbers(s);
    assert s.hist <= s.appended;
    NothingAbove(s.hist, s.lastSequence);
    NothingAbove(s.appended, s.lastSequence);
  }

  lemma SwitchKeepsReaders(s: State)
    requires Inv(s) && Enabled(s, SwitchMemTable)
    ensures ReadersInv(Switched(s))
  {
    hide LayeredGet, Lookup, VersionLayers, Files, Contents, LevelsApart, Union, TotalOrder, WriteInv, GroupsInv, HistoryInv, TablesInv, ManifestInv, CopiesInv,
         FlushInv, CompInv, ApplyInv, SnapshotsInv, SchedulingInv;
    var s2 := Switched(s);
    forall id | id in s.readers ensures ReaderOk(s2.cmp, s2.readers[id], s2.memtables, s2.tables, s2.hist, s2.lastSequence) {
      var r := s.readers[id];
      assert ReaderLayers(r, s2.memtables, s2.tables) == ReaderLayers(r, s.memtables, s.tables);
      forall k ensures ReadResult(r, s2.memtables, s2.tables, k) == Lookup(s2.hist, r.snapshot, k) {
        assert ReadResult(r, s.memtables, s.tables, k) == Lookup(s.hist, r.snapshot, k);
      }
    }
  }

  lemma SwitchKeepsVersions(s: State)
    requires Inv(s) && Enabled(s, SwitchMemTable)
    ensures var s2 := Switched(s); TablesInv(s2) && ManifestInv(s2) && CopiesInv(s2) && FlushInv(s2) && CompInv(s2) && ApplyInv(s2)
  {
    hide TotalOrder, Good, UniqueSequences, GroupsInv, ReadersInv, SnapshotsInv, SchedulingInv, WriteInv, GoodInputs, CopyOk, ApplyEdit, WithCopies, Files;
  }

  lemma SwitchKeepsGroups(s: State)
    requires Inv(s) && Enabled(s, SwitchMemTable)
    ensures GroupsInv(Switched(s))
  {
    hide TotalOrder, TablesInv, ManifestInv, CopiesInv, SnapshotsInv, ReadersInv, SchedulingInv, FlushInv, CompInv, ApplyInv, HistoryInv, WriteInv;
  }

  /** A snapshot taken now falls inside no group: what is being written lies above it. */
  lemma NowIsBetweenGroups(s: State)
    requires Inv(s)
    ensures forall g :: g in s.groups ==> Together(g, s.lastSequence)
  {
    if s.write.Writing? {
      WriteAbove(s);
    }
    hide TotalOrder, TablesInv, ManifestInv, CopiesInv, SnapshotsInv, ReadersInv, SchedulingInv, FlushInv, CompInv, ApplyInv, HistoryInv, WriteInv, AllOrNone;
  }

  lemma StepSwitchMemTable(s: State)
    requires Inv(s) && Enabled(s, SwitchMemTable)
    ensures Inv(Apply(s, SwitchMemTable))
  {
    hide TotalOrder, HistoryInv, WriteInv, GroupOk, GroupsInv, Together, ReadersInv, TablesInv, ManifestInv, CopiesInv, FlushInv, CompInv, ApplyInv, NumbersInv;
    var s1 := Switched(s);
    SwitchKeepsNumbers(s);
    SwitchKeepsHistory(s);
    SwitchKeepsReaders(s);
    SwitchKeepsVersions(s);
    SwitchKeepsGroups(s);
    assert SnapshotsInv(s1);
    AlsoScheduled(s, s1);
  }

  /** Asking for the background thread changes nothing else. */
  lemma AlsoScheduled(s: State, s1: State)
    requires NumbersInv(s1) && WriteInv(s1) && HistoryInv(s1) && TablesInv(s1) && ManifestInv(s1) && CopiesInv(s1) && GroupsInv(s1)
    requires SnapshotsInv(s1) && ReadersInv(s1) && FlushInv(s1) && CompInv(s1) && ApplyInv(s1) && TotalOrder(s1.cmp)
    requires SchedulingInv(s) && s1.active == s.active && s1.scheduled == s.scheduled && s1.shuttingDown == s.shuttingDown && s1.bgError == s.bgError
    requires s1.flush == s.flush && s1.comp == s.comp && s1.apply == s.apply
    ensures Inv(MaybeSchedule(s1))
  {
    hide TotalOrder, ReaderOk, Good, CopyOk, GoodInputs, Files, WithCopies, ApplyEdit, EditLog, Upto, Beyond, UniqueSequences, Together, AllOrNone, EntriesOf;
  }

  lemma StepNewSnapshot(s: State)
    requires Inv(s) && Enabled(s, NewSnapshot)
    ensures Inv(Apply(s, NewSnapshot))
  {
    hide TotalOrder, ReaderOk, NumbersInv, WriteInv, HistoryInv, GroupOk, Together, TablesInv, ManifestInv, CopiesInv, FlushInv, CompInv, ApplyInv;
    Frame(s, Apply(s, NewSnapshot));
    NowIsBetweenGroups(s);
  }

  lemma StepReleaseSnapshot(s: State, i: nat)
    requires Inv(s) && Enabled(s, ReleaseSnapshot(i))
    ensures Inv(Apply(s, ReleaseSnapshot(i)))
  {
    hide TotalOrder, ReaderOk, NumbersInv, WriteInv, HistoryInv, GroupOk, Together, TablesInv, ManifestInv, CopiesInv, FlushInv, CompInv, ApplyInv;
    Frame(s, Apply(s, ReleaseSnapshot(i)));
  }

  lemma StepBeginRead(s: State, id: nat, snap: Option<nat>)
    requires Inv(s) && Enabled(s, BeginRead(id, snap))
    ensures Inv(Apply(s, BeginRead(id, snap)))
  {
    hide TotalOrder, Good, GoodInputs, NumbersInv, WriteInv, HistoryInv, GroupOk, Together, TablesInv, ManifestInv, CopiesInv, ReaderOk;
    var s2 := Apply(s, BeginRead(id, snap));
    Frame(s, s2);
    NowIsBetweenGroups(s);
    NewReaderOk(s, s2.readers[id].snapshot);
  }

  lemma NewReaderOk(s: State, at: nat)
    requires Inv(s) && s.horizon <= at <= s.lastSequence
    ensures ReaderOk(s.cmp, Reader(at, s.memLog, s.immLog, s.current), s.memtables, s.tables, s.hist, s.lastSequence)
  {
    hide ReadResult, Lookup;
    forall k {
      CurrentReadIsLookup(s, at, k);
    }
  }

  lemma StepEndRead(s: State, id: nat, chargedSeek: bool)
    requires Inv(s) && Enabled(s, EndRead(id, chargedSeek))
    ensures Inv(Apply(s, EndRead(id, chargedSeek)))
  {
    hide TotalOrder, ReaderOk, NumbersInv, WriteInv, HistoryInv, GroupOk, Together, TablesInv, ManifestInv, CopiesInv, FlushInv, CompInv, ApplyInv;
    Frame(s, Apply(s, EndRead(id, chargedSeek)));
  }

  lemma StepBgBegin(s: State)
    requires Inv(s) && Enabled(s, BgBegin)
    ensures Inv(Apply(s, BgBegin))
  {
    hide TotalOrder, ReaderOk, NumbersInv, WriteInv, HistoryInv, GroupOk, Together, TablesInv, ManifestInv, CopiesInv, FlushInv, CompInv, ApplyInv;
    Frame(s, Apply(s, BgBegin));
  }

  lemma StepBgEnd(s: State)
    requires Inv(s) && Enabled(s, BgEnd)
    ensures Inv(Apply(s, BgEnd))
  {
    hide TotalOrder, ReaderOk, NumbersInv, WriteInv, HistoryInv, GroupOk, Together, TablesInv, ManifestInv, CopiesInv, FlushInv, CompInv, ApplyInv;
    Frame(s, Apply(s, BgEnd));
  }

  lemma StepShutdown(s: State)
    requires Inv(s) && Enabled(s, Shutdown)
    ensures Inv(Apply(s, Shutdown))
  {
    hide TotalOrder, ReaderOk, NumbersInv, WriteInv, HistoryInv, GroupOk, Together, TablesInv, ManifestInv, CopiesInv, FlushInv, CompInv, ApplyInv;
    Frame(s, Apply(s, Shutdown));
  }
}
