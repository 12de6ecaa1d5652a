/** What holds over whole runs of the storage engine, crashes included. */
module EngineTheorems {
  import opened Common
  import opened Coding
  import opened DbFormat
  import opened Entries
  import opened Compaction
  import opened Versions
  import opened VersionEdits
  import opened Picks
  import opened Engine
  import opened EngineInv
  import opened EngineReads
  import opened EngineSteps
  import opened EngineBackground
  import opened EngineRecovery

  lemma WriterStepKeepsInv(s: State, step: Step)
    requires Inv(s) && Enabled(s, step)
    requires step.BeginWrite? || step.AppendLog? || step.SyncFail? || step.Insert? || step.EndWrite? || step.SwitchMemTable?
    ensures Inv(Apply(s, step))
  {
    hide Inv, Apply, Enabled;
    match step
    case BeginWrite(ops) => StepBeginWrite(s, ops);
    case AppendLog(ok, landed) => StepAppendLog(s, ok, landed);
    case SyncFail => StepSyncFail(s);
    case Insert => StepInsert(s);
    case EndWrite => StepEndWrite(s);
    case SwitchMemTable => StepSwitchMemTable(s);
  }

  lemma ReaderStepKeepsInv(s: State, step: Step)
    requires Inv(s) && Enabled(s, step)
    requires step.NewSnapshot? || step.ReleaseSnapshot? || step.BeginRead? || step.EndRead? || step.Shutdown?
    ensures Inv(Apply(s, step))
  {
    hide Inv, Apply, Enabled;
    match step
    case NewSnapshot => StepNewSnapshot(s);
    case ReleaseSnapshot(i) => StepReleaseSnapshot(s, i);
    case BeginRead(id, snap) => StepBeginRead(s, id, snap);
    case EndRead(id, chargedSeek) => StepEndRead(s, id, chargedSeek);
    case Shutdown => StepShutdown(s);
  }

  /** Whatever happens next, the invariant holds afterwards. */
  lemma StepKeepsInv(s: State, step: Step)
    requires Inv(s) && Enabled(s, step)
    ensures Inv(Apply(s, step))
  {
    hide Inv, Enabled;
    match step
    case BgBegin => StepBgBegin(s);
    case BgEnd => StepBgEnd(s);
    case FlushBegin => StepFlushBegin(s);
    case FlushBuild => StepFlushBuild(s);
    case FlushEnd(ok, level) => StepFlushEnd(s, ok, level);
    case CompBegin(from, in0, in1) => StepCompBegin(s, from, in0, in1);
    case CompOpen => StepCompOpen(s);
    case CompWrite(file, contents) => StepCompWrite(s, file, contents);
    case CompFinish => StepCompFinish(s);
    case CompAbort => StepCompAbort(s);
    case TrivialMove(from, file) => StepTrivialMove(s, from, file);
    case ManifestWrite => StepManifestWrite(s);
    case ApplyOk(needs) => StepApplyOk(s, needs);
    case ApplyFail => StepApplyFail(s);
    case DeleteObsoleteFiles(deadTables, deadLogs, deadManifests) => StepDeleteObsoleteFiles(s, deadTables, deadLogs, deadManifests);
    case CrashInRecovery(parts, written, logMade, manifestMade) => StepCrashInRecovery(s, parts, written, logMade, manifestMade);
    case CrashRecover(parts) => StepCrashRecover(s, parts);
    case BeginWrite(_) => WriterStepKeepsInv(s, step);
    case AppendLog(_, _) => WriterStepKeepsInv(s, step);
    case SyncFail => WriterStepKeepsInv(s, step);
    case Insert => WriterStepKeepsInv(s, step);
    case EndWrite => WriterStepKeepsInv(s, step);
    case SwitchMemTable => WriterStepKeepsInv(s, step);
    case NewSnapshot => ReaderStepKeepsInv(s, step);
    case ReleaseSnapshot(_) => ReaderStepKeepsInv(s, step);
    case BeginRead(_, _) => ReaderStepKeepsInv(s, step);
    case EndRead(_, _) => ReaderStepKeepsInv(s, step);
    case Shutdown => ReaderStepKeepsInv(s, step);
  }

  // ---- Runs ----------------------------------------------------------------

  /** The states that a sequence of steps leads through, from a new database. */
  ghost predicate Run(states: seq<State>, steps: seq<Step>) {
    && |states| == |steps| + 1 && TotalOrder(states[0].cmp) && states[0] == Init(states[0].cmp)
    && forall i :: 0 <= i < |steps| ==> Enabled(states[i], steps[i]) && states[i + 1] == Apply(states[i], steps[i])
  }

  ghost predicate NoCrash(steps: seq<Step>, i: nat, j: nat) {
    forall n :: i <= n < j && n < |steps| ==> !steps[n].CrashRecover? && !steps[n].CrashInRecovery?
  }

  lemma {:induction false} RunKeepsInv(states: seq<State>, steps: seq<Step>, i: nat)
    requires Run(states, steps) && i < |states|
    ensures Inv(states[i])
  {
    hide Inv, Enabled, Apply;
    if i == 0 {
      InitIsGood(states[0].cmp);
    } else {
      RunKeepsInv(states, steps, i - 1);
      StepKeepsInv(states[i - 1], steps[i - 1]);
    }
  }

  // ---- Reads ---------------------------------------------------------------

  /** Short of a crash, only entries above LastSequence are added to the history, and none are lost. */
  predicate WriterStep(step: Step) {
    step.BeginWrite? || step.AppendLog? || step.SyncFail? || step.Insert? || step.EndWrite? || step.CrashRecover?
  }

  predicate ReaderStep(step: Step) {
    step.SwitchMemTable? || step.NewSnapshot? || step.ReleaseSnapshot? || step.BeginRead? || step.EndRead? || step.Shutdown? || step.BgBegin? || step.BgEnd?
  }

  ghost predicate SameHistory(s: State, s2: State) {
    s2.hist == s.hist && s2.acked == s.acked && s2.lastSequence == s.lastSequence
  }

  predicate SameCalls(s: State, s2: State) {
    s2.shuttingDown == s.shuttingDown && s2.scheduled == s.scheduled && s2.active == s.active
  }

  /** Only the writer touches the history. */
  lemma ReaderStepKeepsHistory(s: State, step: Step)
    requires Enabled(s, step) && ReaderStep(step)
    ensures SameHistory(s, Apply(s, step))
  {
  }

  lemma BackgroundStepKeepsHistory(s: State, step: Step)
    requires Enabled(s, step) && !WriterStep(step) && !ReaderStep(step)
    ensures SameHistory(s, Apply(s, step))
  {
    hide Picked, BoundaryLeft, BaseOf, GoodOutputs, RangeFree, LiveFiles, Kept, Contents, Cuts, Replayed, ApplyEdit;
  }

  lemma LogStepKeepsHistory(s: State, step: Step)
    requires Enabled(s, step) && (step.BeginWrite? || step.AppendLog? || step.SyncFail?)
    ensures SameHistory(s, Apply(s, step)) && SameCalls(s, Apply(s, step))
  {
  }

  lemma InsertAdds(s: State)
    requires Enabled(s, Insert)
    ensures var s2 := Apply(s, Insert); s2.hist == s.hist + {s.write.ops[s.write.inserted]} && s2.acked == s.acked && s2.lastSequence == s.lastSequence
    ensures SameCalls(s, Apply(s, Insert))
  {
  }

  lemma EndWriteAdds(s: State)
    requires Enabled(s, EndWrite)
    ensures var s2 := Apply(s, EndWrite); s2.hist == s.hist && s.acked <= s2.acked && s.lastSequence <= s2.lastSequence
    ensures SameCalls(s, Apply(s, EndWrite))
  {
  }

  lemma NextIsAbove(s: State)
    requires Inv(s) && Enabled(s, Insert)
    ensures s.write.ops[s.write.inserted].sequence > s.lastSequence
  {
    hide TotalOrder, NumbersInv, HistoryInv, GroupsInv, TablesInv, ManifestInv, CopiesInv, SnapshotsInv, ReadersInv, SchedulingInv, FlushInv, CompInv, ApplyInv;
  }

  lemma StepAddsAbove(s: State, step: Step)
    requires Inv(s) && Enabled(s, step) && !step.CrashRecover?
    ensures var s2 := Apply(s, step);
            && s.hist <= s2.hist && s.acked <= s2.acked && s.lastSequence <= s2.lastSequence
            && forall e :: e in s2.hist - s.hist ==> e.sequence > s.lastSequence
  {
    hide Inv, Apply, Enabled;
    if step.Insert? {
      InsertAdds(s);
      NextIsAbove(s);
    } else if step.EndWrite? {
      EndWriteAdds(s);
    } else if WriterStep(step) {
      LogStepKeepsHistory(s, step);
    } else if ReaderStep(step) {
      ReaderStepKeepsHistory(s, step);
    } else {
      BackgroundStepKeepsHistory(s, step);
    }
  }

  lemma {:induction false} RunAddsAbove(states: seq<State>, steps: seq<Step>, i: nat, j: nat)
    requires Run(states, steps) && i <= j < |states| && NoCrash(steps, i, j)
    ensures states[i].hist <= states[j].hist && states[i].lastSequence <= states[j].lastSequence
    ensures forall e :: e in states[j].hist - states[i].hist ==> e.sequence > states[i].lastSequence
    decreases j
  {
    hide Inv, Enabled, Apply;
    if i < j {
      RunAddsAbove(states, steps, i, j - 1);
      RunKeepsInv(states, steps, j - 1);
      StepAddsAbove(states[j - 1], steps[j - 1]);
    }
  }

  /** What the reader called id is about to find for k in this state. */
  ghost function ReadIn(s: State, id: nat, k: UserKey): Option<seq<Byte>>
    requires id in s.readers
  {
    ReadResult(s.readers[id], s.memtables, s.tables, k)
  }

  lemma ReaderIsOk(s: State, id: nat, k: UserKey)
    requires Inv(s) && id in s.readers
    ensures ReadIn(s, id, k) == Lookup(s.hist, s.readers[id].snapshot, k)
    ensures s.readers[id].snapshot <= s.lastSequence && UniqueSequences(s.hist)
  {
    hide TotalOrder, NumbersInv, WriteInv, GroupsInv, TablesInv, ManifestInv, CopiesInv, SnapshotsInv, SchedulingInv, FlushInv, CompInv, ApplyInv, ReadResult, Lookup, Union, ReaderLayers, LevelsApart;
    assert ReaderOk(s.cmp, s.readers[id], s.memtables, s.tables, s.hist, s.lastSequence);
  }

  /** A read finds the newest entry of the key at or below its sequence number among everything ever
      written, whatever has been flushed, compacted, moved or deleted since. */
  lemma ReadsAreLookups(states: seq<State>, steps: seq<Step>, i: nat, id: nat, k: UserKey)
    requires Run(states, steps) && i < |states| && id in states[i].readers
    ensures ReadIn(states[i], id, k) == Lookup(states[i].hist, states[i].readers[id].snapshot, k)
  {
    hide Inv, Enabled, Apply;
    RunKeepsInv(states, steps, i);
    ReaderIsOk(states[i], id, k);
  }

  /** Two reads at one sequence number get the same answer, no matter what happens between them. */
  lemma SnapshotsAreStable(states: seq<State>, steps: seq<Step>, i: nat, j: nat, a: nat, b: nat, k: UserKey)
    requires Run(states, steps) && i <= j < |states| && NoCrash(steps, i, j)
    requires a in states[i].readers && b in states[j].readers && states[i].readers[a].snapshot == states[j].readers[b].snapshot
    ensures ReadIn(states[i], a, k) == ReadIn(states[j], b, k)
  {
    hide Inv, Enabled, Apply, Lookup, ReadIn;
    RunKeepsInv(states, steps, i);
    RunKeepsInv(states, steps, j);
    ReaderIsOk(states[i], a, k);
    ReaderIsOk(states[j], b, k);
    RunAddsAbove(states, steps, i, j);
    UniqueIsDistinct(states[i].hist, states[i].hist);
    LookupDependsOnVisible(states[i].hist, states[j].hist, states[i].readers[a].snapshot, k);
  }

  /** A read sees a write group as a whole or not at all. */
  lemma ReadsSeeWholeGroups(states: seq<State>, steps: seq<Step>, i: nat, id: nat, g: set<Entry>)
    requires Run(states, steps) && i < |states| && id in states[i].readers && g in states[i].groups
    ensures AllOrNone(g, Upto(states[i].hist, states[i].readers[id].snapshot))
  {
    var s := states[i];
    RunKeepsInv(states, steps, i);
    hide TotalOrder, Run, NumbersInv, HistoryInv, TablesInv, ManifestInv, CopiesInv, SnapshotsInv, SchedulingInv, FlushInv, CompInv, ApplyInv, ReadResult, Lookup, Union, ReaderLayers, LevelsApart;
    assert ReaderOk(s.cmp, s.readers[id], s.memtables, s.tables, s.hist, s.lastSequence);
    assert GroupOk(g, s) && Together(g, s.readers[id].snapshot);
  }

  // ---- Durability ----------------------------------------------------------

  lemma AsRecovered(s: State, parts: seq<set<Entry>>)
    requires Enabled(s, CrashRecover(parts))
    ensures var s2 := Apply(s, CrashRecover(parts));
            && s2 == Recovered(s, parts) && s2.write.NoWrite? && s2.hist == s.hist + Replayed(s) && s2.acked == s.acked && s2.groups == s.groups && s2.cmp == s.cmp
  {
    hide Replayed, Cuts, Numbered, MaxSequence;
  }

  /** After a crash at any moment, recovery brings back every acknowledged write, nothing that was
      never appended, and write groups only as a whole; new sequence numbers lie above all of it. */
  lemma CrashLosesNothing(states: seq<State>, steps: seq<Step>, i: nat, parts: seq<set<Entry>>)
    requires Run(states, steps) && i < |states| && Enabled(states[i], CrashRecover(parts))
    ensures var s, s2 := states[i], Apply(states[i], CrashRecover(parts));
            && s.acked <= s2.hist <= s.appended
            && (forall g :: g in s.groups ==> AllOrNone(g, s2.hist))
            && (forall e :: e in s.appended ==> e.sequence <= s2.lastSequence)
  {
    hide Inv, Enabled, Apply, Recovered, Replayed, UniqueSequences;
    RunKeepsInv(states, steps, i);
    AsRecovered(states[i], parts);
    WhatIsAppended(states[i]);
    RecoveredHistory(states[i], parts);
    RecoveredGroups(states[i], parts);
    GroupsAreWhole(Apply(states[i], CrashRecover(parts)));
  }

  lemma GroupsAreWhole(s: State)
    requires GroupsInv(s) && s.write.NoWrite?
    ensures forall g :: g in s.groups ==> AllOrNone(g, s.hist)
  {
  }

  /** A read of the recovered database sees exactly the recovered writes. */
  lemma ReadAfterCrash(states: seq<State>, steps: seq<Step>, i: nat, parts: seq<set<Entry>>, k: UserKey)
    requires Run(states, steps) && i < |states| && Enabled(states[i], CrashRecover(parts))
    ensures var s2 := Apply(states[i], CrashRecover(parts));
            ReadResult(Reader(s2.lastSequence, s2.memLog, s2.immLog, s2.current), s2.memtables, s2.tables, k)
            == Lookup(s2.hist, s2.lastSequence, k)
  {
    hide Inv, Enabled, Apply, ReadResult, Lookup;
    RunKeepsInv(states, steps, i);
    StepKeepsInv(states[i], CrashRecover(parts));
    ReadNow(Apply(states[i], CrashRecover(parts)), k);
  }

  lemma ReadNow(s: State, k: UserKey)
    requires Inv(s)
    ensures ReadResult(Reader(s.lastSequence, s.memLog, s.immLog, s.current), s.memtables, s.tables, k) == Lookup(s.hist, s.lastSequence, k)
  {
    hide TotalOrder, ReadResult, Lookup, ReadersInv, SchedulingInv, FlushInv, CompInv, ApplyInv, CopiesInv, ManifestInv, Good, GroupsInv, WriteInv, ReaderLayers, Union;
    CurrentReadIsLookup(s, s.lastSequence, k);
  }

  lemma StepKeepsHistory(s: State, step: Step)
    requires Inv(s) && Enabled(s, step)
    ensures s.hist <= Apply(s, step).hist && s.acked <= Apply(s, step).acked
  {
    hide Inv, Apply, Enabled;
    if step.CrashRecover? {
      AsRecovered(s, step.parts);
    } else {
      StepAddsAbove(s, step);
    }
  }

  /** Once acknowledged, a write stays in the history for good, through any number of crashes. */
  lemma {:induction false} AcknowledgedForever(states: seq<State>, steps: seq<Step>, i: nat, j: nat)
    requires Run(states, steps) && i <= j < |states|
    ensures states[i].acked <= states[j].acked <= states[j].hist
    decreases j
  {
    hide Inv, Enabled, Apply;
    RunKeepsInv(states, steps, j);
    WhatIsAppended(states[j]);
    if i < j {
      AcknowledgedForever(states, steps, i, j - 1);
      RunKeepsInv(states, steps, j - 1);
      StepKeepsHistory(states[j - 1], steps[j - 1]);
    }
  }

  /** Recovery never gets stuck on what is there: CURRENT names a manifest that exists, and the logs can be replayed. */
  lemma RecoveryIsPossible(states: seq<State>, steps: seq<Step>, i: nat)
    requires Run(states, steps) && i < |states|
    ensures states[i].manifestFile in states[i].manifests
    ensures exists parts :: Enabled(states[i], CrashRecover(parts))
  {
    hide Inv, Enabled, Apply;
    RunKeepsInv(states, steps, i);
    TablesBelow(states[i]);
    LogsCanBeReplayed(states[i]);
  }

  lemma LogsCanBeReplayed(s: State)
    requires s.manifestFile in s.manifests
    ensures exists parts :: Enabled(s, CrashRecover(parts))
  {
    var es := Replayed(s);
    var parts := if es == {} then [] else [es];
    assert Cuts(parts, es) by {
      forall e ensures e in es <==> exists i :: 0 <= i < |parts| && e in parts[i] {
        if e in es { assert e in parts[0]; }
      }
    }
    assert Enabled(s, CrashRecover(parts));
  }

  /** A recovery that a crash cuts short does not matter: the next one may recover the same, up to file numbers. */
  lemma RecoveryCanBeRepeated(states: seq<State>, steps: seq<Step>, i: nat, parts: seq<set<Entry>>, written: nat, logMade: bool, manifestMade: bool)
    requires Run(states, steps) && i < |states| && Enabled(states[i], CrashInRecovery(parts, written, logMade, manifestMade))
    ensures var s1 := Apply(states[i], CrashInRecovery(parts, written, logMade, manifestMade));
            && (forall again :: Enabled(s1, CrashRecover(again)) <==> Enabled(states[i], CrashRecover(again)))
            && Recovered(s1, parts).hist == Recovered(states[i], parts).hist
            && Recovered(s1, parts).lastSequence == Recovered(states[i], parts).lastSequence
  {
    hide Inv, Enabled, Apply, Replayed, HalfRecovered, Recovered;
    var s1 := Apply(states[i], CrashInRecovery(parts, written, logMade, manifestMade));
    RunKeepsInv(states, steps, i);
    CutShort(states[i], parts, written, logMade, manifestMade);
    SameReplay(states[i], parts, written, logMade, manifestMade);
    forall again: seq<set<Entry>> ensures Enabled(s1, CrashRecover(again)) <==> Enabled(states[i], CrashRecover(again)) {
      MayRecover(s1, again);
      MayRecover(states[i], again);
    }
    WhatIsRecovered(s1, parts);
    WhatIsRecovered(states[i], parts);
  }

  lemma CutShort(s: State, parts: seq<set<Entry>>, written: nat, logMade: bool, manifestMade: bool)
    requires Enabled(s, CrashInRecovery(parts, written, logMade, manifestMade))
    ensures var s1 := Apply(s, CrashInRecovery(parts, written, logMade, manifestMade));
            && written <= |parts| && s1 == HalfRecovered(s, parts, written, logMade, manifestMade)
            && s.manifestFile in s.manifests && s1.manifestFile in s1.manifests && s1.hist == s.hist && s1.manifest == s.manifest
  {
    hide Replayed, Cuts, Numbered;
  }

  lemma MayRecover(s: State, parts: seq<set<Entry>>)
    ensures Enabled(s, CrashRecover(parts)) <==> s.manifestFile in s.manifests && Cuts(parts, Replayed(s))
  {
    hide Replayed, Cuts;
  }

  lemma WhatIsRecovered(s: State, parts: seq<set<Entry>>)
    ensures Recovered(s, parts).hist == s.hist + Replayed(s)
    ensures Recovered(s, parts).lastSequence == MaxSequence(Replayed(s), s.manifest.lastSequence)
  {
    hide Replayed, MaxSequence, Numbered;
  }

  // ---- Garbage collection -------------------------------------------------

  /** Every table that a version in use refers to, that is being written, or that an edit not yet
      installed names. */
  ghost predicate Needed(s: State, f: nat) {
    || f in InUse(s)
    || (s.flush.Building? && f == s.flush.file)
    || (s.comp.Compacting? && f in s.comp.outs)
    || (s.apply.Applying? && s.apply.edit.Flushed? && s.apply.edit.file == Some(f))
    || (s.apply.Applying? && s.apply.edit.Compacted? && f in s.apply.edit.outs)
  }

  lemma NothingNeededIsDead(s: State, deadTables: set<nat>, deadLogs: set<nat>, deadManifests: set<nat>, f: nat)
    requires Inv(s) && Enabled(s, DeleteObsoleteFiles(deadTables, deadLogs, deadManifests)) && f in deadTables
    ensures !Needed(s, f)
  {
    hide InUse, LiveFiles, Inv, Enabled;
    DeadIsUnused(s, deadTables, deadLogs, deadManifests);
    DeadIsNotLive(s, deadTables, deadLogs, deadManifests);
    PendingIsLive(s);
    OutputsArePending(s);
  }

  lemma DeadIsNotLive(s: State, deadTables: set<nat>, deadLogs: set<nat>, deadManifests: set<nat>)
    requires Enabled(s, DeleteObsoleteFiles(deadTables, deadLogs, deadManifests))
    ensures deadTables !! LiveFiles(s)
  {
    hide LiveFiles;
  }

  lemma OutputsArePending(s: State)
    requires Inv(s)
    ensures s.comp.Compacting? ==> s.comp.outs <= s.pending
  {
    hide TotalOrder, NumbersInv, GoodInputs, HistoryInv, WriteInv, GroupsInv, TablesInv, ManifestInv, CopiesInv, SnapshotsInv, ReadersInv, SchedulingInv, FlushInv, ApplyInv, Files;
  }

  /** Garbage collection takes away no table anybody needs and no log recovery would read. */
  lemma GarbageIsGarbage(states: seq<State>, steps: seq<Step>, i: nat)
    requires Run(states, steps) && i < |steps| && steps[i].DeleteObsoleteFiles?
    ensures forall f :: Needed(states[i], f) && f in states[i].tables ==>
                          f in states[i + 1].tables && states[i + 1].tables[f] == states[i].tables[f]
    ensures Replayed(states[i + 1]) == Replayed(states[i])
    ensures states[i + 1].manifestFile == states[i].manifestFile && states[i + 1].manifestFile in states[i + 1].manifests
  {
    hide Inv, Enabled, Needed, InUse;
    var s, deadTables, deadLogs, deadManifests := states[i], steps[i].deadTables, steps[i].deadLogs, steps[i].deadManifests;
    RunKeepsInv(states, steps, i);
    RunKeepsInv(states, steps, i + 1);
    TablesBelow(states[i + 1]);
    forall f | f in deadTables ensures !Needed(s, f) {
      NothingNeededIsDead(s, deadTables, deadLogs, deadManifests, f);
    }
    DeadIsUnused(s, deadTables, deadLogs, deadManifests);
    var s2 := states[i + 1];
    var names := set n | n in s.logs && n >= s.manifest.logNumber;
    assert names == set n | n in s2.logs && n >= s2.manifest.logNumber;
    SameContents(names, s.logs, s2.logs);
  }

  /** While a table is being flushed and its edit installed, the one thread that collects garbage has its hands full. */
  lemma BusyThreadCollectsNothing(states: seq<State>, steps: seq<Step>, i: nat, deadTables: set<nat>, deadLogs: set<nat>, deadManifests: set<nat>)
    requires Run(states, steps) && i < |states| && (states[i].flush.Building? || states[i].apply.Applying?)
    ensures !Enabled(states[i], DeleteObsoleteFiles(deadTables, deadLogs, deadManifests))
  {
    RunKeepsInv(states, steps, i);
    hide Run, TotalOrder, NumbersInv, WriteInv, HistoryInv, GroupsInv, TablesInv, ManifestInv, CopiesInv, SnapshotsInv, ReadersInv, SchedulingInv, CompInv,
         Good, FlushEditOk, LiveFiles, Files;
  }

  /** That is all that protects the flushed table: it has left pending_outputs_, and no version has it yet. */
  lemma UnprotectedWindow(s: State, level: nat)
    requires Inv(s) && Enabled(s, FlushEnd(true, level)) && !s.shuttingDown
    requires EntriesOf(s.memtables, s.immLog.value) != {} && forall v :: v in PinnedVersions(s) ==> s.flush.file !in Files(v)
    ensures var s2 := Apply(s, FlushEnd(true, level));
            && s2.flush.NoFlush? && Needed(s2, s.flush.file) && s.flush.file !in LiveFiles(s2) && s2.apply.Applying?
  {
    hide Inv, Files, InUse, RangeFree;
    var s2 := Apply(s, FlushEnd(true, level));
    assert PinnedVersions(s2) == PinnedVersions(s);
  }

  // ---- Scheduling ----------------------------------------------------------

  /** Between critical sections: work to do means a background call is queued or running, and what
      the background thread has in hand means it is running. */
  lemma WorkIsScheduled(states: seq<State>, steps: seq<Step>, i: nat)
    requires Run(states, steps) && i < |states|
    ensures var s := states[i];
            && ((s.immLog.Some? || s.needsCompaction) && !s.bgError && !s.shuttingDown ==> s.scheduled)
            && (s.active ==> s.scheduled)
            && (s.flush.Building? || s.comp.Compacting? || s.apply.Applying? ==> s.active)
  {
    RunKeepsInv(states, steps, i);
    hide Run, TotalOrder, NumbersInv, WriteInv, HistoryInv, GroupsInv, TablesInv, ManifestInv, CopiesInv, SnapshotsInv, ReadersInv, FlushInv, CompInv, ApplyInv;
  }

  /** A full memtable waits for its flush: a step leaves imm alone, fills an empty one, or clears it
      once its edit is installed. */
  lemma ImmIsNeverOverwritten(s: State, step: Step)
    requires Enabled(s, step) && !step.CrashRecover? && Apply(s, step).immLog != s.immLog
    ensures || (step == SwitchMemTable && s.immLog.None? && Apply(s, step).immLog == Some(s.memLog))
            || (step.ApplyOk? && s.apply.edit.Flushed? && Apply(s, step).immLog.None?)
  {
    if ReaderStep(step) || WriterStep(step) {
      ForegroundAndImm(s, step);
    } else {
      hide Picked, BoundaryLeft, BaseOf, GoodOutputs, RangeFree, LiveFiles, Kept, Contents, Cuts, Replayed, ApplyEdit;
    }
  }

  lemma ForegroundAndImm(s: State, step: Step)
    requires Enabled(s, step) && !step.CrashRecover? && (ReaderStep(step) || WriterStep(step)) && Apply(s, step).immLog != s.immLog
    ensures step == SwitchMemTable && s.immLog.None? && Apply(s, step).immLog == Some(s.memLog)
  {
  }

  lemma {:induction false} QuietAfterShutdown(states: seq<State>, steps: seq<Step>, i: nat, j: nat)
    requires Run(states, steps) && i <= j < |states| && NoCrash(steps, i, j)
    requires states[i].shuttingDown && !states[i].scheduled
    ensures states[j].shuttingDown && !states[j].scheduled && !states[j].active
    decreases j
  {
    hide Inv, Enabled, Apply;
    RunKeepsInv(states, steps, j);
    ActiveIsScheduled(states[j]);
    if i < j {
      QuietAfterShutdown(states, steps, i, j - 1);
      RunKeepsInv(states, steps, j - 1);
      StepStaysQuiet(states[j - 1], steps[j - 1]);
    }
  }

  lemma ActiveIsScheduled(s: State)
    requires Inv(s)
    ensures s.active ==> s.scheduled
  {
    hide TotalOrder, NumbersInv, WriteInv, HistoryInv, GroupsInv, TablesInv, ManifestInv, CopiesInv, SnapshotsInv, ReadersInv, FlushInv, CompInv, ApplyInv;
  }

  lemma StepStaysQuiet(s: State, step: Step)
    requires Enabled(s, step) && !step.CrashRecover? && s.shuttingDown && !s.scheduled && !s.active
    ensures Apply(s, step).shuttingDown && !Apply(s, step).scheduled
  {
    if ReaderStep(step) || WriterStep(step) {
      ForegroundStaysQuiet(s, step);
    } else {
      hide Picked, BoundaryLeft, BaseOf, GoodOutputs, RangeFree, LiveFiles, Kept, Contents, Cuts, Replayed, ApplyEdit;
    }
  }

  lemma ForegroundStaysQuiet(s: State, step: Step)
    requires Enabled(s, step) && !step.CrashRecover? && (ReaderStep(step) || WriterStep(step)) && s.shuttingDown && !s.scheduled
    ensures Apply(s, step).shuttingDown && !Apply(s, step).scheduled
  {
    if WriterStep(step) {
      WriterStaysQuiet(s, step);
    } else {
      hide Recovered, HalfRecovered, Installed, NotInstalled, Contents, EntriesOf, Elements;
    }
  }

  lemma WriterStaysQuiet(s: State, step: Step)
    requires Enabled(s, step) && !step.CrashRecover? && WriterStep(step) && s.shuttingDown && !s.scheduled
    ensures Apply(s, step).shuttingDown && !Apply(s, step).scheduled
  {
    hide Enabled, Apply;
    if step.Insert? {
      InsertAdds(s);
    } else if step.EndWrite? {
      EndWriteAdds(s);
    } else {
      LogStepKeepsHistory(s, step);
    }
  }
}
