/** What every reachable state of the storage engine satisfies. */
module EngineInv {
  import opened Common
  import opened Coding
  import opened DbFormat
  import opened Entries
  import opened Versions
  import opened VersionEdits
  import opened ReadOrder
  import opened Engine

  /** DBImpl::Get: memtable, immutable memtable, version. */
  ghost function ReaderLayers(r: Reader, memtables: Tables, tables: Tables): seq<set<Entry>> {
    [EntriesOf(memtables, r.mem)]
    + (if r.imm.Some? then [EntriesOf(memtables, r.imm.value)] else [])
    + VersionLayers(r.version, tables)
  }

  ghost function ReadResult(r: Reader, memtables: Tables, tables: Tables, k: UserKey): Option<seq<Byte>> {
    LayeredGet(ReaderLayers(r, memtables, tables), r.snapshot, k)
  }

  // ---- The invariant, section by section ----------------------------------

  ghost predicate NumbersInv(s: State) {
    && (forall n :: n in s.tables ==> n < s.nextFile)
    && (forall n :: n in s.pending ==> n < s.nextFile)
    && (forall n :: n in s.logs ==> n < s.nextFile)
    && (forall n :: n in s.memtables ==> n < s.nextFile)
    && (forall n :: n in s.manifests ==> n < s.nextFile) && s.manifestFile in s.manifests
    && s.memLog in s.memtables && s.memLog in s.logs
    && (s.immLog.Some? ==> s.immLog.value in s.memtables && s.immLog.value in s.logs && s.immLog.value < s.memLog)
    && s.logNumber == (if s.immLog.Some? then s.immLog.value else s.memLog)
    && (forall n :: n in s.logs ==> n == s.memLog || s.immLog == Some(n) || n < s.logNumber || (s.crashed && n > s.memLog && s.logs[n] == {}))
  }

  ghost predicate WriteInv(s: State) {
    match s.write
    case NoWrite =>
      forall e :: e in s.appended ==> e.sequence <= s.lastSequence
    case Writing(ops, logged, inserted, failed, syncError) =>
      && inserted <= |ops| && (inserted > 0 ==> logged && !failed)
      && (forall i :: 0 <= i < |ops| ==> ops[i].sequence == s.lastSequence + 1 + i)
      && (logged ==> Elements(ops) <= s.appended)
      && (forall e :: e in s.appended && e.sequence > s.lastSequence ==> (logged || failed) && e in ops)
      && (forall e :: e in s.hist && e.sequence > s.lastSequence ==> e in ops[..inserted])
      && (forall i :: 0 <= i < inserted ==> ops[i] in s.hist)
  }

  ghost predicate HistoryInv(s: State) {
    && UniqueSequences(s.appended)
    && s.memFloor <= s.lastSequence
    && EntriesOf(s.memtables, s.memLog) == Beyond(s.hist, s.memFloor)
    && EntriesOf(s.logs, s.memLog) == Beyond(s.appended, s.memFloor)
    && s.immFloor <= s.memFloor
    && (s.immLog.Some? ==>
          && EntriesOf(s.memtables, s.immLog.value) == Beyond(Upto(s.hist, s.memFloor), s.immFloor)
          && EntriesOf(s.logs, s.immLog.value) == Beyond(Upto(s.appended, s.memFloor), s.immFloor))
    && (forall id :: id in s.memtables ==> s.memtables[id] <= s.hist)
    && s.acked <= s.hist && s.hist <= s.appended
  }

  /** The group has not begun below the bound and continued above it. */
  ghost predicate Together(g: set<Entry>, bound: nat) {
    (forall e :: e in g ==> e.sequence <= bound) || (forall e :: e in g ==> e.sequence > bound)
  }

  ghost predicate AllOrNone(g: set<Entry>, es: set<Entry>) {
    g <= es || g !! es
  }

  /** A group is the one being written, or it was inserted as a whole or not at all. */
  ghost predicate GroupOk(g: set<Entry>, s: State) {
    || ((forall e :: e in g ==> e.sequence <= s.lastSequence) && AllOrNone(g, s.hist))
    || (s.write.Writing? && g == Elements(s.write.ops))
  }

  /** Neither a memtable switch nor a reader's snapshot ever falls inside a group. */
  ghost predicate GroupsInv(s: State) {
    && (forall g :: g in s.groups ==> g <= s.appended && GroupOk(g, s))
    && (forall g :: g in s.groups ==> Together(g, s.memFloor) && Together(g, s.immFloor))
    && (forall g, i :: g in s.groups && 0 <= i < |s.snapshots| ==> Together(g, s.snapshots[i]))
    && (forall g, id :: g in s.groups && id in s.readers ==> Together(g, s.readers[id].snapshot))
  }

  function TableFloor(s: State): nat {
    if s.immLog.Some? then s.immFloor else s.memFloor
  }

  /** The manifest's tables stand for the history up to here, … */
  function ManifestFloor(s: State): nat {
    if s.immLog.Some? && s.copies == map[] then s.immFloor else s.memFloor
  }

  /** … and the logs that it does not declare obsolete begin here. */
  function LogFloor(s: State): nat {
    if s.manifest.logNumber == s.memLog then s.memFloor else s.immFloor
  }

  function ImmEntries(s: State): set<Entry> {
    if s.immLog.Some? then EntriesOf(s.memtables, s.immLog.value) else {}
  }

  predicate Written(s: State) {
    s.apply.Applying? && s.apply.written
  }

  predicate CompactionWritten(s: State) {
    Written(s) && s.apply.edit.Compacted?
  }

  /** Further edits may come. After a failed installation that is so only while a compaction is under way. */
  predicate Retrying(s: State) {
    s.comp.Compacting? || !s.inDoubt
  }

  /** As long as edits may come, the manifest's version is the current one, with the tables of failed
      installations and the edit on its way. */
  function Expected(s: State): Version {
    var v := WithCopies(s.current, s.copies);
    if CompactionWritten(s) then ApplyEdit(v, s.apply.edit) else v
  }

  ghost predicate TablesInv(s: State) {
    Good(s.cmp, s.current, s.tables, s.hist, TableFloor(s), s.horizon)
  }

  ghost predicate ManifestInv(s: State) {
    && Good(s.cmp, s.manifest.version, s.tables, s.hist, ManifestFloor(s), s.horizon)
    && (s.manifest.logNumber == s.memLog || s.immLog == Some(s.manifest.logNumber))
    && (LogFloor(s) > ManifestFloor(s) ==> ImmEntries(s) == {})
    && ManifestFloor(s) <= s.manifest.lastSequence <= s.lastSequence && LogFloor(s) <= s.manifest.lastSequence
    && s.horizon <= s.manifest.lastSequence
    && (Retrying(s) ==> s.manifest.version == Expected(s))
    && (Written(s) ==> s.manifest.logNumber == EditLog(s.apply.edit, s.logNumber))
    && (!s.inDoubt && !Written(s) ==> s.manifest.logNumber == s.logNumber)
  }

  /** Tables of the immutable memtable that were written to the manifest but not installed. */
  ghost predicate CopiesInv(s: State) {
    && s.copies.Keys <= s.tables.Keys
    && (s.inDoubt ==> s.bgError)
    && (!s.inDoubt ==> s.copies.Keys == if Written(s) && s.apply.edit.Flushed? && s.apply.edit.file.Some? then {s.apply.edit.file.value} else {})
    && (s.immLog.Some? && s.copies != map[] ==> ImmEntries(s) != {})
    && (s.immLog.Some? && Retrying(s) ==> forall f :: f in s.copies ==> CopyOk(s.cmp, s.current, s.tables, ImmEntries(s), f, s.copies[f]))
  }

  ghost predicate SnapshotsInv(s: State) {
    && s.horizon <= s.lastSequence
    && (forall i, j :: 0 <= i < j < |s.snapshots| ==> s.snapshots[i] <= s.snapshots[j])
    && (forall i :: 0 <= i < |s.snapshots| ==> s.horizon <= s.snapshots[i] <= s.lastSequence)
    && (s.comp.Compacting? ==>
          s.comp.smallest <= s.lastSequence && forall i :: 0 <= i < |s.snapshots| ==> s.comp.smallest <= s.snapshots[i])
    && (s.apply.Applying? ==>
          && s.apply.smallest <= s.apply.lastSequence <= s.lastSequence
          && forall i :: 0 <= i < |s.snapshots| ==> s.apply.smallest <= s.snapshots[i])
  }

  ghost predicate ReaderOk(cmp: Comparator, r: Reader, memtables: Tables, tables: Tables, hist: set<Entry>, lastSequence: nat) {
    && r.snapshot <= lastSequence
    && r.mem in memtables && (r.imm.Some? ==> r.imm.value in memtables)
    && Files(r.version) <= tables.Keys
    && Contents(Files(r.version), tables) <= hist && LevelsApart(cmp, r.version, tables) && |r.version.levels| == NUM_LEVELS
    && (forall k :: ReadResult(r, memtables, tables, k) == Lookup(hist, r.snapshot, k))
    && (forall k :: Lookup(Union(ReaderLayers(r, memtables, tables)), r.snapshot, k) == Lookup(hist, r.snapshot, k))
  }

  ghost predicate ReadersInv(s: State) {
    forall id :: id in s.readers ==> ReaderOk(s.cmp, s.readers[id], s.memtables, s.tables, s.hist, s.lastSequence)
  }

  /** One background thread; whenever the mutex is free and there is work, it has been asked for. */
  ghost predicate SchedulingInv(s: State) {
    && (s.active ==> s.scheduled)
    && (s.flush.Building? || s.comp.Compacting? || s.apply.Applying? ==> s.active)
    && ((s.immLog.Some? || s.needsCompaction) && !s.bgError && !s.shuttingDown ==> s.scheduled)
  }

  ghost predicate FlushInv(s: State) {
    s.flush.Building? ==>
      && s.immLog.Some? && s.apply.NoApply? && Retrying(s) && !s.collecting && s.flush.file in s.pending
      && (s.comp.Compacting? ==> s.flush.file !in s.comp.outs)
      && (forall f: nat :: InLevel(s.current, 0, f) ==> f < s.flush.file)
      && s.flush.file !in Files(s.current) && s.flush.file !in Files(s.manifest.version) && s.flush.file !in s.copies
      && (!s.flush.built ==> s.flush.file !in s.tables)
      && (s.flush.built && ImmEntries(s) != {} ==> s.flush.file in s.tables && s.tables[s.flush.file] == ImmEntries(s))
  }

  ghost predicate CompInv(s: State) {
    s.comp.Compacting? ==>
      && (!CompactionWritten(s) ==>
            && s.comp.outs !! Files(s.manifest.version)
            && GoodInputs(s.cmp, s.manifest.version, s.tables, s.comp.from, s.comp.in0, s.comp.in1, s.comp.base))
      && GoodInputs(s.cmp, s.current, s.tables, s.comp.from, s.comp.in0, s.comp.in1, s.comp.base)
      && Files(s.comp.inputVersion) <= s.tables.Keys
      && s.comp.outs <= s.pending && s.comp.outs !! Files(s.current)
      && s.horizon <= s.comp.smallest
  }

  function EditFloor(s: State): nat
    requires s.apply.Applying?
  {
    if s.apply.edit.Flushed? then s.memFloor else TableFloor(s)
  }

  /** What the manifest's tables will stand for once the edit is there. */
  function EditedManifestFloor(s: State): nat
    requires s.apply.Applying?
  {
    if s.apply.edit.Flushed? && s.apply.edit.file.Some? then s.memFloor else ManifestFloor(s)
  }

  function EditedHorizon(s: State): nat
    requires s.apply.Applying?
  {
    if s.horizon < s.apply.smallest then s.apply.smallest else s.horizon
  }

  /** The edit of a flush names a table of the immutable memtable that fits its level, or no table if there is
      nothing in it. */
  ghost predicate FlushEditOk(s: State)
    requires s.apply.Applying? && s.apply.edit.Flushed?
  {
    && s.immLog.Some? && s.apply.edit.log == s.memLog && s.apply.smallest == 0
    && match s.apply.edit.file
       case None => ImmEntries(s) == {}
       case Some(f) =>
         && CopyOk(s.cmp, s.current, s.tables, ImmEntries(s), f, s.apply.edit.level) && ImmEntries(s) != {}
         && (s.comp.Compacting? ==> f !in s.comp.outs)
         && if s.apply.written then f in s.copies && s.copies[f] == s.apply.edit.level else f !in s.copies && f !in Files(s.manifest.version)
  }

  /** Once the manifest has the edit, the edited versions stand for the history. */
  ghost predicate ApplyInv(s: State) {
    s.apply.Applying? ==>
      && s.flush.NoFlush? && Retrying(s) && !s.collecting
      && (s.apply.edit.Flushed? ==> FlushEditOk(s))
      && (s.apply.edit.Compacted? && s.comp.Compacting? ==>
            s.apply.edit == Compacted(s.comp.from, s.comp.in0, s.comp.in1, s.comp.outs) && s.apply.smallest == s.comp.smallest)
      && Good(s.cmp, ApplyEdit(s.current, s.apply.edit), s.tables, s.hist, EditFloor(s), EditedHorizon(s))
      && (!s.apply.written ==>
            Good(s.cmp, ApplyEdit(s.manifest.version, s.apply.edit), s.tables, s.hist, EditedManifestFloor(s), EditedHorizon(s)))
      && EditFloor(s) <= s.apply.lastSequence && EditedManifestFloor(s) <= s.apply.lastSequence && s.horizon <= s.apply.lastSequence
      && (s.apply.written ==> s.apply.smallest <= s.horizon)
  }

  ghost predicate Inv(s: State) {
    && TotalOrder(s.cmp)
    && NumbersInv(s) && WriteInv(s) && HistoryInv(s) && TablesInv(s) && ManifestInv(s) && CopiesInv(s)
    && GroupsInv(s)
    && SnapshotsInv(s) && ReadersInv(s) && SchedulingInv(s) && FlushInv(s) && CompInv(s) && ApplyInv(s)
  }
}
