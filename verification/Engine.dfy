/** The storage engine as a state machine (db/db_impl.cc). A step is one critical section between
    taking and releasing the mutex, or one action that runs with the mutex released: a log append,
    one memtable insertion, writing a table, appending to the manifest. Steps of the writer at the
    head of the queue, of the background thread, and of readers interleave freely. */
module Engine {
  import opened Common
  import opened DbFormat
  import opened Entries
  import opened Compaction
  import opened Versions
  import opened VersionEdits
  import opened Picks

  /** What the manifest in use says. */
  datatype Manifest = Manifest(version: Version, logNumber: nat, lastSequence: nat)

  /** The group being written by the writer at the head of the queue. */
  datatype WriteState =
    | NoWrite
    | Writing(ops: seq<Entry>, logged: bool, inserted: nat, failed: bool, syncError: bool)

  datatype FlushState = NoFlush | Building(file: nat, built: bool)

  datatype CompState =
    | NoComp
    | Compacting(from: nat, in0: set<nat>, in1: set<nat>, inputVersion: Version,
                 smallest: nat, base: UserKey -> bool, outs: set<nat>)

  /** A version edit between its construction and its installation. */
  datatype ApplyState = NoApply | Applying(edit: Edit, smallest: nat, lastSequence: nat, written: bool)

  /** A Get in progress, with the memtables and the version it has pinned. */
  datatype Reader = Reader(snapshot: nat, mem: nat, imm: Option<nat>, version: Version)

  datatype State = State(
    cmp: Comparator,
    // memtables, named by the log file that backs them
    memtables: Tables, memLog: nat, immLog: Option<nat>,
    // version set
    current: Version, logNumber: nat, lastSequence: nat, nextFile: nat,
    // everything else the mutex guards
    pending: set<nat>, snapshots: seq<nat>, readers: map<nat, Reader>,
    write: WriteState, flush: FlushState, comp: CompState, apply: ApplyState,
    scheduled: bool, active: bool, needsCompaction: bool, collecting: bool, bgError: bool, shuttingDown: bool,
    // disk
    tables: Tables, logs: Tables, manifest: Manifest,
    // the manifest files there are, and the one that CURRENT names
    manifests: set<nat>, manifestFile: nat,
    // the process is gone, and what it had in memory with it
    crashed: bool,
    // history: what was inserted, what was acknowledged, what reached a log, and in which groups;
    // and the bookkeeping of the argument: the sequence numbers at which mem and imm begin, the
    // largest smallest_snapshot that any compaction so far has used, whether an installation has failed
    // since the last recovery, and the tables of the immutable memtable (with their levels) that are in
    // the manifest but not in the current version
    hist: set<Entry>, acked: set<Entry>, appended: set<Entry>, groups: set<set<Entry>>,
    memFloor: nat, immFloor: nat, horizon: nat, inDoubt: bool, copies: map<nat, nat>)

  datatype Step =
    | BeginWrite(ops: seq<Entry>)
    | AppendLog(ok: bool, landed: bool)
    | SyncFail
    | Insert
    | EndWrite
    | SwitchMemTable
    | NewSnapshot
    | ReleaseSnapshot(index: nat)
    | BeginRead(id: nat, snapshotIndex: Option<nat>)
    | EndRead(id: nat, chargedSeek: bool)
    | BgBegin
    | BgEnd
    | FlushBegin
    | FlushBuild
    | FlushEnd(built: bool, level: nat)
    | CompBegin(from: nat, in0: set<nat>, in1: set<nat>)
    | CompOpen
    | CompWrite(file: nat, contents: set<Entry>)
    | CompFinish
    | CompAbort
    | TrivialMove(from: nat, file: nat)
    | ManifestWrite
    | ApplyOk(needs: bool)
    | ApplyFail
    | DeleteObsoleteFiles(deadTables: set<nat>, deadLogs: set<nat>, deadManifests: set<nat>)
    | Shutdown
    | CrashInRecovery(parts: seq<set<Entry>>, written: nat, logMade: bool, manifestMade: bool)
    | CrashRecover(parts: seq<set<Entry>>)

  // ---- Live files and garbage ---------------------------------------------

  function PinnedVersions(s: State): set<Version> {
    {s.current}
    + (set id | id in s.readers :: s.readers[id].version)
    + (if s.comp.Compacting? then {s.comp.inputVersion} else {})
  }

  /** pending_outputs_ and every file of a version that somebody still holds. */
  function LiveFiles(s: State): set<nat> {
    s.pending + (set v, f | v in PinnedVersions(s) && f in Files(v) :: f)
  }

  // ---- Scheduling ----------------------------------------------------------

  function MaybeSchedule(s: State): State {
    s.(scheduled := s.scheduled || !(s.shuttingDown || s.bgError || (s.immLog.None? && !s.needsCompaction)))
  }

  /** A new log with a new memtable; the full one becomes immutable. */
  function Switched(s: State): State {
    s.(logs := s.logs[s.nextFile := {}], memtables := s.memtables[s.nextFile := {}],
       immLog := Some(s.memLog), memLog := s.nextFile, nextFile := s.nextFile + 1,
       immFloor := s.memFloor, memFloor := s.lastSequence)
  }

  /** The outputs that CleanupCompaction takes off pending_outputs_ once the edit has been dealt with. */
  function FinishedOutputs(s: State): set<nat>
    requires s.apply.Applying?
  {
    if s.apply.edit.Compacted? && s.comp.Compacting? then s.comp.outs else {}
  }

  /** The edited version becomes the current one. Obsolete files are looked for after a flush and after
      a compaction, not after a move. */
  function Installed(s: State, needs: bool): State
    requires s.apply.Applying?
  {
    s.(current := ApplyEdit(s.current, s.apply.edit), logNumber := EditLog(s.apply.edit, s.logNumber),
       needsCompaction := needs, apply := NoApply,
       immLog := if s.apply.edit.Flushed? then None else s.immLog,
       copies := if s.apply.edit.Flushed? && s.apply.edit.file.Some? then s.copies - {s.apply.edit.file.value} else s.copies,
       collecting := s.apply.edit.Flushed? || s.comp.Compacting?,
       pending := s.pending - FinishedOutputs(s), comp := if s.apply.edit.Flushed? then s.comp else NoComp)
  }

  /** Whether the edit reached the manifest is not known. */
  function NotInstalled(s: State): State
    requires s.apply.Applying?
  {
    s.(bgError := true, inDoubt := true, apply := NoApply,
       pending := s.pending - FinishedOutputs(s), comp := if s.apply.edit.Flushed? then s.comp else NoComp)
  }

  function SmallestSnapshot(s: State): nat {
    if s.snapshots == [] then s.lastSequence else s.snapshots[0]
  }

  // ---- Recovery ------------------------------------------------------------

  /** Opening a database takes a number for the new manifest before any other. */
  function FirstTable(s: State): nat {
    s.nextFile + 1
  }

  /** Everything that recovery reads back from the logs the manifest does not declare obsolete. */
  ghost function Replayed(s: State): set<Entry> {
    Contents((set n | n in s.logs && n >= s.manifest.logNumber), s.logs)
  }

  ghost function MaxSequence(es: set<Entry>, floor: nat): (m: nat)
    ensures m >= floor
    ensures forall e :: e in es ==> e.sequence <= m
    ensures m == floor || exists e :: e in es && e.sequence == m
    decreases |es|
  {
    if es == {} then floor
    else
      var e :| e in es;
      assert es == es - {e} + {e};
      var m := MaxSequence(es - {e}, floor);
      if e.sequence > m then e.sequence else m
  }

  /** The memtables that recovery cuts the logs into: everything, in sequence order. */
  ghost predicate Cuts(parts: seq<set<Entry>>, es: set<Entry>) {
    && (forall i :: 0 <= i < |parts| ==> parts[i] != {})
    && (forall e :: e in es <==> exists i :: 0 <= i < |parts| && e in parts[i])
    && (forall i, j, e, x :: 0 <= i < j < |parts| && e in parts[i] && x in parts[j] ==> e.sequence < x.sequence)
  }

  /** Consecutive file numbers for the parts. */
  function Numbered(parts: seq<set<Entry>>, first: nat): (r: Tables)
    ensures forall n :: n in r <==> first <= n < first + |parts|
    ensures forall n :: n in r ==> r[n] == parts[n - first]
  {
    if parts == [] then map[]
    else Numbered(parts[..|parts| - 1], first)[first + |parts| - 1 := parts[|parts| - 1]]
  }

  // ---- Steps ---------------------------------------------------------------

  ghost predicate Enabled(s: State, step: Step) {
    && (s.crashed ==> step.CrashInRecovery? || step.CrashRecover?)
    && match step
    case BeginWrite(ops) =>
      && s.write.NoWrite? && !s.bgError
      && forall i :: 0 <= i < |ops| ==> ops[i].sequence == s.lastSequence + 1 + i
    case AppendLog(ok, landed) => s.write.Writing? && !s.write.logged && !s.write.failed && (ok ==> landed)
    case SyncFail => s.write.Writing? && s.write.logged && !s.write.failed && s.write.inserted == 0
    case Insert => s.write.Writing? && s.write.logged && !s.write.failed && s.write.inserted < |s.write.ops|
    case EndWrite => s.write.Writing? && (s.write.failed || (s.write.logged && s.write.inserted == |s.write.ops|))
    case SwitchMemTable => s.write.NoWrite? && !s.bgError && s.immLog.None?
    case NewSnapshot => true
    case ReleaseSnapshot(i) => i < |s.snapshots|
    case BeginRead(id, snap) => id !in s.readers && (snap.Some? ==> snap.value < |s.snapshots|)
    case EndRead(id, _) => id in s.readers
    case BgBegin => s.scheduled && !s.active
    case BgEnd => s.active && s.flush.NoFlush? && s.comp.NoComp? && s.apply.NoApply?
    case FlushBegin => s.active && s.immLog.Some? && s.flush.NoFlush? && s.apply.NoApply? && (s.comp.Compacting? || !s.bgError)
    case FlushBuild => s.flush.Building? && !s.flush.built
    case FlushEnd(ok, level) =>
      && s.flush.Building? && (ok ==> s.flush.built && s.immLog.Some?)
      && level <= MAX_MEM_COMPACT_LEVEL
      && (ok && level > 0 ==> RangeFree(s.cmp, s.current, s.tables, EntriesOf(s.memtables, s.immLog.value), level))
    case CompBegin(from, in0, in1) =>
      && s.active && s.immLog.None? && s.flush.NoFlush? && s.comp.NoComp? && s.apply.NoApply? && !s.bgError
      && Picked(s.cmp, s.current, s.tables, from, in0, in1) && !BoundaryLeft(s.cmp, s.current, s.tables, from, in1)
    case CompOpen => s.comp.Compacting? && s.flush.NoFlush? && s.apply.NoApply?
    case CompWrite(file, contents) =>
      s.comp.Compacting? && s.apply.NoApply? && file in s.comp.outs && file !in s.tables && contents != {}
    case CompFinish =>
      && s.comp.Compacting? && s.flush.NoFlush? && s.apply.NoApply? && !s.shuttingDown
      && s.comp.outs <= s.tables.Keys && GoodOutputs(s.cmp, s.tables, s.comp.outs)
      && Contents(s.comp.outs, s.tables) == Kept(Contents(s.comp.in0 + s.comp.in1, s.tables), s.comp.smallest, s.comp.base)
    case CompAbort => s.comp.Compacting? && s.flush.NoFlush? && s.apply.NoApply?
    case TrivialMove(from, file) =>
      && s.active && s.immLog.None? && s.flush.NoFlush? && s.comp.NoComp? && s.apply.NoApply? && !s.bgError
      && Picked(s.cmp, s.current, s.tables, from, {file}, {})
    case ManifestWrite => s.apply.Applying? && !s.apply.written
    case ApplyOk(_) => s.apply.Applying? && s.apply.written
    case ApplyFail => s.apply.Applying?
    case DeleteObsoleteFiles(deadTables, deadLogs, deadManifests) =>
      && s.collecting && !s.bgError && deadTables !! LiveFiles(s)
      && (forall n :: n in deadLogs ==> n < s.logNumber) && (forall n :: n in deadManifests ==> n < s.manifestFile)
    case Shutdown => true
    case CrashInRecovery(parts, written, _, _) => s.manifestFile in s.manifests && Cuts(parts, Replayed(s)) && written <= |parts|
    case CrashRecover(parts) => s.manifestFile in s.manifests && Cuts(parts, Replayed(s))
  }

  ghost function Apply(s: State, step: Step): State
    requires Enabled(s, step)
  {
    match step
    case BeginWrite(ops) => s.(write := Writing(ops, false, 0, false, false))
    case AppendLog(ok, landed) =>
      s.(logs := if landed then s.logs[s.memLog := EntriesOf(s.logs, s.memLog) + Elements(s.write.ops)] else s.logs,
         appended := if landed then s.appended + Elements(s.write.ops) else s.appended,
         groups := if landed then s.groups + {Elements(s.write.ops)} else s.groups,
         write := s.write.(logged := ok, failed := !ok))
    case SyncFail => s.(write := s.write.(failed := true, syncError := true))
    case Insert =>
      var e := s.write.ops[s.write.inserted];
      s.(memtables := s.memtables[s.memLog := EntriesOf(s.memtables, s.memLog) + {e}], hist := s.hist + {e},
         write := s.write.(inserted := s.write.inserted + 1))
    case EndWrite =>
      s.(lastSequence := s.lastSequence + |s.write.ops|, bgError := s.bgError || s.write.syncError,
         acked := if s.write.failed then s.acked else s.acked + Elements(s.write.ops), write := NoWrite)
    case SwitchMemTable => MaybeSchedule(Switched(s))
    case NewSnapshot => s.(snapshots := s.snapshots + [s.lastSequence])
    case ReleaseSnapshot(i) => s.(snapshots := s.snapshots[..i] + s.snapshots[i + 1..])
    case BeginRead(id, snap) =>
      var at := if snap.Some? then s.snapshots[snap.value] else s.lastSequence;
      s.(readers := s.readers[id := Reader(at, s.memLog, s.immLog, s.current)])
    case EndRead(id, chargedSeek) =>
      s.(readers := s.readers - {id}, needsCompaction := s.needsCompaction || chargedSeek,
         scheduled := s.scheduled || (chargedSeek && !s.shuttingDown && !s.bgError))
    case BgBegin => s.(active := true)
    case BgEnd => MaybeSchedule(s.(active := false, scheduled := false, collecting := false))
    case FlushBegin =>
      s.(pending := s.pending + {s.nextFile}, flush := Building(s.nextFile, false), nextFile := s.nextFile + 1, collecting := false)
    case FlushBuild =>
      var es := if s.immLog.Some? then EntriesOf(s.memtables, s.immLog.value) else {};
      s.(tables := if es == {} then s.tables else s.tables[s.flush.file := es], flush := s.flush.(built := true))
    case FlushEnd(ok, level) =>
      s.(pending := s.pending - {s.flush.file}, flush := NoFlush,
         bgError := s.bgError || !ok || s.shuttingDown,
         apply := if !ok || s.shuttingDown then NoApply
                  else
                    var file := if EntriesOf(s.memtables, s.immLog.value) == {} then None else Some(s.flush.file);
                    Applying(Flushed(file, level, s.memLog), 0, s.lastSequence, false))
    case CompBegin(from, in0, in1) =>
      s.(comp := Compacting(from, in0, in1, s.current, SmallestSnapshot(s), BaseOf(s.cmp, s.current, s.tables, from), {}), collecting := false)
    case CompOpen =>
      s.(pending := s.pending + {s.nextFile}, comp := s.comp.(outs := s.comp.outs + {s.nextFile}), nextFile := s.nextFile + 1)
    case CompWrite(file, contents) => s.(tables := s.tables[file := contents])
    case CompFinish =>
      s.(apply := Applying(Compacted(s.comp.from, s.comp.in0, s.comp.in1, s.comp.outs), s.comp.smallest, s.lastSequence, false),
         collecting := false)
    case CompAbort => s.(bgError := true, collecting := true, pending := s.pending - s.comp.outs, comp := NoComp)
    case TrivialMove(from, file) =>
      s.(apply := Applying(Compacted(from, {file}, {}, {file}), 0, s.lastSequence, false), collecting := false)
    case ManifestWrite =>
      s.(manifest := Manifest(ApplyEdit(s.manifest.version, s.apply.edit), EditLog(s.apply.edit, s.logNumber), s.apply.lastSequence),
         copies := if s.apply.edit.Flushed? && s.apply.edit.file.Some? then s.copies[s.apply.edit.file.value := s.apply.edit.level] else s.copies,
         horizon := if s.horizon < s.apply.smallest then s.apply.smallest else s.horizon,
         apply := s.apply.(written := true))
    case ApplyOk(needs) => Installed(s, needs)
    case ApplyFail => NotInstalled(s)
    case DeleteObsoleteFiles(deadTables, deadLogs, deadManifests) =>
      s.(tables := s.tables - deadTables, logs := s.logs - deadLogs, manifests := s.manifests - deadManifests)
    case Shutdown => s.(shuttingDown := true)
    case CrashInRecovery(parts, written, logMade, manifestMade) => HalfRecovered(s, parts, written, logMade, manifestMade)
    case CrashRecover(parts) => Recovered(s, parts)
  }

  /** A crash before recovery has set CURRENT: some level-0 tables are there, and perhaps the new log and the new
      manifest. */
  function HalfRecovered(s: State, parts: seq<set<Entry>>, written: nat, logMade: bool, manifestMade: bool): State
    requires written <= |parts|
  {
    var log := FirstTable(s) + |parts|;
    s.(crashed := true, tables := s.tables + Numbered(parts[..written], FirstTable(s)),
       logs := if logMade then s.logs[log := {}] else s.logs, nextFile := log + 1,
       manifests := if manifestMade then s.manifests + {s.nextFile} else s.manifests)
  }

  /** DB::Open on what a crash leaves: the manifest's version, plus one level-0 table per replayed
      memtable, plus a new log with an empty memtable, in a new manifest that CURRENT names from then on. */
  ghost function Recovered(s: State, parts: seq<set<Entry>>): State
  {
    var newTables := Numbered(parts, FirstTable(s));
    var log := FirstTable(s) + |parts|;
    var version := if |s.manifest.version.levels| == 0 then s.manifest.version
                   else Version(s.manifest.version.levels[0 := s.manifest.version.levels[0] + newTables.Keys]);
    var last := MaxSequence(Replayed(s), s.manifest.lastSequence);
    State(s.cmp, map[log := {}], log, None,
          version, log, last, log + 1,
          {}, [], map[],
          NoWrite, NoFlush, NoComp, NoApply,
          false, false, false, true, false, false,
          s.tables + newTables, s.logs[log := {}], Manifest(version, log, last), s.manifests + {s.nextFile}, s.nextFile, false,
          s.hist + Replayed(s), s.acked, s.appended, s.groups,
          last, s.immFloor, s.horizon, false, map[])
  }

  const EMPTY_VERSION := Version([{}, {}, {}, {}, {}, {}, {}])

  /** A new, empty database: NewDB makes the first manifest, and opening it the second one and a log. */
  ghost function Init(cmp: Comparator): State {
    State(cmp, map[3 := {}], 3, None,
          EMPTY_VERSION, 3, 0, 4,
          {}, [], map[],
          NoWrite, NoFlush, NoComp, NoApply,
          false, false, false, false, false, false,
          map[], map[3 := {}], Manifest(EMPTY_VERSION, 3, 0), {1, 2}, 2, false,
          {}, {}, {}, {},
          0, 0, 0, false, map[])
  }
}
