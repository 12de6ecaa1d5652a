/** Methods of the database object (db/db_impl.cc): when background work is asked for and when a
    memtable is replaced, which files are deleted, and how logs are read back. */
module DbImpl {
  import opened Common
  import opened Entries
  import opened Control
  import Versions
  import Engine

  // ---- Scheduling and the memtable switch ----------------------------------

  /** What becomes of a background call: how building the table, installing the edit or compacting ended,
      and what the version set says once something has been installed. */
  datatype Work = Work(built: bool, installed: bool, compacted: bool, needsMore: bool, levelZeroFiles: nat)

  datatype Room = Ready | Refused | StillWaiting

  const SLOWDOWN_TRIGGER: nat := 8
  const STOP_TRIGGER: nat := 12

  class Db {
    const writeBufferSize: nat
    /** Memtables go by the number of their log. */
    var mem: nat
    var memUsage: nat
    var imm: Option<nat>
    var hasImm: bool
    var logfileNumber: nat
    var nextFile: nat
    var levelZeroFiles: nat
    var needsCompaction: bool
    var bgError: bool
    var shuttingDown: bool
    var scheduled: bool
    /** Background calls that the environment has queued or is running. */
    var calls: nat
    /** Memtables that were filled, and those of them that are in a table, in order. */
    ghost var filled: seq<nat>
    ghost var flushed: seq<nat>
    /** What has happened so far, as steps of the control machine. */
    ghost var moves: seq<Move>
    ghost const log0: nat

    ghost function View(): ControlState
      reads this
    {
      ControlState(mem, imm, needsCompaction, bgError, shuttingDown, scheduled)
    }

    /** What holds even in the middle of a critical section. */
    ghost predicate Sound()
      reads this
    {
      && hasImm == imm.Some? && logfileNumber == mem < nextFile
      && calls == (if scheduled then 1 else 0)
      && filled == flushed + (if imm.Some? then [imm.value] else [])
      && Possible(Fresh(log0), moves)
    }

    /** The fields are where the moves lead to. */
    ghost predicate Tracked()
      reads this
    {
      Possible(Fresh(log0), moves) && View() == After(Fresh(log0), moves)
    }

    predicate HasWork()
      reads this
    {
      (imm.Some? || needsCompaction) && !bgError && !shuttingDown
    }

    /** What holds whenever the mutex is free: at most one background call is under way; there is one if
        there is work; and every memtable ever filled has been flushed, or is the one waiting. */
    ghost predicate Valid()
      reads this
    {
      Sound() && Tracked() && (HasWork() ==> scheduled)
    }

    constructor (writeBufferSize: nat, log: nat)
      ensures Valid() && this.writeBufferSize == writeBufferSize && imm.None? && !shuttingDown && !scheduled && filled == []
    {
      this.writeBufferSize, mem, memUsage, imm, hasImm := writeBufferSize, log, 0, None, false;
      logfileNumber, nextFile, levelZeroFiles := log, log + 1, 0;
      needsCompaction, bgError, shuttingDown, scheduled, calls := false, false, false, false, 0;
      filled, flushed, moves, log0 := [], [], [], log;
    }

    /** Part of a critical section; the move that this is part of is recorded there. */
    method MaybeScheduleCompaction()
      requires Sound()
      modifies this`scheduled, this`calls
      ensures Sound() && (HasWork() ==> scheduled) && scheduled == (old(scheduled) || HasWork())
    {
      if scheduled {
      } else if shuttingDown {
      } else if bgError {
      } else if imm.None? && !needsCompaction {
      } else {
        scheduled := true;
        calls := calls + 1;
      }
    }

    method RecordBackgroundError()
      requires Valid()
      modifies this`bgError, this`moves
      ensures Valid() && bgError && moves == old(moves) + [Failed]
    {
      if !bgError {
        bgError := true;
      }
      OneMore(Fresh(log0), moves, Failed);
      moves := moves + [Failed];
    }

    /** The immutable memtable goes only when its table is part of the version. */
    method CompactMemTable(work: Work)
      requires Valid() && imm.Some?
      modifies this`imm, this`hasImm, this`bgError, this`flushed, this`needsCompaction, this`levelZeroFiles, this`moves
      ensures Sound() && Tracked()
      ensures imm.None? <==> work.built && work.installed && !shuttingDown
      ensures imm.None? ==> flushed == old(flushed) + [old(imm).value] && bgError == old(bgError)
      ensures imm.Some? ==> Valid() && imm == old(imm) && flushed == old(flushed) && bgError
      ensures moves == old(moves) + [if imm.None? then Flushed(work.needsMore) else Failed]
    {
      var ok := work.built;
      if ok && shuttingDown {
        ok := false;
      }
      if ok {
        ok := work.installed;
      }
      if ok {
        OneMore(Fresh(log0), moves, Flushed(work.needsMore));
        moves := moves + [Flushed(work.needsMore)];
        needsCompaction, levelZeroFiles := work.needsMore, work.levelZeroFiles;
        flushed := flushed + [imm.value];
        imm := None;
        hasImm := false;
      } else {
        RecordBackgroundError();
      }
    }

    method BackgroundCompaction(work: Work)
      requires Valid()
      modifies this`imm, this`hasImm, this`bgError, this`flushed, this`needsCompaction, this`levelZeroFiles, this`moves
      ensures Sound() && Tracked() && (old(bgError) ==> bgError)
      ensures imm == old(imm) || imm.None?
      ensures flushed == old(flushed) + (if imm == old(imm) then [] else [old(imm).value])
      ensures |moves| == |old(moves)| + 1 && old(moves) <= moves
    {
      if imm.Some? {
        CompactMemTable(work);
        return;
      }
      if !work.compacted {
        RecordBackgroundError();
      } else {
        OneMore(Fresh(log0), moves, Compacted(work.needsMore));
        moves := moves + [Compacted(work.needsMore)];
        needsCompaction, levelZeroFiles := work.needsMore, work.levelZeroFiles;
      }
    }

    /** BackgroundCall: runs at most once at a time, and asks for the next run itself. */
    method BackgroundCall(work: Work)
      requires Valid() && scheduled
      modifies this`imm, this`hasImm, this`bgError, this`flushed, this`scheduled, this`calls, this`needsCompaction, this`levelZeroFiles, this`moves
      ensures Valid() && (old(bgError) ==> bgError)
      ensures scheduled == HasWork()
      ensures imm == old(imm) || (imm.None? && !old(shuttingDown) && !old(bgError))
      ensures |moves| == |old(moves)| + (if old(shuttingDown) || old(bgError) then 1 else 2) && old(moves) <= moves && moves[|moves| - 1] == CallEnds
    {
      if shuttingDown {
      } else if bgError {
      } else {
        BackgroundCompaction(work);
      }
      OneMore(Fresh(log0), moves, CallEnds);
      moves := moves + [CallEnds];
      scheduled := false;
      calls := calls - 1;
      MaybeScheduleCompaction();
    }

    /** The destructor: no further call is asked for, and when the last one has come back none is left. */
    method Close(returning: seq<Work>) returns (closed: bool)
      requires Valid()
      modifies this
      ensures Valid() && shuttingDown && closed == !scheduled
      ensures closed || (old(scheduled) && returning == [])
      ensures imm == old(imm) && filled == old(filled)
    {
      OneMore(Fresh(log0), moves, ShutDown);
      moves := moves + [ShutDown];
      shuttingDown := true;
      var i := 0;
      while scheduled
        invariant Valid() && shuttingDown && i <= |returning| && (if i == 0 then scheduled == old(scheduled) else !scheduled)
        invariant imm == old(imm) && filled == old(filled)
        decreases |returning| - i
      {
        if i == |returning| {
          return false;
        }
        BackgroundCall(returning[i]);
        i := i + 1;
      }
      return true;
    }

    /** Waiting, or sleeping with the mutex released: the background call under way may come back. */
    method Wait(work: Work)
      requires Valid()
      modifies this`imm, this`hasImm, this`bgError, this`flushed, this`scheduled, this`calls, this`needsCompaction, this`levelZeroFiles, this`moves
      ensures Valid() && (old(bgError) ==> bgError) && (imm == old(imm) || imm.None?)
    {
      if scheduled {
        BackgroundCall(work);
      }
    }

    /** The full memtable waits to be flushed; a new one with a new log takes its place. */
    method SwitchMemTable(newLogNumber: nat)
      requires Sound() && Tracked() && (HasWork() ==> scheduled) && imm.None? && !bgError && mem < newLogNumber < nextFile
      modifies this
      ensures Valid() && imm == Some(old(mem)) && mem == newLogNumber && memUsage == 0 && filled == old(filled) + [old(mem)]
      ensures bgError == old(bgError) && levelZeroFiles == old(levelZeroFiles) && moves == old(moves) + [Switch(newLogNumber)]
    {
      OneMore(Fresh(log0), moves, Switch(newLogNumber));
      moves := moves + [Switch(newLogNumber)];
      logfileNumber := newLogNumber;
      filled := filled + [mem];
      imm := Some(mem);
      hasImm := true;
      mem, memUsage := newLogNumber, 0;
      MaybeScheduleCompaction();
    }

    /** MakeRoomForWrite. world says how each background call ends that comes back while the writer waits.
        A memtable is replaced only if that is needed, when no other is waiting to be flushed and there are less
        than 12 level-0 files, and at most once; on success there is room. From 8 level-0 files on the write is
        delayed, unless it is forced. */
    method MakeRoomForWrite(forced: bool, newLogOk: bool, world: seq<Work>) returns (r: Room, delayed: bool)
      requires Valid()
      modifies this
      ensures Valid()
      ensures r.Ready? ==> !bgError && memUsage <= writeBufferSize
      ensures filled == old(filled) || (filled == old(filled) + [old(mem)] && mem != old(mem) && memUsage == 0)
      ensures filled == old(filled) ==> mem == old(mem) && memUsage == old(memUsage)
      ensures r.Ready? && (forced || old(memUsage) > writeBufferSize) ==> filled == old(filled) + [old(mem)]
      ensures filled != old(filled) ==> r.Ready? && imm == Some(old(mem)) && levelZeroFiles < 12 && (forced || old(memUsage) > writeBufferSize)
      ensures r.Refused? ==> bgError || !newLogOk
      ensures r.StillWaiting? ==> (forced || old(memUsage) > writeBufferSize) && (imm.Some? || levelZeroFiles >= 12)
      ensures delayed ==> !forced
      ensures !forced && !old(bgError) && old(levelZeroFiles) >= 8 ==> delayed
    {
      hide Possible, After;
      var force, allowDelay, i := forced, !forced, 0;
      delayed := false;
      while true
        invariant Valid() && i <= |world|
        invariant filled == old(filled) || (filled == old(filled) + [old(mem)] && mem != old(mem) && memUsage == 0 && !force)
        invariant filled == old(filled) ==> mem == old(mem) && memUsage == old(memUsage) && force == forced
        invariant filled != old(filled) ==> !bgError && imm == Some(old(mem)) && levelZeroFiles < STOP_TRIGGER && (forced || old(memUsage) > writeBufferSize)
        invariant filled != old(filled) && allowDelay ==> levelZeroFiles < SLOWDOWN_TRIGGER
        invariant if delayed then !forced else allowDelay == !forced
        invariant !forced && !old(bgError) && old(levelZeroFiles) >= SLOWDOWN_TRIGGER && !delayed ==> !bgError && levelZeroFiles >= SLOWDOWN_TRIGGER
        decreases |world| - i, allowDelay, filled == old(filled)
      {
        if bgError {
          return Refused, delayed;
        } else if allowDelay && levelZeroFiles >= SLOWDOWN_TRIGGER {
          // One millisecond with the mutex released.
          allowDelay, delayed := false, true;
          if i < |world| {
            Wait(world[i]);
            i := i + 1;
          }
        } else if !force && memUsage <= writeBufferSize {
          return Ready, delayed;
        } else if imm.Some? || levelZeroFiles >= STOP_TRIGGER {
          if i == |world| {
            return StillWaiting, delayed;
          }
          Wait(world[i]);
          i := i + 1;
        } else {
          var newLogNumber := nextFile;
          nextFile := nextFile + 1;
          if !newLogOk {
            nextFile := newLogNumber;
            return Refused, delayed;
          }
          SwitchMemTable(newLogNumber);
          force := false;
        }
      }
    }
  }

  // ---- Deleting files ------------------------------------------------------

  datatype FileType = LogFile | TableFile | TempFile | DescriptorFile | CurrentFile | DBLockFile | InfoLogFile

  datatype File = File(kind: FileType, number: nat)

  class Directory {
    var files: set<File>

    method Delete(f: File)
      modifies this
      ensures files == old(files) - {f}
    {
      files := files - {f};
    }
  }

  /** What DeleteObsoleteFiles goes by: pending_outputs_, the files of all versions in use, and the
      numbers that the version set keeps. */
  datatype InUse = InUse(bgError: bool, pending: set<nat>, live: set<nat>, logNumber: nat, prevLogNumber: nat, manifestNumber: nat)

  predicate Obsolete(f: File, u: InUse) {
    match f.kind
    case LogFile => f.number < u.logNumber && f.number != u.prevLogNumber
    case DescriptorFile => f.number < u.manifestNumber
    case TableFile => f.number !in u.pending && f.number !in u.live
    case TempFile => f.number !in u.pending && f.number !in u.live
    case _ => false
  }

  /** names is what listing the directory returned; a name that is not a database file is None. Logs from logNumber
      up and the one before them stay, the manifest in use and any newer one, tables and temporary files that are
      pending or live, and all other files; what is listed besides goes, unless there was a background error. */
  method DeleteObsoleteFiles(dir: Directory, names: seq<Option<File>>, u: InUse)
    modifies dir
    ensures forall f :: f in dir.files <==> f in old(dir.files) && (u.bgError || Some(f) !in names || !Obsolete(f, u))
    ensures dir.files <= old(dir.files) && (u.bgError ==> dir.files == old(dir.files))
    ensures forall f :: f in old(dir.files) && Some(f) !in names ==> f in dir.files
    ensures forall f :: f in old(dir.files) && (f.kind.CurrentFile? || f.kind.DBLockFile? || f.kind.InfoLogFile?) ==> f in dir.files
    ensures !u.bgError ==> forall f :: f in old(dir.files) && Some(f) in names ==>
              && (f.kind.LogFile? ==> (f in dir.files <==> f.number >= u.logNumber || f.number == u.prevLogNumber))
              && (f.kind.DescriptorFile? ==> (f in dir.files <==> f.number >= u.manifestNumber))
              && (f.kind.TableFile? ==> (f in dir.files <==> f.number in u.pending || f.number in u.live))
              && (f.kind.TempFile? ==> (f in dir.files <==> f.number in u.pending || f.number in u.live))
  {
    if u.bgError {
      return;
    }
    var live := u.pending + u.live;
    for i := 0 to |names|
      invariant forall f :: f in dir.files <==> f in old(dir.files) && (Some(f) !in names[..i] || !Obsolete(f, u))
    {
      if names[i].Some? {
        var f := names[i].value;
        var keep := true;
        match f.kind {
          case LogFile => keep := f.number >= u.logNumber || f.number == u.prevLogNumber;
          case DescriptorFile => keep := f.number >= u.manifestNumber;
          case TableFile => keep := f.number in live;
          case TempFile => keep := f.number in live;
          case _ =>
        }
        if !keep {
          dir.Delete(f);
        }
      }
    }
    assert names[..|names|] == names;
  }

  /** With what the engine knows, the files it deletes are ones that the engine may delete. */
  lemma ObsoleteIsGarbage(s: Engine.State, u: InUse, deadTables: set<nat>, deadLogs: set<nat>, deadManifests: set<nat>)
    requires s.collecting && !s.crashed && u.bgError == s.bgError && u.pending == s.pending && u.logNumber == s.logNumber
    requires u.manifestNumber == s.manifestFile
    requires forall v, f :: v in Engine.PinnedVersions(s) && f in Versions.Files(v) ==> f in u.live
    requires !u.bgError && forall f :: f in deadTables ==> Obsolete(File(TableFile, f), u)
    requires forall n :: n in deadLogs ==> Obsolete(File(LogFile, n), u)
    requires forall n :: n in deadManifests ==> Obsolete(File(DescriptorFile, n), u)
    ensures Engine.Enabled(s, Engine.DeleteObsoleteFiles(deadTables, deadLogs, deadManifests))
  {
  }

  // ---- Reading logs back ---------------------------------------------------

  /** A log record: too short to be a batch, or a batch of entries numbered from first. */
  datatype LogRecord = TooSmall | Batch(first: nat, entries: seq<Entry>)

  function EntriesIn(log: seq<LogRecord>): seq<Entry> {
    if log == [] then []
    else
      var last := log[|log| - 1];
      EntriesIn(log[..|log| - 1]) + (if last.Batch? then last.entries else [])
  }

  ghost predicate Increasing(es: seq<Entry>) {
    forall i, j :: 0 <= i < j < |es| ==> es[i].sequence < es[j].sequence
  }

  ghost predicate Numbered(r: LogRecord) {
    r.Batch? ==> r.first > 0 && forall i :: 0 <= i < |r.entries| ==> r.entries[i].sequence == r.first + i
  }

  /** The parts written so far, and the memtable being filled, are the entries read so far. */
  ghost predicate CutsWith(parts: seq<set<Entry>>, mem: set<Entry>, es: seq<Entry>) {
    Engine.Cuts(WithMem(parts, mem), Elements(es))
  }

  lemma FillMemTable(parts: seq<set<Entry>>, mem: set<Entry>, es: seq<Entry>, more: seq<Entry>)
    requires CutsWith(parts, mem, es) && Increasing(es + more)
    ensures CutsWith(parts, mem + Elements(more), es + more)
  {
    FillCovers(parts, mem, es, more);
    FillOrdered(parts, mem, es, more);
  }

  function WithMem(parts: seq<set<Entry>>, mem: set<Entry>): seq<set<Entry>> {
    if mem == {} then parts else parts + [mem]
  }

  lemma FillCovers(parts: seq<set<Entry>>, mem: set<Entry>, es: seq<Entry>, more: seq<Entry>)
    requires CutsWith(parts, mem, es)
    ensures var after := WithMem(parts, mem + Elements(more));
            && (forall i :: 0 <= i < |after| ==> after[i] != {})
            && forall e :: e in Elements(es + more) <==> exists i :: 0 <= i < |after| && e in after[i]
  {
    var before, after := WithMem(parts, mem), WithMem(parts, mem + Elements(more));
    forall i | 0 <= i < |after| ensures after[i] != {} {
      if i < |parts| { assert after[i] == before[i]; }
    }
    forall e ensures e in Elements(es + more) <==> exists i :: 0 <= i < |after| && e in after[i] {
      assert e in Elements(es) <==> exists i :: 0 <= i < |before| && e in before[i];
      if e in Elements(es) {
        var i :| 0 <= i < |before| && e in before[i];
        assert e in after[i];
      }
      if e in more {
        assert e in mem + Elements(more);
        assert e in after[|after| - 1];
      }
      if i :| 0 <= i < |after| && e in after[i] && e !in more {
        assert e in before[i];
      }
    }
  }

  lemma FillOrdered(parts: seq<set<Entry>>, mem: set<Entry>, es: seq<Entry>, more: seq<Entry>)
    requires CutsWith(parts, mem, es) && Increasing(es + more)
    ensures var after := WithMem(parts, mem + Elements(more));
            forall i, j, e: Entry, x: Entry :: 0 <= i < j < |after| && e in after[i] && x in after[j] ==> e.sequence < x.sequence
  {
    var before, after := WithMem(parts, mem), WithMem(parts, mem + Elements(more));
    forall i, j, e: Entry, x: Entry | 0 <= i < j < |after| && e in after[i] && x in after[j] ensures e.sequence < x.sequence {
      assert e in before[i];
      if x in more {
        assert e in Elements(es);
        var a :| 0 <= a < |es| && es[a] == e;
        var b :| 0 <= b < |more| && more[b] == x;
        assert (es + more)[a] == e && (es + more)[|es| + b] == x;
      } else {
        assert x in before[j];
      }
    }
  }

  lemma TableWritten(parts: seq<set<Entry>>, mem: set<Entry>, es: seq<Entry>)
    ensures CutsWith(parts, mem, es) ==> CutsWith(WithMem(parts, mem), {}, es)
    ensures CutsWith(parts, {}, es) <==> Engine.Cuts(parts, Elements(es))
  {
  }

  function MaxOf(log: seq<LogRecord>, floor: nat): (m: nat)
    ensures m >= floor
  {
    if log == [] then floor
    else
      var last, m := log[|log| - 1], MaxOf(log[..|log| - 1], floor);
      if last.Batch? && last.first + |last.entries| > m + 1 then last.first + |last.entries| - 1 else m
  }

  predicate HasRoom(mem: set<Entry>, usage: set<Entry> -> nat, writeBufferSize: nat) {
    mem == {} || usage(mem) <= writeBufferSize
  }

  ghost predicate FillsUp(q: set<Entry>, r: LogRecord, part: set<Entry>) {
    r.Batch? && part == q + Elements(r.entries)
  }

  /** The last record of the part came when the part was not full yet. */
  ghost predicate Filled(part: set<Entry>, log: seq<LogRecord>, usage: set<Entry> -> nat, writeBufferSize: nat) {
    exists q: set<Entry>, k: nat :: k < |log| && FillsUp(q, log[k], part) && HasRoom(q, usage, writeBufferSize)
  }

  /** RecoverLogFile: memtables are filled record by record and become level-0 tables when they are full,
      the last one at the end. usage is a memtable's size; tableOk says which tables can be written. */
  method RecoverLogFile(log: seq<LogRecord>, usage: set<Entry> -> nat, writeBufferSize: nat, tableOk: set<Entry> -> bool,
                        parts0: seq<set<Entry>>, maxSequence0: nat, ghost before: seq<Entry>)
      returns (ok: bool, parts: seq<set<Entry>>, maxSequence: nat)
    requires Engine.Cuts(parts0, Elements(before)) && Increasing(before + EntriesIn(log))
    requires forall i :: 0 <= i < |log| ==> Numbered(log[i])
    ensures ok ==> Engine.Cuts(parts, Elements(before + EntriesIn(log))) && maxSequence == MaxOf(log, maxSequence0)
    ensures ok ==> parts0 <= parts && forall i :: |parts0| <= i < |parts| ==>
              Filled(parts[i], log, usage, writeBufferSize) && (i < |parts| - 1 ==> usage(parts[i]) > writeBufferSize)
    ensures (forall es :: tableOk(es)) ==> ok
  {
    hide CutsWith, Increasing, Engine.Cuts, EntriesIn, Filled;
    parts, maxSequence := parts0, maxSequence0;
    TableWritten(parts, {}, before);
    NoRecords(before);
    var mem: Option<set<Entry>> := None;
    assert log[..0] == [];
    for i := 0 to |log|
      invariant CutsWith(parts, if mem.Some? then mem.value else {}, before + EntriesIn(log[..i]))
      invariant maxSequence == MaxOf(log[..i], maxSequence0)
      invariant mem.Some? ==> usage(mem.value) <= writeBufferSize && Filled(mem.value, log, usage, writeBufferSize)
      invariant parts0 <= parts && forall j :: |parts0| <= j < |parts| ==>
                  Filled(parts[j], log, usage, writeBufferSize) && usage(parts[j]) > writeBufferSize
    {
      OneMoreRecord(log, i, before);
      if log[i].Batch? {
        ghost var filling := if mem.Some? then mem.value else {};
        if mem.None? {
          mem := Some({});
        }
        mem := Some(mem.value + Elements(log[i].entries));
        OneMoreFilled(filling, log, usage, writeBufferSize, i);
        FillMemTable(parts, filling, before + EntriesIn(log[..i]), log[i].entries);
        var lastSequence: int := log[i].first + |log[i].entries| - 1;
        if lastSequence > maxSequence {
          maxSequence := lastSequence;
        }
        if usage(mem.value) > writeBufferSize {
          TableWritten(parts, mem.value, before + EntriesIn(log[..i + 1]));
          ok, parts := WriteLevel0Table(mem.value, tableOk, parts);
          mem := None;
          if !ok {
            return;
          }
        }
      } else {
        assert before + EntriesIn(log[..i]) + [] == before + EntriesIn(log[..i]);
      }
    }
    assert log[..|log|] == log;
    ok := true;
    TableWritten(parts, if mem.Some? then mem.value else {}, before + EntriesIn(log));
    if mem.Some? {
      ok, parts := WriteLevel0Table(mem.value, tableOk, parts);
      TableWritten(parts, {}, before + EntriesIn(log));
    }
  }

  lemma OneMoreFilled(q: set<Entry>, log: seq<LogRecord>, usage: set<Entry> -> nat, writeBufferSize: nat, k: nat)
    requires k < |log| && log[k].Batch? && HasRoom(q, usage, writeBufferSize)
    ensures Filled(q + Elements(log[k].entries), log, usage, writeBufferSize)
  {
    assert FillsUp(q, log[k], q + Elements(log[k].entries));
  }

  lemma NoRecords(before: seq<Entry>)
    ensures before + EntriesIn([]) == before
  {
  }

  /** An empty memtable makes no table. */
  method WriteLevel0Table(mem: set<Entry>, tableOk: set<Entry> -> bool, parts0: seq<set<Entry>>) returns (ok: bool, parts: seq<set<Entry>>)
    ensures ok == tableOk(mem)
    ensures ok ==> parts == WithMem(parts0, mem)
  {
    parts := parts0;
    ok := tableOk(mem);
    if ok && mem != {} {
      parts := parts + [mem];
    }
  }

  lemma IncreasingPrefix(before: seq<Entry>, short: seq<Entry>, all: seq<Entry>)
    requires short <= all && Increasing(before + all)
    ensures Increasing(before + short)
  {
    forall i | 0 <= i < |before + short| ensures (before + short)[i] == (before + all)[i] {
    }
  }

  lemma Regroup(a: seq<Entry>, b: seq<Entry>, c: seq<Entry>)
    ensures a + (b + c) == a + b + c
  {
  }

  lemma OneMoreRecord(log: seq<LogRecord>, i: nat, before: seq<Entry>)
    requires i < |log| && Increasing(before + EntriesIn(log))
    ensures var more := if log[i].Batch? then log[i].entries else [];
            && before + EntriesIn(log[..i + 1]) == before + EntriesIn(log[..i]) + more
            && Increasing(before + EntriesIn(log[..i]) + more)
    ensures log[..i + 1][..i] == log[..i]
  {
    LastRecord(log, i);
    EntriesPrefix(log, i + 1);
    hide EntriesIn, Increasing;
    Regroup(before, EntriesIn(log[..i]), if log[i].Batch? then log[i].entries else []);
    IncreasingPrefix(before, EntriesIn(log[..i + 1]), EntriesIn(log));
  }

  lemma LastRecord(log: seq<LogRecord>, i: nat)
    requires i < |log|
    ensures log[..i + 1][..i] == log[..i]
    ensures EntriesIn(log[..i + 1]) == EntriesIn(log[..i]) + if log[i].Batch? then log[i].entries else []
  {
    assert log[..i + 1][..i] == log[..i];
  }

  lemma {:induction false} EntriesPrefix(log: seq<LogRecord>, i: nat)
    requires i <= |log|
    ensures EntriesIn(log[..i]) <= EntriesIn(log)
  {
    if i < |log| {
      EntriesPrefix(log[..|log| - 1], i);
      assert log[..|log| - 1][..i] == log[..i];
    } else {
      assert log[..i] == log;
    }
  }
}
