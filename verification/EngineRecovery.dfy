/** A crash at any moment followed by recovery keeps the invariant, and with it every acknowledged
    write. */
module EngineRecovery {
  import opened Common
  import opened DbFormat
  import opened Entries
  import opened Compaction
  import opened Versions
  import opened VersionEdits
  import opened Engine
  import opened EngineInv
  import opened EngineSteps
  import opened EngineBackground

  /** The logs that recovery reads hold exactly what was appended beyond the manifest's log number. */
  lemma ReplayedIs(s: State)
    requires Inv(s)
    ensures Replayed(s) == Beyond(s.appended, LogFloor(s))
  {
    hide TotalOrder, TablesInv, CopiesInv, SnapshotsInv, ReadersInv, SchedulingInv, FlushInv, CompInv, ApplyInv, WriteInv, GroupsInv, Good, UniqueSequences,
         Upto, Beyond, Contents, WithCopies;
    var names := set n | n in s.logs && n >= s.manifest.logNumber;
    var own := {s.memLog, s.manifest.logNumber};
    EmptyLogs(own, names, s.logs);
    SingleContents(s.memLog, s.logs);
    if s.manifest.logNumber == s.memLog {
      assert own == {s.memLog};
    } else {
      assert own == {s.memLog} + {s.manifest.logNumber};
      ContentsUnion({s.memLog}, {s.manifest.logNumber}, s.logs);
      SingleContents(s.manifest.logNumber, s.logs);
      SplitAt(s.appended, s.immFloor, s.memFloor);
    }
  }

  lemma EmptyLogs(own: set<nat>, names: set<nat>, logs: Tables)
    requires own <= names && forall n :: n in names - own ==> EntriesOf(logs, n) == {}
    ensures Contents(names, logs) == Contents(own, logs)
  {
  }

  lemma SplitAt(es: set<Entry>, low: nat, high: nat)
    requires low <= high
    ensures Beyond(es, high) + Beyond(Upto(es, high), low) == Beyond(es, low)
  {
  }

  /** The manifest's tables stand at least for what is not in the logs to be replayed. */
  function KeptFloor(s: State): nat {
    if LogFloor(s) > ManifestFloor(s) then LogFloor(s) else ManifestFloor(s)
  }

  lemma ManifestIsGood(s: State)
    requires Inv(s)
    ensures Good(s.cmp, s.manifest.version, s.tables, s.hist, KeptFloor(s), s.horizon)
    ensures LogFloor(s) <= KeptFloor(s) <= s.manifest.lastSequence && s.immFloor <= LogFloor(s)
  {
    hide TotalOrder, TablesInv, CopiesInv, SnapshotsInv, ReadersInv, SchedulingInv, FlushInv, CompInv, ApplyInv, WriteInv, GroupsInv, Good, Upto, UniqueSequences, WithCopies;
    if LogFloor(s) > ManifestFloor(s) {
      NothingToFlush(s);
      GoodAtFloor(s.cmp, s.manifest.version, s.tables, s.hist, ManifestFloor(s), LogFloor(s), s.horizon);
    }
  }

  /** Everything that survives: what the manifest's tables stand for, and the logs. */
  lemma RecoveredHistory(s: State, parts: seq<set<Entry>>)
    requires Inv(s) && Enabled(s, CrashRecover(parts))
    ensures var s2 := Recovered(s, parts);
            && s2.hist == Upto(s.hist, LogFloor(s)) + Replayed(s) && s2.hist == Upto(s.hist, KeptFloor(s)) + Replayed(s)
            && s.hist <= s2.hist <= s.appended
            && (forall e :: e in s.appended ==> e.sequence <= s2.lastSequence)
            && LogFloor(s) <= KeptFloor(s) <= s.manifest.lastSequence <= s2.lastSequence
            && s.horizon <= s2.lastSequence && s.immFloor <= LogFloor(s)
            && UniqueSequences(s.appended)
  {
    hide Inv, KeptFloor, LogFloor, Good, Replayed, UniqueSequences, Recovered, Cuts, Enabled;
    ManifestIsGood(s);
    ReplayedIs(s);
    WhatIsAppended(s);
    RecoveredFields(s, parts);
    var last := MaxSequence(Replayed(s), s.manifest.lastSequence);
    forall e | e in s.appended ensures e.sequence <= last {
      if e.sequence > LogFloor(s) { assert e in Replayed(s); }
    }
  }

  lemma RecoveredFields(s: State, parts: seq<set<Entry>>)
    ensures var s2 := Recovered(s, parts); s2.hist == s.hist + Replayed(s) && s2.lastSequence == MaxSequence(Replayed(s), s.manifest.lastSequence)
  {
    hide Replayed, MaxSequence, Numbered;
  }

  lemma WhatIsAppended(s: State)
    requires Inv(s)
    ensures s.hist <= s.appended && UniqueSequences(s.appended) && s.horizon <= s.manifest.lastSequence && s.acked <= s.hist
  {
    hide TotalOrder, NumbersInv, TablesInv, CopiesInv, SnapshotsInv, ReadersInv, SchedulingInv, FlushInv, CompInv, ApplyInv, WriteInv, GroupsInv, UniqueSequences, Good, WithCopies;
  }

  lemma ManifestFiles(s: State)
    requires Inv(s)
    ensures |s.manifest.version.levels| == NUM_LEVELS && forall f :: f in Files(s.manifest.version) ==> f in s.tables && f < s.nextFile
  {
    hide Inv, SameAnswers, OrderedVersion, LevelsApart, Files, KeptFloor;
    ManifestIsGood(s);
    TablesBelow(s);
  }

  lemma RecoveredFiles(s: State, parts: seq<set<Entry>>)
    requires Inv(s) && Enabled(s, CrashRecover(parts))
    ensures var v, v2, added := s.manifest.version, Recovered(s, parts).current, Numbered(parts, FirstTable(s));
            && |v.levels| == NUM_LEVELS && |v2.levels| == NUM_LEVELS
            && Files(v2) == Files(v) + added.Keys
            && (forall i: nat, f: nat :: InLevel(v2, i, f) <==> InLevel(v, i, f) || (i == 0 && f in added))
            && (forall f :: f in added ==> f >= FirstTable(s))
            && (forall f :: f in Files(v) ==> f in s.tables && f < s.nextFile)
  {
    hide Inv, Enabled, Replayed, MaxSequence;
    ManifestFiles(s);
    var v, v2, added := s.manifest.version, Recovered(s, parts).current, Numbered(parts, FirstTable(s));
    forall f ensures f in Files(v2) <==> f in Files(v) + added.Keys {
      FilesOf(v, f);
      FilesOf(v2, f);
      if f in added { assert InLevel(v2, 0, f); }
      if i: nat :| InLevel(v, i, f) { assert InLevel(v2, i, f); }
    }
  }

  /** The new tables hold the parts. */
  lemma NumberedContents(parts: seq<set<Entry>>, first: nat, tables: Tables, es: set<Entry>)
    requires Cuts(parts, es) && forall n :: n in tables ==> n < first
    ensures var added := Numbered(parts, first);
            && (forall f :: f in added ==> EntriesOf(tables + added, f) == parts[f - first])
            && Contents(added.Keys, tables + added) == es
  {
    hide Numbered;
    var added := Numbered(parts, first);
    forall i | 0 <= i < |parts| ensures first + i in added.Keys && EntriesOf(tables + added, first + i) == parts[i] {
    }
  }

  lemma OldAndNew(kept: set<nat>, tables: Tables, parts: seq<set<Entry>>, first: nat, es: set<Entry>)
    requires Cuts(parts, es) && (forall n :: n in tables ==> n < first) && (forall f :: f in kept ==> f in tables)
    ensures var added := Numbered(parts, first);
            && (forall f :: f in kept ==> EntriesOf(tables + added, f) == EntriesOf(tables, f))
            && Contents(kept + added.Keys, tables + added) == es + Contents(kept, tables)
  {
    hide Cuts, Contents;
    var added := Numbered(parts, first);
    NumberedContents(parts, first, tables, es);
    SameContents(kept, tables, tables + added);
    ContentsUnion(kept, added.Keys, tables + added);
  }

  lemma PartsAreCuts(s: State, parts: seq<set<Entry>>)
    requires Enabled(s, CrashRecover(parts))
    ensures Cuts(parts, Replayed(s))
  {
    hide Cuts, Replayed;
  }

  /** The old tables are untouched, and the new ones hold the logs. */
  lemma RecoveredContents(s: State, parts: seq<set<Entry>>)
    requires Inv(s) && Enabled(s, CrashRecover(parts))
    ensures var s2, added := Recovered(s, parts), Numbered(parts, FirstTable(s));
            && (forall f :: f in Files(s.manifest.version) ==> EntriesOf(s2.tables, f) == EntriesOf(s.tables, f))
            && (forall f :: f in added ==> EntriesOf(s2.tables, f) == parts[f - FirstTable(s)])
            && Contents(added.Keys, s2.tables) == Replayed(s)
            && Contents(Files(s2.current), s2.tables) == Replayed(s) + Contents(Files(s.manifest.version), s.tables)
  {
    hide Inv, Files, Replayed, Cuts, Contents, EntriesOf, InLevel, Enabled;
    PartsAreCuts(s, parts);
    RecoveredFiles(s, parts);
    TablesBelow(s);
    NumberedContents(parts, FirstTable(s), s.tables, Replayed(s));
    OldAndNew(Files(s.manifest.version), s.tables, parts, FirstTable(s), Replayed(s));
  }

  lemma TablesBelow(s: State)
    requires Inv(s)
    ensures (forall n :: n in s.tables ==> n < s.nextFile) && (forall n :: n in s.logs ==> n < s.nextFile)
    ensures (forall n :: n in s.manifests ==> n < s.nextFile) && s.manifestFile in s.manifests
  {
    hide TablesInv, ManifestInv, SnapshotsInv, ReadersInv, SchedulingInv, FlushInv, CompInv, ApplyInv, WriteInv, GroupsInv, HistoryInv;
  }

  // ---- The order of the recovered version ---------------------------------

  /** What was replayed, on top of the manifest's tables: of the replayed entries nothing newer is missing. */
  lemma ClosedWithReplay(p: set<Entry>, t: set<Entry>, q: set<Entry>, replayed: set<Entry>, floor: nat, h: nat)
    requires Closed(p, t, h) && q <= replayed && (p == {} || q == replayed)
    requires forall e, x :: e in q && x in replayed && e.sequence < x.sequence ==> x in q
    requires (forall e :: e in replayed ==> e.sequence > floor) && forall x :: x in t && x.sequence > floor ==> x in replayed
    ensures Closed(p + q, t + replayed, h)
  {
    forall e, x | e in p + q && x in t + replayed && e.key == x.key && e.sequence < x.sequence ensures Covers(p + q, x, h) {
      if e in q {
        assert x in q;
      } else if x !in replayed {
        assert Covers(p, x, h);
      }
    }
  }

  lemma CutWithParts(v: Version, v2: Version, added: set<nat>, first: nat, c: Cut)
    requires |v2.levels| == |v.levels| > 0
    requires forall i: nat, f: nat :: InLevel(v2, i, f) <==> InLevel(v, i, f) || (i == 0 && f in added)
    ensures var later := if c.Number? then set f | f in added && f >= c.n else if c.i >= 0 then added else {};
            CutFiles(v2, c) == CutFiles(v, c) + later
  {
    var later := if c.Number? then set f | f in added && f >= c.n else if c.i >= 0 then added else {};
    forall f ensures f in CutFiles(v2, c) <==> f in CutFiles(v, c) + later {
      CutFilesOf(v, c, f);
      CutFilesOf(v2, c, f);
      if f in added { assert InLevel(v2, 0, f); }
      if c.Level? {
        if j: nat :| j <= c.i && InLevel(v, j, f) { assert InLevel(v2, j, f); }
      }
    }
  }

  /** Some of the parts: those from a number up. */
  lemma LaterParts(parts: seq<set<Entry>>, es: set<Entry>, first: nat, tables: Tables, later: set<nat>, n: nat)
    requires Cuts(parts, es) && (forall f :: f in Numbered(parts, first) ==> EntriesOf(tables, f) == parts[f - first])
    requires later == set f | f in Numbered(parts, first) && f >= n
    ensures Contents(later, tables) <= es
    ensures forall e, x :: e in Contents(later, tables) && x in es && e.sequence < x.sequence ==> x in Contents(later, tables)
  {
    hide EntriesOf, Numbered;
    forall e, x | e in Contents(later, tables) && x in es && e.sequence < x.sequence ensures x in Contents(later, tables) {
      var f :| f in later && e in EntriesOf(tables, f);
      var j :| 0 <= j < |parts| && x in parts[j];
      if j < f - first {
        assert false;
      }
      assert first + j in later && x in EntriesOf(tables, first + j);
    }
    forall e | e in Contents(later, tables) ensures e in es {
      var f :| f in later && e in EntriesOf(tables, f);
      assert e in parts[f - first];
    }
  }

  /** A cut of the recovered version: what the manifest's version has there, and some of the parts. */
  lemma RecoveredCutHolds(s: State, parts: seq<set<Entry>>, c: Cut) returns (later: set<nat>)
    requires Inv(s) && Enabled(s, CrashRecover(parts))
    ensures later == set f | f in Numbered(parts, FirstTable(s)) && f >= (if c.Number? then c.n else 0)
    ensures var s2 := Recovered(s, parts);
            Contents(CutFiles(s2.current, c), s2.tables) == Contents(CutFiles(s.manifest.version, c), s.tables) + Contents(later, s2.tables)
  {
    hide Inv, Files, Replayed, InLevel, Contents, EntriesOf, Cuts, CutFiles, Enabled;
    var v, s2, added := s.manifest.version, Recovered(s, parts), Numbered(parts, FirstTable(s));
    RecoveredFiles(s, parts);
    RecoveredContents(s, parts);
    var kept := CutFiles(v, c);
    var from := if c.Number? then c.n else 0;
    later := set f | f in added && f >= from;
    CutWithParts(v, s2.current, added.Keys, FirstTable(s), c);
    assert CutFiles(s2.current, c) == kept + later;
    CutFilesOf(v, c, 0);
    SameContents(kept, s.tables, s2.tables);
    ContentsUnion(kept, later, s2.tables);
  }

  lemma RecoveredCut(s: State, parts: seq<set<Entry>>, c: Cut)
    requires Inv(s) && Enabled(s, CrashRecover(parts))
    ensures var s2 := Recovered(s, parts);
            Closed(Contents(CutFiles(s2.current, c), s2.tables), Contents(Files(s2.current), s2.tables), s.horizon)
  {
    hide Inv, Files, Replayed, InLevel, Contents, EntriesOf, Cuts, Closed, CutFiles, LogFloor, Enabled, Recovered;
    var v, s2, added := s.manifest.version, Recovered(s, parts), Numbered(parts, FirstTable(s));
    RecoveredFiles(s, parts);
    RecoveredContents(s, parts);
    PartsAreCuts(s, parts);
    var kept, all, t := Contents(CutFiles(v, c), s.tables), Replayed(s), Contents(Files(v), s.tables);
    var later := RecoveredCutHolds(s, parts, c);
    LaterParts(parts, all, FirstTable(s), s2.tables, later, if c.Number? then c.n else 0);
    ReplayIsAbove(s);
    if kept != {} {
      SomeOldFile(s, v, c, CutFiles(v, c));
      assert later == added.Keys;
    }
    ManifestCut(s, c);
    ClosedWithReplay(kept, t, Contents(later, s2.tables), all, LogFloor(s), s.horizon);
    assert t + all == all + t;
  }

  lemma SomeOldFile(s: State, v: Version, c: Cut, files: set<nat>)
    requires files == CutFiles(v, c) && Contents(files, s.tables) != {} && forall f :: f in Files(v) ==> f < s.nextFile
    ensures c.Number? ==> c.n < s.nextFile
  {
    var e :| e in Contents(files, s.tables);
    var f :| f in files && e in EntriesOf(s.tables, f);
    CutFilesOf(v, c, f);
  }

  lemma ManifestCut(s: State, c: Cut)
    requires Inv(s)
    ensures Closed(Contents(CutFiles(s.manifest.version, c), s.tables), Contents(Files(s.manifest.version), s.tables), s.horizon)
  {
    hide TotalOrder, TablesInv, CopiesInv, SnapshotsInv, ReadersInv, SchedulingInv, FlushInv, CompInv, ApplyInv, WriteInv, GroupsInv, HistoryInv, NumbersInv, SameAnswers,
         LevelsApart, WithCopies, Closed, CutFiles, Files;
  }

  lemma ReplayIsAbove(s: State)
    requires Inv(s)
    ensures forall e :: e in Replayed(s) ==> e.sequence > LogFloor(s)
    ensures forall x :: x in Contents(Files(s.manifest.version), s.tables) && x.sequence > LogFloor(s) ==> x in Replayed(s)
  {
    hide Inv, Replayed, LogFloor, KeptFloor, SameAnswers, OrderedVersion, LevelsApart, OneLevelEach, Contents, Files;
    ReplayedIs(s);
    ManifestIsGood(s);
    WhatIsAppended(s);
  }

  lemma PartsNotEmpty(parts: seq<set<Entry>>, es: set<Entry>, first: nat, tables: Tables)
    requires Cuts(parts, es) && (forall f :: f in Numbered(parts, first) ==> EntriesOf(tables, f) == parts[f - first])
    ensures forall f :: f in Numbered(parts, first) ==> EntriesOf(tables, f) != {}
  {
    hide EntriesOf, Numbered;
  }

  /** New level-0 files do not touch the further levels. */
  lemma RecoveredLevels(s: State, parts: seq<set<Entry>>)
    requires Inv(s) && Enabled(s, CrashRecover(parts))
    ensures var s2 := Recovered(s, parts); LevelsApart(s.cmp, s2.current, s2.tables) && OneLevelEach(s2.current)
  {
    hide Inv, Files, Replayed, InLevel, Contents, EntriesOf, OrderedVersion, SameAnswers, Cuts, KeptFloor, Apart, KeysApart, Enabled;
    var v, s2, added := s.manifest.version, Recovered(s, parts), Numbered(parts, FirstTable(s));
    ManifestIsGood(s);
    RecoveredFiles(s, parts);
    RecoveredContents(s, parts);
    PartsAreCuts(s, parts);
    PartsNotEmpty(parts, Replayed(s), FirstTable(s), s2.tables);
    ApartWithTables(s.cmp, v, s.tables, s2.tables);
    forall i: nat, f: nat | InLevel(v, i, f) ensures f in Files(v) {
      FilesOf(v, f);
    }
    hide Recovered, Numbered;
  }

  lemma RecoveredIsGood(s: State, parts: seq<set<Entry>>)
    requires Inv(s) && Enabled(s, CrashRecover(parts))
    ensures var s2 := Recovered(s, parts); Good(s2.cmp, s2.current, s2.tables, s2.hist, s2.lastSequence, s.horizon)
  {
    hide Inv, Files, Replayed, Numbered, OneLevelEach, OrderedVersion, LevelsApart, Lookup, UniqueSequences, EntriesOf, Contents, Cuts, KeptFloor, LogFloor, Enabled, CutFiles, Closed;
    var v, s2, floor := s.manifest.version, Recovered(s, parts), KeptFloor(s);
    var c := Contents(Files(v), s.tables);
    ManifestIsGood(s);
    RecoveredFiles(s, parts);
    RecoveredContents(s, parts);
    RecoveredLevels(s, parts);
    RecoveredHistory(s, parts);
    ReplayedIs(s);
    NothingAbove(s2.hist, s2.lastSequence);
    assert OrderedVersion(s2.current, s2.tables, s.horizon) by { RecoveredOrder(s, parts); }
    AnswersAfterReplay(c, Replayed(s), s.hist, s.appended, LogFloor(s), floor, s.horizon);
  }

  lemma RecoveredOrder(s: State, parts: seq<set<Entry>>)
    requires Inv(s) && Enabled(s, CrashRecover(parts))
    ensures OrderedVersion(Recovered(s, parts).current, Recovered(s, parts).tables, s.horizon)
  {
    hide Inv, Enabled, Recovered, Closed, CutFiles, Files;
    forall c: Cut {
      RecoveredCut(s, parts, c);
    }
  }

  lemma AnswersAfterReplay(c: set<Entry>, replayed: set<Entry>, hist: set<Entry>, appended: set<Entry>, logFloor: nat, floor: nat, horizon: nat)
    requires UniqueSequences(appended) && hist <= appended && replayed == Beyond(appended, logFloor)
    requires c <= Upto(hist, floor) && SameAnswers(c, Upto(hist, floor), horizon)
    ensures SameAnswers(replayed + c, Upto(hist, floor) + replayed, horizon)
  {
    hide Lookup;
    UniqueIsDistinct(appended, replayed + Upto(hist, floor));
    assert replayed + Upto(hist, floor) == Upto(hist, floor) + replayed;
    forall at, k | at >= horizon ensures Lookup(replayed + c, at, k) == Lookup(Upto(hist, floor) + replayed, at, k) {
      Glue(replayed, c, Upto(hist, floor), logFloor, at, k);
    }
  }

  lemma RecoveredGroups(s: State, parts: seq<set<Entry>>)
    requires Inv(s) && Enabled(s, CrashRecover(parts))
    ensures GroupsInv(Recovered(s, parts))
  {
    hide Inv, Replayed, Upto, UniqueSequences, LogFloor, Cuts, Together, AllOrNone;
    var s2 := Recovered(s, parts);
    RecoveredHistory(s, parts);
    ReplayedIs(s);
    WhatIsAppended(s);
    forall g | g in s.groups ensures g <= s2.appended && GroupOk(g, s2) && Together(g, s2.memFloor) && Together(g, s2.immFloor) {
      GroupSurvives(s, g);
      GroupStaysTogether(s, g, s2);
    }
  }

  lemma GroupSurvives(s: State, g: set<Entry>)
    requires Inv(s) && g in s.groups
    ensures g <= s.appended && Together(g, LogFloor(s)) && Together(g, s.immFloor)
    ensures (forall e :: e in g ==> e.sequence <= LogFloor(s)) ==> AllOrNone(g, s.hist)
  {
    hide TotalOrder, NumbersInv, TablesInv, ManifestInv, CopiesInv, SnapshotsInv, ReadersInv, SchedulingInv, FlushInv, CompInv, ApplyInv, UniqueSequences;
    if (forall e :: e in g ==> e.sequence <= LogFloor(s)) && s.write.Writing? && g == Elements(s.write.ops) {
      CurrentIsAbove(s);
      assert g == {};
    }
  }

  lemma GroupStaysTogether(s: State, g: set<Entry>, s2: State)
    requires Together(g, LogFloor(s)) && g <= s.appended
    requires (forall e :: e in g ==> e.sequence <= LogFloor(s)) ==> AllOrNone(g, s.hist)
    requires s2.hist == Upto(s.hist, LogFloor(s)) + Beyond(s.appended, LogFloor(s))
    requires forall e :: e in s.appended ==> e.sequence <= s2.lastSequence
    requires s2.memFloor == s2.lastSequence
    ensures GroupOk(g, s2) && Together(g, s2.memFloor)
  {
    hide LogFloor;
  }

  lemma CurrentIsAbove(s: State)
    requires Inv(s) && s.write.Writing?
    ensures forall e :: e in Elements(s.write.ops) ==> e.sequence > LogFloor(s)
  {
    hide TotalOrder, NumbersInv, TablesInv, CopiesInv, SnapshotsInv, ReadersInv, SchedulingInv, FlushInv, CompInv, ApplyInv, HistoryInv, GroupsInv, Good, WithCopies;
  }

  lemma StepCrashRecover(s: State, parts: seq<set<Entry>>)
    requires Inv(s) && Enabled(s, CrashRecover(parts))
    ensures Inv(Recovered(s, parts))
    ensures var s2 := Recovered(s, parts); s2.manifestFile !in s.manifests && s2.manifests == s.manifests + {s2.manifestFile}
  {
    hide Inv, Good, Replayed, GroupsInv, UniqueSequences, Numbered, KeptFloor, LogFloor, Cuts, TotalOrder;
    var s2 := Recovered(s, parts);
    RecoveredHistory(s, parts);
    RecoveredIsGood(s, parts);
    RecoveredGroups(s, parts);
    TablesBelow(s);
    WhatIsAppended(s);
    NothingAbove(s2.hist, s2.lastSequence);
    NothingAbove(s2.appended, s2.lastSequence);
    StillTotal(s);
    RecoveredNumbers(s, parts);
    InvOfQuiet(s2);
  }

  lemma RecoveredNumbers(s: State, parts: seq<set<Entry>>)
    requires (forall n :: n in s.tables ==> n < s.nextFile) && (forall n :: n in s.logs ==> n < s.nextFile)
    requires forall n :: n in s.manifests ==> n < s.nextFile
    ensures NumbersInv(Recovered(s, parts))
    ensures var s2 := Recovered(s, parts); s2.manifestFile !in s.manifests && s2.manifests == s.manifests + {s2.manifestFile}
  {
    hide Replayed, MaxSequence;
  }

  lemma StillTotal(s: State)
    requires Inv(s)
    ensures TotalOrder(s.cmp)
  {
    hide TotalOrder, NumbersInv, TablesInv, CopiesInv, SnapshotsInv, ReadersInv, SchedulingInv, FlushInv, CompInv, ApplyInv, WriteInv, GroupsInv, HistoryInv, ManifestInv;
  }

  /** With nothing in progress, little remains to be said. */
  lemma InvOfQuiet(s: State)
    requires TotalOrder(s.cmp) && NumbersInv(s) && HistoryInv(s) && GroupsInv(s) && s.lastSequence == s.memFloor
    requires forall e :: e in s.appended ==> e.sequence <= s.lastSequence
    requires s.write.NoWrite? && s.flush.NoFlush? && s.comp.NoComp? && s.apply.NoApply?
    requires s.immLog.None? && s.snapshots == [] && s.readers == map[]
    requires !s.scheduled && !s.active && !s.needsCompaction && !s.inDoubt && s.copies == map[]
    requires s.manifest == Manifest(s.current, s.logNumber, s.lastSequence) && s.horizon <= s.lastSequence
    requires Good(s.cmp, s.current, s.tables, s.hist, s.memFloor, s.horizon)
    ensures Inv(s)
  {
    hide TotalOrder, Good, NumbersInv, GroupsInv, UniqueSequences, WithCopies, CopyOk;
    NoCopies(s.current);
    LogOfQuiet(s);
  }

  lemma LogOfQuiet(s: State)
    requires NumbersInv(s) && s.immLog.None?
    ensures s.logNumber == s.memLog
  {
  }

  lemma InitIsGood(cmp: Comparator)
    requires TotalOrder(cmp)
    ensures Inv(Init(cmp))
  {
    var v, s := EMPTY_VERSION, Init(cmp);
    assert forall i: nat, f: nat :: !InLevel(v, i, f);
    forall f ensures f !in Files(v) {
      FilesOf(v, f);
    }
    assert Files(v) == {};
    assert Contents(Files(v), map[]) == {};
    forall c: Cut ensures CutFiles(v, c) == {} {
      CutFilesOf(v, c, 0);
    }
    assert Upto({}, 0) == {};
    hide TotalOrder, InLevel, Files, CutFiles;
    assert Good(cmp, v, map[], {}, 0, 0);
    InvOfQuiet(s);
  }

  // ---- A crash while recovering --------------------------------------------

  lemma HalfRecoveredTables(s: State, parts: seq<set<Entry>>, written: nat, logMade: bool, manifestMade: bool)
    requires Inv(s) && Enabled(s, CrashInRecovery(parts, written, logMade, manifestMade))
    ensures var s2 := HalfRecovered(s, parts, written, logMade, manifestMade);
            && (forall f :: f in s.tables ==> f in s2.tables && s2.tables[f] == s.tables[f])
            && (forall n :: n in s.logs ==> n in s2.logs && s2.logs[n] == s.logs[n])
            && (forall n :: n in s2.tables ==> n < s2.nextFile) && (forall n :: n in s2.logs ==> n < s2.nextFile)
            && s.manifests <= s2.manifests && (forall n :: n in s2.manifests ==> n < s2.nextFile)
            && (forall n :: n in s2.logs ==> n in s.logs || (n >= s.nextFile && s2.logs[n] == {}))
            && (forall n :: n in s2.tables ==> n in s.tables || n >= s.nextFile)
            && s2 == s.(crashed := true, tables := s2.tables, logs := s2.logs, nextFile := s2.nextFile, manifests := s2.manifests) && s2.nextFile > s.nextFile
  {
    hide Inv, Cuts, Replayed;
    TablesBelow(s);
  }

  /** More tables and empty logs under numbers that nobody uses change nothing. */
  lemma StepCrashInRecovery(s: State, parts: seq<set<Entry>>, written: nat, logMade: bool, manifestMade: bool)
    requires Inv(s) && Enabled(s, CrashInRecovery(parts, written, logMade, manifestMade))
    ensures Inv(HalfRecovered(s, parts, written, logMade, manifestMade))
  {
    hide TotalOrder, WriteInv, HistoryInv, GroupsInv, NumbersInv, TablesInv, ManifestInv, CopiesInv, ReadersInv, FlushInv, CompInv, ApplyInv, HalfRecovered, Cuts, Replayed,
         InUse, SameButTables;
    var s2 := HalfRecovered(s, parts, written, logMade, manifestMade);
    HalfRecoveredTables(s, parts, written, logMade, manifestMade);
    var s1 := s.(tables := s2.tables);
    InUseExists(s);
    assert SameButTables(s, s1) by { MoreTables(s, s1); }
    TablesFrame(s, s1);
    EditsFrame(s, s1);
    LogsAndNumbers(s, s1, s2);
  }

  lemma MoreTables(s: State, s1: State)
    requires s1 == s.(tables := s1.tables) && forall f :: f in s.tables ==> f in s1.tables && s1.tables[f] == s.tables[f]
    ensures SameButTables(s, s1)
  {
    hide InUse;
  }

  lemma EditsFrame(s: State, s1: State)
    requires Inv(s) && s1 == s.(tables := s1.tables) && forall f :: f in s.tables ==> f in s1.tables && s1.tables[f] == s.tables[f]
    requires forall f :: f in s1.tables ==> f in s.tables || f >= s.nextFile
    ensures ApplyInv(s1) && FlushInv(s1)
  {
    assert FlushInv(s1) by {
      hide TotalOrder, WriteInv, HistoryInv, GroupsInv, TablesInv, ManifestInv, CopiesInv, ReadersInv, CompInv, ApplyInv, SnapshotsInv, SchedulingInv, Files;
    }
    if s.apply.Applying? {
      EditFrame(s, s1);
    } else {
      NoEditNoClaim(s1);
    }
  }

  lemma EditFrame(s: State, s1: State)
    requires Inv(s) && s1 == s.(tables := s1.tables) && s.apply.Applying?
    requires forall f :: f in s.tables ==> f in s1.tables && s1.tables[f] == s.tables[f]
    ensures ApplyInv(s1)
  {
    hide TotalOrder, WriteInv, HistoryInv, GroupsInv, NumbersInv, FlushInv, ReadersInv, CompInv, SnapshotsInv, SchedulingInv, ManifestInv, CopiesInv,
         Files, ApplyEdit, SameAnswers, OrderedVersion, LevelsApart, OneLevelEach, Contents, CopyOk;
    var h := EditedHorizon(s);
    GoodWithTables(s.cmp, ApplyEdit(s.current, s.apply.edit), s.tables, s1.tables, s.hist, EditFloor(s), h);
    if !s.apply.written {
      GoodWithTables(s.cmp, ApplyEdit(s.manifest.version, s.apply.edit), s.tables, s1.tables, s.hist, EditedManifestFloor(s), h);
    }
    if s.apply.edit.Flushed? && s.apply.edit.file.Some? {
      FileOfCopy(s.cmp, s.current, s.tables, ImmEntries(s), s.apply.edit.file.value, s.apply.edit.level);
      CopyWithTables(s.cmp, s.current, s.tables, s1.tables, ImmEntries(s), s.apply.edit.file.value, s.apply.edit.level);
    }
  }

  lemma FileOfCopy(cmp: Comparator, v: Version, tables: Tables, imm: set<Entry>, file: nat, level: nat)
    requires CopyOk(cmp, v, tables, imm, file, level)
    ensures file in tables
  {
    hide RangeFree;
  }

  lemma LogsAndNumbers(s: State, s1: State, s2: State)
    requires NumbersInv(s) && s1 == s.(tables := s2.tables) && s2 == s.(crashed := true, tables := s2.tables, logs := s2.logs, nextFile := s2.nextFile, manifests := s2.manifests)
    requires TotalOrder(s1.cmp) && WriteInv(s1) && HistoryInv(s1) && TablesInv(s1) && ManifestInv(s1) && CopiesInv(s1) && GroupsInv(s1)
    requires SnapshotsInv(s1) && ReadersInv(s1) && SchedulingInv(s1) && FlushInv(s1) && CompInv(s1) && ApplyInv(s1)
    requires (forall n :: n in s.logs ==> n in s2.logs && s2.logs[n] == s.logs[n]) && s2.nextFile > s.nextFile
    requires (forall n :: n in s2.tables ==> n < s2.nextFile) && (forall n :: n in s2.logs ==> n < s2.nextFile)
    requires s.manifests <= s2.manifests && forall n :: n in s2.manifests ==> n < s2.nextFile
    requires forall n :: n in s2.logs ==> n in s.logs || (n >= s.nextFile && s2.logs[n] == {})
    ensures Inv(s2)
  {
    hide TotalOrder, NumbersInv, HistoryInv, TablesInv, ManifestInv, CopiesInv, FlushInv, CompInv, ApplyInv, ReaderOk, Together, AllOrNone;
    LogsKept(s, s1, s2);
    FilesFrame(s1, s2);
  }

  lemma LogsKept(s: State, s1: State, s2: State)
    requires NumbersInv(s) && s1 == s.(tables := s2.tables) && s2 == s.(crashed := true, tables := s2.tables, logs := s2.logs, nextFile := s2.nextFile, manifests := s2.manifests)
    requires HistoryInv(s1)
    requires (forall n :: n in s.logs ==> n in s2.logs && s2.logs[n] == s.logs[n]) && s2.nextFile > s.nextFile
    requires (forall n :: n in s2.tables ==> n < s2.nextFile) && (forall n :: n in s2.logs ==> n < s2.nextFile)
    requires s.manifests <= s2.manifests && forall n :: n in s2.manifests ==> n < s2.nextFile
    requires forall n :: n in s2.logs ==> n in s.logs || (n >= s.nextFile && s2.logs[n] == {})
    ensures NumbersInv(s2) && HistoryInv(s2)
  {
    hide Upto, Beyond, UniqueSequences;
  }

  /** Recovery after a recovery that a crash cut short reads the same logs. */
  lemma SameReplay(s: State, parts: seq<set<Entry>>, written: nat, logMade: bool, manifestMade: bool)
    requires Inv(s) && Enabled(s, CrashInRecovery(parts, written, logMade, manifestMade))
    ensures Replayed(HalfRecovered(s, parts, written, logMade, manifestMade)) == Replayed(s)
  {
    hide Inv, Replayed, Numbered, Cuts, Beyond;
    StepCrashInRecovery(s, parts, written, logMade, manifestMade);
    ReplayedIs(s);
    ReplayedIs(HalfRecovered(s, parts, written, logMade, manifestMade));
  }
}
