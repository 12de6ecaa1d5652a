/** What the user gets to see: DBImpl::Get and the iterators of DBImpl::NewIterator (db/db_impl.cc), in any
    state of any run. */
module EngineReaders {
  import opened Common
  import opened Coding
  import opened DbFormat
  import opened Entries
  import opened Versions
  import opened FileMetas
  import opened ReadOrder
  import opened VersionGet
  import opened DbIter
  import Engine
  import EngineInv
  import EngineTheorems

  // ---- Get -----------------------------------------------------------------

  /** The memtables, file lists and table files are those that the reader has pinned. */
  ghost predicate Pinned(s: Engine.State, r: Engine.Reader, mem: seq<Entry>, imm: Option<seq<Entry>>, files: seq<seq<FileMeta>>, stored: Stored) {
    && Sorted(s.cmp, mem) && Elements(mem) == EntriesOf(s.memtables, r.mem)
    && (imm.Some? <==> r.imm.Some?)
    && (imm.Some? ==> Sorted(s.cmp, imm.value) && Elements(imm.value) == EntriesOf(s.memtables, r.imm.value))
    && r.version == VersionOf(files) && Lists(s.cmp, r.version, s.tables, files) && AllStored(s.cmp, files, stored)
    && forall f :: f in Files(r.version) ==> f in stored && f in s.tables && Elements(stored[f]) == s.tables[f]
  }

  lemma StoredTables(s: Engine.State, r: Engine.Reader, files: seq<seq<FileMeta>>, stored: Stored)
    requires r.version == VersionOf(files) && Lists(s.cmp, r.version, s.tables, files) && LevelsApart(s.cmp, r.version, s.tables)
    requires forall f :: f in Files(r.version) ==> f in stored && f in s.tables && Elements(stored[f]) == s.tables[f]
    ensures Lists(s.cmp, r.version, TablesOf(stored), files) && LevelsApart(s.cmp, r.version, TablesOf(stored))
    ensures VersionLayers(r.version, TablesOf(stored)) == VersionLayers(r.version, s.tables)
    ensures Contents(Files(r.version), TablesOf(stored)) == Contents(Files(r.version), s.tables)
  {
    hide LevelsApart, VersionLayers, Contents, VersionOf;
    assert forall f :: f in Files(r.version) ==> EntriesOf(TablesOf(stored), f) == EntriesOf(s.tables, f);
    ApartWithTables(s.cmp, r.version, s.tables, TablesOf(stored));
    SameVersionLayers(r.version, s.tables, TablesOf(stored));
    SameContents(Files(r.version), s.tables, TablesOf(stored));
    forall l | 0 <= l < |files| ensures AllDescribed(s.cmp, TablesOf(stored), files[l]) {
      ListsLevel(s.cmp, r.version, s.tables, files, l);
      forall i | 0 <= i < |files[l]| ensures Describes(s.cmp, TablesOf(stored), files[l][i]) {
        assert files[l][i] in files[l];
        assert InLevel(r.version, l, files[l][i].number);
        FilesOf(r.version, files[l][i].number);
      }
    }
  }

  lemma ReaderFacts(s: Engine.State, id: nat)
    requires EngineInv.Inv(s) && id in s.readers
    ensures var r := s.readers[id];
            && TotalOrder(s.cmp) && LevelsApart(s.cmp, r.version, s.tables) && |r.version.levels| == NUM_LEVELS
            && Distinct(Contents(Files(r.version), s.tables))
            && (forall k :: EngineInv.ReadResult(r, s.memtables, s.tables, k) == Lookup(s.hist, r.snapshot, k))
            && (forall k :: Lookup(Union(EngineInv.ReaderLayers(r, s.memtables, s.tables)), r.snapshot, k) == Lookup(s.hist, r.snapshot, k))
  {
    hide TotalOrder, EngineInv.NumbersInv, EngineInv.WriteInv, EngineInv.GroupsInv, EngineInv.TablesInv, EngineInv.ManifestInv, EngineInv.CopiesInv,
         EngineInv.SnapshotsInv, EngineInv.SchedulingInv, EngineInv.FlushInv, EngineInv.CompInv, EngineInv.ApplyInv,
         EngineInv.ReadResult, EngineInv.ReaderLayers, Lookup, Union, LevelsApart, UniqueSequences;
    var r := s.readers[id];
    assert EngineInv.ReaderOk(s.cmp, r, s.memtables, s.tables, s.hist, s.lastSequence);
    UniqueIsDistinct(s.appended, Contents(Files(r.version), s.tables));
  }

  /** The three layers that Get looks into in turn. */
  lemma ThreeLayers(r: Engine.Reader, memtables: Tables, tables: Tables, k: UserKey)
    ensures var mem, v := EntriesOf(memtables, r.mem), LayeredGet(VersionLayers(r.version, tables), r.snapshot, k);
            EngineInv.ReadResult(r, memtables, tables, k) ==
              if Has(mem, r.snapshot, k) then Lookup(mem, r.snapshot, k)
              else if r.imm.Some? && Has(EntriesOf(memtables, r.imm.value), r.snapshot, k) then Lookup(EntriesOf(memtables, r.imm.value), r.snapshot, k)
              else v
  {
    hide VersionLayers, Lookup, Has, LayeredGet;
    var v, mem := VersionLayers(r.version, tables), EntriesOf(memtables, r.mem);
    if r.imm.Some? {
      var imm := EntriesOf(memtables, r.imm.value);
      OneLayer(imm, v, r.snapshot, k);
      OneLayer(mem, [imm] + v, r.snapshot, k);
      assert [mem] + [imm] + v == [mem] + ([imm] + v);
    } else {
      OneLayer(mem, v, r.snapshot, k);
      assert [mem] + [] + v == [mem] + v;
    }
  }

  lemma OneLayer(first: set<Entry>, rest: seq<set<Entry>>, s: nat, k: UserKey)
    ensures LayeredGet([first] + rest, s, k) == if Has(first, s, k) then Lookup(first, s, k) else LayeredGet(rest, s, k)
  {
    assert ([first] + rest)[1..] == rest;
  }

  /** A memtable, an immutable memtable and one file per level below level 0 are enough: the answer is the newest
      visible entry of everything ever written. */
  method Get(ghost s: Engine.State, ghost id: nat, cmp: Comparator, mem: seq<Entry>, imm: Option<seq<Entry>>,
             files: seq<seq<FileMeta>>, stored: Stored, snapshot: nat, k: UserKey) returns (value: Option<seq<Byte>>)
    requires EngineInv.Inv(s) && id in s.readers && s.readers[id].snapshot == snapshot && cmp == s.cmp
    requires Pinned(s, s.readers[id], mem, imm, files, stored)
    ensures value == Lookup(s.hist, snapshot, k)
  {
    hide EngineInv.Inv, TotalOrder, Lists, LevelsApart, VersionLayers, AllStored, Distinct, Lookup, Has, EngineInv.ReadResult, EngineInv.ReaderLayers, Union, Files, Contents;
    ghost var r := s.readers[id];
    ReaderFacts(s, id);
    StoredTables(s, r, files, stored);
    ThreeLayers(r, s.memtables, s.tables, k);
    var state := TableGet(cmp, mem, k, snapshot);
    if Hit(state) {
      return AnswerOf(state);
    }
    if imm.Some? {
      state := TableGet(cmp, imm.value, k, snapshot);
      if Hit(state) {
        return AnswerOf(state);
      }
    }
    value := VersionGet.Get(cmp, files, stored, k, snapshot);
  }

  // ---- Iterators -----------------------------------------------------------

  /** es is what the merging iterator over all that the reader has pinned yields. */
  ghost predicate Merged(s: Engine.State, r: Engine.Reader, es: seq<Entry>) {
    Sorted(s.cmp, es) && Elements(es) == Union(EngineInv.ReaderLayers(r, s.memtables, s.tables))
  }

  /** An iterator that is opened in any state of any run walks, forwards, through exactly the keys that the history
      has a value for at the reader's sequence number, in order, and shows those values. */
  lemma IteratorsWalkTheHistory(states: seq<Engine.State>, steps: seq<Engine.Step>, i: nat, id: nat, es: seq<Entry>, ks: seq<UserKey>)
    requires EngineTheorems.Run(states, steps) && i < |states| && id in states[i].readers && Merged(states[i], states[i].readers[id], es)
    requires ForwardWalk(states[i].cmp, es, states[i].readers[id].snapshot, ks)
    ensures var s, r := states[i], states[i].readers[id];
            && (forall k :: k in ks <==> Lookup(s.hist, r.snapshot, k).Some?)
            && (forall k :: Lookup(Elements(es), r.snapshot, k) == Lookup(s.hist, r.snapshot, k))
            && forall m, n :: 0 <= m < n < |ks| ==> s.cmp(ks[m], ks[n]) < 0
  {
    hide EngineTheorems.Run, EngineInv.Inv, Lookup, Union, EngineInv.ReaderLayers, EngineInv.ReadResult, TotalOrder, LevelsApart, ForwardWalk;
    EngineTheorems.RunKeepsInv(states, steps, i);
    ReaderFacts(states[i], id);
    ForwardWalkMeetsAll(states[i].cmp, es, states[i].readers[id].snapshot, ks);
  }

  /** … and backwards through the same keys. */
  lemma BackwardIsTheSame(states: seq<Engine.State>, steps: seq<Engine.Step>, i: nat, id: nat, es: seq<Entry>, f: seq<UserKey>, b: seq<UserKey>)
    requires EngineTheorems.Run(states, steps) && i < |states| && id in states[i].readers && Merged(states[i], states[i].readers[id], es)
    requires ForwardWalk(states[i].cmp, es, states[i].readers[id].snapshot, f) && BackwardWalk(states[i].cmp, es, states[i].readers[id].snapshot, b)
    ensures |b| == |f| && (forall n :: 0 <= n < |f| ==> b[n] == f[|f| - 1 - n])
    ensures forall k :: k in b <==> Lookup(states[i].hist, states[i].readers[id].snapshot, k).Some?
  {
    hide EngineTheorems.Run, EngineInv.Inv, Lookup, Union, EngineInv.ReaderLayers, EngineInv.ReadResult, TotalOrder, LevelsApart, ForwardWalk, BackwardWalk, Merged;
    IteratorsWalkTheHistory(states, steps, i, id, es, f);
    EngineTheorems.RunKeepsInv(states, steps, i);
    ReaderFacts(states[i], id);
    BackwardMirrorsForward(states[i].cmp, es, states[i].readers[id].snapshot, f, b);
    forall k ensures k in b <==> k in f {
      if n :| 0 <= n < |f| && f[n] == k { assert b[|f| - 1 - n] == k; }
      if n :| 0 <= n < |b| && b[n] == k { assert f[|f| - 1 - n] == k; }
    }
  }
}
