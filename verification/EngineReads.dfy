/** A read that searches memtable, immutable memtable and tables in turn finds the newest visible
    write of the whole history. */
module EngineReads {
  import opened Common
  import opened DbFormat
  import opened Entries
  import opened Compaction
  import opened Versions
  import opened ReadOrder
  import opened Engine
  import opened EngineInv

  // ---- Layers above the tables --------------------------------------------

  /** A layer of entries newer than everything below keeps the layers in order. */
  lemma LayerOnTop(first: set<Entry>, rest: seq<set<Entry>>, floor: nat, h: nat)
    requires Ordered(rest, h) && (forall e :: e in first ==> e.sequence > floor) && (forall e :: e in Union(rest) ==> e.sequence <= floor)
    ensures Ordered([first] + rest, h) && Union([first] + rest) == first + Union(rest)
  {
    hide Closed;
    var layers := [first] + rest;
    assert layers[1..] == rest;
    forall i | 0 <= i <= |layers| ensures Closed(Union(layers[..i]), Union(layers), h) {
      if i > 0 {
        assert layers[..i][0] == first && layers[..i][1..] == rest[..i - 1];
        UnionSplit(rest, i - 1);
        ClosedUnder(first, Union(rest[..i - 1]), Union(rest), floor, h);
      } else {
        NothingIsClosed(Union(layers), h);
      }
    }
  }

  lemma ClosedUnder(first: set<Entry>, p: set<Entry>, t: set<Entry>, floor: nat, h: nat)
    requires Closed(p, t, h) && p <= t && (forall e :: e in first ==> e.sequence > floor) && (forall e :: e in t ==> e.sequence <= floor)
    ensures Closed(first + p, first + t, h)
  {
    forall e, x | e in first + p && x in first + t && e.key == x.key && e.sequence < x.sequence ensures Covers(first + p, x, h) {
      if x !in first {
        assert Covers(p, x, h);
      }
    }
  }

  /** The layers of a reader that pins the current state, and what they hold together. */
  lemma CurrentLayers(s: State, at: nat)
    requires NumbersInv(s) && HistoryInv(s) && TablesInv(s)
    ensures var layers := ReaderLayers(Reader(at, s.memLog, s.immLog, s.current), s.memtables, s.tables);
            && Ordered(layers, s.horizon)
            && Union(layers) == Beyond(s.hist, TableFloor(s)) + Contents(Files(s.current), s.tables)
  {
    hide Ordered, VersionLayers, Files, SameAnswers, LevelsApart, UniqueSequences, OrderedVersion, Union;
    var v := VersionLayers(s.current, s.tables);
    VersionLayersOrdered(s.current, s.tables, s.horizon);
    VersionLayersUnion(s.current, s.tables);
    var mem := EntriesOf(s.memtables, s.memLog);
    var lower := v;
    if s.immLog.Some? {
      var imm := EntriesOf(s.memtables, s.immLog.value);
      LayerOnTop(imm, v, s.immFloor, s.horizon);
      lower := [imm] + v;
    }
    LayerOnTop(mem, lower, s.memFloor, s.horizon);
    assert ReaderLayers(Reader(at, s.memLog, s.immLog, s.current), s.memtables, s.tables) == [mem] + lower;
  }

  /** What a newly pinned reader will find: the history, at any sequence number from horizon up. */
  lemma CurrentReadIsLookup(s: State, at: nat, k: UserKey)
    requires NumbersInv(s) && HistoryInv(s) && TablesInv(s) && s.horizon <= at
    ensures var r := Reader(at, s.memLog, s.immLog, s.current);
            && ReadResult(r, s.memtables, s.tables, k) == Lookup(s.hist, at, k)
            && Lookup(Union(ReaderLayers(r, s.memtables, s.tables)), at, k) == Lookup(s.hist, at, k)
  {
    hide Lookup, LayeredGet, Ordered, Files, Union, OrderedVersion, LevelsApart, ReaderLayers;
    var layers := ReaderLayers(Reader(at, s.memLog, s.immLog, s.current), s.memtables, s.tables);
    var floor, c := TableFloor(s), Contents(Files(s.current), s.tables);
    var upper := Beyond(s.hist, floor);
    CurrentLayers(s, at);
    UniqueIsDistinct(s.appended, upper + c);
    LayeredGetIsLookup(layers, s.horizon, at, k);
    UniqueIsDistinct(s.appended, upper + Upto(s.hist, floor));
    assert upper + Upto(s.hist, floor) == s.hist;
    Glue(upper, c, Upto(s.hist, floor), floor, at, k);
  }

  lemma {:induction false} LayeredGetDependsOnVisible(a: seq<set<Entry>>, b: seq<set<Entry>>, s: nat, k: UserKey)
    requires |a| == |b| && forall i :: 0 <= i < |a| ==> Distinct(a[i])
    requires forall i, e :: 0 <= i < |a| && Visible(e, s, k) ==> (e in a[i] <==> e in b[i])
    ensures LayeredGet(a, s, k) == LayeredGet(b, s, k)
  {
    if a != [] {
      LookupDependsOnVisible(a[0], b[0], s, k);
      assert Has(a[0], s, k) <==> Has(b[0], s, k);
      LayeredGetDependsOnVisible(a[1..], b[1..], s, k);
    }
  }

  /** The tables a reader has pinned do not change under it. */
  lemma ReaderWithTables(cmp: Comparator, r: Reader, memtables: Tables, tables: Tables, tables2: Tables, hist: set<Entry>, lastSequence: nat)
    requires ReaderOk(cmp, r, memtables, tables, hist, lastSequence)
    requires forall f :: f in Files(r.version) ==> f in tables2 && tables2[f] == tables[f]
    ensures ReaderOk(cmp, r, memtables, tables2, hist, lastSequence)
  {
    hide LayeredGet, Lookup, Union, LevelsApart, VersionLayers;
    SameContents(Files(r.version), tables, tables2);
    SameVersionLayers(r.version, tables, tables2);
    ApartWithTables(cmp, r.version, tables, tables2);
    assert ReaderLayers(r, memtables, tables2) == ReaderLayers(r, memtables, tables);
    forall k ensures ReadResult(r, memtables, tables2, k) == Lookup(hist, r.snapshot, k) {
      assert ReadResult(r, memtables, tables, k) == Lookup(hist, r.snapshot, k);
    }
  }

  lemma {:induction false} UnionDependsOnVisible(a: seq<set<Entry>>, b: seq<set<Entry>>, s: nat, k: UserKey)
    requires |a| == |b| && forall i, e :: 0 <= i < |a| && Visible(e, s, k) ==> (e in a[i] <==> e in b[i])
    ensures forall e :: Visible(e, s, k) ==> (e in Union(a) <==> e in Union(b))
  {
    if a != [] {
      UnionDependsOnVisible(a[1..], b[1..], s, k);
    }
  }

  lemma UnionWithin(layers: seq<set<Entry>>, es: set<Entry>)
    requires forall i :: 0 <= i < |layers| ==> layers[i] <= es
    ensures Union(layers) <= es
  {
    forall e | e in Union(layers) ensures e in es {
      UnionHas(layers, e);
    }
  }

  /** A write above the reader's snapshot goes unnoticed, wherever it is inserted. */
  lemma ReaderIgnoresNewer(cmp: Comparator, r: Reader, memtables: Tables, memtables2: Tables, tables: Tables,
                           hist: set<Entry>, lastSequence: nat, id: nat, e: Entry)
    requires ReaderOk(cmp, r, memtables, tables, hist, lastSequence)
    requires UniqueSequences(hist) && (forall i :: i in memtables ==> memtables[i] <= hist)
    requires e.sequence > lastSequence
    requires id in memtables && memtables2 == memtables[id := memtables[id] + {e}]
    ensures ReaderOk(cmp, r, memtables2, tables, hist + {e}, lastSequence)
  {
    hide LayeredGet, Lookup, VersionLayers, UniqueSequences, Union, LevelsApart;
    forall k ensures ReadResult(r, memtables2, tables, k) == Lookup(hist + {e}, r.snapshot, k)
    ensures Lookup(Union(ReaderLayers(r, memtables2, tables)), r.snapshot, k) == Lookup(hist + {e}, r.snapshot, k) {
      ReadIgnoresNewer(cmp, r, memtables, memtables2, tables, hist, lastSequence, id, e, k);
    }
  }

  lemma ReadIgnoresNewer(cmp: Comparator, r: Reader, memtables: Tables, memtables2: Tables, tables: Tables,
                         hist: set<Entry>, lastSequence: nat, id: nat, e: Entry, k: UserKey)
    requires ReaderOk(cmp, r, memtables, tables, hist, lastSequence)
    requires UniqueSequences(hist) && (forall i :: i in memtables ==> memtables[i] <= hist)
    requires e.sequence > lastSequence
    requires id in memtables && memtables2 == memtables[id := memtables[id] + {e}]
    ensures ReadResult(r, memtables2, tables, k) == Lookup(hist + {e}, r.snapshot, k)
    ensures Lookup(Union(ReaderLayers(r, memtables2, tables)), r.snapshot, k) == Lookup(hist + {e}, r.snapshot, k)
  {
    hide LayeredGet, Lookup, VersionLayers, UniqueSequences, Union, LevelsApart;
    var a, b := ReaderLayers(r, memtables, tables), ReaderLayers(r, memtables2, tables);
    UniqueIsDistinct(hist, hist);
    ReaderLayersWithin(r, memtables, tables, hist);
    forall i | 0 <= i < |a| ensures Distinct(a[i]) {
      UniqueIsDistinct(hist, a[i]);
    }
    LayeredGetDependsOnVisible(a, b, r.snapshot, k);
    LookupDependsOnVisible(hist, hist + {e}, r.snapshot, k);
    UnionDependsOnVisible(a, b, r.snapshot, k);
    UnionWithin(a, hist);
    UniqueIsDistinct(hist, Union(a));
    LookupDependsOnVisible(Union(a), Union(b), r.snapshot, k);
    assert ReadResult(r, memtables, tables, k) == Lookup(hist, r.snapshot, k);
  }

  lemma ReaderLayersWithin(r: Reader, memtables: Tables, tables: Tables, hist: set<Entry>)
    requires r.mem in memtables && (r.imm.Some? ==> r.imm.value in memtables) && |r.version.levels| == NUM_LEVELS
    requires Contents(Files(r.version), tables) <= hist && (forall i :: i in memtables ==> memtables[i] <= hist)
    ensures forall i :: 0 <= i < |ReaderLayers(r, memtables, tables)| ==> ReaderLayers(r, memtables, tables)[i] <= hist
  {
    hide VersionLayers, Union;
    var v := VersionLayers(r.version, tables);
    forall i, e | 0 <= i < |v| && e in v[i] ensures e in hist {
      UnionHas(v, e);
      VersionLayersUnion(r.version, tables);
    }
  }
}
