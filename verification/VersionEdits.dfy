/** Flushing and compacting turn a good version into a good version. */
module VersionEdits {
  import opened Common
  import opened DbFormat
  import opened Entries
  import opened Compaction
  import opened Versions

  // ---- Flush ---------------------------------------------------------------

  /** The version with further files, each at its level. */
  function WithCopies(v: Version, copies: map<nat, nat>): Version {
    Version(seq(|v.levels|, i requires 0 <= i < |v.levels| => v.levels[i] + set f | f in copies && copies[f] == i))
  }

  /** No file of levels 0 to level reaches into the key range of es. */
  ghost predicate RangeFree(cmp: Comparator, v: Version, tables: Tables, es: set<Entry>, level: nat) {
    forall i, f :: 0 <= i <= level && InLevel(v, i, f) ==> KeysApart(cmp, es, EntriesOf(tables, f))
  }

  /** A table of the immutable memtable, for a level where it fits, newer than every level-0 file. */
  ghost predicate CopyOk(cmp: Comparator, v: Version, tables: Tables, imm: set<Entry>, file: nat, level: nat) {
    && file in tables && tables[file] == imm && level < |v.levels| && file !in Files(v)
    && (forall f: nat :: InLevel(v, 0, f) ==> f < file)
    && (level > 0 ==> RangeFree(cmp, v, tables, imm, level))
  }

  lemma CopyWithTables(cmp: Comparator, v: Version, tables: Tables, tables2: Tables, imm: set<Entry>, file: nat, level: nat)
    requires CopyOk(cmp, v, tables, imm, file, level)
    requires forall f :: f in Files(v) || f == file ==> EntriesOf(tables2, f) == EntriesOf(tables, f)
    requires file in tables2
    ensures CopyOk(cmp, v, tables2, imm, file, level)
  {
    forall i, f | InLevel(v, i, f) ensures EntriesOf(tables2, f) == EntriesOf(tables, f) {
      FilesOf(v, f);
    }
    hide KeysApart;
  }

  lemma CopiesIn(v: Version, copies: map<nat, nat>)
    requires forall c :: c in copies ==> copies[c] < |v.levels|
    ensures var v2 := WithCopies(v, copies);
            && |v2.levels| == |v.levels| && Files(v2) == Files(v) + copies.Keys
            && forall i: nat, f: nat :: InLevel(v2, i, f) <==> InLevel(v, i, f) || (f in copies && copies[f] == i)
  {
    var v2 := WithCopies(v, copies);
    forall i: nat, f: nat ensures InLevel(v2, i, f) <==> InLevel(v, i, f) || (f in copies && copies[f] == i) {
    }
    forall f ensures f in Files(v2) <==> f in Files(v) + copies.Keys {
      FilesOf(v, f);
      FilesOf(v2, f);
      if f in copies { assert InLevel(v2, copies[f], f); }
      if i: nat :| InLevel(v, i, f) { assert InLevel(v2, i, f); }
    }
  }

  lemma CopiesLevels(cmp: Comparator, v: Version, tables: Tables, imm: set<Entry>, copies: map<nat, nat>)
    requires LevelsApart(cmp, v, tables) && imm != {}
    requires forall c :: c in copies ==> CopyOk(cmp, v, tables, imm, c, copies[c])
    ensures LevelsApart(cmp, WithCopies(v, copies), tables)
  {
    var v2 := WithCopies(v, copies);
    CopiesIn(v, copies);
    forall c | c in copies ensures EntriesOf(tables, c) == imm && (copies[c] > 0 ==> RangeFree(cmp, v, tables, imm, copies[c])) {
    }
    hide WithCopies, CopyOk, EntriesOf, InLevel, KeysBefore, AllBefore;
    KeysApartIsSymmetric(cmp);
    KeysApartIsApart(cmp);
  }

  lemma KeysApartIsSymmetric(cmp: Comparator)
    ensures forall a, b :: KeysApart(cmp, a, b) <==> KeysApart(cmp, b, a)
  {
  }

  lemma KeysApartIsApart(cmp: Comparator)
    ensures forall a, b :: KeysApart(cmp, a, b) ==> Apart(cmp, a, b)
  {
    forall a, b | KeysApart(cmp, a, b) ensures Apart(cmp, a, b) {
      if KeysBefore(cmp, a, b) {
        assert AllBefore(cmp, a, b);
      } else {
        assert AllBefore(cmp, b, a);
      }
    }
  }

  /** Ranges that do not overlap have no key in common. */
  lemma KeysApartShareNothing(cmp: Comparator, a: set<Entry>, b: set<Entry>, e: Entry, x: Entry)
    requires TotalOrder(cmp) && KeysApart(cmp, a, b) && e in a && x in b
    ensures e.key != x.key
  {
    assert cmp(e.key, e.key) == 0;
  }

  lemma CutOfCopies(v: Version, copies: map<nat, nat>, c: Cut)
    requires forall f :: f in copies ==> copies[f] < |v.levels|
    ensures CutFiles(v, c) <= CutFiles(WithCopies(v, copies), c) <= CutFiles(v, c) + copies.Keys
    ensures forall f :: f in copies && f !in Files(v) && f !in CutFiles(WithCopies(v, copies), c) ==>
              match c case Number(n) => copies[f] > 0 || f < n case Level(i) => copies[f] > i
  {
    CopiesIn(v, copies);
    var v2 := WithCopies(v, copies);
    forall f ensures f in CutFiles(v, c) ==> f in CutFiles(v2, c)
    ensures f in CutFiles(v2, c) ==> f in CutFiles(v, c) + copies.Keys {
      CutFilesOf(v, c, f);
      CutFilesOf(v2, c, f);
      if c.Level? {
        if j :| 0 <= j <= c.i && InLevel(v, j, f) { assert InLevel(v2, j, f); }
      }
    }
    forall f | f in copies && f !in CutFiles(v2, c) ensures match c case Number(n) => copies[f] > 0 || f < n case Level(i) => copies[f] > i {
      CutFilesOf(v2, c, f);
      assert InLevel(v2, copies[f], f);
    }
  }

  /** A file of the version inside a cut that contains none of the copies shares no key with them. */
  lemma OutsideCut(cmp: Comparator, v: Version, tables: Tables, imm: set<Entry>, copies: map<nat, nat>, c: Cut, f: nat, e: Entry, x: Entry)
    requires TotalOrder(cmp) && copies != map[]
    requires forall g :: g in copies ==> CopyOk(cmp, v, tables, imm, g, copies[g])
    requires forall g :: g in copies ==> g !in CutFiles(WithCopies(v, copies), c)
    requires f in CutFiles(v, c) && e in EntriesOf(tables, f) && x in imm
    ensures e.key != x.key
  {
    CutOfCopies(v, copies, c);
    CutFilesOf(v, c, f);
    var g :| g in copies;
    assert CopyOk(cmp, v, tables, imm, g, copies[g]);
    var j: nat;
    match c {
      case Number(n) => j := 0;
      case Level(i) => j :| 0 <= j <= i && InLevel(v, j, f);
    }
    assert InLevel(v, j, f) && j <= copies[g] && copies[g] > 0;
    KeysApartShareNothing(cmp, imm, EntriesOf(tables, f), x, e);
  }

  lemma ClosedWithMore(p: set<Entry>, t: set<Entry>, imm: set<Entry>, h: nat, floor: nat, p2: set<Entry>)
    requires Closed(p, t, h) && (p2 == p || p2 == p + imm)
    requires (forall e :: e in t ==> e.sequence <= floor) && (forall e :: e in imm ==> e.sequence > floor)
    requires p2 == p ==> forall e, x :: e in p && x in imm ==> e.key != x.key
    ensures Closed(p2, t + imm, h)
  {
    forall e, x | e in p2 && x in t + imm && e.key == x.key && e.sequence < x.sequence ensures Covers(p2, x, h) {
      if x in t {
        assert Covers(p, x, h);
      }
    }
  }

  lemma CopiesOrder(cmp: Comparator, v: Version, tables: Tables, imm: set<Entry>, copies: map<nat, nat>, floor: nat, h: nat)
    requires TotalOrder(cmp) && OrderedVersion(v, tables, h) && copies != map[] && imm != {}
    requires forall g :: g in copies ==> CopyOk(cmp, v, tables, imm, g, copies[g])
    requires forall e :: e in Contents(Files(v), tables) ==> e.sequence <= floor
    requires forall e :: e in imm ==> e.sequence > floor
    ensures OrderedVersion(WithCopies(v, copies), tables, h)
    ensures Contents(Files(WithCopies(v, copies)), tables) == Contents(Files(v), tables) + imm
  {
    hide Closed, WithCopies, RangeFree;
    var v2, t := WithCopies(v, copies), Contents(Files(v), tables);
    CopiesIn(v, copies);
    CopiesHold(tables, imm, copies.Keys);
    ContentsUnion(Files(v), copies.Keys, tables);
    forall c: Cut ensures Closed(Contents(CutFiles(v2, c), tables), Contents(Files(v2), tables), h) {
      CutOfCopies(v, copies, c);
      var mine := CutFiles(v2, c) - CutFiles(v, c);
      var p, p2 := Contents(CutFiles(v, c), tables), Contents(CutFiles(v2, c), tables);
      assert CutFiles(v2, c) == CutFiles(v, c) + mine;
      ContentsUnion(CutFiles(v, c), mine, tables);
      CopiesHold(tables, imm, mine);
      if mine == {} {
        assert p2 == p + {} == p;
        CutFilesOf(v, c, 0);
        forall e, x | e in p && x in imm ensures e.key != x.key {
          var f :| f in CutFiles(v, c) && e in EntriesOf(tables, f);
          OutsideCut(cmp, v, tables, imm, copies, c, f, e, x);
        }
      }
      assert Closed(p, t, h);
      ClosedWithMore(p, t, imm, h, floor, p2);
    }
  }

  lemma CopiesHold(tables: Tables, imm: set<Entry>, files: set<nat>)
    requires forall f :: f in files ==> EntriesOf(tables, f) == imm
    ensures Contents(files, tables) == if files == {} then {} else imm
  {
  }

  lemma AnswersAfterFlush(c: set<Entry>, imm: set<Entry>, hist: set<Entry>, immFloor: nat, memFloor: nat, horizon: nat)
    requires UniqueSequences(hist) && immFloor <= memFloor
    requires c <= Upto(hist, immFloor) && SameAnswers(c, Upto(hist, immFloor), horizon)
    requires imm == Beyond(Upto(hist, memFloor), immFloor)
    ensures c + imm <= Upto(hist, memFloor) && SameAnswers(c + imm, Upto(hist, memFloor), horizon)
  {
    hide Lookup;
    assert imm + c == c + imm;
    UniqueIsDistinct(hist, imm + Upto(hist, immFloor));
    assert imm + Upto(hist, immFloor) == Upto(hist, memFloor);
    forall s, k | s >= horizon ensures Lookup(imm + c, s, k) == Lookup(Upto(hist, memFloor), s, k) {
      Glue(imm, c, Upto(hist, immFloor), immFloor, s, k);
    }
  }

  /** With one or more tables of the immutable memtable a version stands for the history up to the memtable. */
  lemma CopiesAreGood(cmp: Comparator, v: Version, tables: Tables, hist: set<Entry>, immFloor: nat, memFloor: nat, horizon: nat,
                      imm: set<Entry>, copies: map<nat, nat>)
    requires TotalOrder(cmp) && Good(cmp, v, tables, hist, immFloor, horizon) && UniqueSequences(hist) && immFloor <= memFloor
    requires imm == Beyond(Upto(hist, memFloor), immFloor) && imm != {} && copies != map[]
    requires forall g :: g in copies ==> CopyOk(cmp, v, tables, imm, g, copies[g])
    ensures Good(cmp, WithCopies(v, copies), tables, hist, memFloor, horizon)
  {
    hide SameAnswers, OrderedVersion, LevelsApart, WithCopies, RangeFree;
    var v2 := WithCopies(v, copies);
    CopiesIn(v, copies);
    CopiesLevels(cmp, v, tables, imm, copies);
    CopiesOrder(cmp, v, tables, imm, copies, immFloor, horizon);
    AnswersAfterFlush(Contents(Files(v), tables), imm, hist, immFloor, memFloor, horizon);
    forall f | f in copies ensures f in tables && f !in Files(v) {
      assert CopyOk(cmp, v, tables, imm, f, copies[f]);
    }
    CopiesOneLevel(v, copies);
  }

  lemma CopiesOneLevel(v: Version, copies: map<nat, nat>)
    requires OneLevelEach(v) && forall f :: f in copies ==> f !in Files(v) && copies[f] < |v.levels|
    ensures OneLevelEach(WithCopies(v, copies))
  {
    CopiesIn(v, copies);
    forall i: nat, f: nat | InLevel(v, i, f) ensures f !in copies {
      FilesOf(v, f);
    }
    hide WithCopies, InLevel;
  }

  /** A flush is one such copy. */
  lemma FlushIsCopy(v: Version, file: nat, level: nat, log: nat, copies: map<nat, nat>)
    requires level < |v.levels| && file !in copies
    ensures ApplyEdit(WithCopies(v, copies), Flushed(Some(file), level, log)) == WithCopies(v, copies[file := level])
  {
    var a, b := ApplyEdit(WithCopies(v, copies), Flushed(Some(file), level, log)), WithCopies(v, copies[file := level]);
    forall i | 0 <= i < |v.levels| ensures a.levels[i] == b.levels[i] {
      assert forall f :: f in a.levels[i] <==> f in b.levels[i];
    }
    assert a.levels == b.levels;
  }

  lemma NoCopies(v: Version)
    ensures WithCopies(v, map[]) == v
  {
    forall i | 0 <= i < |v.levels| ensures WithCopies(v, map[]).levels[i] == v.levels[i] {
    }
    assert WithCopies(v, map[]).levels == v.levels;
  }

  /** Once a copy is part of the version, the others are copies on top of it. */
  lemma CopyInstalled(v: Version, file: nat, level: nat, log: nat, copies: map<nat, nat>)
    requires level < |v.levels| && file in copies && copies[file] == level
    ensures WithCopies(ApplyEdit(v, Flushed(Some(file), level, log)), copies - {file}) == WithCopies(v, copies)
  {
    var a, b := WithCopies(ApplyEdit(v, Flushed(Some(file), level, log)), copies - {file}), WithCopies(v, copies);
    forall i | 0 <= i < |v.levels| ensures a.levels[i] == b.levels[i] {
      assert forall f :: f in a.levels[i] <==> f in b.levels[i];
    }
    assert a.levels == b.levels;
  }

  // ---- Compaction ----------------------------------------------------------

  /** What stays behind in the upper input level is not older than what is picked from it. */
  ghost predicate UpperSafe(v: Version, tables: Tables, from: nat, in0: set<nat>)
    requires from < |v.levels|
  {
    forall e, x :: e in Contents(v.levels[from] - in0, tables) && x in Contents(in0, tables) && e.key == x.key && e.sequence < x.sequence
                   ==> from > 0 && x in Contents(v.levels[from] - in0, tables)
  }

  /** What stays behind in the output level is never older than an input. */
  ghost predicate LowerSafe(v: Version, tables: Tables, from: nat, in0: set<nat>, in1: set<nat>)
    requires from + 1 < |v.levels|
  {
    forall e, x :: e in Contents(v.levels[from + 1] - in1, tables) && x in Contents(in0 + in1, tables) && e.key == x.key
                   ==> e.sequence >= x.sequence
  }

  /** A key of the inputs that is declared base-level has no entry further down. */
  ghost predicate BaseSound(v: Version, tables: Tables, from: nat, inputs: set<Entry>, base: UserKey -> bool) {
    forall i, f, x, d :: i >= from + 2 && InLevel(v, i, f) && x in EntriesOf(tables, f) && d in inputs && base(d.key) ==> x.key != d.key
  }

  /** The files that stay in the output level lie wholly before or behind the inputs. */
  ghost predicate HullFree(cmp: Comparator, v: Version, tables: Tables, from: nat, in1: set<nat>, inputs: set<Entry>) {
    && (forall g :: InLevel(v, from + 1, g) && g !in in1 ==> Apart(cmp, EntriesOf(tables, g), inputs))
    && (forall g, h :: InLevel(v, from + 1, g) && InLevel(v, from + 1, h) && g != h && g !in in1 ==>
          EntriesOf(tables, g) == EntriesOf(tables, h) ==> KeysApart(cmp, EntriesOf(tables, g), inputs))
  }

  /** The ranges of the files leave no gap: what overlaps none of them lies outside all of them together. */
  ghost predicate Solid(cmp: Comparator, tables: Tables, files: set<nat>) {
    forall es: set<Entry> :: es != {} && (forall f :: f in files ==> KeysApart(cmp, es, EntriesOf(tables, f)))
                             ==> KeysApart(cmp, es, Contents(files, tables))
  }

  /** What inputs a compaction may be given. */
  ghost predicate GoodInputs(cmp: Comparator, v: Version, tables: Tables, from: nat, in0: set<nat>, in1: set<nat>, base: UserKey -> bool) {
    && from + 1 < |v.levels| && in0 <= v.levels[from] && in1 <= v.levels[from + 1]
    && UpperSafe(v, tables, from, in0) && LowerSafe(v, tables, from, in0, in1)
    && BaseSound(v, tables, from, Contents(in0 + in1, tables), base)
    && HullFree(cmp, v, tables, from, in1, Contents(in0 + in1, tables))
    && Solid(cmp, tables, in0 + in1)
  }

  lemma FilesAfterCompaction(v: Version, from: nat, in0: set<nat>, in1: set<nat>, outs: set<nat>)
    requires from + 1 < |v.levels| && in0 <= v.levels[from] && in1 <= v.levels[from + 1]
    ensures var v2 := ApplyEdit(v, Compacted(from, in0, in1, outs));
            && |v2.levels| == |v.levels|
            && forall i: nat, f: nat :: InLevel(v2, i, f) <==>
                 || (InLevel(v, i, f) && !(i == from && f in in0) && !(i == from + 1 && f in in1))
                 || (i == from + 1 && f in outs)
  {
  }

  lemma LevelsAfterCompaction(v: Version, from: nat, in0: set<nat>, in1: set<nat>, outs: set<nat>)
    requires from + 1 < |v.levels| && in0 <= v.levels[from] && in1 <= v.levels[from + 1]
    requires OneLevelEach(v) && outs !! (Files(v) - in0 - in1)
    ensures var v2 := ApplyEdit(v, Compacted(from, in0, in1, outs));
            OneLevelEach(v2) && Files(v2) == (Files(v) - in0 - in1) + outs
    ensures in0 + in1 <= Files(v)
  {
    var v2 := ApplyEdit(v, Compacted(from, in0, in1, outs));
    FilesAfterCompaction(v, from, in0, in1, outs);
    forall f | f in in0 + in1 ensures f in Files(v) {
      FilesOf(v, f);
      assert f in in0 ==> InLevel(v, from, f);
      assert f in in1 ==> InLevel(v, from + 1, f);
    }
    forall f ensures f in Files(v2) <==> f in (Files(v) - in0 - in1) + outs {
      FilesOf(v, f);
      FilesOf(v2, f);
      assert f in outs ==> InLevel(v2, from + 1, f);
      assert f in in0 ==> InLevel(v, from, f);
      assert f in in1 ==> InLevel(v, from + 1, f);
      if i: nat :| InLevel(v, i, f) && f !in in0 + in1 {
        assert InLevel(v2, i, f);
      }
    }
    forall i, f | InLevel(v2, i, f) && f in outs ensures i == from + 1 {
      if i != from + 1 {
        assert InLevel(v, i, f);
        FilesOf(v, f);
        assert f in in0 ==> InLevel(v, from, f);
        assert f in in1 ==> InLevel(v, from + 1, f);
      }
    }
  }

  // ---- The order after a compaction ---------------------------------------

  /** What is dropped is hidden by something kept, or its key is declared base-level. */
  lemma KeptCovers(inputs: set<Entry>, smallest: nat, base: UserKey -> bool, x: Entry)
    requires x in inputs && x !in Kept(inputs, smallest, base)
    ensures base(x.key) || exists y :: y in Kept(inputs, smallest, base) && y.key == x.key && x.sequence < y.sequence <= smallest
  {
    if !base(x.key) {
      var f :| f in inputs && Hides(f, smallest, x);
      assert Visible(f, smallest, x.key);
      NewestExists(inputs, smallest, x.key);
      var y :| IsNewest(inputs, smallest, x.key, y);
      assert forall g :: g in inputs && Hides(g, smallest, y) ==> Visible(g, smallest, x.key);
      assert y in Kept(inputs, smallest, base);
    }
  }

  lemma KeptWithin(inputs: set<Entry>, smallest: nat, base: UserKey -> bool)
    ensures Kept(inputs, smallest, base) <= inputs
  {
  }

  lemma CoversMore(p: set<Entry>, p2: set<Entry>, x: Entry, z: Entry, h: nat, h2: nat)
    requires z in p2 && z.key == x.key && (z == x || x.sequence < z.sequence <= h2)
    ensures Covers(p2, x, h2)
  {
  }

  /** The entry that covers x in p: x itself or something newer. */
  lemma Coverer(p: set<Entry>, x: Entry, h: nat) returns (z: Entry)
    requires Covers(p, x, h)
    ensures z in p && z.key == x.key && (z == x || x.sequence < z.sequence <= h)
  {
    if x in p {
      z := x;
    } else {
      z :| z in p && z.key == x.key && x.sequence < z.sequence <= h;
    }
  }

  lemma CutsAfterCompaction(v: Version, from: nat, in0: set<nat>, in1: set<nat>, outs: set<nat>, c: Cut)
    requires from + 1 < |v.levels| && in0 <= v.levels[from] && in1 <= v.levels[from + 1] && OneLevelEach(v)
    ensures var d, d2 := CutFiles(v, c), CutFiles(ApplyEdit(v, Compacted(from, in0, in1, outs)), c);
            if c.Level? && c.i > from then d2 == (d - in0 - in1) + outs else d2 == d - in0
    ensures (c.Level? && c.i < from) || (c.Number? && from > 0) ==> CutFiles(v, c) !! in0
    ensures c.Level? && c.i > from ==> in0 + in1 <= CutFiles(v, c)
  {
    var v2 := ApplyEdit(v, Compacted(from, in0, in1, outs));
    FilesAfterCompaction(v, from, in0, in1, outs);
    forall f ensures f in CutFiles(v2, c) <==> f in (if c.Level? && c.i > from then (CutFiles(v, c) - in0 - in1) + outs else CutFiles(v, c) - in0)
    ensures f in in0 && ((c.Level? && c.i < from) || (c.Number? && from > 0)) ==> f !in CutFiles(v, c)
    ensures f in in0 + in1 && c.Level? && c.i > from ==> f in CutFiles(v, c) {
      CutFilesOf(v, c, f);
      CutFilesOf(v2, c, f);
      assert f in in0 ==> InLevel(v, from, f);
      assert f in in1 ==> InLevel(v, from + 1, f);
      if c.Level? {
        if j: nat :| j <= c.i && InLevel(v2, j, f) && !InLevel(v, j, f) {
          assert j == from + 1 && f in outs;
        }
        if j: nat :| j <= c.i && InLevel(v, j, f) && f !in in0 + in1 {
          assert InLevel(v2, j, f);
        }
        if f in outs && c.i > from {
          assert InLevel(v2, from + 1, f);
        }
      }
    }
  }

  lemma ClosedCovers(v: Version, tables: Tables, c: Cut, h: nat, e: Entry, x: Entry)
    requires OrderedVersion(v, tables, h) && e in Contents(CutFiles(v, c), tables) && x in Contents(Files(v), tables)
    requires e.key == x.key && e.sequence < x.sequence
    ensures Covers(Contents(CutFiles(v, c), tables), x, h)
  {
    assert Closed(Contents(CutFiles(v, c), tables), Contents(Files(v), tables), h);
  }

  /** An entry newer than e that was picked from the cut: something above e covers it. */
  lemma LostFromCut(v: Version, tables: Tables, from: nat, in0: set<nat>, c: Cut, h: nat, e: Entry, z: Entry) returns (w: Entry)
    requires OrderedVersion(v, tables, h) && OneLevelEach(v) && (c.Level? ==> c.i <= from)
    requires from + 1 < |v.levels| && in0 <= v.levels[from] && UpperSafe(v, tables, from, in0)
    requires e in Contents(CutFiles(v, c) - in0, tables) && z in Contents(CutFiles(v, c), tables)
    requires e.key == z.key && e.sequence < z.sequence
    ensures w in Contents(CutFiles(v, c) - in0, tables) && w.key == z.key && (w == z || z.sequence < w.sequence <= h)
  {
    hide Closed, Covers;
    var d := CutFiles(v, c);
    w := z;
    var g :| g in d - in0 && e in EntriesOf(tables, g);
    var f :| f in d && z in EntriesOf(tables, f);
    if f in in0 {
      CutFilesOf(v, c, g);
      CutFilesOf(v, c, f);
      assert InLevel(v, from, f);
      var j: nat;
      match c {
        case Number(n) => j := 0;
        case Level(i) => j :| 0 <= j <= i && InLevel(v, j, g);
      }
      if j == from {
        SiblingKeeps(v, tables, from, in0, c, g, f, e, z);
      } else {
        w := LostBelow(v, tables, from, in0, h, g, j, e, z);
        UpperPart(v, tables, from, in0, c, w);
      }
    }
  }

  lemma SiblingKeeps(v: Version, tables: Tables, from: nat, in0: set<nat>, c: Cut, g: nat, f: nat, e: Entry, z: Entry)
    requires from < |v.levels| && UpperSafe(v, tables, from, in0)
    requires InLevel(v, from, g) && g !in in0 && e in EntriesOf(tables, g) && f in in0 && z in EntriesOf(tables, f)
    requires e.key == z.key && e.sequence < z.sequence && (from > 0 ==> c == Level(from))
    ensures z in Contents(CutFiles(v, c) - in0, tables)
  {
    assert e in Contents(v.levels[from] - in0, tables) && z in Contents(in0, tables);
    forall f2 | f2 in v.levels[from] - in0 && from > 0 ensures f2 in CutFiles(v, c) {
      assert InLevel(v, from, f2);
      CutFilesOf(v, c, f2);
    }
  }

  lemma LostBelow(v: Version, tables: Tables, from: nat, in0: set<nat>, h: nat, g: nat, j: nat, e: Entry, z: Entry) returns (w: Entry)
    requires OrderedVersion(v, tables, h) && InLevel(v, j, g) && j < from && e in EntriesOf(tables, g)
    requires z in Contents(Files(v), tables) && e.key == z.key && e.sequence < z.sequence
    ensures w in Contents(CutFiles(v, Level(from - 1)), tables) && w.key == z.key && (w == z || z.sequence < w.sequence <= h)
  {
    hide OrderedVersion;
    CutFilesOf(v, Level(from - 1), g);
    assert e in Contents(CutFiles(v, Level(from - 1)), tables);
    ClosedCovers(v, tables, Level(from - 1), h, e, z);
    w := Coverer(Contents(CutFiles(v, Level(from - 1)), tables), z, h);
  }

  lemma UpperPart(v: Version, tables: Tables, from: nat, in0: set<nat>, c: Cut, w: Entry)
    requires OneLevelEach(v) && 0 < from < |v.levels| && in0 <= v.levels[from] && c == Level(from)
    requires w in Contents(CutFiles(v, Level(from - 1)), tables)
    ensures w in Contents(CutFiles(v, c) - in0, tables)
  {
    var f :| f in CutFiles(v, Level(from - 1)) && w in EntriesOf(tables, f);
    CutFilesOf(v, Level(from - 1), f);
    CutFilesOf(v, c, f);
    assert f in in0 ==> InLevel(v, from, f);
  }

  /** A cut above the output level: some of its files may have gone down. */
  lemma UpperCut(v: Version, tables: Tables, from: nat, in0: set<nat>, c: Cut, t2: set<Entry>, h: nat)
    requires OrderedVersion(v, tables, h) && OneLevelEach(v) && (c.Level? ==> c.i <= from)
    requires from + 1 < |v.levels| && in0 <= v.levels[from] && UpperSafe(v, tables, from, in0)
    requires t2 <= Contents(Files(v), tables)
    ensures Closed(Contents(CutFiles(v, c) - in0, tables), t2, h)
  {
    hide Covers, OrderedVersion, OneLevelEach, UpperSafe;
    var d, p2 := CutFiles(v, c), Contents(CutFiles(v, c) - in0, tables);
    MoreContents(d - in0, d, tables);
    forall e, x | e in p2 && x in t2 && e.key == x.key && e.sequence < x.sequence ensures Covers(p2, x, h) {
      ClosedCovers(v, tables, c, h, e, x);
      var z := Coverer(Contents(d, tables), x, h);
      var w := LostFromCut(v, tables, from, in0, c, h, e, z);
      CoversMore(p2, p2, x, w, h, h);
    }
  }

  /** A cut below the inputs: they have been replaced by what is kept of them. */
  lemma LowerCut(v: Version, tables: Tables, from: nat, in0: set<nat>, in1: set<nat>, kept: set<Entry>, smallest: nat, base: UserKey -> bool,
                 i: nat, h: nat, h2: nat)
    requires OrderedVersion(v, tables, h) && from < i && h <= h2 && smallest <= h2
    requires in0 + in1 <= CutFiles(v, Level(i))
    requires BaseSound(v, tables, from, Contents(in0 + in1, tables), base) && kept == Kept(Contents(in0 + in1, tables), smallest, base)
    ensures Closed(Contents(CutFiles(v, Level(i)) - in0 - in1, tables) + kept, Contents(Files(v) - in0 - in1, tables) + kept, h2)
  {
    hide Covers, OrderedVersion, Kept, BaseSound;
    var d, inputs := CutFiles(v, Level(i)), Contents(in0 + in1, tables);
    var p2, t2 := Contents(d - in0 - in1, tables) + kept, Contents(Files(v) - in0 - in1, tables) + kept;
    KeptWithin(inputs, smallest, base);
    MoreContents(in0 + in1, d, tables);
    MoreContents(d - in0 - in1, d, tables);
    CutFilesOf(v, Level(i), 0);
    MoreContents(d, Files(v), tables);
    MoreContents(Files(v) - in0 - in1, Files(v), tables);
    forall e, x | e in p2 && x in t2 && e.key == x.key && e.sequence < x.sequence ensures Covers(p2, x, h2) {
      ClosedCovers(v, tables, Level(i), h, e, x);
      var z := Coverer(Contents(d, tables), x, h);
      if z in p2 {
        CoversMore(p2, p2, x, z, h2, h2);
      } else {
        LostInMerge(v, tables, from, in0, in1, smallest, base, i, x, z, h2);
      }
    }
  }

  lemma LostInMerge(v: Version, tables: Tables, from: nat, in0: set<nat>, in1: set<nat>, smallest: nat, base: UserKey -> bool,
                    i: nat, x: Entry, z: Entry, h2: nat)
    requires from < i && smallest <= h2 && BaseSound(v, tables, from, Contents(in0 + in1, tables), base)
    requires z in Contents(CutFiles(v, Level(i)), tables) && z.key == x.key && x.sequence <= z.sequence
    requires z !in Contents(CutFiles(v, Level(i)) - in0 - in1, tables) + Kept(Contents(in0 + in1, tables), smallest, base)
    requires x in Contents(Files(v) - in0 - in1, tables) + Kept(Contents(in0 + in1, tables), smallest, base)
    ensures Covers(Contents(CutFiles(v, Level(i)) - in0 - in1, tables) + Kept(Contents(in0 + in1, tables), smallest, base), x, h2)
  {
    hide Kept, Covers;
    var inputs, kept := Contents(in0 + in1, tables), Kept(Contents(in0 + in1, tables), smallest, base);
    var p2 := Contents(CutFiles(v, Level(i)) - in0 - in1, tables) + kept;
    var f :| f in CutFiles(v, Level(i)) && z in EntriesOf(tables, f);
    assert f in in0 + in1;
    KeptCovers(inputs, smallest, base, z);
    if y :| y in kept && y.key == z.key && z.sequence < y.sequence <= smallest {
      CoversMore(p2, p2, x, y, h2, h2);
    } else if x in kept {
      CoversMore(p2, p2, x, x, h2, h2);
    } else {
      var g :| g in Files(v) - in0 - in1 && x in EntriesOf(tables, g);
      FilesOf(v, g);
      var j: nat :| InLevel(v, j, g);
      CutFilesOf(v, Level(i), g);
      if j <= i {
        assert g in CutFiles(v, Level(i)) - in0 - in1;
        CoversMore(p2, p2, x, x, h2, h2);
      } else {
        assert false;
      }
    }
  }

  lemma OrderAfterCompaction(v: Version, tables: Tables, from: nat, in0: set<nat>, in1: set<nat>, outs: set<nat>,
                             smallest: nat, base: UserKey -> bool, h: nat, h2: nat)
    requires OrderedVersion(v, tables, h) && OneLevelEach(v) && h <= h2 && smallest <= h2
    requires from + 1 < |v.levels| && in0 <= v.levels[from] && in1 <= v.levels[from + 1] && UpperSafe(v, tables, from, in0)
    requires BaseSound(v, tables, from, Contents(in0 + in1, tables), base)
    requires outs !! (Files(v) - in0 - in1) && Contents(outs, tables) == Kept(Contents(in0 + in1, tables), smallest, base)
    ensures OrderedVersion(ApplyEdit(v, Compacted(from, in0, in1, outs)), tables, h2)
  {
    hide Closed, ApplyEdit, Kept, BaseSound, UpperSafe, OneLevelEach;
    var v2 := ApplyEdit(v, Compacted(from, in0, in1, outs));
    LevelsAfterCompaction(v, from, in0, in1, outs);
    ContentsUnion(Files(v) - in0 - in1, outs, tables);
    KeptWithin(Contents(in0 + in1, tables), smallest, base);
    MoreContents(in0 + in1, Files(v), tables);
    MoreContents(Files(v) - in0 - in1, Files(v), tables);
    forall c: Cut ensures Closed(Contents(CutFiles(v2, c), tables), Contents(Files(v2), tables), h2) {
      CutsAfterCompaction(v, from, in0, in1, outs, c);
      if c.Level? && c.i > from {
        ContentsUnion(CutFiles(v, c) - in0 - in1, outs, tables);
        LowerCut(v, tables, from, in0, in1, Contents(outs, tables), smallest, base, c.i, h, h2);
      } else {
        UpperCut(v, tables, from, in0, c, Contents(Files(v2), tables), h);
        ClosedLater(Contents(CutFiles(v2, c), tables), Contents(Files(v2), tables), h, h2);
      }
    }
  }

  // ---- Level ranges after a compaction ------------------------------------

  /** Tables of parts of the inputs, one behind the other. */
  ghost predicate GoodOutputs(cmp: Comparator, tables: Tables, outs: set<nat>) {
    && (forall o :: o in outs ==> EntriesOf(tables, o) != {})
    && (forall o, p :: o in outs && p in outs && o != p ==> Apart(cmp, EntriesOf(tables, o), EntriesOf(tables, p)))
  }

  lemma ApartParts(cmp: Comparator, a: set<Entry>, b: set<Entry>, part: set<Entry>)
    requires part <= b
    ensures Apart(cmp, a, b) ==> Apart(cmp, a, part) && Apart(cmp, part, a)
    ensures KeysApart(cmp, a, b) ==> KeysApart(cmp, a, part) && KeysApart(cmp, part, a)
  {
  }

  lemma NotApartFromItself(cmp: Comparator, a: set<Entry>)
    requires TotalOrder(cmp) && a != {}
    ensures !Apart(cmp, a, a)
  {
    var e :| e in a;
    assert cmp(e.key, e.key) == 0;
  }

  /** Outputs and what stays beside them. */
  lemma OutputsBeside(cmp: Comparator, v: Version, tables: Tables, from: nat, in0: set<nat>, in1: set<nat>, outs: set<nat>)
    requires HullFree(cmp, v, tables, from, in1, Contents(in0 + in1, tables))
    requires Contents(outs, tables) <= Contents(in0 + in1, tables)
    ensures forall o, g :: o in outs && InLevel(v, from + 1, g) && g !in in1 ==>
              Apart(cmp, EntriesOf(tables, g), EntriesOf(tables, o)) && Apart(cmp, EntriesOf(tables, o), EntriesOf(tables, g))
    ensures forall o, g, h :: o in outs && InLevel(v, from + 1, g) && InLevel(v, from + 1, h) && g != h && g !in in1 ==>
              EntriesOf(tables, g) == EntriesOf(tables, h) ==> KeysApart(cmp, EntriesOf(tables, g), EntriesOf(tables, o))
  {
    hide Apart, KeysApart, InLevel, Contents, EntriesOf;
    var inputs := Contents(in0 + in1, tables);
    forall o, g | o in outs && InLevel(v, from + 1, g) && g !in in1
      ensures Apart(cmp, EntriesOf(tables, g), EntriesOf(tables, o)) && Apart(cmp, EntriesOf(tables, o), EntriesOf(tables, g))
      ensures KeysApart(cmp, EntriesOf(tables, g), inputs) ==> KeysApart(cmp, EntriesOf(tables, g), EntriesOf(tables, o))
    {
      SingleContents(o, tables);
      MoreContents({o}, outs, tables);
      ApartParts(cmp, EntriesOf(tables, g), inputs, EntriesOf(tables, o));
    }
  }

  lemma ApartAfterCompaction(cmp: Comparator, v: Version, tables: Tables, from: nat, in0: set<nat>, in1: set<nat>, outs: set<nat>)
    requires TotalOrder(cmp) && LevelsApart(cmp, v, tables) && GoodOutputs(cmp, tables, outs)
    requires from + 1 < |v.levels| && in0 <= v.levels[from] && in1 <= v.levels[from + 1]
    requires HullFree(cmp, v, tables, from, in1, Contents(in0 + in1, tables))
    requires Contents(outs, tables) <= Contents(in0 + in1, tables)
    ensures LevelsApart(cmp, ApplyEdit(v, Compacted(from, in0, in1, outs)), tables)
  {
    var v2 := ApplyEdit(v, Compacted(from, in0, in1, outs));
    FilesAfterCompaction(v, from, in0, in1, outs);
    OutputsBeside(cmp, v, tables, from, in0, in1, outs);
    hide ApplyEdit, Contents, EntriesOf, InLevel, Apart, KeysApart, HullFree, TotalOrder;
    assert PairsApart(cmp, v2, tables) by {
      hide TwinsAlone;
    }
    TwinsAfterCompaction(cmp, v, tables, from, in0, in1, outs);
  }

  lemma TwinsAfterCompaction(cmp: Comparator, v: Version, tables: Tables, from: nat, in0: set<nat>, in1: set<nat>, outs: set<nat>)
    requires TotalOrder(cmp) && LevelsApart(cmp, v, tables) && GoodOutputs(cmp, tables, outs)
    requires from + 1 < |v.levels| && in0 <= v.levels[from] && in1 <= v.levels[from + 1]
    requires HullFree(cmp, v, tables, from, in1, Contents(in0 + in1, tables))
    requires Contents(outs, tables) <= Contents(in0 + in1, tables)
    ensures TwinsAlone(cmp, ApplyEdit(v, Compacted(from, in0, in1, outs)), tables)
  {
    var v2 := ApplyEdit(v, Compacted(from, in0, in1, outs));
    FilesAfterCompaction(v, from, in0, in1, outs);
    OutputsBeside(cmp, v, tables, from, in0, in1, outs);
    hide ApplyEdit, Contents, EntriesOf, InLevel, Apart, KeysApart, HullFree, PairsApart, NoEmptyFiles;
    forall i, f, g, h | i > 0 && InLevel(v2, i, f) && InLevel(v2, i, g) && f != g && InLevel(v2, i, h)
                        && EntriesOf(tables, f) == EntriesOf(tables, g) && EntriesOf(tables, h) != EntriesOf(tables, f)
      ensures KeysApart(cmp, EntriesOf(tables, f), EntriesOf(tables, h))
    {
      if i == from + 1 && (f in outs || g in outs) {
        NotApartFromItself(cmp, EntriesOf(tables, f));
      }
    }
  }

  // ---- What readers can tell ----------------------------------------------

  lemma InSiblings(v: Version, tables: Tables, level: nat, picked: set<nat>, g: nat, w: Entry)
    requires InLevel(v, level, g) && g !in picked && w in EntriesOf(tables, g)
    ensures w in Contents(v.levels[level] - picked, tables)
  {
  }

  /** Older than an input that may be dropped as base-level: then something newer stays above it. */
  lemma OutsideHasNewer(cmp: Comparator, v: Version, tables: Tables, from: nat, in0: set<nat>, in1: set<nat>,
                        smallest: nat, base: UserKey -> bool, h: nat, d: Entry, w: Entry) returns (z: Entry)
    requires OrderedVersion(v, tables, h) && OneLevelEach(v) && h <= smallest && GoodInputs(cmp, v, tables, from, in0, in1, base)
    requires w in Contents(Files(v) - in0 - in1, tables) && d in Contents(in0 + in1, tables)
    requires base(d.key) && d.sequence <= smallest && w.key == d.key && w.sequence < d.sequence
    ensures z in Contents(Files(v) - in0 - in1, tables) && z.key == d.key && w.sequence < z.sequence <= smallest
  {
    hide HullFree, Solid, Closed, OrderedVersion, OneLevelEach, UpperSafe;
    var g :| g in Files(v) - in0 - in1 && w in EntriesOf(tables, g);
    FilesOf(v, g);
    var j: nat :| InLevel(v, j, g);
    if j >= from + 2 {
      assert false;
    } else if j == from + 1 {
      InSiblings(v, tables, from + 1, in1, g, w);
      assert false;
    } else {
      InputsExist(v, from, in0, in1);
      MoreContents(in0 + in1, Files(v), tables);
      CutFilesOf(v, Level(from), g);
      assert w in Contents(CutFiles(v, Level(from)) - in0, tables);
      MoreContents(CutFiles(v, Level(from)) - in0, CutFiles(v, Level(from)), tables);
      ClosedCovers(v, tables, Level(from), h, w, d);
      var y := Coverer(Contents(CutFiles(v, Level(from)), tables), d, h);
      z := LostFromCut(v, tables, from, in0, Level(from), h, w, y);
      UpperIsOutside(v, tables, from, in0, in1, z);
    }
  }

  /** No dropped marker uncovers anything. */
  lemma NothingResurrected(cmp: Comparator, v: Version, tables: Tables, from: nat, in0: set<nat>, in1: set<nat>,
                           smallest: nat, base: UserKey -> bool, h: nat, d: Entry, w: Entry)
    requires OrderedVersion(v, tables, h) && OneLevelEach(v) && h <= smallest && GoodInputs(cmp, v, tables, from, in0, in1, base)
    ensures !Resurrects(Contents(Files(v) - in0 - in1, tables), Contents(in0 + in1, tables), smallest, base, d, w)
  {
    hide GoodInputs, OrderedVersion, OneLevelEach;
    if Resurrects(Contents(Files(v) - in0 - in1, tables), Contents(in0 + in1, tables), smallest, base, d, w) {
      var z := OutsideHasNewer(cmp, v, tables, from, in0, in1, smallest, base, h, d, w);
      assert false;
    }
  }

  lemma InputsExist(v: Version, from: nat, in0: set<nat>, in1: set<nat>)
    requires from + 1 < |v.levels| && in0 <= v.levels[from] && in1 <= v.levels[from + 1]
    ensures in0 + in1 <= Files(v)
  {
    forall f | f in in0 + in1 ensures f in Files(v) {
      FilesOf(v, f);
      assert f in in0 ==> InLevel(v, from, f);
      assert f in in1 ==> InLevel(v, from + 1, f);
    }
  }

  lemma UpperIsOutside(v: Version, tables: Tables, from: nat, in0: set<nat>, in1: set<nat>, z: Entry)
    requires OneLevelEach(v) && from + 1 < |v.levels| && in1 <= v.levels[from + 1]
    requires z in Contents(CutFiles(v, Level(from)) - in0, tables)
    ensures z in Contents(Files(v) - in0 - in1, tables)
  {
    var f :| f in CutFiles(v, Level(from)) - in0 && z in EntriesOf(tables, f);
    CutFilesOf(v, Level(from), f);
    assert f in in1 ==> InLevel(v, from + 1, f);
  }

  lemma SameAnswersChain(a: set<Entry>, b: set<Entry>, c: set<Entry>, h1: nat, h2: nat, h: nat)
    requires SameAnswers(b, a, h1) && SameAnswers(b, c, h2) && h1 <= h && h2 <= h
    ensures SameAnswers(a, c, h)
  {
    hide Lookup;
  }

  /** Moving a file changes nothing: with no snapshot bound nothing is hidden. */
  lemma MoveKeepsEverything(inputs: set<Entry>)
    ensures Kept(inputs, 0, _ => false) == inputs
  {
  }

  /** Replacing the inputs by tables of what is kept leaves a version that stands for the history as
      far as readers at or above smallest can tell. */
  lemma CompactionIsGood(cmp: Comparator, v: Version, tables: Tables, hist: set<Entry>, floor: nat, horizon: nat,
                         from: nat, in0: set<nat>, in1: set<nat>, outs: set<nat>, smallest: nat, base: UserKey -> bool)
    requires TotalOrder(cmp) && Good(cmp, v, tables, hist, floor, horizon) && UniqueSequences(hist)
    requires GoodInputs(cmp, v, tables, from, in0, in1, base) && (horizon <= smallest || forall k :: !base(k))
    requires outs <= tables.Keys && outs !! (Files(v) - in0 - in1) && GoodOutputs(cmp, tables, outs)
    requires Contents(outs, tables) == Kept(Contents(in0 + in1, tables), smallest, base)
    ensures Good(cmp, ApplyEdit(v, Compacted(from, in0, in1, outs)), tables, hist, floor, if horizon < smallest then smallest else horizon)
  {
    hide SameAnswers, ApplyEdit, Kept, OrderedVersion, LevelsApart, Upto, Contents, UniqueSequences, OneLevelEach, GoodOutputs,
         UpperSafe, LowerSafe, BaseSound, HullFree, Solid, Resurrects;
    var outside, inputs := Contents(Files(v) - in0 - in1, tables), Contents(in0 + in1, tables);
    var h := if horizon < smallest then smallest else horizon;
    LevelsAfterCompaction(v, from, in0, in1, outs);
    FilesAfterCompaction(v, from, in0, in1, outs);
    KeptWithin(inputs, smallest, base);
    OrderAfterCompaction(v, tables, from, in0, in1, outs, smallest, base, horizon, h);
    ApartAfterCompaction(cmp, v, tables, from, in0, in1, outs);
    ContentsUnion(Files(v) - in0 - in1, outs, tables);
    ContentsUnion(Files(v) - in0 - in1, in0 + in1, tables);
    assert (Files(v) - in0 - in1) + (in0 + in1) == Files(v);
    UptoWithin(hist, floor);
    UniqueIsDistinct(hist, outside + inputs);
    forall d, w ensures !Resurrects(outside, inputs, smallest, base, d, w) {
      if horizon <= smallest {
        NothingResurrected(cmp, v, tables, from, in0, in1, smallest, base, horizon, d, w);
      } else {
        NoBaseNoHarm(outside, inputs, smallest, base, d, w);
      }
    }
    DropsInvisibleIff(outside, inputs, smallest, base);
    SameAnswersChain(outside + Contents(outs, tables), outside + inputs, Upto(hist, floor), smallest, horizon, h);
  }

  lemma NoBaseNoHarm(outside: set<Entry>, inputs: set<Entry>, smallest: nat, base: UserKey -> bool, d: Entry, w: Entry)
    requires !base(d.key)
    ensures !Resurrects(outside, inputs, smallest, base, d, w)
  {
  }

  lemma UptoWithin(hist: set<Entry>, floor: nat)
    ensures Upto(hist, floor) <= hist
  {
  }

  // ---- A flush while a compaction runs ------------------------------------

  /** A table of newer entries that fits its level leaves the inputs of a compaction usable. */
  lemma InputsWithFile(cmp: Comparator, v: Version, tables: Tables, from: nat, in0: set<nat>, in1: set<nat>, base: UserKey -> bool,
                       file: nat, level: nat, log: nat)
    requires TotalOrder(cmp) && GoodInputs(cmp, v, tables, from, in0, in1, base)
    requires level < |v.levels| && file !in Files(v) && EntriesOf(tables, file) != {}
    requires forall e, d :: e in EntriesOf(tables, file) && d in Contents(in0 + in1, tables) ==> e.sequence > d.sequence
    requires level > from ==> forall f :: f in in0 + in1 ==> KeysApart(cmp, EntriesOf(tables, file), EntriesOf(tables, f))
    ensures GoodInputs(cmp, ApplyEdit(v, Flushed(Some(file), level, log)), tables, from, in0, in1, base)
  {
    hide UpperSafe, LowerSafe, BaseSound, HullFree, Solid;
    InputsExist(v, from, in0, in1);
    if level > from {
      assert KeysApart(cmp, EntriesOf(tables, file), Contents(in0 + in1, tables)) by {
        assert Solid(cmp, tables, in0 + in1);
        SolidSays(cmp, tables, in0 + in1, EntriesOf(tables, file));
      }
    }
    UpperWithFile(v, tables, from, in0, in1, file, level, log);
    LowerWithFile(v, tables, from, in0, in1, file, level, log);
    BaseWithFile(cmp, v, tables, from, in0 + in1, base, file, level, log);
    HullWithFile(cmp, v, tables, from, in0, in1, file, level, log);
  }

  lemma SolidSays(cmp: Comparator, tables: Tables, files: set<nat>, es: set<Entry>)
    requires Solid(cmp, tables, files) && es != {} && forall f :: f in files ==> KeysApart(cmp, es, EntriesOf(tables, f))
    ensures KeysApart(cmp, es, Contents(files, tables))
  {
  }

  lemma FileAdded(v: Version, file: nat, level: nat, log: nat)
    requires level < |v.levels|
    ensures var v2 := ApplyEdit(v, Flushed(Some(file), level, log));
            && |v2.levels| == |v.levels|
            && (forall i: nat :: i < |v.levels| ==> v2.levels[i] == if i == level then v.levels[i] + {file} else v.levels[i])
            && forall i: nat, f: nat :: InLevel(v2, i, f) <==> InLevel(v, i, f) || (i == level && f == file)
  {
  }

  lemma UpperWithFile(v: Version, tables: Tables, from: nat, in0: set<nat>, in1: set<nat>, file: nat, level: nat, log: nat)
    requires from < |v.levels| && UpperSafe(v, tables, from, in0) && level < |v.levels| && file !in in0 + in1
    requires forall e, d :: e in EntriesOf(tables, file) && d in Contents(in0 + in1, tables) ==> e.sequence > d.sequence
    ensures UpperSafe(ApplyEdit(v, Flushed(Some(file), level, log)), tables, from, in0)
  {
    hide ApplyEdit;
    FileAdded(v, file, level, log);
    MoreContents(in0, in0 + in1, tables);
    assert level == from ==> (v.levels[from] + {file}) - in0 == (v.levels[from] - in0) + {file};
    ContentsUnion(v.levels[from] - in0, {file}, tables);
    SingleContents(file, tables);
  }

  lemma LowerWithFile(v: Version, tables: Tables, from: nat, in0: set<nat>, in1: set<nat>, file: nat, level: nat, log: nat)
    requires from + 1 < |v.levels| && LowerSafe(v, tables, from, in0, in1) && level < |v.levels| && file !in in0 + in1
    requires forall e, d :: e in EntriesOf(tables, file) && d in Contents(in0 + in1, tables) ==> e.sequence > d.sequence
    ensures LowerSafe(ApplyEdit(v, Flushed(Some(file), level, log)), tables, from, in0, in1)
  {
    hide ApplyEdit;
    FileAdded(v, file, level, log);
    assert level == from + 1 ==> (v.levels[from + 1] + {file}) - in1 == (v.levels[from + 1] - in1) + {file};
    ContentsUnion(v.levels[from + 1] - in1, {file}, tables);
    SingleContents(file, tables);
  }

  lemma BaseWithFile(cmp: Comparator, v: Version, tables: Tables, from: nat, files: set<nat>, base: UserKey -> bool, file: nat, level: nat, log: nat)
    requires TotalOrder(cmp) && BaseSound(v, tables, from, Contents(files, tables), base) && level < |v.levels|
    requires level > from ==> KeysApart(cmp, EntriesOf(tables, file), Contents(files, tables))
    ensures BaseSound(ApplyEdit(v, Flushed(Some(file), level, log)), tables, from, Contents(files, tables), base)
  {
    hide ApplyEdit, KeysApart, TotalOrder, Contents;
    FileAdded(v, file, level, log);
    if level > from {
      forall x, d | x in EntriesOf(tables, file) && d in Contents(files, tables) ensures x.key != d.key {
        KeysApartShareNothing(cmp, EntriesOf(tables, file), Contents(files, tables), x, d);
      }
    }
  }

  lemma HullWithFile(cmp: Comparator, v: Version, tables: Tables, from: nat, in0: set<nat>, in1: set<nat>, file: nat, level: nat, log: nat)
    requires from + 1 < |v.levels| && HullFree(cmp, v, tables, from, in1, Contents(in0 + in1, tables)) && level < |v.levels|
    requires level > from ==> KeysApart(cmp, EntriesOf(tables, file), Contents(in0 + in1, tables))
    ensures HullFree(cmp, ApplyEdit(v, Flushed(Some(file), level, log)), tables, from, in1, Contents(in0 + in1, tables))
  {
    hide ApplyEdit, KeysApart, Apart, Contents, EntriesOf, InLevel;
    FileAdded(v, file, level, log);
    KeysApartIsApart(cmp);
  }

  /** Inputs are unaffected by what happens to tables of other versions. */
  lemma InputsWithTables(cmp: Comparator, v: Version, tables: Tables, tables2: Tables, from: nat, in0: set<nat>, in1: set<nat>, base: UserKey -> bool)
    requires GoodInputs(cmp, v, tables, from, in0, in1, base)
    requires forall f :: f in Files(v) ==> EntriesOf(tables2, f) == EntriesOf(tables, f)
    ensures GoodInputs(cmp, v, tables2, from, in0, in1, base)
  {
    hide KeysApart, Apart;
    forall i, f | InLevel(v, i, f) ensures EntriesOf(tables2, f) == EntriesOf(tables, f) {
      FilesOf(v, f);
    }
    forall f | f in v.levels[from] + v.levels[from + 1] ensures EntriesOf(tables2, f) == EntriesOf(tables, f) {
      assert InLevel(v, from, f) || InLevel(v, from + 1, f);
    }
    SameContents(v.levels[from] - in0, tables, tables2);
    SameContents(v.levels[from + 1] - in1, tables, tables2);
    SameContents(in0, tables, tables2);
    SameContents(in0 + in1, tables, tables2);
    hide EntriesOf, Contents, InLevel;
  }
}
