/** Versions: which tables a database consists of, level by level (db/version_set.cc), and what keeps a
    search that goes from level to level correct. */
module Versions {
  import opened Common
  import opened DbFormat
  import opened Entries
  import opened Compaction

  const NUM_LEVELS: nat := 7

  /** A memtable may be placed at most this deep. */
  const MAX_MEM_COMPACT_LEVEL: nat := 2

  /** File numbers per level. Level-0 files are ordered by number, newest first. */
  datatype Version = Version(levels: seq<set<nat>>)

  type Tables = map<nat, set<Entry>>

  datatype Edit =
    | Flushed(file: Option<nat>, level: nat, log: nat)
    | Compacted(from: nat, in0: set<nat>, in1: set<nat>, outs: set<nat>)

  // ---- Files and their contents -------------------------------------------

  function EntriesOf(tables: Tables, f: nat): set<Entry> {
    if f in tables then tables[f] else {}
  }

  ghost function Contents(files: set<nat>, tables: Tables): set<Entry> {
    set f, e | f in files && e in EntriesOf(tables, f) :: e
  }

  predicate InLevel(v: Version, i: nat, f: nat) {
    i < |v.levels| && f in v.levels[i]
  }

  function Files(v: Version): set<nat> {
    set i, f | 0 <= i < |v.levels| && f in v.levels[i] :: f
  }

  ghost function Upto(es: set<Entry>, bound: nat): set<Entry> {
    set e | e in es && e.sequence <= bound
  }

  ghost function Beyond(es: set<Entry>, bound: nat): set<Entry> {
    set e | e in es && e.sequence > bound
  }

  // ---- Version edits -------------------------------------------------------

  /** The level and the file-set change of an edit. */
  function ApplyEdit(v: Version, edit: Edit): Version {
    match edit
    case Flushed(file, level, _) =>
      if file.None? || level >= |v.levels| then v
      else Version(v.levels[level := v.levels[level] + {file.value}])
    case Compacted(from, in0, in1, outs) =>
      if from + 1 >= |v.levels| then v
      else Version(v.levels[from := v.levels[from] - in0][from + 1 := v.levels[from + 1] - in1 + outs])
  }

  function EditLog(edit: Edit, logNumber: nat): nat {
    match edit case Flushed(_, _, log) => log case Compacted(_, _, _, _) => logNumber
  }

  // ---- Key ranges ----------------------------------------------------------

  ghost predicate AllBefore(cmp: Comparator, a: set<Entry>, b: set<Entry>) {
    forall e, x :: e in a && x in b ==> EntryBefore(cmp, e, x)
  }

  ghost predicate KeysBefore(cmp: Comparator, a: set<Entry>, b: set<Entry>) {
    forall e, x :: e in a && x in b ==> cmp(e.key, x.key) < 0
  }

  /** One lies wholly before the other in internal-key order; the two may meet in one user key. */
  ghost predicate Apart(cmp: Comparator, a: set<Entry>, b: set<Entry>) {
    AllBefore(cmp, a, b) || AllBefore(cmp, b, a)
  }

  /** The user-key ranges do not overlap. */
  ghost predicate KeysApart(cmp: Comparator, a: set<Entry>, b: set<Entry>) {
    KeysBefore(cmp, a, b) || KeysBefore(cmp, b, a)
  }

  /** k lies between the smallest and the largest user key. */
  ghost predicate Spans(cmp: Comparator, es: set<Entry>, k: UserKey) {
    (exists e :: e in es && cmp(e.key, k) <= 0) && exists e :: e in es && cmp(e.key, k) >= 0
  }

  ghost predicate NoEmptyFiles(v: Version, tables: Tables) {
    forall i, f :: InLevel(v, i, f) ==> EntriesOf(tables, f) != {}
  }

  /** From level 1 down the files of a level do not overlap, or have the same contents … */
  ghost predicate PairsApart(cmp: Comparator, v: Version, tables: Tables) {
    forall i, f, g :: i > 0 && InLevel(v, i, f) && InLevel(v, i, g) && f != g ==>
      EntriesOf(tables, f) == EntriesOf(tables, g) || Apart(cmp, EntriesOf(tables, f), EntriesOf(tables, g))
  }

  /** … as a retried installation may leave them; these share no key with any other file of the level. */
  ghost predicate TwinsAlone(cmp: Comparator, v: Version, tables: Tables) {
    forall i, f, g, h :: i > 0 && InLevel(v, i, f) && InLevel(v, i, g) && f != g && InLevel(v, i, h) ==>
      EntriesOf(tables, f) == EntriesOf(tables, g) && EntriesOf(tables, h) != EntriesOf(tables, f) ==>
        KeysApart(cmp, EntriesOf(tables, f), EntriesOf(tables, h))
  }

  ghost predicate LevelsApart(cmp: Comparator, v: Version, tables: Tables) {
    NoEmptyFiles(v, tables) && PairsApart(cmp, v, tables) && TwinsAlone(cmp, v, tables)
  }

  // ---- The order of the levels --------------------------------------------

  /** Where a search may stand: behind the level-0 files from a number up, or behind a level. */
  datatype Cut = Number(n: nat) | Level(i: nat)

  function CutFiles(v: Version, c: Cut): set<nat> {
    match c
    case Number(n) => if |v.levels| == 0 then {} else set f | f in v.levels[0] && f >= n
    case Level(i) => set j, f | 0 <= j < |v.levels| && j <= i && f in v.levels[j] :: f
  }

  /** Whatever has been searched is closed. */
  ghost predicate OrderedVersion(v: Version, tables: Tables, h: nat) {
    forall c: Cut :: Closed(Contents(CutFiles(v, c), tables), Contents(Files(v), tables), h)
  }

  ghost predicate OneLevelEach(v: Version) {
    forall i, j, f :: InLevel(v, i, f) && InLevel(v, j, f) ==> i == j
  }

  /** The version's tables exist, are well ordered, and stand for the history up to floor as far as
      readers at or above horizon can tell. */
  ghost predicate Good(cmp: Comparator, v: Version, tables: Tables, hist: set<Entry>, floor: nat, horizon: nat) {
    && |v.levels| == NUM_LEVELS
    && Files(v) <= tables.Keys
    && OneLevelEach(v) && OrderedVersion(v, tables, horizon) && LevelsApart(cmp, v, tables)
    && Contents(Files(v), tables) <= Upto(hist, floor)
    && SameAnswers(Contents(Files(v), tables), Upto(hist, floor), horizon)
  }

  // ---- Facts about files and contents -------------------------------------

  ghost predicate UniqueSequences(es: set<Entry>) {
    forall e, x :: e in es && x in es && e.sequence == x.sequence ==> e == x
  }

  lemma UniqueIsDistinct(es: set<Entry>, sub: set<Entry>)
    requires UniqueSequences(es) && sub <= es
    ensures Distinct(sub)
  {
  }

  lemma AddAbove(es: set<Entry>, e: Entry, bound: nat)
    requires e.sequence > bound
    ensures Upto(es + {e}, bound) == Upto(es, bound) && Beyond(es + {e}, bound) == Beyond(es, bound) + {e}
  {
  }

  lemma NothingAbove(es: set<Entry>, bound: nat)
    requires forall e :: e in es ==> e.sequence <= bound
    ensures Upto(es, bound) == es && Beyond(es, bound) == {}
  {
  }

  lemma FilesOf(v: Version, f: nat)
    ensures f in Files(v) <==> exists i :: 0 <= i && InLevel(v, i, f)
  {
    if f in Files(v) {
      var i :| 0 <= i < |v.levels| && f in v.levels[i];
      assert InLevel(v, i, f);
    }
  }

  lemma CutFilesOf(v: Version, c: Cut, f: nat)
    ensures f in CutFiles(v, c) <==>
              match c
              case Number(n) => InLevel(v, 0, f) && f >= n
              case Level(i) => exists j :: 0 <= j <= i && InLevel(v, j, f)
    ensures CutFiles(v, c) <= Files(v)
  {
    if c.Level? && f in CutFiles(v, c) {
      var j :| 0 <= j < |v.levels| && j <= c.i && f in v.levels[j];
      assert InLevel(v, j, f);
    }
  }

  lemma ContentsUnion(a: set<nat>, b: set<nat>, tables: Tables)
    ensures Contents(a + b, tables) == Contents(a, tables) + Contents(b, tables)
  {
  }

  lemma SingleContents(f: nat, tables: Tables)
    ensures Contents({f}, tables) == EntriesOf(tables, f)
  {
  }

  lemma SameContents(files: set<nat>, tables: Tables, tables2: Tables)
    requires forall f :: f in files ==> EntriesOf(tables2, f) == EntriesOf(tables, f)
    ensures Contents(files, tables2) == Contents(files, tables)
  {
  }

  lemma MoreContents(a: set<nat>, b: set<nat>, tables: Tables)
    requires a <= b
    ensures Contents(a, tables) <= Contents(b, tables)
  {
  }

  /** A version whose tables are untouched keeps its order. */
  lemma OrderWithTables(v: Version, tables: Tables, tables2: Tables, h: nat)
    requires OrderedVersion(v, tables, h)
    requires forall f :: f in Files(v) ==> EntriesOf(tables2, f) == EntriesOf(tables, f)
    ensures OrderedVersion(v, tables2, h)
  {
    hide Closed;
    SameContents(Files(v), tables, tables2);
    forall c: Cut ensures Closed(Contents(CutFiles(v, c), tables2), Contents(Files(v), tables2), h) {
      CutFilesOf(v, c, 0);
      SameContents(CutFiles(v, c), tables, tables2);
      assert Closed(Contents(CutFiles(v, c), tables), Contents(Files(v), tables), h);
    }
  }

  lemma ApartWithTables(cmp: Comparator, v: Version, tables: Tables, tables2: Tables)
    requires LevelsApart(cmp, v, tables)
    requires forall f :: f in Files(v) ==> EntriesOf(tables2, f) == EntriesOf(tables, f)
    ensures LevelsApart(cmp, v, tables2)
  {
    forall i, f | InLevel(v, i, f) ensures EntriesOf(tables2, f) == EntriesOf(tables, f) {
      FilesOf(v, f);
    }
    hide EntriesOf, Apart, KeysApart;
  }

  lemma GoodWithTables(cmp: Comparator, v: Version, tables: Tables, tables2: Tables, hist: set<Entry>, floor: nat, horizon: nat)
    requires Good(cmp, v, tables, hist, floor, horizon)
    requires forall f :: f in Files(v) ==> f in tables2 && tables2[f] == tables[f]
    ensures Good(cmp, v, tables2, hist, floor, horizon)
  {
    hide OrderedVersion, LevelsApart;
    OrderWithTables(v, tables, tables2, horizon);
    ApartWithTables(cmp, v, tables, tables2);
    SameContents(Files(v), tables, tables2);
  }

  lemma {:induction false} ClosedLater(p: set<Entry>, t: set<Entry>, h: nat, h2: nat)
    requires Closed(p, t, h) && h <= h2
    ensures Closed(p, t, h2)
  {
    forall e, x | e in p && x in t && e.key == x.key && e.sequence < x.sequence ensures Covers(p, x, h2) {
      assert Covers(p, x, h);
    }
  }

  lemma OrderLater(v: Version, tables: Tables, h: nat, h2: nat)
    requires OrderedVersion(v, tables, h) && h <= h2
    ensures OrderedVersion(v, tables, h2)
  {
    hide Closed;
    forall c: Cut ensures Closed(Contents(CutFiles(v, c), tables), Contents(Files(v), tables), h2) {
      ClosedLater(Contents(CutFiles(v, c), tables), Contents(Files(v), tables), h, h2);
    }
  }

  /** History above the floor does not matter to a version. */
  lemma GoodWithHistory(cmp: Comparator, v: Version, tables: Tables, hist: set<Entry>, hist2: set<Entry>, floor: nat, horizon: nat, horizon2: nat)
    requires Good(cmp, v, tables, hist, floor, horizon) && horizon <= horizon2
    requires Upto(hist, floor) == Upto(hist2, floor)
    ensures Good(cmp, v, tables, hist2, floor, horizon2)
  {
    hide OrderedVersion, LevelsApart, Lookup;
    OrderLater(v, tables, horizon, horizon2);
  }

  /** Newer entries on top of two stores that answer alike leave them answering alike. What is newer may be
      in one of them already, as long as nothing newer than any of it is missing from it. */
  lemma Glue(upper: set<Entry>, a: set<Entry>, b: set<Entry>, floor: nat, s: nat, k: UserKey)
    requires Distinct(upper + b) && a <= b
    requires forall e :: e in upper ==> e.sequence > floor
    requires forall e :: e in b && e.sequence > floor ==> e in upper
    requires Lookup(a, s, k) == Lookup(b, s, k)
    ensures Lookup(upper + a, s, k) == Lookup(upper + b, s, k)
  {
    hide Lookup;
    if Has(upper, s, k) {
      NewestExists(upper, s, k);
      var e :| IsNewest(upper, s, k, e);
      assert IsNewest(upper + a, s, k, e) && IsNewest(upper + b, s, k, e);
      LookupIs(upper + a, s, k, e);
      LookupIs(upper + b, s, k, e);
    } else {
      LookupDependsOnVisible(upper + a, a, s, k);
      LookupDependsOnVisible(upper + b, b, s, k);
    }
  }
}
