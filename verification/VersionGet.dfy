/** Version::Get (db/version_set.cc): which files a read of one key looks into. */
module VersionGet {
  import opened Common
  import opened Coding
  import opened DbFormat
  import opened Entries
  import opened Versions
  import opened Picks
  import opened FileMetas
  import opened ReadOrder

  /** What the callback behind a table lookup may have found. */
  datatype SaverState = NotFound | Found(value: seq<Byte>) | Deleted

  /** The contents of the table files, in internal-key order. */
  type Stored = map<nat, seq<Entry>>

  function TablesOf(stored: Stored): Tables {
    map n | n in stored :: Elements(stored[n])
  }

  /** The internal key that a read at sequence s seeks. */
  function SeekKey(k: UserKey, s: nat): Entry {
    Entry(k, s, TypeValue, [])
  }

  lemma BeforeSeekKey(cmp: Comparator, e: Entry, k: UserKey, s: nat)
    requires TotalOrder(cmp)
    ensures EntryBefore(cmp, e, SeekKey(k, s)) <==> cmp(e.key, k) < 0 || (e.key == k && e.sequence > s)
  {
  }

  // ---- Binary search -------------------------------------------------------

  ghost predicate SortedByLargest(cmp: Comparator, files: seq<FileMeta>) {
    forall i, j :: 0 <= i < j < |files| ==> !EntryBefore(cmp, files[j].largest, files[i].largest)
  }

  lemma EndsBeforeToo(cmp: Comparator, files: seq<FileMeta>, i: nat, j: nat, key: Entry)
    requires TotalOrder(cmp) && SortedByLargest(cmp, files) && i < j < |files| && EntryBefore(cmp, files[j].largest, key)
    ensures EntryBefore(cmp, files[i].largest, key)
  {
    assert !EntryBefore(cmp, files[j].largest, files[i].largest);
  }

  /** The first file that does not end before the key. */
  method FindFile(cmp: Comparator, files: seq<FileMeta>, key: Entry) returns (right: nat)
    requires TotalOrder(cmp) && SortedByLargest(cmp, files)
    ensures right <= |files|
    ensures forall i :: 0 <= i < right ==> EntryBefore(cmp, files[i].largest, key)
    ensures right < |files| ==> !EntryBefore(cmp, files[right].largest, key)
  {
    var left := 0;
    right := |files|;
    while left < right
      invariant left <= right <= |files|
      invariant forall i :: 0 <= i < left ==> EntryBefore(cmp, files[i].largest, key)
      invariant right < |files| ==> !EntryBefore(cmp, files[right].largest, key)
    {
      var mid := (left + right) / 2;
      if EntryBefore(cmp, files[mid].largest, key) {
        forall i | 0 <= i < mid ensures EntryBefore(cmp, files[i].largest, key) {
          EndsBeforeToo(cmp, files, i, mid, key);
        }
        left := mid + 1;
      } else {
        right := mid;
      }
    }
  }

  /** The files of a sorted level that do not overlap stand one behind the other. */
  lemma OneBehindTheOther(cmp: Comparator, v: Version, tables: Tables, files: seq<seq<FileMeta>>, l: nat, i: nat, j: nat)
    requires TotalOrder(cmp) && Lists(cmp, v, tables, files) && LevelsApart(cmp, v, tables)
    requires 0 < l < |files| && i < j < |files[l]|
    ensures EntriesOf(tables, files[l][i].number) == EntriesOf(tables, files[l][j].number)
            || AllBefore(cmp, EntriesOf(tables, files[l][i].number), EntriesOf(tables, files[l][j].number))
  {
    hide TotalOrder, Lists, TwinsAlone;
    ListsLevel(cmp, v, tables, files, l);
    var f, g := files[l][i], files[l][j];
    assert InLevel(v, l, f.number) && InLevel(v, l, g.number);
    assert !EntryBefore(cmp, g.smallest, f.smallest);
  }

  lemma LevelSortedByLargest(cmp: Comparator, v: Version, tables: Tables, files: seq<seq<FileMeta>>, l: nat)
    requires TotalOrder(cmp) && Lists(cmp, v, tables, files) && LevelsApart(cmp, v, tables) && 0 < l < |files|
    ensures SortedByLargest(cmp, files[l])
  {
    hide TotalOrder, Lists, LevelsApart, Describes;
    ListsLevel(cmp, v, tables, files, l);
    forall i, j | 0 <= i < j < |files[l]| ensures !EntryBefore(cmp, files[l][j].largest, files[l][i].largest) {
      OneBehindTheOther(cmp, v, tables, files, l, i, j);
      LaterEndsLater(cmp, tables, files[l][i], files[l][j]);
    }
  }

  lemma LaterEndsLater(cmp: Comparator, tables: Tables, f: FileMeta, g: FileMeta)
    requires TotalOrder(cmp) && Describes(cmp, tables, f) && Describes(cmp, tables, g)
    requires EntriesOf(tables, f.number) == EntriesOf(tables, g.number) || AllBefore(cmp, EntriesOf(tables, f.number), EntriesOf(tables, g.number))
    ensures !EntryBefore(cmp, g.largest, f.largest)
  {
    NotBeforeItself(cmp, f.largest);
    if EntryBefore(cmp, g.largest, f.largest) {
      assert EntryBefore(cmp, f.largest, g.largest);
      BeforeTransitive(cmp, f.largest, g.largest, f.largest);
      assert false;
    }
  }

  // ---- One table -----------------------------------------------------------

  predicate Hit(state: SaverState) {
    !state.NotFound?
  }

  function AnswerOf(state: SaverState): Option<seq<Byte>> {
    if state.Found? then Some(state.value) else None
  }

  /** The first entry at or behind the seek key answers if it has the user key. */
  method TableGet(cmp: Comparator, entries: seq<Entry>, k: UserKey, s: nat) returns (state: SaverState)
    requires TotalOrder(cmp) && Sorted(cmp, entries)
    ensures Hit(state) <==> Has(Elements(entries), s, k)
    ensures Hit(state) ==> AnswerOf(state) == Lookup(Elements(entries), s, k)
  {
    var i := 0;
    while i < |entries| && EntryBefore(cmp, entries[i], SeekKey(k, s))
      invariant i <= |entries|
      invariant forall j :: 0 <= j < i ==> EntryBefore(cmp, entries[j], SeekKey(k, s))
    {
      i := i + 1;
    }
    SeekFinds(cmp, entries, k, s, i);
    if i < |entries| && cmp(entries[i].key, k) == 0 {
      state := match entries[i].valueType case TypeValue => Found(entries[i].value) case TypeDeletion => Deleted;
    } else {
      state := NotFound;
    }
  }

  lemma SeekFinds(cmp: Comparator, entries: seq<Entry>, k: UserKey, s: nat, i: nat)
    requires TotalOrder(cmp) && Sorted(cmp, entries) && i <= |entries|
    requires forall j :: 0 <= j < i ==> EntryBefore(cmp, entries[j], SeekKey(k, s))
    requires i < |entries| ==> !EntryBefore(cmp, entries[i], SeekKey(k, s))
    ensures i < |entries| && cmp(entries[i].key, k) == 0 ==> Has(Elements(entries), s, k) && Lookup(Elements(entries), s, k) == Answer(entries[i])
    ensures !(i < |entries| && cmp(entries[i].key, k) == 0) ==> !Has(Elements(entries), s, k)
  {
    hide Lookup;
    assert cmp(k, k) == 0;
    forall j | 0 <= j < |entries| && Visible(entries[j], s, k)
      ensures i < |entries| && entries[i].key == k && entries[j].sequence <= entries[i].sequence
    {
      BeforeSeekKey(cmp, entries[j], k, s);
      if j != i {
        assert EntryBefore(cmp, entries[i], entries[j]);
      }
    }
    if i < |entries| && cmp(entries[i].key, k) == 0 {
      assert Visible(entries[i], s, k);
      assert entries[i] in Elements(entries);
      assert IsNewest(Elements(entries), s, k, entries[i]);
      SortedIsDistinct(cmp, entries);
      LookupIs(Elements(entries), s, k, entries[i]);
    }
  }

  // ---- One level -----------------------------------------------------------

  predicate InFileRange(cmp: Comparator, f: FileMeta, k: UserKey) {
    cmp(k, f.smallest.key) >= 0 && cmp(k, f.largest.key) <= 0
  }

  lemma OutsideRange(cmp: Comparator, tables: Tables, f: FileMeta, s: nat, k: UserKey)
    requires TotalOrder(cmp) && Describes(cmp, tables, f) && Has(EntriesOf(tables, f.number), s, k)
    ensures InFileRange(cmp, f, k)
  {
    var e :| e in EntriesOf(tables, f.number) && Visible(e, s, k);
    BeforeOrdersKeys(cmp, f.smallest, e);
    BeforeOrdersKeys(cmp, e, f.largest);
  }

  /** Whatever a level without overlaps has of the key, the file that the binary search finds has it or
      something newer. */
  lemma FoundFileIsNewest(cmp: Comparator, v: Version, tables: Tables, files: seq<seq<FileMeta>>, l: nat, index: nat, s: nat, k: UserKey, e: Entry)
    requires TotalOrder(cmp) && Lists(cmp, v, tables, files) && LevelsApart(cmp, v, tables) && 0 < l < |files|
    requires index <= |files[l]|
    requires forall i :: 0 <= i < index ==> EntryBefore(cmp, files[l][i].largest, SeekKey(k, s))
    requires index < |files[l]| ==> !EntryBefore(cmp, files[l][index].largest, SeekKey(k, s))
    requires e in Contents(v.levels[l], tables) && Visible(e, s, k)
    ensures index < |files[l]|
    ensures exists x :: x in EntriesOf(tables, files[l][index].number) && Visible(x, s, k) && e.sequence <= x.sequence
  {
    hide TotalOrder, Lists, LevelsApart;
    ListsLevel(cmp, v, tables, files, l);
    var n :| n in v.levels[l] && e in EntriesOf(tables, n);
    var f := MetaOf(files[l], n);
    var i :| 0 <= i < |files[l]| && files[l][i] == f;
    NotPassed(cmp, tables, f, e, k, s);
    if i > index {
      OneBehindTheOther(cmp, v, tables, files, l, index, i);
      var x := NotBehind(cmp, tables, files[l][index], f, e, k, s);
    }
  }

  lemma NotPassed(cmp: Comparator, tables: Tables, f: FileMeta, e: Entry, k: UserKey, s: nat)
    requires TotalOrder(cmp) && Describes(cmp, tables, f) && e in EntriesOf(tables, f.number) && Visible(e, s, k)
    ensures !EntryBefore(cmp, f.largest, SeekKey(k, s))
  {
    if EntryBefore(cmp, f.largest, SeekKey(k, s)) {
      BeforeOrdersKeys(cmp, e, f.largest);
      BeforeSeekKey(cmp, f.largest, k, s);
    }
  }

  lemma NotBehind(cmp: Comparator, tables: Tables, f: FileMeta, g: FileMeta, e: Entry, k: UserKey, s: nat) returns (x: Entry)
    requires TotalOrder(cmp) && Describes(cmp, tables, f) && e in EntriesOf(tables, g.number) && Visible(e, s, k)
    requires !EntryBefore(cmp, f.largest, SeekKey(k, s))
    requires EntriesOf(tables, f.number) == EntriesOf(tables, g.number) || AllBefore(cmp, EntriesOf(tables, f.number), EntriesOf(tables, g.number))
    ensures x in EntriesOf(tables, f.number) && Visible(x, s, k) && e.sequence <= x.sequence
  {
    x := e;
    if e !in EntriesOf(tables, f.number) {
      x := f.largest;
      assert EntryBefore(cmp, x, e);
      BeforeSeekKey(cmp, x, k, s);
      BeforeOrdersKeys(cmp, x, e);
      assert cmp(k, k) == 0;
    }
  }

  /** Reading the file that the binary search finds is reading the whole level. */
  lemma OneFileOfLevel(cmp: Comparator, v: Version, tables: Tables, files: seq<seq<FileMeta>>, l: nat, index: nat, s: nat, k: UserKey)
    requires TotalOrder(cmp) && Lists(cmp, v, tables, files) && LevelsApart(cmp, v, tables) && 0 < l < |files|
    requires Distinct(Contents(v.levels[l], tables)) && index <= |files[l]|
    requires forall i :: 0 <= i < index ==> EntryBefore(cmp, files[l][i].largest, SeekKey(k, s))
    requires index < |files[l]| ==> !EntryBefore(cmp, files[l][index].largest, SeekKey(k, s))
    ensures Has(Contents(v.levels[l], tables), s, k) <==> index < |files[l]| && Has(EntriesOf(tables, files[l][index].number), s, k)
    ensures Has(Contents(v.levels[l], tables), s, k) ==> Lookup(Contents(v.levels[l], tables), s, k) == Lookup(EntriesOf(tables, files[l][index].number), s, k)
  {
    hide TotalOrder, Lists, LevelsApart, Lookup;
    ListsLevel(cmp, v, tables, files, l);
    var level := Contents(v.levels[l], tables);
    if index < |files[l]| {
      SingleContents(files[l][index].number, tables);
      assert files[l][index].number in v.levels[l];
      MoreContents({files[l][index].number}, v.levels[l], tables);
    }
    if Has(level, s, k) {
      NewestExists(level, s, k);
      var e :| IsNewest(level, s, k, e);
      FoundFileIsNewest(cmp, v, tables, files, l, index, s, k, e);
      var file := EntriesOf(tables, files[l][index].number);
      var x :| x in file && Visible(x, s, k) && e.sequence <= x.sequence;
      assert x == e;
      assert IsNewest(file, s, k, e);
      LookupIs(level, s, k, e);
      LookupIs(file, s, k, e);
    }
  }

  /** How a read goes through one level from 1 down. */
  method SearchLevel(cmp: Comparator, files: seq<seq<FileMeta>>, stored: Stored, l: nat, k: UserKey, s: nat) returns (state: SaverState)
    requires TotalOrder(cmp) && Lists(cmp, VersionOf(files), TablesOf(stored), files) && LevelsApart(cmp, VersionOf(files), TablesOf(stored))
    requires Distinct(Contents(Files(VersionOf(files)), TablesOf(stored))) && AllStored(cmp, files, stored) && 0 < l < |files|
    ensures var level := Contents(VersionOf(files).levels[l], TablesOf(stored));
            Hit(state) == Has(level, s, k) && (Hit(state) ==> AnswerOf(state) == Lookup(level, s, k))
  {
    hide TotalOrder, Lists, LevelsApart, Distinct, Lookup;
    ghost var v, tables := VersionOf(files), TablesOf(stored);
    LevelSortedByLargest(cmp, v, tables, files, l);
    var index := FindFile(cmp, files[l], SeekKey(k, s));
    LevelDistinct(v, tables, l);
    OneFileOfLevel(cmp, v, tables, files, l, index, s, k);
    state := NotFound;
    if index < |files[l]| {
      ListsLevel(cmp, v, tables, files, l);
      var f := files[l][index];
      if cmp(k, f.smallest.key) < 0 {
        BeforeTheFile(cmp, tables, f, s, k);
      } else {
        state := TableGet(cmp, stored[f.number], k, s);
      }
    }
  }

  lemma LevelDistinct(v: Version, tables: Tables, l: nat)
    requires Distinct(Contents(Files(v), tables)) && l < |v.levels|
    ensures Distinct(Contents(v.levels[l], tables))
  {
    forall f | f in v.levels[l] ensures f in Files(v) {
      assert InLevel(v, l, f);
      FilesOf(v, f);
    }
    MoreContents(v.levels[l], Files(v), tables);
  }

  lemma BeforeTheFile(cmp: Comparator, tables: Tables, f: FileMeta, s: nat, k: UserKey)
    requires TotalOrder(cmp) && Describes(cmp, tables, f) && !InFileRange(cmp, f, k)
    ensures !Has(EntriesOf(tables, f.number), s, k)
  {
    if Has(EntriesOf(tables, f.number), s, k) {
      OutsideRange(cmp, tables, f, s, k);
    }
  }

  /** Every file of the version is there and sorted. */
  ghost predicate AllStored(cmp: Comparator, files: seq<seq<FileMeta>>, stored: Stored) {
    forall l, f :: 0 <= l < |files| && f in files[l] ==> f.number in stored && Sorted(cmp, stored[f.number])
  }

  // ---- Level 0 -------------------------------------------------------------

  predicate NewestFirst(files: seq<FileMeta>) {
    forall i, j :: 0 <= i < j < |files| ==> files[i].number > files[j].number
  }

  lemma InsertedInOrder(sorted: seq<FileMeta>, f: FileMeta, i: nat)
    requires NewestFirst(sorted) && i <= |sorted|
    requires (forall j :: 0 <= j < i ==> sorted[j].number > f.number) && (i < |sorted| ==> sorted[i].number < f.number)
    ensures NewestFirst(sorted[..i] + [f] + sorted[i..])
  {
    var r := sorted[..i] + [f] + sorted[i..];
    forall a, b | 0 <= a < b < |r| ensures r[a].number > r[b].number {
      var n := if b < i then sorted[b].number else if b == i then f.number else sorted[b - 1].number;
      assert r[b].number == n;
      var m := if a < i then sorted[a].number else if a == i then f.number else sorted[a - 1].number;
      assert r[a].number == m;
    }
  }

  lemma InsertedHas(sorted: seq<FileMeta>, f: FileMeta, i: nat)
    requires i <= |sorted|
    ensures forall g :: g in sorted[..i] + [f] + sorted[i..] <==> g in sorted || g == f
  {
    assert sorted == sorted[..i] + sorted[i..];
  }

  method Insert(sorted: seq<FileMeta>, f: FileMeta) returns (r: seq<FileMeta>)
    requires NewestFirst(sorted) && f.number !in Numbers(sorted)
    ensures NewestFirst(r) && exists i :: 0 <= i <= |sorted| && r == sorted[..i] + [f] + sorted[i..]
  {
    var i := 0;
    while i < |sorted| && sorted[i].number > f.number
      invariant i <= |sorted| && forall j :: 0 <= j < i ==> sorted[j].number > f.number
    {
      i := i + 1;
    }
    if i < |sorted| {
      assert sorted[i] in sorted;
    }
    r := sorted[..i] + [f] + sorted[i..];
    InsertedInOrder(sorted, f, i);
  }

  /** The level-0 files whose range has the key, newest first. */
  method FilesToSearch(cmp: Comparator, files: seq<FileMeta>, k: UserKey) returns (tmp: seq<FileMeta>)
    requires NoRepeats(files)
    ensures NewestFirst(tmp) && forall f :: f in tmp <==> f in files && InFileRange(cmp, f, k)
  {
    tmp := [];
    for i := 0 to |files|
      invariant NewestFirst(tmp) && forall f :: f in tmp <==> f in files[..i] && InFileRange(cmp, f, k)
    {
      if cmp(k, files[i].smallest.key) >= 0 && cmp(k, files[i].largest.key) <= 0 {
        assert files[i].number !in Numbers(tmp);
        ghost var before := tmp;
        tmp := Insert(tmp, files[i]);
        ghost var at :| 0 <= at <= |before| && tmp == before[..at] + [files[i]] + before[at..];
        InsertedHas(before, files[i], at);
      }
    }
    assert files[..|files|] == files;
  }

  /** Nothing of the key in level 0. */
  ghost predicate NotInLevel0(v: Version, tables: Tables, s: nat, k: UserKey) {
    forall f :: InLevel(v, 0, f) ==> !Has(EntriesOf(tables, f), s, k)
  }

  method SearchLevel0(cmp: Comparator, files: seq<seq<FileMeta>>, stored: Stored, k: UserKey, s: nat) returns (state: SaverState)
    requires TotalOrder(cmp) && |files| > 1 && Lists(cmp, VersionOf(files), TablesOf(stored), files) && AllStored(cmp, files, stored)
    ensures Hit(state) <==> !NotInLevel0(VersionOf(files), TablesOf(stored), s, k)
    ensures Hit(state) ==> AnswerOf(state) == LayeredGet(VersionLayers(VersionOf(files), TablesOf(stored)), s, k)
  {
    hide TotalOrder, Lists, Lookup, VersionLayers;
    ghost var v, tables := VersionOf(files), TablesOf(stored);
    ListsLevel(cmp, v, tables, files, 0);
    var tmp := FilesToSearch(cmp, files[0], k);
    var i := 0;
    while i < |tmp|
      invariant i <= |tmp|
      invariant forall j :: 0 <= j < i ==> !Has(EntriesOf(tables, tmp[j].number), s, k)
    {
      assert tmp[i] in files[0];
      state := TableGet(cmp, stored[tmp[i].number], k, s);
      if !state.NotFound? {
        assert InLevel(v, 0, tmp[i].number);
        NewestFileDecides(cmp, files, v, tables, tmp, i, s, k);
        return;
      }
      i := i + 1;
    }
    state := NotFound;
    forall n | InLevel(v, 0, n) ensures !Has(EntriesOf(tables, n), s, k) {
      var f := MetaOf(files[0], n);
      if Has(EntriesOf(tables, n), s, k) {
        OutsideRange(cmp, tables, f, s, k);
      }
    }
  }

  lemma NewerStandsBefore(tmp: seq<FileMeta>, f: FileMeta, i: nat)
    requires NewestFirst(tmp) && f in tmp && i < |tmp| && f.number > tmp[i].number
    ensures exists j :: 0 <= j < i && tmp[j] == f
  {
    var j :| 0 <= j < |tmp| && tmp[j] == f;
  }

  lemma NewestFileDecides(cmp: Comparator, files: seq<seq<FileMeta>>, v: Version, tables: Tables, tmp: seq<FileMeta>, i: nat, s: nat, k: UserKey)
    requires TotalOrder(cmp) && |files| > 1 && Lists(cmp, v, tables, files)
    requires NewestFirst(tmp) && (forall f :: f in tmp <==> f in files[0] && InFileRange(cmp, f, k))
    requires i < |tmp| && Has(EntriesOf(tables, tmp[i].number), s, k)
    requires forall j :: 0 <= j < i ==> !Has(EntriesOf(tables, tmp[j].number), s, k)
    ensures LayeredGet(VersionLayers(v, tables), s, k) == Lookup(EntriesOf(tables, tmp[i].number), s, k)
  {
    hide TotalOrder, Lists, Lookup, VersionLayers, LayeredGet;
    ListsLevel(cmp, v, tables, files, 0);
    VersionLayersAt(v, tables);
    DescendingIs(v.levels[0]);
    var l0, layers := Descending(v.levels[0]), VersionLayers(v, tables);
    assert tmp[i] in tmp;
    assert tmp[i].number in l0;
    var p :| 0 <= p < |l0| && l0[p] == tmp[i].number;
    forall q | 0 <= q < p ensures !Has(layers[q], s, k) {
      assert l0[q] in l0 && l0[q] > l0[p];
      var f := MetaOf(files[0], l0[q]);
      if Has(EntriesOf(tables, l0[q]), s, k) {
        OutsideRange(cmp, tables, f, s, k);
        NewerStandsBefore(tmp, f, i);
        assert false;
      }
    }
    FirstHit(layers, s, k, p);
  }

  // ---- All levels ----------------------------------------------------------

  /** The read finds what a search through the level-0 files and the whole further levels finds. */
  method Get(cmp: Comparator, files: seq<seq<FileMeta>>, stored: Stored, k: UserKey, s: nat) returns (r: Option<seq<Byte>>)
    requires TotalOrder(cmp) && Lists(cmp, VersionOf(files), TablesOf(stored), files) && LevelsApart(cmp, VersionOf(files), TablesOf(stored))
    requires Distinct(Contents(Files(VersionOf(files)), TablesOf(stored))) && AllStored(cmp, files, stored) && |files| == NUM_LEVELS
    ensures r == LayeredGet(VersionLayers(VersionOf(files), TablesOf(stored)), s, k)
  {
    hide TotalOrder, Lists, LevelsApart, Distinct, AllStored, Lookup, VersionLayers, LayeredGet;
    ghost var v, tables := VersionOf(files), TablesOf(stored);
    ghost var l0, layers := Descending(v.levels[0]), VersionLayers(v, tables);
    var state := SearchLevel0(cmp, files, stored, k, s);
    if !state.NotFound? {
      return AnswerOf(state);
    }
    VersionLayersAt(v, tables);
    DescendingIs(v.levels[0]);
    forall j | 0 <= j < |l0| ensures !Has(layers[j], s, k) {
      assert l0[j] in l0;
      assert InLevel(v, 0, l0[j]);
    }
    for level := 1 to NUM_LEVELS
      invariant forall j :: 0 <= j < |l0| + level - 1 ==> !Has(layers[j], s, k)
    {
      state := SearchLevel(cmp, files, stored, level, k, s);
      assert layers[|l0| + level - 1] == Contents(v.levels[level], tables);
      if !state.NotFound? {
        FirstHit(layers, s, k, |l0| + level - 1);
        return AnswerOf(state);
      }
    }
    NoHit(layers, s, k);
    return None;
  }
}
