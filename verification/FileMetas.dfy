/** The file metadata a version is made of (db/version_edit.h, FileMetaData): per level a list of files
    with the entries at the two ends of each. */
module FileMetas {
  import opened DbFormat
  import opened Entries
  import opened Versions
  import opened Picks

  /** Only user key and sequence number of the two ends matter: they are internal keys. */
  datatype FileMeta = FileMeta(number: nat, size: nat, smallest: Entry, largest: Entry)

  function Numbers(files: seq<FileMeta>): set<nat> {
    set f | f in files :: f.number
  }

  function VersionOf(files: seq<seq<FileMeta>>): Version {
    Version(seq(|files|, i requires 0 <= i < |files| => Numbers(files[i])))
  }

  /** The metadata tells the ends of the table. */
  ghost predicate Describes(cmp: Comparator, tables: Tables, f: FileMeta) {
    IsFirst(cmp, EntriesOf(tables, f.number), f.smallest) && IsLast(cmp, EntriesOf(tables, f.number), f.largest)
  }

  ghost predicate AllDescribed(cmp: Comparator, tables: Tables, files: seq<FileMeta>) {
    forall i :: 0 <= i < |files| ==> Describes(cmp, tables, files[i])
  }

  ghost predicate NoRepeats(files: seq<FileMeta>) {
    forall i, j :: 0 <= i < j < |files| ==> files[i].number != files[j].number
  }

  /** From level 1 down files are sorted by their smallest keys (version_set.cc, BySmallestKey). */
  ghost predicate SortedBySmallest(cmp: Comparator, files: seq<FileMeta>) {
    forall i, j :: 0 <= i < j < |files| ==> !EntryBefore(cmp, files[j].smallest, files[i].smallest)
  }

  /** The lists of metadata that stand for the version. */
  ghost predicate Lists(cmp: Comparator, v: Version, tables: Tables, files: seq<seq<FileMeta>>) {
    && v == VersionOf(files)
    && (forall l :: 0 <= l < |files| ==> AllDescribed(cmp, tables, files[l]) && NoRepeats(files[l]))
    && (forall l :: 1 <= l < |files| ==> SortedBySmallest(cmp, files[l]))
  }

  lemma MetaOf(files: seq<FileMeta>, n: nat) returns (f: FileMeta)
    requires n in Numbers(files)
    ensures f in files && f.number == n
  {
    f :| f in files && f.number == n;
  }

  lemma ListsLevel(cmp: Comparator, v: Version, tables: Tables, files: seq<seq<FileMeta>>, l: nat)
    requires Lists(cmp, v, tables, files) && l < |files|
    ensures |v.levels| == |files| && v.levels[l] == Numbers(files[l])
    ensures AllDescribed(cmp, tables, files[l]) && NoRepeats(files[l]) && (l > 0 ==> SortedBySmallest(cmp, files[l]))
    ensures forall f :: f in files[l] ==> InLevel(v, l, f.number) && Describes(cmp, tables, f)
  {
    forall f | f in files[l] ensures InLevel(v, l, f.number) && Describes(cmp, tables, f) {
      var i :| 0 <= i < |files[l]| && files[l][i] == f;
      assert Describes(cmp, tables, files[l][i]);
      assert f.number in Numbers(files[l]);
    }
  }

  // ---- Ends and ranges -----------------------------------------------------

  lemma EndsInOrder(cmp: Comparator, tables: Tables, f: FileMeta)
    requires TotalOrder(cmp) && Describes(cmp, tables, f)
    ensures cmp(f.smallest.key, f.largest.key) <= 0 && !EntryBefore(cmp, f.largest, f.smallest)
    ensures EntriesOf(tables, f.number) != {}
  {
    if EntryBefore(cmp, f.largest, f.smallest) {
      NotBeforeItself(cmp, f.smallest);
      assert f.largest != f.smallest;
      BeforeTransitive(cmp, f.largest, f.smallest, f.largest);
      NotBeforeItself(cmp, f.largest);
      assert false;
    }
    BeforeOrdersKeys(cmp, f.smallest, f.largest);
  }

  /** User-key ranges do not overlap exactly when one ends before the other begins. */
  lemma ApartByEnds(cmp: Comparator, a: set<Entry>, first: Entry, last: Entry, b: set<Entry>, first2: Entry, last2: Entry)
    requires TotalOrder(cmp) && IsFirst(cmp, a, first) && IsLast(cmp, a, last) && IsFirst(cmp, b, first2) && IsLast(cmp, b, last2)
    ensures KeysBefore(cmp, a, b) <==> cmp(last.key, first2.key) < 0
    ensures KeysBefore(cmp, b, a) <==> cmp(last2.key, first.key) < 0
    ensures KeysApart(cmp, a, b) <==> cmp(last.key, first2.key) < 0 || cmp(last2.key, first.key) < 0
  {
    EndsBefore(cmp, a, last, b, first2);
    EndsBefore(cmp, b, last2, a, first);
  }

  lemma EndsBefore(cmp: Comparator, a: set<Entry>, last: Entry, b: set<Entry>, first: Entry)
    requires TotalOrder(cmp) && IsLast(cmp, a, last) && IsFirst(cmp, b, first)
    ensures KeysBefore(cmp, a, b) <==> cmp(last.key, first.key) < 0
  {
    hide TotalOrder;
    if cmp(last.key, first.key) < 0 {
      forall e, x | e in a && x in b ensures cmp(e.key, x.key) < 0 {
        BeforeOrdersKeys(cmp, e, last);
        BeforeOrdersKeys(cmp, first, x);
        Between(cmp, e.key, last.key, first.key, x.key);
      }
    }
  }

  lemma Between(cmp: Comparator, a: UserKey, b: UserKey, c: UserKey, d: UserKey)
    requires TotalOrder(cmp) && cmp(a, b) <= 0 && cmp(b, c) < 0 && cmp(c, d) <= 0
    ensures cmp(a, d) < 0
  {
    assert a == b || cmp(a, b) < 0;
    assert c == d || cmp(c, d) < 0;
  }
}
