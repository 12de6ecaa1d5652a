/** Picking the inputs of a compaction (db/version_set.cc, VersionSet::PickCompaction and what it calls). */
module Picking {
  import opened Common
  import opened DbFormat
  import opened Entries
  import opened Versions
  import opened VersionEdits
  import opened Picks
  import opened FileMetas

  /** Options::max_file_size at its default, and what may be compacted at once. */
  const MAX_FILE_SIZE: nat := 2 * 1024 * 1024
  const EXPANDED_COMPACTION_BYTE_SIZE_LIMIT: nat := 25 * MAX_FILE_SIZE

  // ---- Ranges --------------------------------------------------------------

  ghost predicate FirstOfFiles(cmp: Comparator, files: seq<FileMeta>, e: Entry) {
    && (exists i :: 0 <= i < |files| && files[i].smallest == e)
    && (forall i :: 0 <= i < |files| ==> !EntryBefore(cmp, files[i].smallest, e))
  }

  ghost predicate LastOfFiles(cmp: Comparator, files: seq<FileMeta>, e: Entry) {
    && (exists i :: 0 <= i < |files| && files[i].largest == e)
    && (forall i :: 0 <= i < |files| ==> !EntryBefore(cmp, e, files[i].largest))
  }

  lemma NotBeforeTransitive(cmp: Comparator, a: Entry, b: Entry, c: Entry)
    requires TotalOrder(cmp) && EntryBefore(cmp, a, b) && !EntryBefore(cmp, c, b)
    ensures !EntryBefore(cmp, c, a)
  {
    if EntryBefore(cmp, c, a) {
      BeforeTransitive(cmp, c, a, b);
    }
  }

  method GetRange(cmp: Comparator, inputs: seq<FileMeta>) returns (smallest: Entry, largest: Entry)
    requires TotalOrder(cmp) && inputs != []
    ensures FirstOfFiles(cmp, inputs, smallest) && LastOfFiles(cmp, inputs, largest)
  {
    hide TotalOrder;
    smallest, largest := inputs[0].smallest, inputs[0].largest;
    NotBeforeItself(cmp, smallest);
    NotBeforeItself(cmp, largest);
    for i := 1 to |inputs|
      invariant exists j :: 0 <= j < i && inputs[j].smallest == smallest
      invariant exists j :: 0 <= j < i && inputs[j].largest == largest
      invariant forall j :: 0 <= j < i ==> !EntryBefore(cmp, inputs[j].smallest, smallest)
      invariant forall j :: 0 <= j < i ==> !EntryBefore(cmp, largest, inputs[j].largest)
    {
      var f := inputs[i];
      NotBeforeItself(cmp, f.smallest);
      NotBeforeItself(cmp, f.largest);
      if EntryBefore(cmp, f.smallest, smallest) {
        forall j | 0 <= j < i ensures !EntryBefore(cmp, inputs[j].smallest, f.smallest) {
          NotBeforeTransitive(cmp, f.smallest, smallest, inputs[j].smallest);
        }
        smallest := f.smallest;
      }
      if EntryBefore(cmp, largest, f.largest) {
        forall j | 0 <= j < i ensures !EntryBefore(cmp, f.largest, inputs[j].largest) {
          BeforeUnless(cmp, largest, f.largest, inputs[j].largest);
        }
        largest := f.largest;
      }
    }
  }

  lemma BeforeUnless(cmp: Comparator, a: Entry, b: Entry, c: Entry)
    requires TotalOrder(cmp) && EntryBefore(cmp, a, b) && !EntryBefore(cmp, a, c)
    ensures !EntryBefore(cmp, b, c)
  {
    if EntryBefore(cmp, b, c) {
      BeforeTransitive(cmp, a, b, c);
    }
  }

  /** The range of some files is the range of what is in them. */
  lemma RangeOfContents(cmp: Comparator, tables: Tables, files: seq<FileMeta>, smallest: Entry, largest: Entry)
    requires TotalOrder(cmp) && AllDescribed(cmp, tables, files) && Distinct(Contents(Numbers(files), tables))
    requires FirstOfFiles(cmp, files, smallest) && LastOfFiles(cmp, files, largest)
    ensures IsFirst(cmp, Contents(Numbers(files), tables), smallest) && IsLast(cmp, Contents(Numbers(files), tables), largest)
  {
    hide TotalOrder, Distinct, EntryBefore, AllDescribed, Contents, Numbers;
    var c := Contents(Numbers(files), tables);
    EndsAreIn(cmp, tables, files);
    EndOfContents(cmp, tables, files, largest);
    forall x | x in c ensures x == smallest || EntryBefore(cmp, smallest, x) {
      var i := FileOfEntry(cmp, tables, files, x);
      FirstOrBehind(cmp, c, smallest, files[i].smallest, x);
    }
  }

  lemma EndsAreIn(cmp: Comparator, tables: Tables, files: seq<FileMeta>)
    requires AllDescribed(cmp, tables, files)
    ensures forall i :: 0 <= i < |files| ==> files[i].smallest in Contents(Numbers(files), tables) && files[i].largest in Contents(Numbers(files), tables)
  {
    forall i | 0 <= i < |files| ensures files[i].smallest in Contents(Numbers(files), tables) && files[i].largest in Contents(Numbers(files), tables) {
      assert files[i].number in Numbers(files);
    }
  }

  lemma FileOfEntry(cmp: Comparator, tables: Tables, files: seq<FileMeta>, x: Entry) returns (i: nat)
    requires AllDescribed(cmp, tables, files) && x in Contents(Numbers(files), tables)
    ensures i < |files| && x in EntriesOf(tables, files[i].number)
    ensures x == files[i].smallest || EntryBefore(cmp, files[i].smallest, x)
    ensures x == files[i].largest || EntryBefore(cmp, x, files[i].largest)
  {
    hide EntryBefore;
    var n :| n in Numbers(files) && x in EntriesOf(tables, n);
    var f := MetaOf(files, n);
    i :| 0 <= i < |files| && files[i] == f;
    assert Describes(cmp, tables, files[i]);
  }

  lemma FirstOrBehind(cmp: Comparator, c: set<Entry>, a: Entry, b: Entry, x: Entry)
    requires TotalOrder(cmp) && Distinct(c) && a in c && b in c && !EntryBefore(cmp, b, a) && (x == b || EntryBefore(cmp, b, x))
    ensures x == a || EntryBefore(cmp, a, x)
  {
    hide TotalOrder;
    if a != b {
      OneIsFirst(cmp, a, b);
      if x != b { BeforeTransitive(cmp, a, b, x); }
    }
  }

  lemma LastOrBefore(cmp: Comparator, c: set<Entry>, a: Entry, b: Entry, x: Entry)
    requires TotalOrder(cmp) && Distinct(c) && a in c && b in c && !EntryBefore(cmp, a, b) && (x == b || EntryBefore(cmp, x, b))
    ensures x == a || EntryBefore(cmp, x, a)
  {
    hide TotalOrder;
    if a != b {
      OneIsFirst(cmp, a, b);
      if x != b { BeforeTransitive(cmp, x, b, a); }
    }
  }

  // ---- Overlapping files ---------------------------------------------------

  /** The file's user keys reach into [begin, end]; None is open. */
  predicate Meets(cmp: Comparator, f: FileMeta, begin: Option<UserKey>, end: Option<UserKey>) {
    && (begin.None? || cmp(f.largest.key, begin.value) >= 0)
    && (end.None? || cmp(f.smallest.key, end.value) <= 0)
  }

  predicate Within(cmp: Comparator, f: FileMeta, begin: Option<UserKey>, end: Option<UserKey>) {
    && (begin.None? || cmp(f.smallest.key, begin.value) >= 0)
    && (end.None? || cmp(f.largest.key, end.value) <= 0)
  }

  function Meeting(cmp: Comparator, files: seq<FileMeta>, begin: Option<UserKey>, end: Option<UserKey>): seq<FileMeta> {
    if files == [] then []
    else
      var rest := Meeting(cmp, files[..|files| - 1], begin, end);
      var f := files[|files| - 1];
      if Meets(cmp, f, begin, end) then rest + [f] else rest
  }

  lemma {:induction false} MeetingHas(cmp: Comparator, files: seq<FileMeta>, begin: Option<UserKey>, end: Option<UserKey>)
    ensures forall f :: f in Meeting(cmp, files, begin, end) <==> f in files && Meets(cmp, f, begin, end)
  {
    if files != [] {
      MeetingHas(cmp, files[..|files| - 1], begin, end);
      assert files == files[..|files| - 1] + [files[|files| - 1]];
    }
  }

  /** [x, y] does not reach into [begin, end]. */
  predicate Clear(cmp: Comparator, x: UserKey, y: UserKey, begin: Option<UserKey>, end: Option<UserKey>) {
    (begin.Some? && cmp(y, begin.value) < 0) || (end.Some? && cmp(end.value, x) < 0)
  }

  /** lo and hi are reached from begin and end through the files, without a gap. */
  ghost predicate Reached(cmp: Comparator, files: seq<FileMeta>, begin: Option<UserKey>, end: Option<UserKey>, lo: Option<UserKey>, hi: Option<UserKey>) {
    && begin.None? == lo.None? && end.None? == hi.None?
    && (begin.Some? ==> cmp(lo.value, begin.value) <= 0) && (end.Some? ==> cmp(end.value, hi.value) <= 0)
    && forall x, y :: cmp(x, y) <= 0 && Clear(cmp, x, y, begin, end)
                      && (forall f :: f in files ==> Clear(cmp, x, y, Some(f.smallest.key), Some(f.largest.key)))
                      ==> Clear(cmp, x, y, lo, hi)
  }

  /** What GetOverlappingInputs gathers: at level 0 the files of the range that all of them together span. */
  ghost predicate Gathered(cmp: Comparator, files: seq<FileMeta>, level: nat, begin: Option<UserKey>, end: Option<UserKey>,
                           inputs: seq<FileMeta>, lo: Option<UserKey>, hi: Option<UserKey>) {
    && inputs == Meeting(cmp, files, lo, hi)
    && (level == 0 ==> forall f :: f in inputs ==> Within(cmp, f, lo, hi))
    && (level > 0 ==> lo == begin && hi == end)
    && Reached(cmp, inputs, begin, end, lo, hi)
  }

  ghost function StartBefore(cmp: Comparator, files: seq<FileMeta>, lo: Option<UserKey>): set<nat> {
    set k: nat | k < |files| && lo.Some? && cmp(files[k].smallest.key, lo.value) < 0
  }

  ghost function EndBehind(cmp: Comparator, files: seq<FileMeta>, hi: Option<UserKey>): set<nat> {
    set k: nat | k < |files| && hi.Some? && cmp(files[k].largest.key, hi.value) > 0
  }

  lemma SmallerSet(a: set<nat>, b: set<nat>, x: nat)
    requires a <= b && x in b && x !in a
    ensures |a| < |b|
  {
    assert a <= b - {x};
    CardinalityOf(a, b - {x});
  }

  lemma {:induction false} CardinalityOf(a: set<nat>, b: set<nat>)
    requires a <= b
    ensures |a| <= |b|
  {
    if a != {} {
      var x :| x in a;
      CardinalityOf(a - {x}, b - {x});
    }
  }

  lemma FewerStart(cmp: Comparator, files: seq<FileMeta>, lo: UserKey, i: nat)
    requires TotalOrder(cmp) && i < |files| && cmp(files[i].smallest.key, lo) < 0
    ensures |StartBefore(cmp, files, Some(files[i].smallest.key))| < |StartBefore(cmp, files, Some(lo))|
  {
    assert cmp(files[i].smallest.key, files[i].smallest.key) == 0;
    SmallerSet(StartBefore(cmp, files, Some(files[i].smallest.key)), StartBefore(cmp, files, Some(lo)), i);
  }

  lemma FewerEnd(cmp: Comparator, files: seq<FileMeta>, hi: UserKey, i: nat)
    requires TotalOrder(cmp) && i < |files| && cmp(files[i].largest.key, hi) > 0
    ensures |EndBehind(cmp, files, Some(files[i].largest.key))| < |EndBehind(cmp, files, Some(hi))|
  {
    assert cmp(files[i].largest.key, files[i].largest.key) == 0;
    SmallerSet(EndBehind(cmp, files, Some(files[i].largest.key)), EndBehind(cmp, files, Some(hi)), i);
  }

  lemma MeetingNext(cmp: Comparator, files: seq<FileMeta>, begin: Option<UserKey>, end: Option<UserKey>, i: nat)
    requires i < |files|
    ensures Meeting(cmp, files[..i + 1], begin, end)
            == Meeting(cmp, files[..i], begin, end) + if Meets(cmp, files[i], begin, end) then [files[i]] else []
  {
    assert files[..i + 1][..i] == files[..i];
  }

  /** Widening the range by a file that meets it. */
  lemma ReachedFurther(cmp: Comparator, seen: seq<FileMeta>, begin: Option<UserKey>, end: Option<UserKey>,
                       lo: Option<UserKey>, hi: Option<UserKey>, f: FileMeta, lo2: Option<UserKey>, hi2: Option<UserKey>)
    requires TotalOrder(cmp) && Reached(cmp, seen, begin, end, lo, hi) && Meets(cmp, f, lo, hi) && cmp(f.smallest.key, f.largest.key) <= 0
    requires (lo2 == lo || (lo.Some? && lo2 == Some(f.smallest.key) && cmp(f.smallest.key, lo.value) < 0))
    requires (hi2 == hi || (hi.Some? && hi2 == Some(f.largest.key) && cmp(f.largest.key, hi.value) > 0))
    ensures Reached(cmp, seen + [f], begin, end, lo2, hi2)
  {
    forall x, y | cmp(x, y) <= 0 && Clear(cmp, x, y, begin, end)
                  && (forall g :: g in seen + [f] ==> Clear(cmp, x, y, Some(g.smallest.key), Some(g.largest.key)))
      ensures Clear(cmp, x, y, lo2, hi2)
    {
      assert f in seen + [f];
      assert forall g :: g in seen ==> g in seen + [f];
      ClearFurther(cmp, x, y, lo, hi, f, lo2, hi2);
    }
  }

  lemma ClearFurther(cmp: Comparator, x: UserKey, y: UserKey, lo: Option<UserKey>, hi: Option<UserKey>, f: FileMeta, lo2: Option<UserKey>, hi2: Option<UserKey>)
    requires TotalOrder(cmp) && cmp(x, y) <= 0 && Clear(cmp, x, y, lo, hi) && Meets(cmp, f, lo, hi)
    requires Clear(cmp, x, y, Some(f.smallest.key), Some(f.largest.key)) && cmp(f.smallest.key, f.largest.key) <= 0
    requires (lo2 == lo || (lo.Some? && lo2 == Some(f.smallest.key) && cmp(f.smallest.key, lo.value) < 0))
    requires (hi2 == hi || (hi.Some? && hi2 == Some(f.largest.key) && cmp(f.largest.key, hi.value) > 0))
    ensures Clear(cmp, x, y, lo2, hi2)
  {
    if lo.Some? && cmp(f.largest.key, x) < 0 {
      Between(cmp, lo.value, f.largest.key, x, y);
    }
    if hi.Some? && cmp(y, f.smallest.key) < 0 {
      Between(cmp, x, y, f.smallest.key, hi.value);
    }
  }

  lemma StillMeets(cmp: Comparator, f: FileMeta, lo: Option<UserKey>, hi: Option<UserKey>, lo2: Option<UserKey>, hi2: Option<UserKey>)
    requires TotalOrder(cmp) && Meets(cmp, f, lo, hi) && (lo == lo2 || (lo.Some? && lo2.Some? && cmp(lo2.value, lo.value) <= 0))
    requires hi == hi2 || (hi.Some? && hi2.Some? && cmp(hi.value, hi2.value) <= 0)
    ensures Meets(cmp, f, lo2, hi2)
  {
  }

  lemma ReachedBySome(cmp: Comparator, seen: seq<FileMeta>, files: seq<FileMeta>, begin: Option<UserKey>, end: Option<UserKey>,
                      lo: Option<UserKey>, hi: Option<UserKey>)
    requires Reached(cmp, seen, begin, end, lo, hi) && forall f :: f in seen ==> f in files
    ensures Reached(cmp, files, begin, end, lo, hi)
  {
  }

  ghost predicate InOrder(cmp: Comparator, files: seq<FileMeta>) {
    forall i :: 0 <= i < |files| ==> cmp(files[i].smallest.key, files[i].largest.key) <= 0
  }

  /** One restart of the search with a wider range. */
  lemma Restart(cmp: Comparator, files: seq<FileMeta>, i: nat, seen: seq<FileMeta>, begin: Option<UserKey>, end: Option<UserKey>,
                lo: Option<UserKey>, hi: Option<UserKey>, lo2: Option<UserKey>, hi2: Option<UserKey>)
    requires TotalOrder(cmp) && InOrder(cmp, files) && i < |files| && Meets(cmp, files[i], lo, hi)
    requires Reached(cmp, seen, begin, end, lo, hi) && forall f :: f in seen ==> f in files && Meets(cmp, f, lo, hi)
    requires || (lo.Some? && lo2 == Some(files[i].smallest.key) && cmp(files[i].smallest.key, lo.value) < 0 && hi2 == hi)
             || (hi.Some? && hi2 == Some(files[i].largest.key) && cmp(files[i].largest.key, hi.value) > 0 && lo2 == lo)
    ensures Reached(cmp, seen + [files[i]], begin, end, lo2, hi2)
    ensures forall f :: f in seen + [files[i]] ==> f in files && Meets(cmp, f, lo2, hi2)
    ensures |StartBefore(cmp, files, lo2)| + |EndBehind(cmp, files, hi2)| < |StartBefore(cmp, files, lo)| + |EndBehind(cmp, files, hi)|
  {
    hide StartBefore, EndBehind, Reached, Meets;
    ReachedFurther(cmp, seen, begin, end, lo, hi, files[i], lo2, hi2);
    forall f | f in seen + [files[i]] ensures f in files && Meets(cmp, f, lo2, hi2) {
      StillMeets(cmp, f, lo, hi, lo2, hi2);
    }
    if lo2 != lo {
      FewerStart(cmp, files, lo.value, i);
    } else {
      FewerEnd(cmp, files, hi.value, i);
    }
  }

  method GetOverlappingInputs(cmp: Comparator, files: seq<FileMeta>, level: nat, begin: Option<UserKey>, end: Option<UserKey>)
    returns (inputs: seq<FileMeta>)
    requires TotalOrder(cmp) && InOrder(cmp, files)
    ensures exists lo, hi :: Gathered(cmp, files, level, begin, end, inputs, lo, hi)
  {
    hide TotalOrder, StartBefore, EndBehind, Reached, InOrder, Meeting;
    var userBegin, userEnd := begin, end;
    ghost var seen: seq<FileMeta> := [];
    FromTheStart(cmp, files, begin, end);
    inputs := [];
    var i := 0;
    while i < |files|
      invariant i <= |files| && inputs == Meeting(cmp, files[..i], userBegin, userEnd)
      invariant Reached(cmp, seen, begin, end, userBegin, userEnd)
      invariant forall f :: f in seen ==> f in files && Meets(cmp, f, userBegin, userEnd)
      invariant if level == 0 then forall f :: f in inputs ==> Within(cmp, f, userBegin, userEnd) else userBegin == begin && userEnd == end
      decreases |StartBefore(cmp, files, userBegin)| + |EndBehind(cmp, files, userEnd)|, |files| - i
    {
      var f := files[i];
      MeetingNext(cmp, files, userBegin, userEnd, i);
      i := i + 1;
      if userBegin.Some? && cmp(f.largest.key, userBegin.value) < 0 {
      } else if userEnd.Some? && cmp(f.smallest.key, userEnd.value) > 0 {
      } else {
        inputs := inputs + [f];
        if level == 0 {
          if userBegin.Some? && cmp(f.smallest.key, userBegin.value) < 0 {
            Restart(cmp, files, i - 1, seen, begin, end, userBegin, userEnd, Some(f.smallest.key), userEnd);
            userBegin := Some(f.smallest.key);
            seen := seen + [f];
            inputs := [];
            i := 0;
            FromTheStart(cmp, files, userBegin, userEnd);
          } else if userEnd.Some? && cmp(f.largest.key, userEnd.value) > 0 {
            Restart(cmp, files, i - 1, seen, begin, end, userBegin, userEnd, userBegin, Some(f.largest.key));
            userEnd := Some(f.largest.key);
            seen := seen + [f];
            inputs := [];
            i := 0;
            FromTheStart(cmp, files, userBegin, userEnd);
          }
        }
      }
    }
    assert files[..i] == files;
    MeetingHas(cmp, files, userBegin, userEnd);
    ReachedBySome(cmp, seen, inputs, begin, end, userBegin, userEnd);
    assert Gathered(cmp, files, level, begin, end, inputs, userBegin, userEnd);
  }

  lemma FromTheStart(cmp: Comparator, files: seq<FileMeta>, begin: Option<UserKey>, end: Option<UserKey>)
    requires TotalOrder(cmp)
    ensures Meeting(cmp, files[..0], begin, end) == [] && Reached(cmp, [], begin, end, begin, end)
  {
    assert begin.Some? ==> cmp(begin.value, begin.value) == 0;
    assert end.Some? ==> cmp(end.value, end.value) == 0;
  }

  // ---- Boundary files ------------------------------------------------------

  method FindLargestKey(cmp: Comparator, files: seq<FileMeta>) returns (largestKey: Option<Entry>)
    requires TotalOrder(cmp)
    ensures largestKey.None? <==> files == []
    ensures largestKey.Some? ==> LastOfFiles(cmp, files, largestKey.value)
  {
    hide TotalOrder;
    if files == [] {
      return None;
    }
    var largest := files[0].largest;
    NotBeforeItself(cmp, largest);
    for i := 1 to |files|
      invariant exists j :: 0 <= j < i && files[j].largest == largest
      invariant forall j :: 0 <= j < i ==> !EntryBefore(cmp, largest, files[j].largest)
    {
      var f := files[i];
      NotBeforeItself(cmp, f.largest);
      if EntryBefore(cmp, largest, f.largest) {
        forall j | 0 <= j < i ensures !EntryBefore(cmp, f.largest, files[j].largest) {
          BeforeUnless(cmp, largest, f.largest, files[j].largest);
        }
        largest := f.largest;
      }
    }
    return Some(largest);
  }

  /** The file begins behind the key, with the same user key. */
  predicate Boundary(cmp: Comparator, f: FileMeta, key: Entry) {
    EntryBefore(cmp, key, f.smallest) && cmp(f.smallest.key, key.key) == 0
  }

  ghost predicate SmallestBoundary(cmp: Comparator, files: seq<FileMeta>, key: Entry, f: FileMeta) {
    f in files && Boundary(cmp, f, key) && forall g :: g in files && Boundary(cmp, g, key) ==> !EntryBefore(cmp, g.smallest, f.smallest)
  }

  ghost predicate NoBoundary(cmp: Comparator, files: seq<FileMeta>, key: Entry) {
    forall f :: f in files ==> !Boundary(cmp, f, key)
  }

  method FindSmallestBoundaryFile(cmp: Comparator, levelFiles: seq<FileMeta>, largestKey: Entry) returns (smallest: Option<FileMeta>)
    requires TotalOrder(cmp)
    ensures match smallest case None => NoBoundary(cmp, levelFiles, largestKey) case Some(f) => SmallestBoundary(cmp, levelFiles, largestKey, f)
  {
    hide TotalOrder, Boundary;
    smallest := None;
    for i := 0 to |levelFiles|
      invariant match smallest
                case None => NoBoundary(cmp, levelFiles[..i], largestKey)
                case Some(f) => SmallestBoundary(cmp, levelFiles[..i], largestKey, f)
    {
      var f := levelFiles[i];
      assert levelFiles[..i + 1] == levelFiles[..i] + [f];
      IsBoundary(cmp, f, largestKey);
      NotBeforeItself(cmp, f.smallest);
      if EntryBefore(cmp, largestKey, f.smallest) && cmp(f.smallest.key, largestKey.key) == 0 {
        if smallest.None? || EntryBefore(cmp, f.smallest, smallest.value.smallest) {
          if smallest.Some? {
            forall g | g in levelFiles[..i] && Boundary(cmp, g, largestKey) ensures !EntryBefore(cmp, g.smallest, f.smallest) {
              NotBeforeTransitive(cmp, f.smallest, smallest.value.smallest, g.smallest);
            }
          }
          smallest := Some(f);
        }
      }
    }
    assert levelFiles[..|levelFiles|] == levelFiles;
  }

  lemma IsBoundary(cmp: Comparator, f: FileMeta, key: Entry)
    ensures Boundary(cmp, f, key) <==> EntryBefore(cmp, key, f.smallest) && cmp(f.smallest.key, key.key) == 0
  {
  }

  /** The upper bound with boundary files added. */
  function LastKey(key: Entry, added: seq<FileMeta>): Entry {
    if added == [] then key else added[|added| - 1].largest
  }

  /** Each added file is the smallest boundary file of the bound before it. */
  ghost predicate BoundaryChain(cmp: Comparator, levelFiles: seq<FileMeta>, key: Entry, added: seq<FileMeta>) {
    forall k :: 0 <= k < |added| ==> SmallestBoundary(cmp, levelFiles, LastKey(key, added[..k]), added[k])
  }

  ghost function FilesBehind(cmp: Comparator, files: seq<FileMeta>, key: Entry): set<nat> {
    set k: nat | k < |files| && EntryBefore(cmp, key, files[k].smallest)
  }

  lemma FewerBehind(cmp: Comparator, files: seq<FileMeta>, key: Entry, f: FileMeta)
    requires TotalOrder(cmp) && f in files && EntryBefore(cmp, key, f.smallest) && !EntryBefore(cmp, f.largest, f.smallest)
    ensures |FilesBehind(cmp, files, f.largest)| < |FilesBehind(cmp, files, key)|
  {
    hide TotalOrder;
    var i: nat :| i < |files| && files[i] == f;
    forall k | k in FilesBehind(cmp, files, f.largest) ensures k in FilesBehind(cmp, files, key) {
      if !EntryBefore(cmp, key, files[k].smallest) {
        SmallestBehind(cmp, key, f, files[k].smallest);
        assert false;
      }
    }
    SmallerSet(FilesBehind(cmp, files, f.largest), FilesBehind(cmp, files, key), i);
  }

  lemma SmallestBehind(cmp: Comparator, key: Entry, f: FileMeta, x: Entry)
    requires TotalOrder(cmp) && EntryBefore(cmp, key, f.smallest) && !EntryBefore(cmp, f.largest, f.smallest) && EntryBefore(cmp, f.largest, x)
    ensures EntryBefore(cmp, key, x)
  {
    if EntryBefore(cmp, f.smallest, x) {
      BeforeTransitive(cmp, key, f.smallest, x);
    } else if EntryBefore(cmp, x, f.smallest) {
      BeforeTransitive(cmp, f.largest, x, f.smallest);
      assert false;
    }
  }

  ghost predicate NoFileEndsEarly(cmp: Comparator, files: seq<FileMeta>) {
    forall f :: f in files ==> !EntryBefore(cmp, f.largest, f.smallest)
  }

  ghost predicate BoundariesAdded(cmp: Comparator, levelFiles: seq<FileMeta>, files: seq<FileMeta>, r: seq<FileMeta>, key: Entry, added: seq<FileMeta>) {
    && LastOfFiles(cmp, files, key) && r == files + added
    && BoundaryChain(cmp, levelFiles, key, added) && NoBoundary(cmp, levelFiles, LastKey(key, added))
  }

  method AddBoundaryInputs(cmp: Comparator, levelFiles: seq<FileMeta>, compactionFiles: seq<FileMeta>) returns (r: seq<FileMeta>)
    requires TotalOrder(cmp) && NoFileEndsEarly(cmp, levelFiles)
    ensures compactionFiles == [] ==> r == []
    ensures compactionFiles != [] ==> exists key, added :: BoundariesAdded(cmp, levelFiles, compactionFiles, r, key, added)
  {
    hide TotalOrder, LastOfFiles, FilesBehind, NoBoundary;
    r := compactionFiles;
    var largestKey := FindLargestKey(cmp, compactionFiles);
    if largestKey.None? {
      return;
    }
    ghost var key := largestKey.value;
    ghost var added: seq<FileMeta> := [];
    var last := largestKey.value;
    var continueSearching := true;
    while continueSearching
      invariant r == compactionFiles + added && last == LastKey(key, added) && BoundaryChain(cmp, levelFiles, key, added)
      invariant !continueSearching ==> NoBoundary(cmp, levelFiles, last)
      decreases continueSearching, |FilesBehind(cmp, levelFiles, last)|
    {
      var smallestBoundaryFile := FindSmallestBoundaryFile(cmp, levelFiles, last);
      if smallestBoundaryFile.Some? {
        var f := smallestBoundaryFile.value;
        FewerBehind(cmp, levelFiles, last, f);
        ChainNext(cmp, levelFiles, key, added, f);
        added := added + [f];
        r := r + [f];
        last := f.largest;
      } else {
        continueSearching := false;
      }
    }
    assert BoundariesAdded(cmp, levelFiles, compactionFiles, r, key, added);
  }

  lemma ChainNext(cmp: Comparator, levelFiles: seq<FileMeta>, key: Entry, added: seq<FileMeta>, f: FileMeta)
    requires BoundaryChain(cmp, levelFiles, key, added) && SmallestBoundary(cmp, levelFiles, LastKey(key, added), f)
    ensures BoundaryChain(cmp, levelFiles, key, added + [f])
  {
    hide SmallestBoundary;
    forall k | 0 <= k < |added| + 1 ensures SmallestBoundary(cmp, levelFiles, LastKey(key, (added + [f])[..k]), (added + [f])[k]) {
      assert (added + [f])[..k] == added[..k];
      assert k == |added| ==> added[..k] == added;
    }
  }

  // ---- The files of a range -----------------------------------------------

  lemma MeetsIsOverlaps(cmp: Comparator, tables: Tables, f: FileMeta, c: set<Entry>, first: Entry, last: Entry)
    requires TotalOrder(cmp) && Describes(cmp, tables, f) && IsFirst(cmp, c, first) && IsLast(cmp, c, last)
    ensures Meets(cmp, f, Some(first.key), Some(last.key)) <==> Overlaps(cmp, EntriesOf(tables, f.number), c)
  {
    hide IsFirst, IsLast, KeysBefore;
    ApartByEnds(cmp, EntriesOf(tables, f.number), f.smallest, f.largest, c, first, last);
  }

  /** Gathered by the range of c: exactly the files of the level that overlap it. */
  lemma GatheredByRange(cmp: Comparator, v: Version, tables: Tables, files: seq<seq<FileMeta>>, l: nat, c: set<Entry>, first: Entry, last: Entry)
    requires TotalOrder(cmp) && Lists(cmp, v, tables, files) && l < |files| && IsFirst(cmp, c, first) && IsLast(cmp, c, last)
    ensures forall g :: g in Numbers(Meeting(cmp, files[l], Some(first.key), Some(last.key))) <==> InLevel(v, l, g) && Overlaps(cmp, EntriesOf(tables, g), c)
  {
    hide TotalOrder, Lists, Meets, KeysApart, IsFirst, IsLast;
    var inputs := Meeting(cmp, files[l], Some(first.key), Some(last.key));
    ListsLevel(cmp, v, tables, files, l);
    MeetingHas(cmp, files[l], Some(first.key), Some(last.key));
    forall f | f in files[l] ensures f in inputs <==> Overlaps(cmp, EntriesOf(tables, f.number), c) {
      MeetsIsOverlaps(cmp, tables, f, c, first, last);
    }
    forall g | InLevel(v, l, g) && Overlaps(cmp, EntriesOf(tables, g), c) ensures g in Numbers(inputs) {
      var f := MetaOf(files[l], g);
    }
    forall g | g in Numbers(inputs) ensures InLevel(v, l, g) && Overlaps(cmp, EntriesOf(tables, g), c) {
      var f := MetaOf(inputs, g);
    }
  }

  /** What is not picked lies before or behind what is, or is a file like one that is picked. */
  ghost predicate Segment(cmp: Comparator, v: Version, tables: Tables, from: nat, in0: set<nat>) {
    forall g :: InLevel(v, from, g) && g !in in0 ==>
      || (exists m :: m in in0 && EntriesOf(tables, m) == EntriesOf(tables, g))
      || Apart(cmp, EntriesOf(tables, g), Contents(in0, tables))
  }

  lemma RangeIsSegment(cmp: Comparator, v: Version, tables: Tables, from: nat, c: set<Entry>, in0: set<nat>)
    requires TotalOrder(cmp) && LevelsApart(cmp, v, tables) && from > 0
    requires forall g :: g in in0 <==> InLevel(v, from, g) && Overlaps(cmp, EntriesOf(tables, g), c)
    ensures Segment(cmp, v, tables, from, in0)
  {
    hide TotalOrder, LevelsApart, AllBefore, KeysBefore;
    forall g | InLevel(v, from, g) && g !in in0 ensures Apart(cmp, EntriesOf(tables, g), Contents(in0, tables)) {
      FileNotEmpty(cmp, v, tables, from, g);
      var before := KeysBefore(cmp, EntriesOf(tables, g), c);
      forall f | f in in0
        ensures if before then AllBefore(cmp, EntriesOf(tables, g), EntriesOf(tables, f)) else AllBefore(cmp, EntriesOf(tables, f), EntriesOf(tables, g))
      {
        ApartInLevel(cmp, v, tables, from, f, g);
        SameSide(cmp, EntriesOf(tables, g), EntriesOf(tables, f), c);
      }
      ContentsBeside(cmp, tables, EntriesOf(tables, g), in0);
    }
  }

  lemma ApartInLevel(cmp: Comparator, v: Version, tables: Tables, i: nat, f: nat, g: nat)
    requires LevelsApart(cmp, v, tables) && i > 0 && InLevel(v, i, f) && InLevel(v, i, g) && EntriesOf(tables, f) != EntriesOf(tables, g)
    ensures Apart(cmp, EntriesOf(tables, g), EntriesOf(tables, f))
  {
    hide AllBefore;
  }

  lemma OneFileIsSegment(cmp: Comparator, v: Version, tables: Tables, from: nat, f: nat)
    requires LevelsApart(cmp, v, tables) && from > 0 && InLevel(v, from, f)
    ensures Segment(cmp, v, tables, from, {f})
  {
    hide AllBefore;
    SingleContents(f, tables);
  }

  // ---- No gaps -------------------------------------------------------------

  lemma OneFileIsSolid(cmp: Comparator, tables: Tables, f: nat)
    ensures Solid(cmp, tables, {f})
  {
    SingleContents(f, tables);
    assert f in {f};
  }

  /** Files that overlap what leaves no gap leave no gap either. */
  lemma SolidWithRange(cmp: Comparator, tables: Tables, files: set<nat>, more: set<nat>)
    requires TotalOrder(cmp) && Solid(cmp, tables, files)
    requires forall f :: f in more ==> Overlaps(cmp, EntriesOf(tables, f), Contents(files, tables))
    ensures Solid(cmp, tables, files + more)
  {
    hide TotalOrder, KeysBefore;
    var c := Contents(files, tables);
    forall es: set<Entry> | es != {} && (forall f :: f in files + more ==> KeysApart(cmp, es, EntriesOf(tables, f)))
      ensures KeysApart(cmp, es, Contents(files + more, tables))
    {
      SolidSays(cmp, tables, files, es);
      var before := KeysBefore(cmp, es, c);
      forall f | f in files + more
        ensures if before then KeysBefore(cmp, es, EntriesOf(tables, f)) else KeysBefore(cmp, EntriesOf(tables, f), es)
      {
        if f in files {
          PartsBeside(cmp, tables, es, files, f);
        } else {
          KeysSameSide(cmp, es, EntriesOf(tables, f), c);
        }
      }
      ContentsBeside(cmp, tables, es, files + more);
    }
  }

  lemma OverlapsMore(cmp: Comparator, a: set<Entry>, b: set<Entry>, c: set<Entry>)
    requires Overlaps(cmp, a, b) && b <= c
    ensures Overlaps(cmp, a, c)
  {
  }

  lemma {:induction false} KeyEnds(cmp: Comparator, es: set<Entry>) returns (x: Entry, y: Entry)
    requires TotalOrder(cmp) && es != {}
    ensures x in es && y in es && forall e :: e in es ==> cmp(x.key, e.key) <= 0 && cmp(e.key, y.key) <= 0
    decreases |es|
  {
    var e :| e in es;
    assert cmp(e.key, e.key) == 0;
    x, y := e, e;
    var rest := es - {e};
    if rest != {} {
      var a, b := KeyEnds(cmp, rest);
      x := if cmp(e.key, a.key) < 0 then e else a;
      y := if cmp(e.key, b.key) > 0 then e else b;
      forall z | z in es ensures cmp(x.key, z.key) <= 0 && cmp(z.key, y.key) <= 0 {
        if z != e {
          NotLess(cmp, x.key, a.key, z.key);
          NotLess(cmp, z.key, b.key, y.key);
        }
      }
    }
  }

  lemma NotLess(cmp: Comparator, a: UserKey, b: UserKey, c: UserKey)
    requires TotalOrder(cmp) && cmp(a, b) <= 0 && cmp(b, c) <= 0
    ensures cmp(a, c) <= 0
  {
    assert a == b || cmp(a, b) < 0;
  }

  lemma ClearOfSet(cmp: Comparator, es: set<Entry>, x: Entry, y: Entry, c: set<Entry>, first: Entry, last: Entry)
    requires TotalOrder(cmp) && x in es && y in es && (forall e :: e in es ==> cmp(x.key, e.key) <= 0 && cmp(e.key, y.key) <= 0)
    requires IsFirst(cmp, c, first) && IsLast(cmp, c, last)
    ensures KeysApart(cmp, es, c) ==> Clear(cmp, x.key, y.key, Some(first.key), Some(last.key))
    ensures cmp(y.key, first.key) < 0 ==> KeysBefore(cmp, es, c)
    ensures cmp(last.key, x.key) < 0 ==> KeysBefore(cmp, c, es)
  {
    hide TotalOrder, IsFirst, IsLast;
    FirstLastKeys(cmp, c, first, last);
    forall e, z | e in es && z in c && cmp(y.key, first.key) < 0 ensures cmp(e.key, z.key) < 0 {
      Between(cmp, e.key, y.key, first.key, z.key);
    }
    forall e, z | e in es && z in c && cmp(last.key, x.key) < 0 ensures cmp(z.key, e.key) < 0 {
      Between(cmp, z.key, last.key, x.key, e.key);
    }
  }

  lemma FirstLastKeys(cmp: Comparator, c: set<Entry>, first: Entry, last: Entry)
    requires TotalOrder(cmp) && IsFirst(cmp, c, first) && IsLast(cmp, c, last)
    ensures first in c && last in c && forall z :: z in c ==> cmp(first.key, z.key) <= 0 && cmp(z.key, last.key) <= 0
  {
    forall z | z in c ensures cmp(first.key, z.key) <= 0 && cmp(z.key, last.key) <= 0 {
      BeforeOrdersKeys(cmp, first, z);
      BeforeOrdersKeys(cmp, z, last);
    }
  }

  // ---- Level 0 -------------------------------------------------------------

  /** Everything gathered lies in the range that was reached, and what is left out lies outside of it. */
  lemma Level0IsPicked(cmp: Comparator, v: Version, tables: Tables, files: seq<seq<FileMeta>>, inputs: seq<FileMeta>,
                       begin: Option<UserKey>, end: Option<UserKey>, lo: Option<UserKey>, hi: Option<UserKey>)
    requires TotalOrder(cmp) && Lists(cmp, v, tables, files) && |files| > 0
    requires Gathered(cmp, files[0], 0, begin, end, inputs, lo, hi)
    ensures UpperPicked(cmp, v, tables, 0, Numbers(inputs))
  {
    hide TotalOrder, Lists, Reached, Meets, Within, KeysBefore;
    ListsLevel(cmp, v, tables, files, 0);
    MeetingHas(cmp, files[0], lo, hi);
    forall n | InLevel(v, 0, n) && n !in Numbers(inputs) ensures KeysApart(cmp, EntriesOf(tables, n), Contents(Numbers(inputs), tables)) {
      var g := MetaOf(files[0], n);
      assert !Meets(cmp, g, lo, hi);
      var before := lo.Some? && cmp(g.largest.key, lo.value) < 0;
      forall m | m in Numbers(inputs)
        ensures if before then KeysBefore(cmp, EntriesOf(tables, n), EntriesOf(tables, m)) else KeysBefore(cmp, EntriesOf(tables, m), EntriesOf(tables, n))
      {
        var f := MetaOf(inputs, m);
        OutsideOfWithin(cmp, tables, g, f, lo, hi);
      }
      ContentsBeside(cmp, tables, EntriesOf(tables, n), Numbers(inputs));
    }
  }

  lemma OutsideOfWithin(cmp: Comparator, tables: Tables, g: FileMeta, f: FileMeta, lo: Option<UserKey>, hi: Option<UserKey>)
    requires TotalOrder(cmp) && Describes(cmp, tables, g) && Describes(cmp, tables, f) && !Meets(cmp, g, lo, hi) && Within(cmp, f, lo, hi)
    ensures if lo.Some? && cmp(g.largest.key, lo.value) < 0 then KeysBefore(cmp, EntriesOf(tables, g.number), EntriesOf(tables, f.number))
            else KeysBefore(cmp, EntriesOf(tables, f.number), EntriesOf(tables, g.number))
  {
    hide IsFirst, IsLast, KeysBefore;
    EndsBefore(cmp, EntriesOf(tables, g.number), g.largest, EntriesOf(tables, f.number), f.smallest);
    EndsBefore(cmp, EntriesOf(tables, f.number), f.largest, EntriesOf(tables, g.number), g.smallest);
    if lo.Some? && cmp(g.largest.key, lo.value) < 0 {
      assert lo.value == f.smallest.key || cmp(lo.value, f.smallest.key) < 0;
    } else {
      assert hi.value == f.largest.key || cmp(f.largest.key, hi.value) < 0;
    }
  }

  /** Gathering from a range without gaps leaves no gap. */
  lemma GatheredIsSolid(cmp: Comparator, tables: Tables, files: seq<FileMeta>, level: nat, a: set<nat>, first: Entry, last: Entry,
                        inputs: seq<FileMeta>, lo: Option<UserKey>, hi: Option<UserKey>)
    requires TotalOrder(cmp) && AllDescribed(cmp, tables, files) && Solid(cmp, tables, a)
    requires IsFirst(cmp, Contents(a, tables), first) && IsLast(cmp, Contents(a, tables), last)
    requires Gathered(cmp, files, level, Some(first.key), Some(last.key), inputs, lo, hi)
    ensures Solid(cmp, tables, a + Numbers(inputs))
  {
    hide TotalOrder, KeysBefore, Meets, Within, Reached, IsFirst, IsLast, Meeting;
    MeetingHas(cmp, files, lo, hi);
    forall f | f in inputs ensures Describes(cmp, tables, f) && Meets(cmp, f, lo, hi) {
      var i :| 0 <= i < |files| && files[i] == f;
    }
    forall es: set<Entry> | es != {} && (forall f :: f in a + Numbers(inputs) ==> KeysApart(cmp, es, EntriesOf(tables, f)))
      ensures KeysApart(cmp, es, Contents(a + Numbers(inputs), tables))
    {
      SolidSays(cmp, tables, a, es);
      ClearOfInputs(cmp, tables, a, first, last, inputs, lo, hi, es);
    }
  }

  lemma ClearOfInputs(cmp: Comparator, tables: Tables, a: set<nat>, first: Entry, last: Entry,
                      inputs: seq<FileMeta>, lo: Option<UserKey>, hi: Option<UserKey>, es: set<Entry>)
    requires TotalOrder(cmp) && es != {} && KeysApart(cmp, es, Contents(a, tables))
    requires IsFirst(cmp, Contents(a, tables), first) && IsLast(cmp, Contents(a, tables), last)
    requires forall f :: f in inputs ==> Describes(cmp, tables, f) && Meets(cmp, f, lo, hi) && KeysApart(cmp, es, EntriesOf(tables, f.number))
    requires Reached(cmp, inputs, Some(first.key), Some(last.key), lo, hi)
    ensures KeysApart(cmp, es, Contents(a + Numbers(inputs), tables))
  {
    hide TotalOrder, KeysBefore, Meets, IsFirst, IsLast, KeysApart;
    var c := Contents(a, tables);
    var x, y := KeyEnds(cmp, es);
    ClearOfSet(cmp, es, x, y, c, first, last);
    forall f | f in inputs ensures Clear(cmp, x.key, y.key, Some(f.smallest.key), Some(f.largest.key)) {
      ClearOfSet(cmp, es, x, y, EntriesOf(tables, f.number), f.smallest, f.largest);
    }
    assert cmp(x.key, y.key) <= 0 && Clear(cmp, x.key, y.key, lo, hi);
    var before := cmp(y.key, lo.value) < 0;
    forall n | n in a + Numbers(inputs)
      ensures if before then KeysBefore(cmp, es, EntriesOf(tables, n)) else KeysBefore(cmp, EntriesOf(tables, n), es)
    {
      if n in a {
        SideOfWhole(cmp, es, x, y, c, first, last, lo.value, hi.value);
        PartsBeside(cmp, tables, es, a, n);
      } else {
        var f := MetaOf(inputs, n);
        ClearOfSet(cmp, es, x, y, EntriesOf(tables, n), f.smallest, f.largest);
        SideOfFile(cmp, x.key, y.key, f, lo.value, hi.value);
      }
    }
    ContentsBeside(cmp, tables, es, a + Numbers(inputs));
    assert KeysApart(cmp, es, Contents(a + Numbers(inputs), tables)) by { KeysApartIs(cmp, es, Contents(a + Numbers(inputs), tables)); }
  }

  lemma KeysApartIs(cmp: Comparator, a: set<Entry>, b: set<Entry>)
    ensures KeysApart(cmp, a, b) <==> KeysBefore(cmp, a, b) || KeysBefore(cmp, b, a)
  {
  }

  lemma SideOfWhole(cmp: Comparator, es: set<Entry>, x: Entry, y: Entry, c: set<Entry>, first: Entry, last: Entry, lo: UserKey, hi: UserKey)
    requires TotalOrder(cmp) && x in es && y in es && (forall e :: e in es ==> cmp(x.key, e.key) <= 0 && cmp(e.key, y.key) <= 0)
    requires IsFirst(cmp, c, first) && IsLast(cmp, c, last) && cmp(lo, first.key) <= 0 && cmp(last.key, hi) <= 0
    ensures cmp(y.key, lo) < 0 ==> KeysBefore(cmp, es, c)
    ensures cmp(hi, x.key) < 0 ==> KeysBefore(cmp, c, es)
  {
    hide IsFirst, IsLast, KeysBefore;
    ClearOfSet(cmp, es, x, y, c, first, last);
    assert lo == first.key || cmp(lo, first.key) < 0;
    assert last.key == hi || cmp(last.key, hi) < 0;
  }

  lemma SideOfFile(cmp: Comparator, x: UserKey, y: UserKey, f: FileMeta, lo: UserKey, hi: UserKey)
    requires TotalOrder(cmp) && cmp(x, y) <= 0 && Meets(cmp, f, Some(lo), Some(hi)) && Clear(cmp, x, y, Some(f.smallest.key), Some(f.largest.key))
    ensures cmp(y, lo) < 0 ==> cmp(y, f.smallest.key) < 0
    ensures cmp(hi, x) < 0 ==> cmp(f.largest.key, x) < 0
  {
    if cmp(y, lo) < 0 && cmp(f.largest.key, x) < 0 {
      Between(cmp, lo, f.largest.key, x, y);
      assert false;
    }
    if cmp(hi, x) < 0 && cmp(y, f.smallest.key) < 0 {
      Between(cmp, x, y, f.smallest.key, hi);
      assert false;
    }
  }

  /** A range contains the files it was taken from. */
  lemma GatheredKeepsFiles(cmp: Comparator, v: Version, tables: Tables, files: seq<seq<FileMeta>>, l: nat, a: set<nat>, first: Entry, last: Entry,
                           inputs: seq<FileMeta>, lo: Option<UserKey>, hi: Option<UserKey>, f: nat)
    requires TotalOrder(cmp) && Lists(cmp, v, tables, files) && l < |files|
    requires IsFirst(cmp, Contents(a, tables), first) && IsLast(cmp, Contents(a, tables), last)
    requires Gathered(cmp, files[l], l, Some(first.key), Some(last.key), inputs, lo, hi)
    requires InLevel(v, l, f) && Overlaps(cmp, EntriesOf(tables, f), Contents(a, tables))
    ensures f in Numbers(inputs)
  {
    hide TotalOrder, Lists, Meets, IsFirst, IsLast, KeysApart;
    ListsLevel(cmp, v, tables, files, l);
    MeetingHas(cmp, files[l], lo, hi);
    var m := MetaOf(files[l], f);
    MeetsIsOverlaps(cmp, tables, m, Contents(a, tables), first, last);
    StillMeets(cmp, m, Some(first.key), Some(last.key), lo, hi);
  }

  // ---- Boundary files close the upper level --------------------------------

  ghost predicate EndsAt(cmp: Comparator, tables: Tables, in0: set<nat>, key: Entry) {
    IsLast(cmp, Contents(in0, tables), key)
  }

  lemma BoundaryStep(cmp: Comparator, v: Version, tables: Tables, files: seq<seq<FileMeta>>, from: nat, in0: set<nat>, rest: set<nat>, key: Entry, f: FileMeta)
    requires TotalOrder(cmp) && Lists(cmp, v, tables, files) && LevelsApart(cmp, v, tables) && 0 < from < |files|
    requires in0 <= v.levels[from] && Segment(cmp, v, tables, from, in0) && Solid(cmp, tables, in0 + rest) && EndsAt(cmp, tables, in0, key)
    requires SmallestBoundary(cmp, files[from], key, f)
    ensures Segment(cmp, v, tables, from, in0 + {f.number}) && Solid(cmp, tables, in0 + {f.number} + rest)
    ensures EndsAt(cmp, tables, in0 + {f.number}, f.largest) && InLevel(v, from, f.number)
  {
    hide TotalOrder, Lists, LevelsApart, Segment, IsLast, SmallestBoundary, Overlaps;
    ListsLevel(cmp, v, tables, files, from);
    BoundaryIs(cmp, files[from], key, f);
    BoundaryEnds(cmp, tables, in0, key, f);
    BoundaryOverlaps(cmp, tables, in0, rest, key, f);
    SolidWithRange(cmp, tables, in0 + rest, {f.number});
    assert in0 + rest + {f.number} == in0 + {f.number} + rest;
    BoundarySegment(cmp, v, tables, files, from, in0, key, f);
  }

  lemma BoundaryIs(cmp: Comparator, files: seq<FileMeta>, key: Entry, f: FileMeta)
    requires SmallestBoundary(cmp, files, key, f)
    ensures f in files && Boundary(cmp, f, key)
  {
  }

  lemma BoundaryEnds(cmp: Comparator, tables: Tables, in0: set<nat>, key: Entry, f: FileMeta)
    requires TotalOrder(cmp) && EndsAt(cmp, tables, in0, key) && Describes(cmp, tables, f) && Boundary(cmp, f, key)
    ensures EndsAt(cmp, tables, in0 + {f.number}, f.largest)
    ensures AllBefore(cmp, Contents(in0, tables), EntriesOf(tables, f.number))
  {
    hide TotalOrder, EntryBefore;
    ContentsUnion(in0, {f.number}, tables);
    SingleContents(f.number, tables);
    forall e, x | e in Contents(in0, tables) && x in EntriesOf(tables, f.number) ensures EntryBefore(cmp, e, x) {
      if e != key { BeforeTransitive(cmp, e, key, f.smallest); }
      if x != f.smallest { BeforeTransitive(cmp, e, f.smallest, x); }
    }
  }

  lemma BoundaryOverlaps(cmp: Comparator, tables: Tables, in0: set<nat>, rest: set<nat>, key: Entry, f: FileMeta)
    requires TotalOrder(cmp) && EndsAt(cmp, tables, in0, key) && Describes(cmp, tables, f) && Boundary(cmp, f, key)
    ensures Overlaps(cmp, EntriesOf(tables, f.number), Contents(in0 + rest, tables))
  {
    hide KeysApart;
    MoreContents(in0, in0 + rest, tables);
    if KeysApart(cmp, EntriesOf(tables, f.number), Contents(in0 + rest, tables)) {
      KeysApartShareNothing(cmp, EntriesOf(tables, f.number), Contents(in0 + rest, tables), f.smallest, key);
      assert false;
    }
  }

  lemma BoundarySegment(cmp: Comparator, v: Version, tables: Tables, files: seq<seq<FileMeta>>, from: nat, in0: set<nat>, key: Entry, f: FileMeta)
    requires TotalOrder(cmp) && Lists(cmp, v, tables, files) && LevelsApart(cmp, v, tables) && 0 < from < |files|
    requires Segment(cmp, v, tables, from, in0) && EndsAt(cmp, tables, in0, key) && SmallestBoundary(cmp, files[from], key, f)
    ensures Segment(cmp, v, tables, from, in0 + {f.number})
  {
    hide TotalOrder, Lists, LevelsApart, AllBefore, IsLast;
    ListsLevel(cmp, v, tables, files, from);
    BoundaryEnds(cmp, tables, in0, key, f);
    ContentsUnion(in0, {f.number}, tables);
    SingleContents(f.number, tables);
    forall n | InLevel(v, from, n) && n !in in0 + {f.number} && EntriesOf(tables, n) != EntriesOf(tables, f.number)
               && Apart(cmp, EntriesOf(tables, n), Contents(in0, tables))
      ensures Apart(cmp, EntriesOf(tables, n), Contents(in0 + {f.number}, tables))
    {
      ApartInLevel(cmp, v, tables, from, f.number, n);
      var g := MetaOf(files[from], n);
      BoundaryNeighbour(cmp, tables, files[from], in0, key, f, g);
    }
  }

  /** What lies beside the files picked so far lies beside the smallest boundary file too. */
  lemma BoundaryNeighbour(cmp: Comparator, tables: Tables, files: seq<FileMeta>, in0: set<nat>, key: Entry, f: FileMeta, g: FileMeta)
    requires TotalOrder(cmp) && EndsAt(cmp, tables, in0, key) && SmallestBoundary(cmp, files, key, f) && g in files
    requires Describes(cmp, tables, f) && Describes(cmp, tables, g)
    requires Apart(cmp, EntriesOf(tables, g.number), Contents(in0, tables)) && Apart(cmp, EntriesOf(tables, g.number), EntriesOf(tables, f.number))
    ensures Apart(cmp, EntriesOf(tables, g.number), Contents(in0, tables) + EntriesOf(tables, f.number))
  {
    hide TotalOrder, EntryBefore;
    var es, c, fs := EntriesOf(tables, g.number), Contents(in0, tables), EntriesOf(tables, f.number);
    assert f.smallest in fs && g.smallest in es && key in c;
    if AllBefore(cmp, es, c) {
      forall e, x | e in es && x in fs ensures EntryBefore(cmp, e, x) {
        BeforeTransitive(cmp, e, key, f.smallest);
        if x != f.smallest { BeforeTransitive(cmp, e, f.smallest, x); }
      }
    } else if AllBefore(cmp, es, fs) {
      assert EntryBefore(cmp, key, g.smallest) && EntryBefore(cmp, g.smallest, f.smallest);
      BetweenIsBoundary(cmp, key, g, f);
      assert false;
    }
  }

  lemma BetweenIsBoundary(cmp: Comparator, key: Entry, g: FileMeta, f: FileMeta)
    requires TotalOrder(cmp) && EntryBefore(cmp, key, g.smallest) && EntryBefore(cmp, g.smallest, f.smallest) && Boundary(cmp, f, key)
    ensures Boundary(cmp, g, key)
  {
  }

  lemma {:induction false} ChainIsSegment(cmp: Comparator, v: Version, tables: Tables, files: seq<seq<FileMeta>>, from: nat, in0: set<nat>, rest: set<nat>,
                                          key: Entry, added: seq<FileMeta>)
    requires TotalOrder(cmp) && Lists(cmp, v, tables, files) && LevelsApart(cmp, v, tables) && 0 < from < |files|
    requires in0 <= v.levels[from] && Segment(cmp, v, tables, from, in0) && Solid(cmp, tables, in0 + rest) && EndsAt(cmp, tables, in0, key)
    requires BoundaryChain(cmp, files[from], key, added)
    ensures Segment(cmp, v, tables, from, in0 + Numbers(added)) && Solid(cmp, tables, in0 + Numbers(added) + rest)
    ensures EndsAt(cmp, tables, in0 + Numbers(added), LastKey(key, added)) && in0 + Numbers(added) <= v.levels[from]
    decreases |added|
  {
    hide TotalOrder, Lists, LevelsApart, Segment, Solid, EndsAt, SmallestBoundary;
    if added == [] {
      assert in0 + Numbers(added) == in0;
    } else {
      var most, f := added[..|added| - 1], added[|added| - 1];
      forall k | 0 <= k < |most| ensures SmallestBoundary(cmp, files[from], LastKey(key, most[..k]), most[k]) {
        assert most[..k] == added[..k];
        assert SmallestBoundary(cmp, files[from], LastKey(key, added[..k]), added[k]);
      }
      ChainIsSegment(cmp, v, tables, files, from, in0, rest, key, most);
      BoundaryStep(cmp, v, tables, files, from, in0 + Numbers(most), rest, LastKey(key, most), f);
      assert added == most + [f];
      assert in0 + Numbers(most) + {f.number} == in0 + Numbers(added);
    }
  }

  /** With no boundary file left nothing behind the inputs shares a key with them. */
  lemma ClosedSegment(cmp: Comparator, v: Version, tables: Tables, files: seq<seq<FileMeta>>, from: nat, in0: set<nat>, key: Entry)
    requires TotalOrder(cmp) && Lists(cmp, v, tables, files) && 0 < from < |files|
    requires Segment(cmp, v, tables, from, in0) && EndsAt(cmp, tables, in0, key) && NoBoundary(cmp, files[from], key)
    ensures UpperPicked(cmp, v, tables, from, in0)
  {
    hide TotalOrder, Lists;
    ListsLevel(cmp, v, tables, files, from);
    var c := Contents(in0, tables);
    forall n | InLevel(v, from, n) && AllBefore(cmp, c, EntriesOf(tables, n)) ensures !ShareKey(c, EntriesOf(tables, n)) {
      var g := MetaOf(files[from], n);
      if e, x :| e in c && x in EntriesOf(tables, n) && e.key == x.key {
        SharingIsBoundary(cmp, c, EntriesOf(tables, n), e, x, key, g);
        assert false;
      }
    }
  }

  lemma SharingIsBoundary(cmp: Comparator, c: set<Entry>, es: set<Entry>, e: Entry, x: Entry, key: Entry, g: FileMeta)
    requires TotalOrder(cmp) && IsLast(cmp, c, key) && IsFirst(cmp, es, g.smallest) && AllBefore(cmp, c, es)
    requires e in c && x in es && e.key == x.key
    ensures Boundary(cmp, g, key)
  {
    hide TotalOrder;
    BeforeOrdersKeys(cmp, e, key);
    BeforeOrdersKeys(cmp, key, g.smallest);
    BeforeOrdersKeys(cmp, g.smallest, x);
    SqueezedKeys(cmp, e.key, key.key, g.smallest.key);
    ZeroIsSame(cmp, g.smallest.key, key.key);
  }

  lemma ZeroIsSame(cmp: Comparator, a: UserKey, b: UserKey)
    requires TotalOrder(cmp)
    ensures cmp(a, b) == 0 <==> a == b
  {
  }

  /** At level 0 there is no boundary file left to add. */
  lemma NoBoundaryAtLevel0(cmp: Comparator, v: Version, tables: Tables, files: seq<seq<FileMeta>>, in0: set<nat>, key: Entry, f: FileMeta)
    requires TotalOrder(cmp) && Lists(cmp, v, tables, files) && |files| > 0
    requires UpperPicked(cmp, v, tables, 0, in0) && EndsAt(cmp, tables, in0, key) && f in files[0]
    ensures !Boundary(cmp, f, key)
  {
    hide TotalOrder, Lists, KeysApart, EntryBefore;
    ListsLevel(cmp, v, tables, files, 0);
    if Boundary(cmp, f, key) {
      ZeroIsSame(cmp, f.smallest.key, key.key);
      if f.number in in0 {
        SingleContents(f.number, tables);
        MoreContents({f.number}, in0, tables);
        NotBeforeItself(cmp, key);
        BeforeTransitive(cmp, key, f.smallest, key);
        assert false;
      } else {
        KeysApartShareNothing(cmp, EntriesOf(tables, f.number), Contents(in0, tables), f.smallest, key);
        assert false;
      }
    }
  }

  // ---- Picking -------------------------------------------------------------

  /** What the first gathering of a level yields. */
  ghost predicate Started(cmp: Comparator, v: Version, tables: Tables, from: nat, in0: set<nat>) {
    && in0 != {} && from < |v.levels| && in0 <= v.levels[from]
    && if from == 0 then UpperPicked(cmp, v, tables, 0, in0) else Segment(cmp, v, tables, from, in0)
  }

  /** The boundary files complete the choice in the upper level. */
  lemma BoundariesComplete(cmp: Comparator, v: Version, tables: Tables, files: seq<seq<FileMeta>>, from: nat, inputs: seq<FileMeta>, rest: set<nat>,
                           r: seq<FileMeta>, key: Entry, added: seq<FileMeta>)
    requires TotalOrder(cmp) && Lists(cmp, v, tables, files) && LevelsApart(cmp, v, tables) && from < |files|
    requires Distinct(Contents(Files(v), tables)) && (forall f :: f in inputs ==> f in files[from])
    requires Started(cmp, v, tables, from, Numbers(inputs)) && Solid(cmp, tables, Numbers(inputs) + rest)
    requires BoundariesAdded(cmp, files[from], inputs, r, key, added)
    ensures Numbers(inputs) <= Numbers(r) <= v.levels[from] && UpperPicked(cmp, v, tables, from, Numbers(r))
    ensures Solid(cmp, tables, Numbers(r) + rest) && forall f :: f in r ==> f in files[from]
  {
    hide TotalOrder, Lists, LevelsApart, UpperPicked, Segment, Solid, LastOfFiles, NoBoundary, Distinct, SmallestBoundary;
    SomeFilesEnd(cmp, v, tables, files, from, inputs, key);
    assert Numbers(r) == Numbers(inputs) + Numbers(added);
    if from == 0 {
      if added != [] {
        assert added[..0] == [];
        assert SmallestBoundary(cmp, files[0], key, added[0]);
        BoundaryIs(cmp, files[0], key, added[0]);
        NoBoundaryAtLevel0(cmp, v, tables, files, Numbers(inputs), key, added[0]);
        assert false;
      }
      assert r == inputs;
    } else {
      ChainIsSegment(cmp, v, tables, files, from, Numbers(inputs), rest, key, added);
      ClosedSegment(cmp, v, tables, files, from, Numbers(r), LastKey(key, added));
      forall f | f in added ensures f in files[from] {
        var k :| 0 <= k < |added| && added[k] == f;
        BoundaryIs(cmp, files[from], LastKey(key, added[..k]), added[k]);
      }
    }
  }

  lemma SomeDistinct(v: Version, tables: Tables, from: nat, some: set<nat>)
    requires Distinct(Contents(Files(v), tables)) && from < |v.levels| && some <= v.levels[from]
    ensures Distinct(Contents(some, tables))
  {
    forall f | f in some ensures f in Files(v) {
      assert InLevel(v, from, f);
      FilesOf(v, f);
    }
    MoreContents(some, Files(v), tables);
  }

  lemma SomeDescribed(cmp: Comparator, v: Version, tables: Tables, files: seq<seq<FileMeta>>, from: nat, inputs: seq<FileMeta>)
    requires Lists(cmp, v, tables, files) && from < |files| && forall f :: f in inputs ==> f in files[from]
    ensures AllDescribed(cmp, tables, inputs) && Numbers(inputs) <= v.levels[from]
  {
    hide Lists;
    ListsLevel(cmp, v, tables, files, from);
    forall i | 0 <= i < |inputs| ensures Describes(cmp, tables, inputs[i]) {
      assert inputs[i] in inputs;
    }
  }

  lemma SomeFilesEnd(cmp: Comparator, v: Version, tables: Tables, files: seq<seq<FileMeta>>, from: nat, inputs: seq<FileMeta>, key: Entry)
    requires TotalOrder(cmp) && Lists(cmp, v, tables, files) && Distinct(Contents(Files(v), tables)) && from < |files|
    requires (forall f :: f in inputs ==> f in files[from]) && LastOfFiles(cmp, inputs, key)
    ensures EndsAt(cmp, tables, Numbers(inputs), key)
  {
    hide TotalOrder, Lists, Distinct, AllDescribed;
    SomeDescribed(cmp, v, tables, files, from, inputs);
    ListsLevel(cmp, v, tables, files, from);
    SomeDistinct(v, tables, from, Numbers(inputs));
    EndOfContents(cmp, tables, inputs, key);
  }

  lemma EndOfContents(cmp: Comparator, tables: Tables, files: seq<FileMeta>, largest: Entry)
    requires TotalOrder(cmp) && AllDescribed(cmp, tables, files) && Distinct(Contents(Numbers(files), tables)) && LastOfFiles(cmp, files, largest)
    ensures IsLast(cmp, Contents(Numbers(files), tables), largest)
  {
    hide TotalOrder, Distinct, EntryBefore, AllDescribed, Contents, Numbers;
    var c := Contents(Numbers(files), tables);
    EndsAreIn(cmp, tables, files);
    forall x | x in c ensures x == largest || EntryBefore(cmp, x, largest) {
      var i := FileOfEntry(cmp, tables, files, x);
      LastOrBefore(cmp, c, largest, files[i].largest, x);
    }
  }

  lemma SmallestAndLargest(cmp: Comparator, v: Version, tables: Tables, files: seq<seq<FileMeta>>, from: nat, in0: seq<FileMeta>, in1: seq<FileMeta>,
                           smallest: Entry, largest: Entry)
    requires TotalOrder(cmp) && Lists(cmp, v, tables, files) && Distinct(Contents(Files(v), tables)) && from + 1 < |files|
    requires (forall f :: f in in0 ==> f in files[from]) && (forall f :: f in in1 ==> f in files[from + 1])
    requires FirstOfFiles(cmp, in0 + in1, smallest) && LastOfFiles(cmp, in0 + in1, largest)
    ensures IsFirst(cmp, Contents(Numbers(in0) + Numbers(in1), tables), smallest)
    ensures IsLast(cmp, Contents(Numbers(in0) + Numbers(in1), tables), largest)
  {
    hide TotalOrder, Lists, Distinct, FirstOfFiles, LastOfFiles, IsFirst, IsLast;
    SomeDescribed(cmp, v, tables, files, from, in0);
    SomeDescribed(cmp, v, tables, files, from + 1, in1);
    assert Numbers(in0 + in1) == Numbers(in0) + Numbers(in1);
    assert AllDescribed(cmp, tables, in0 + in1) by {
      forall i | 0 <= i < |in0 + in1| ensures Describes(cmp, tables, (in0 + in1)[i]) {
        assert i < |in0| ==> Describes(cmp, tables, in0[i]);
        assert i >= |in0| ==> Describes(cmp, tables, in1[i - |in0|]);
      }
    }
    ListsLevel(cmp, v, tables, files, from);
    forall f | f in Numbers(in0) + Numbers(in1) ensures f in Files(v) {
      assert InLevel(v, from, f) || InLevel(v, from + 1, f);
      FilesOf(v, f);
    }
    MoreContents(Numbers(in0 + in1), Files(v), tables);
    PartDistinct(Contents(Numbers(in0 + in1), tables), Contents(Files(v), tables));
    RangeOfContents(cmp, tables, in0 + in1, smallest, largest);
  }

  lemma PartDistinct(a: set<Entry>, b: set<Entry>)
    requires Distinct(b) && a <= b
    ensures Distinct(a)
  {
  }

  /** The files of the output level that the range of the upper inputs takes in. */
  lemma LowerIsPicked(cmp: Comparator, v: Version, tables: Tables, files: seq<seq<FileMeta>>, from: nat, in0: seq<FileMeta>, rest: set<nat>,
                      smallest: Entry, largest: Entry, in1: seq<FileMeta>, lo: Option<UserKey>, hi: Option<UserKey>)
    requires TotalOrder(cmp) && Lists(cmp, v, tables, files) && Distinct(Contents(Files(v), tables)) && from + 1 < |files|
    requires forall f :: f in in0 ==> f in files[from]
    requires FirstOfFiles(cmp, in0, smallest) && LastOfFiles(cmp, in0, largest) && Solid(cmp, tables, Numbers(in0) + rest)
    requires Gathered(cmp, files[from + 1], from + 1, Some(smallest.key), Some(largest.key), in1, lo, hi)
    ensures LowerPicked(cmp, v, tables, from, Numbers(in0), Numbers(in1)) && Solid(cmp, tables, Numbers(in0) + rest + Numbers(in1))
    ensures forall f :: f in in1 ==> f in files[from + 1]
  {
    hide TotalOrder, Lists, Distinct, FirstOfFiles, LastOfFiles, IsFirst, IsLast, Reached, Solid, KeysApart;
    assert in0 + [] == in0;
    SmallestAndLargest(cmp, v, tables, files, from, in0, [], smallest, largest);
    assert Numbers(in0) + Numbers([]) == Numbers(in0);
    GatheredByRange(cmp, v, tables, files, from + 1, Contents(Numbers(in0), tables), smallest, largest);
    MeetingHas(cmp, files[from + 1], Some(smallest.key), Some(largest.key));
    MoreContents(Numbers(in0), Numbers(in0) + rest, tables);
    forall f | f in Numbers(in1) ensures Overlaps(cmp, EntriesOf(tables, f), Contents(Numbers(in0) + rest, tables)) {
      OverlapsMore(cmp, EntriesOf(tables, f), Contents(Numbers(in0), tables), Contents(Numbers(in0) + rest, tables));
    }
    SolidWithRange(cmp, tables, Numbers(in0) + rest, Numbers(in1));
  }

  /** Growing the upper inputs to the whole range of the compaction. */
  lemma UpperIsStarted(cmp: Comparator, v: Version, tables: Tables, files: seq<seq<FileMeta>>, from: nat, in0: seq<FileMeta>, in1: seq<FileMeta>,
                       allStart: Entry, allLimit: Entry, expanded: seq<FileMeta>, lo: Option<UserKey>, hi: Option<UserKey>)
    requires TotalOrder(cmp) && Lists(cmp, v, tables, files) && LevelsApart(cmp, v, tables) && Distinct(Contents(Files(v), tables)) && from + 1 < |files|
    requires in0 != [] && (forall f :: f in in0 ==> f in files[from]) && (forall f :: f in in1 ==> f in files[from + 1])
    requires FirstOfFiles(cmp, in0 + in1, allStart) && LastOfFiles(cmp, in0 + in1, allLimit) && Solid(cmp, tables, Numbers(in0) + Numbers(in1))
    requires Gathered(cmp, files[from], from, Some(allStart.key), Some(allLimit.key), expanded, lo, hi)
    ensures Started(cmp, v, tables, from, Numbers(expanded)) && Solid(cmp, tables, Numbers(expanded) + Numbers(in1))
    ensures Numbers(in0) <= Numbers(expanded) && forall f :: f in expanded ==> f in files[from]
  {
    hide TotalOrder, Lists, LevelsApart, Distinct, FirstOfFiles, LastOfFiles, IsFirst, IsLast, Solid, KeysApart, UpperPicked, Segment, Reached;
    var both := Numbers(in0) + Numbers(in1);
    SmallestAndLargest(cmp, v, tables, files, from, in0, in1, allStart, allLimit);
    ListsLevel(cmp, v, tables, files, from);
    MeetingHas(cmp, files[from], lo, hi);
    SomeDescribed(cmp, v, tables, files, from, in0);
    SomeDescribed(cmp, v, tables, files, from, expanded);
    GatheredIsSolid(cmp, tables, files[from], from, both, allStart, allLimit, expanded, lo, hi);
    forall f | f in Numbers(in0) ensures f in Numbers(expanded) {
      assert InLevel(v, from, f);
      FileNotEmpty(cmp, v, tables, from, f);
      OverlapsItself(cmp, tables, both, f);
      GatheredKeepsFiles(cmp, v, tables, files, from, both, allStart, allLimit, expanded, lo, hi, f);
    }
    assert both + Numbers(expanded) == Numbers(expanded) + Numbers(in1);
    assert in0[0].number in Numbers(in0);
    if from == 0 {
      Level0IsPicked(cmp, v, tables, files, expanded, Some(allStart.key), Some(allLimit.key), lo, hi);
    } else {
      GatheredByRange(cmp, v, tables, files, from, Contents(both, tables), allStart, allLimit);
      RangeIsSegment(cmp, v, tables, from, Contents(both, tables), Numbers(expanded));
    }
  }

  lemma OverlapsItself(cmp: Comparator, tables: Tables, files: set<nat>, f: nat)
    requires TotalOrder(cmp) && f in files && EntriesOf(tables, f) != {}
    ensures Overlaps(cmp, EntriesOf(tables, f), Contents(files, tables))
  {
    hide KeysApart;
    SingleContents(f, tables);
    MoreContents({f}, files, tables);
    var e :| e in EntriesOf(tables, f);
    if KeysApart(cmp, EntriesOf(tables, f), Contents(files, tables)) {
      KeysApartShareNothing(cmp, EntriesOf(tables, f), Contents(files, tables), e, e);
      assert false;
    }
  }

  function TotalFileSize(files: seq<FileMeta>): nat {
    if files == [] then 0 else TotalFileSize(files[..|files| - 1]) + files[|files| - 1].size
  }

  lemma {:induction false} SizesAddUp(a: seq<FileMeta>, b: seq<FileMeta>)
    ensures TotalFileSize(a + b) == TotalFileSize(a) + TotalFileSize(b)
    ensures |b| == 1 ==> TotalFileSize(b) == b[0].size
    decreases |b|
  {
    if b == [] {
      assert a + b == a;
    } else {
      SizesAddUp(a, b[..|b| - 1]);
      assert (a + b)[..|a + b| - 1] == a + b[..|b| - 1];
    }
  }

  lemma {:induction false} MeetingNoRepeats(cmp: Comparator, files: seq<FileMeta>, begin: Option<UserKey>, end: Option<UserKey>)
    requires NoRepeats(files)
    ensures NoRepeats(Meeting(cmp, files, begin, end))
  {
    if files != [] {
      var n := |files| - 1;
      var rest := Meeting(cmp, files[..n], begin, end);
      MeetingNoRepeats(cmp, files[..n], begin, end);
      MeetingHas(cmp, files[..n], begin, end);
      forall i | 0 <= i < |rest| ensures rest[i].number != files[n].number {
        assert rest[i] in files[..n];
      }
    }
  }

  lemma {:induction false} NumbersCount(files: seq<FileMeta>)
    ensures |Numbers(files)| <= |files|
    ensures NoRepeats(files) ==> |Numbers(files)| == |files|
  {
    if files != [] {
      var n := |files| - 1;
      NumbersCount(files[..n]);
      assert files == files[..n] + [files[n]];
      assert Numbers(files) == Numbers(files[..n]) + {files[n].number};
    }
  }

  lemma GatheredMeets(cmp: Comparator, files: seq<FileMeta>, level: nat, begin: Option<UserKey>, end: Option<UserKey>, inputs: seq<FileMeta>,
                      lo: Option<UserKey>, hi: Option<UserKey>)
    requires Gathered(cmp, files, level, begin, end, inputs, lo, hi)
    ensures inputs == Meeting(cmp, files, lo, hi)
  {
    hide Meeting;
  }

  /** Of two choices one of which has the other's numbers, the two have as many files exactly if they are the same. */
  lemma SameCountSameFiles(a: seq<FileMeta>, b: seq<FileMeta>)
    requires NoRepeats(a) && NoRepeats(b) && Numbers(a) <= Numbers(b)
    ensures |a| == |b| <==> Numbers(a) == Numbers(b)
  {
    NumbersCount(a);
    NumbersCount(b);
    if |a| == |b| {
      SubsetSameSize(Numbers(a), Numbers(b));
    }
  }

  lemma SubsetSameSize(a: set<nat>, b: set<nat>)
    requires a <= b && |a| == |b|
    ensures a == b
  {
    assert b == a + (b - a);
    assert |b| == |a| + |b - a|;
  }

  lemma OneLowerPick(cmp: Comparator, v: Version, tables: Tables, from: nat, in0: set<nat>, a: set<nat>, b: set<nat>)
    requires LowerPicked(cmp, v, tables, from, in0, a)
    ensures LowerPicked(cmp, v, tables, from, in0, b) <==> a == b
  {
    hide Overlaps, InLevel;
  }

  /** The upper files that the whole range of a choice overlaps, with their boundary files. */
  ghost predicate Enlarged(cmp: Comparator, files: seq<FileMeta>, level: nat, small: seq<FileMeta>, in1: seq<FileMeta>, large: seq<FileMeta>) {
    exists first, last, key, gathered, added, lo, hi ::
      && FirstOfFiles(cmp, small + in1, first) && LastOfFiles(cmp, small + in1, last)
      && Gathered(cmp, files, level, Some(first.key), Some(last.key), gathered, lo, hi)
      && BoundariesAdded(cmp, files, gathered, large, key, added)
  }

  lemma RangeOfOne(cmp: Comparator, f: FileMeta, smallest: Entry, largest: Entry)
    requires FirstOfFiles(cmp, [f], smallest) && LastOfFiles(cmp, [f], largest)
    ensures smallest == f.smallest && largest == f.largest
  {
  }

  datatype CompactionInputs = CompactionInputs(level: nat, inputs0: seq<FileMeta>, inputs1: seq<FileMeta>, grandparents: seq<FileMeta>)

  predicate BehindPointer(cmp: Comparator, pointer: Option<Entry>, f: FileMeta) {
    pointer.None? || EntryBefore(cmp, pointer.value, f.largest)
  }

  /** f is the first file behind the pointer; if there is none, the turn goes back to the first file. */
  ghost predicate NextInTurn(cmp: Comparator, files: seq<FileMeta>, pointer: Option<Entry>, f: FileMeta) {
    || (exists i :: 0 <= i < |files| && f == files[i] && BehindPointer(cmp, pointer, f) && forall j :: 0 <= j < i ==> !BehindPointer(cmp, pointer, files[j]))
    || (files != [] && f == files[0] && forall g :: g in files ==> !BehindPointer(cmp, pointer, g))
  }

  /** The current version's files, and where each level's next compaction begins. */
  class VersionSet {
    const cmp: Comparator
    const files: seq<seq<FileMeta>>
    const compactionScore: real
    const compactionLevel: nat
    const fileToCompact: Option<FileMeta>
    const fileToCompactLevel: nat
    var compactPointer: seq<Option<Entry>>

    ghost predicate Valid(v: Version, tables: Tables)
      reads this
    {
      && TotalOrder(cmp) && |files| == NUM_LEVELS && |compactPointer| == NUM_LEVELS
      && Lists(cmp, v, tables, files) && LevelsApart(cmp, v, tables) && Distinct(Contents(Files(v), tables))
      && (compactionScore >= 1.0 ==> compactionLevel + 1 < NUM_LEVELS && files[compactionLevel] != [])
      && (fileToCompact.Some? ==> fileToCompactLevel + 1 < NUM_LEVELS && fileToCompact.value in files[fileToCompactLevel])
    }

    lemma LevelInOrder(v: Version, tables: Tables, l: nat)
      requires Valid(v, tables) && l < NUM_LEVELS
      ensures InOrder(cmp, files[l]) && NoFileEndsEarly(cmp, files[l])
    {
      hide TotalOrder, Lists, LevelsApart, Distinct, Describes;
      ListsLevel(cmp, v, tables, files, l);
      forall f | f in files[l] ensures cmp(f.smallest.key, f.largest.key) <= 0 && !EntryBefore(cmp, f.largest, f.smallest) {
        EndsInOrder(cmp, tables, f);
      }
    }

    /** What is chosen so far may be compacted. */
    ghost predicate Chosen(v: Version, tables: Tables, level: nat, in0: seq<FileMeta>, in1: seq<FileMeta>)
      requires Valid(v, tables) && level + 1 < NUM_LEVELS
      reads this
    {
      && in0 != [] && (forall f :: f in in0 ==> f in files[level]) && (forall f :: f in in1 ==> f in files[level + 1])
      && UpperPicked(cmp, v, tables, level, Numbers(in0)) && LowerPicked(cmp, v, tables, level, Numbers(in0), Numbers(in1))
      && Solid(cmp, tables, Numbers(in0) + Numbers(in1))
    }

    lemma ChosenIsPicked(v: Version, tables: Tables, level: nat, in0: seq<FileMeta>, in1: seq<FileMeta>)
      requires Valid(v, tables) && level + 1 < NUM_LEVELS && Chosen(v, tables, level, in0, in1)
      ensures Picked(cmp, v, tables, level, Numbers(in0), Numbers(in1))
    {
      hide TotalOrder, Lists, LevelsApart, Distinct, UpperPicked, LowerPicked, Solid;
      SomeDescribed(cmp, v, tables, files, level, in0);
      ListsLevel(cmp, v, tables, files, level);
      assert in0[0].number in Numbers(in0);
    }

    /** Closes the upper choice under boundary files. */
    method CloseUpper(level: nat, inputs: seq<FileMeta>, ghost rest: set<nat>, ghost v: Version, ghost tables: Tables) returns (in0: seq<FileMeta>)
      requires Valid(v, tables) && level < NUM_LEVELS && (forall f :: f in inputs ==> f in files[level])
      requires Started(cmp, v, tables, level, Numbers(inputs)) && Solid(cmp, tables, Numbers(inputs) + rest)
      ensures (forall f :: f in in0 ==> f in files[level]) && Numbers(inputs) <= Numbers(in0) && in0 != []
      ensures UpperPicked(cmp, v, tables, level, Numbers(in0)) && Solid(cmp, tables, Numbers(in0) + rest)
      ensures exists key, added :: BoundariesAdded(cmp, files[level], inputs, in0, key, added)
    {
      hide TotalOrder, Lists, LevelsApart, Distinct, UpperPicked, Segment, Solid, BoundariesAdded, InOrder;
      LevelInOrder(v, tables, level);
      in0 := AddBoundaryInputs(cmp, files[level], inputs);
      ghost var key, added :| BoundariesAdded(cmp, files[level], inputs, in0, key, added);
      BoundariesComplete(cmp, v, tables, files, level, inputs, rest, in0, key, added);
    }

    /** Takes in what the range of the upper choice overlaps one level further down. */
    method TakeLower(level: nat, in0: seq<FileMeta>, smallest: Entry, largest: Entry, ghost rest: set<nat>, ghost v: Version, ghost tables: Tables)
      returns (in1: seq<FileMeta>)
      requires Valid(v, tables) && level + 1 < NUM_LEVELS && (forall f :: f in in0 ==> f in files[level])
      requires FirstOfFiles(cmp, in0, smallest) && LastOfFiles(cmp, in0, largest) && Solid(cmp, tables, Numbers(in0) + rest)
      ensures (forall f :: f in in1 ==> f in files[level + 1]) && NoRepeats(in1)
      ensures LowerPicked(cmp, v, tables, level, Numbers(in0), Numbers(in1)) && Solid(cmp, tables, Numbers(in0) + rest + Numbers(in1))
    {
      hide TotalOrder, Lists, LevelsApart, Distinct, LowerPicked, Solid, FirstOfFiles, LastOfFiles, Gathered, InOrder;
      LevelInOrder(v, tables, level + 1);
      NoRepeatsIn(v, tables, level + 1);
      in1 := GetOverlappingInputs(cmp, files[level + 1], level + 1, Some(smallest.key), Some(largest.key));
      ghost var lo, hi :| Gathered(cmp, files[level + 1], level + 1, Some(smallest.key), Some(largest.key), in1, lo, hi);
      MeetingNoRepeats(cmp, files[level + 1], lo, hi);
      GatheredMeets(cmp, files[level + 1], level + 1, Some(smallest.key), Some(largest.key), in1, lo, hi);
      LowerIsPicked(cmp, v, tables, files, level, in0, rest, smallest, largest, in1, lo, hi);
    }

    lemma NoRepeatsIn(v: Version, tables: Tables, l: nat)
      requires Valid(v, tables) && l < NUM_LEVELS
      ensures NoRepeats(files[l])
    {
      hide TotalOrder, LevelsApart, Distinct, AllDescribed, SortedBySmallest;
    }

    /** Gathers the upper files that the whole range of a choice overlaps. */
    method GrowUpper(level: nat, in0: seq<FileMeta>, in1: seq<FileMeta>, allStart: Entry, allLimit: Entry, ghost v: Version, ghost tables: Tables)
      returns (expanded: seq<FileMeta>)
      requires Valid(v, tables) && level + 1 < NUM_LEVELS && Chosen(v, tables, level, in0, in1)
      requires FirstOfFiles(cmp, in0 + in1, allStart) && LastOfFiles(cmp, in0 + in1, allLimit)
      ensures Started(cmp, v, tables, level, Numbers(expanded)) && Solid(cmp, tables, Numbers(expanded) + Numbers(in1))
      ensures Numbers(in0) <= Numbers(expanded) && forall f :: f in expanded ==> f in files[level]
      ensures exists lo, hi :: Gathered(cmp, files[level], level, Some(allStart.key), Some(allLimit.key), expanded, lo, hi)
    {
      hide TotalOrder, Lists, LevelsApart, Distinct, UpperPicked, LowerPicked, Segment, Solid, FirstOfFiles, LastOfFiles, Gathered, InOrder;
      LevelInOrder(v, tables, level);
      expanded := GetOverlappingInputs(cmp, files[level], level, Some(allStart.key), Some(allLimit.key));
      ghost var lo, hi :| Gathered(cmp, files[level], level, Some(allStart.key), Some(allLimit.key), expanded, lo, hi);
      UpperIsStarted(cmp, v, tables, files, level, in0, in1, allStart, allLimit, expanded, lo, hi);
    }

    /** A larger upper choice takes in at least the same lower files. */
    lemma LargerChoice(v: Version, tables: Tables, level: nat, in0: seq<FileMeta>, in1: seq<FileMeta>, expanded0: seq<FileMeta>, expanded1: seq<FileMeta>)
      requires Valid(v, tables) && level + 1 < NUM_LEVELS && Chosen(v, tables, level, in0, in1)
      requires Numbers(in0) <= Numbers(expanded0) && LowerPicked(cmp, v, tables, level, Numbers(expanded0), Numbers(expanded1))
      ensures Numbers(in1) <= Numbers(expanded1)
    {
      hide TotalOrder, Lists, LevelsApart, Distinct, UpperPicked, Solid, KeysApart;
      MoreContents(Numbers(in0), Numbers(expanded0), tables);
      forall g | g in Numbers(in1) ensures g in Numbers(expanded1) {
        OverlapsMore(cmp, EntriesOf(tables, g), Contents(Numbers(in0), tables), Contents(Numbers(expanded0), tables));
      }
    }

    /** From the files to begin with to the choice: they are completed by boundary files; small and lower are the choice
        before growing, large is the upper choice after it. It grows exactly if that takes in more upper files and no
        further lower ones and stays below 50 MB. */
    ghost predicate Grown(level: nat, inputs: seq<FileMeta>, small: seq<FileMeta>, large: seq<FileMeta>, lower: seq<FileMeta>, c: CompactionInputs,
                          v: Version, tables: Tables)
      requires level < |files|
      reads this
    {
      && (exists key, added :: BoundariesAdded(cmp, files[level], inputs, small, key, added))
      && LowerPicked(cmp, v, tables, level, Numbers(small), Numbers(c.inputs1)) && Numbers(lower) == Numbers(c.inputs1)
      && (c.inputs1 == [] ==> c.inputs0 == small)
      && (c.inputs1 != [] ==>
            && Enlarged(cmp, files[level], level, small, lower, large)
            && c.inputs0 == if |large| > |small| && TotalFileSize(lower) + TotalFileSize(large) < 25 * 2 * 1024 * 1024
                               && LowerPicked(cmp, v, tables, level, Numbers(large), Numbers(c.inputs1)) then large else small)
    }

    method SetupOtherInputs(level: nat, inputs: seq<FileMeta>, ghost v: Version, ghost tables: Tables)
      returns (c: CompactionInputs, ghost small: seq<FileMeta>, ghost large: seq<FileMeta>, ghost lower: seq<FileMeta>)
      requires Valid(v, tables) && level + 1 < NUM_LEVELS && (forall f :: f in inputs ==> f in files[level])
      requires Started(cmp, v, tables, level, Numbers(inputs)) && Solid(cmp, tables, Numbers(inputs))
      modifies this`compactPointer
      ensures Valid(v, tables) && c.level == level && Numbers(inputs) <= Numbers(c.inputs0)
      ensures Picked(cmp, v, tables, level, Numbers(c.inputs0), Numbers(c.inputs1))
      ensures Grown(level, inputs, small, large, lower, c, v, tables)
      ensures exists largest :: LastOfFiles(cmp, c.inputs0, largest) && compactPointer == old(compactPointer)[level := Some(largest)]
      ensures level + 2 < NUM_LEVELS ==> forall g :: g in Numbers(c.grandparents) <==>
                InLevel(v, level + 2, g) && Overlaps(cmp, EntriesOf(tables, g), Contents(Numbers(c.inputs0) + Numbers(c.inputs1), tables))
    {
      hide TotalOrder, Lists, LevelsApart, Distinct, UpperPicked, LowerPicked, Segment, Solid, FirstOfFiles, LastOfFiles, Gathered, Picked, BoundariesAdded, NoRepeats, Numbers;
      assert Numbers(inputs) + {} == Numbers(inputs);
      var in0 := CloseUpper(level, inputs, {}, v, tables);
      small, large := in0, in0;
      var smallest, largest := GetRange(cmp, in0);
      var in1 := TakeLower(level, in0, smallest, largest, {}, v, tables);
      lower := in1;
      assert Numbers(in0) + {} + Numbers(in1) == Numbers(in0) + Numbers(in1);
      var allStart, allLimit := GetRange(cmp, in0 + in1);
      if in1 != [] {
        var expanded0 := GrowUpper(level, in0, in1, allStart, allLimit, v, tables);
        expanded0 := CloseUpper(level, expanded0, Numbers(in1), v, tables);
        large := expanded0;
        var inputs1Size := TotalFileSize(in1);
        var expanded0Size := TotalFileSize(expanded0);
        if |expanded0| > |in0| && inputs1Size + expanded0Size < EXPANDED_COMPACTION_BYTE_SIZE_LIMIT {
          var newStart, newLimit := GetRange(cmp, expanded0);
          var expanded1 := TakeLower(level, expanded0, newStart, newLimit, Numbers(in1), v, tables);
          LargerChoice(v, tables, level, in0, in1, expanded0, expanded1);
          SameCountSameFiles(in1, expanded1);
          OneLowerPick(cmp, v, tables, level, Numbers(expanded0), Numbers(expanded1), Numbers(in1));
          if |expanded1| == |in1| {
            assert Numbers(expanded0) + Numbers(in1) + Numbers(expanded1) == Numbers(expanded0) + Numbers(expanded1);
            smallest, largest := newStart, newLimit;
            in0, in1 := expanded0, expanded1;
            allStart, allLimit := GetRange(cmp, in0 + in1);
          }
        }
      }
      ChosenIsPicked(v, tables, level, in0, in1);
      c := CompactionInputs(level, in0, in1, []);
      if level + 2 < NUM_LEVELS {
        var grandparents := Grandparents(level, in0, in1, allStart, allLimit, v, tables);
        c := CompactionInputs(level, in0, in1, grandparents);
      }
      compactPointer := compactPointer[level := Some(largest)];
    }

    method Grandparents(level: nat, in0: seq<FileMeta>, in1: seq<FileMeta>, allStart: Entry, allLimit: Entry, ghost v: Version, ghost tables: Tables)
      returns (grandparents: seq<FileMeta>)
      requires Valid(v, tables) && level + 2 < NUM_LEVELS && Chosen(v, tables, level, in0, in1)
      requires FirstOfFiles(cmp, in0 + in1, allStart) && LastOfFiles(cmp, in0 + in1, allLimit)
      ensures forall g :: g in Numbers(grandparents) <==>
                InLevel(v, level + 2, g) && Overlaps(cmp, EntriesOf(tables, g), Contents(Numbers(in0) + Numbers(in1), tables))
    {
      hide TotalOrder, Lists, LevelsApart, Distinct, UpperPicked, LowerPicked, Segment, Solid, FirstOfFiles, LastOfFiles, KeysApart, InOrder, IsFirst, IsLast, Reached;
      LevelInOrder(v, tables, level + 2);
      grandparents := GetOverlappingInputs(cmp, files[level + 2], level + 2, Some(allStart.key), Some(allLimit.key));
      SmallestAndLargest(cmp, v, tables, files, level, in0, in1, allStart, allLimit);
      GatheredByRange(cmp, v, tables, files, level + 2, Contents(Numbers(in0) + Numbers(in1), tables), allStart, allLimit);
    }

    /** The first file of a level that ends behind the level's compaction pointer, or else the first file. */
    method FirstFile(level: nat) returns (f: FileMeta)
      requires level < |files| && level < |compactPointer| && files[level] != []
      ensures f in files[level] && NextInTurn(cmp, files[level], compactPointer[level], f)
    {
      var i := 0;
      while i < |files[level]|
        invariant i <= |files[level]|
        invariant forall j :: 0 <= j < i ==> !BehindPointer(cmp, compactPointer[level], files[level][j])
      {
        if compactPointer[level].None? || EntryBefore(cmp, compactPointer[level].value, files[level][i].largest) {
          return files[level][i];
        }
        i := i + 1;
      }
      return files[level][0];
    }

    /** At level 0 everything is gathered that overlaps the file, further down it is alone. */
    ghost predicate StartsWith(f: FileMeta, level: nat, start: seq<FileMeta>)
      requires level < |files|
      reads this
    {
      if level > 0 then start == [f]
      else exists lo, hi :: Gathered(cmp, files[0], 0, Some(f.smallest.key), Some(f.largest.key), start, lo, hi)
    }

    /** A file to begin with: by the size of a level, or by the number of seeks. */
    method PickCompaction(ghost v: Version, ghost tables: Tables) returns (c: Option<CompactionInputs>, ghost start: seq<FileMeta>)
      requires Valid(v, tables)
      modifies this`compactPointer
      ensures Valid(v, tables) && (c.None? <==> compactionScore < 1.0 && fileToCompact.None?)
      ensures c.None? ==> compactPointer == old(compactPointer)
      ensures c.Some? ==> Picked(cmp, v, tables, c.value.level, Numbers(c.value.inputs0), Numbers(c.value.inputs1))
      ensures c.Some? ==> c.value.level == if compactionScore >= 1.0 then compactionLevel else fileToCompactLevel
      ensures c.Some? && compactionScore < 1.0 ==> StartsWith(fileToCompact.value, c.value.level, start) && fileToCompact.value.number in Numbers(c.value.inputs0)
      ensures c.Some? && compactionScore >= 1.0 ==>
                exists f :: NextInTurn(cmp, files[compactionLevel], old(compactPointer)[compactionLevel], f)
                            && StartsWith(f, c.value.level, start) && f.number in Numbers(c.value.inputs0)
      ensures c.Some? ==> exists small, large, lower :: Grown(c.value.level, start, small, large, lower, c.value, v, tables)
      ensures c.Some? ==> exists largest :: LastOfFiles(cmp, c.value.inputs0, largest) && compactPointer == old(compactPointer)[c.value.level := Some(largest)]
    {
      hide TotalOrder, Lists, LevelsApart, Distinct, UpperPicked, Segment, Solid, Picked;
      var level: nat;
      var f: FileMeta;
      if compactionScore >= 1.0 {
        level := compactionLevel;
        f := FirstFile(level);
      } else if fileToCompact.Some? {
        level := fileToCompactLevel;
        f := fileToCompact.value;
      } else {
        return None, [];
      }
      var inputs := [f];
      ListsLevel(cmp, v, tables, files, level);
      OneFileIsSolid(cmp, tables, f.number);
      assert Numbers(inputs) == {f.number};
      if level == 0 {
        inputs := StartAtLevel0(f, v, tables);
      } else {
        OneFileIsSegment(cmp, v, tables, level, f.number);
      }
      start := inputs;
      var r, _, _, _ := SetupOtherInputs(level, inputs, v, tables);
      c := Some(r);
    }

    /** Level-0 files may overlap each other: everything that overlaps the first one is picked up. */
    method StartAtLevel0(f: FileMeta, ghost v: Version, ghost tables: Tables) returns (inputs: seq<FileMeta>)
      requires Valid(v, tables) && f in files[0]
      ensures (forall g :: g in inputs ==> g in files[0]) && f.number in Numbers(inputs) && StartsWith(f, 0, inputs)
      ensures Started(cmp, v, tables, 0, Numbers(inputs)) && Solid(cmp, tables, Numbers(inputs))
    {
      hide TotalOrder, Lists, LevelsApart, Distinct, UpperPicked, Segment, Solid, FirstOfFiles, LastOfFiles, Gathered, InOrder;
      LevelInOrder(v, tables, 0);
      var smallest, largest := GetRange(cmp, [f]);
      RangeOfOne(cmp, f, smallest, largest);
      inputs := GetOverlappingInputs(cmp, files[0], 0, Some(smallest.key), Some(largest.key));
      ghost var lo, hi :| Gathered(cmp, files[0], 0, Some(smallest.key), Some(largest.key), inputs, lo, hi);
      OneFileIsSolid(cmp, tables, f.number);
      assert Numbers([f]) + Numbers([]) == {f.number};
      assert [f] + [] == [f];
      UpperIsStarted(cmp, v, tables, files, 0, [f], [], smallest, largest, inputs, lo, hi);
      assert Numbers(inputs) + Numbers([]) == Numbers(inputs);
    }
  }
}
