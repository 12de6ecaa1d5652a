/** What the inputs of a compaction look like, as sets of tables, and when they are safe. */
module Picks {
  import opened DbFormat
  import opened Entries
  import opened Versions
  import opened VersionEdits

  // ---- First and last entries ---------------------------------------------

  ghost predicate IsFirst(cmp: Comparator, es: set<Entry>, e: Entry) {
    e in es && forall x :: x in es ==> x == e || EntryBefore(cmp, e, x)
  }

  ghost predicate IsLast(cmp: Comparator, es: set<Entry>, e: Entry) {
    e in es && forall x :: x in es ==> x == e || EntryBefore(cmp, x, e)
  }

  lemma BeforeTransitive(cmp: Comparator, a: Entry, b: Entry, c: Entry)
    requires TotalOrder(cmp) && EntryBefore(cmp, a, b) && EntryBefore(cmp, b, c)
    ensures EntryBefore(cmp, a, c)
  {
  }

  /** In internal-key order user keys never go down; equal ones go with falling sequence numbers. */
  lemma BeforeOrdersKeys(cmp: Comparator, a: Entry, b: Entry)
    requires TotalOrder(cmp) && (a == b || EntryBefore(cmp, a, b))
    ensures cmp(a.key, b.key) <= 0 && (a.key == b.key ==> a == b || a.sequence > b.sequence)
  {
    assert cmp(a.key, a.key) == 0;
  }

  lemma {:induction false} FirstAndLastExist(cmp: Comparator, es: set<Entry>) returns (first: Entry, last: Entry)
    requires TotalOrder(cmp) && Distinct(es) && es != {}
    ensures IsFirst(cmp, es, first) && IsLast(cmp, es, last)
    decreases |es|
  {
    hide TotalOrder;
    var e :| e in es;
    first, last := e, e;
    var rest := es - {e};
    if rest != {} {
      var f, l := FirstAndLastExist(cmp, rest);
      OneIsFirst(cmp, e, f);
      OneIsFirst(cmp, e, l);
      first := if EntryBefore(cmp, e, f) then e else f;
      last := if EntryBefore(cmp, e, l) then l else e;
      forall x | x in es ensures x == first || EntryBefore(cmp, first, x) {
        if x != e && first == e && x != f { BeforeTransitive(cmp, e, f, x); }
      }
      forall x | x in es ensures x == last || EntryBefore(cmp, x, last) {
        if x != e && last == e && x != l { BeforeTransitive(cmp, x, l, e); }
      }
    } else {
      assert es == {e};
    }
  }

  lemma OneIsFirst(cmp: Comparator, a: Entry, b: Entry)
    requires TotalOrder(cmp) && (a.key != b.key || a.sequence != b.sequence)
    ensures EntryBefore(cmp, a, b) || EntryBefore(cmp, b, a)
  {
  }

  // ---- Picked inputs -------------------------------------------------------

  ghost predicate Overlaps(cmp: Comparator, a: set<Entry>, b: set<Entry>) {
    !KeysApart(cmp, a, b)
  }

  ghost predicate ShareKey(a: set<Entry>, b: set<Entry>) {
    exists e, x :: e in a && x in b && e.key == x.key
  }

  /** At level 0 everything is picked that overlaps what is picked. Further down what stays is in front of
      what is picked, or behind it without sharing a key, or a file like one that is picked. */
  ghost predicate UpperPicked(cmp: Comparator, v: Version, tables: Tables, from: nat, in0: set<nat>) {
    forall g :: InLevel(v, from, g) && g !in in0 ==>
      if from == 0 then !Overlaps(cmp, EntriesOf(tables, g), Contents(in0, tables))
      else
        || (exists m :: m in in0 && EntriesOf(tables, m) == EntriesOf(tables, g))
        || AllBefore(cmp, EntriesOf(tables, g), Contents(in0, tables))
        || (AllBefore(cmp, Contents(in0, tables), EntriesOf(tables, g)) && !ShareKey(Contents(in0, tables), EntriesOf(tables, g)))
  }

  /** From the output level exactly the files are picked whose user keys overlap. */
  ghost predicate LowerPicked(cmp: Comparator, v: Version, tables: Tables, from: nat, in0: set<nat>, in1: set<nat>) {
    forall g :: g in in1 <==> InLevel(v, from + 1, g) && Overlaps(cmp, EntriesOf(tables, g), Contents(in0, tables))
  }

  ghost predicate Picked(cmp: Comparator, v: Version, tables: Tables, from: nat, in0: set<nat>, in1: set<nat>) {
    && from + 1 < |v.levels| && in0 != {} && in0 <= v.levels[from]
    && UpperPicked(cmp, v, tables, from, in0) && LowerPicked(cmp, v, tables, from, in0, in1)
    && Solid(cmp, tables, in0 + in1)
  }

  /** A file that stays in the output level begins with the user key on which one that is picked ends. */
  ghost predicate BoundaryLeft(cmp: Comparator, v: Version, tables: Tables, from: nat, in1: set<nat>) {
    exists f, g :: f in in1 && InLevel(v, from + 1, g) && g !in in1
                   && BeginsWhereEnds(cmp, EntriesOf(tables, f), EntriesOf(tables, g))
  }

  ghost predicate BeginsWhereEnds(cmp: Comparator, f: set<Entry>, g: set<Entry>) {
    exists e, x :: IsLast(cmp, f, e) && IsFirst(cmp, g, x) && e.key == x.key
  }

  /** No file two and more levels below the inputs spans the key. */
  ghost function BaseOf(cmp: Comparator, v: Version, tables: Tables, from: nat): UserKey -> bool {
    k => forall i, f :: i >= from + 2 && InLevel(v, i, f) ==> !Spans(cmp, EntriesOf(tables, f), k)
  }

  lemma BaseIsSound(cmp: Comparator, v: Version, tables: Tables, from: nat, inputs: set<Entry>)
    requires TotalOrder(cmp)
    ensures BaseSound(v, tables, from, inputs, BaseOf(cmp, v, tables, from))
  {
    forall i, f, x, d | i >= from + 2 && InLevel(v, i, f) && x in EntriesOf(tables, f) && d in inputs && BaseOf(cmp, v, tables, from)(d.key)
      ensures x.key != d.key
    {
      if x.key == d.key {
        assert cmp(x.key, d.key) == 0;
        assert Spans(cmp, EntriesOf(tables, f), d.key);
      }
    }
  }

  // ---- The upper level -----------------------------------------------------

  lemma UpperPickedIsSafe(cmp: Comparator, v: Version, tables: Tables, from: nat, in0: set<nat>)
    requires TotalOrder(cmp) && LevelsApart(cmp, v, tables)
    requires from < |v.levels| && in0 <= v.levels[from] && UpperPicked(cmp, v, tables, from, in0)
    ensures UpperSafe(v, tables, from, in0)
  {
    hide LevelsApart, UpperPicked;
    forall e, x | e in Contents(v.levels[from] - in0, tables) && x in Contents(in0, tables) && e.key == x.key && e.sequence < x.sequence
      ensures from > 0 && x in Contents(v.levels[from] - in0, tables)
    {
      var g :| g in v.levels[from] - in0 && e in EntriesOf(tables, g);
      var f :| f in in0 && x in EntriesOf(tables, f);
      assert InLevel(v, from, g) && InLevel(v, from, f);
      UpperSibling(cmp, v, tables, from, in0, g, f, e, x);
      SingleContents(g, tables);
      MoreContents({g}, v.levels[from] - in0, tables);
    }
  }

  lemma UpperSibling(cmp: Comparator, v: Version, tables: Tables, from: nat, in0: set<nat>, g: nat, f: nat, e: Entry, x: Entry)
    requires TotalOrder(cmp) && LevelsApart(cmp, v, tables) && UpperPicked(cmp, v, tables, from, in0)
    requires InLevel(v, from, g) && g !in in0 && InLevel(v, from, f) && f in in0 && (forall m :: m in in0 ==> InLevel(v, from, m))
    requires e in EntriesOf(tables, g) && x in EntriesOf(tables, f) && e.key == x.key && e.sequence < x.sequence
    ensures from > 0 && x in EntriesOf(tables, g)
  {
    hide NoEmptyFiles, PairsApart;
    assert x in Contents(in0, tables);
    if from == 0 {
      KeysApartShareNothing(cmp, EntriesOf(tables, g), Contents(in0, tables), e, x);
      assert false;
    } else if m :| m in in0 && EntriesOf(tables, m) == EntriesOf(tables, g) {
      TwinSharesNothing(cmp, v, tables, from, g, m, f, e, x);
    } else if AllBefore(cmp, EntriesOf(tables, g), Contents(in0, tables)) {
      BeforeOrdersKeys(cmp, e, x);
      assert false;
    } else {
      assert false;
    }
  }

  /** A file that has a twin in its level shares no key with the other files there. */
  lemma TwinSharesNothing(cmp: Comparator, v: Version, tables: Tables, i: nat, g: nat, m: nat, f: nat, e: Entry, x: Entry)
    requires TotalOrder(cmp) && TwinsAlone(cmp, v, tables) && i > 0
    requires InLevel(v, i, g) && InLevel(v, i, m) && InLevel(v, i, f) && g != m && EntriesOf(tables, m) == EntriesOf(tables, g)
    requires e in EntriesOf(tables, g) && x in EntriesOf(tables, f) && e.key == x.key
    ensures EntriesOf(tables, f) == EntriesOf(tables, g)
  {
    if EntriesOf(tables, f) != EntriesOf(tables, g) {
      KeysApartShareNothing(cmp, EntriesOf(tables, g), EntriesOf(tables, f), e, x);
      assert false;
    }
  }

  // ---- The output level ----------------------------------------------------

  /** Of two files of a level, one picked for its range and one not, either lies before the other. */
  lemma PickedBesideLeft(cmp: Comparator, v: Version, tables: Tables, from: nat, in0: set<nat>, in1: set<nat>, f: nat, g: nat)
    requires LevelsApart(cmp, v, tables) && LowerPicked(cmp, v, tables, from, in0, in1)
    requires f in in1 && InLevel(v, from + 1, g) && g !in in1
    ensures InLevel(v, from + 1, f) && Apart(cmp, EntriesOf(tables, f), EntriesOf(tables, g))
    ensures KeysApart(cmp, EntriesOf(tables, g), Contents(in0, tables))
  {
    hide Apart, KeysApart, TwinsAlone, NoEmptyFiles;
  }

  /** Neighbours that share a user key meet in it. */
  lemma MeetInKey(cmp: Comparator, f: set<Entry>, g: set<Entry>, e: Entry, x: Entry)
    requires TotalOrder(cmp) && Distinct(f) && Distinct(g) && AllBefore(cmp, f, g)
    requires e in f && x in g && e.key == x.key
    ensures BeginsWhereEnds(cmp, f, g)
  {
    hide TotalOrder;
    var _, last := FirstAndLastExist(cmp, f);
    var first, _ := FirstAndLastExist(cmp, g);
    BeforeOrdersKeys(cmp, e, last);
    BeforeOrdersKeys(cmp, last, first);
    BeforeOrdersKeys(cmp, first, x);
    SqueezedKeys(cmp, e.key, last.key, first.key);
  }

  lemma SqueezedKeys(cmp: Comparator, k: UserKey, a: UserKey, b: UserKey)
    requires TotalOrder(cmp) && cmp(k, a) <= 0 && cmp(a, b) <= 0 && cmp(b, k) <= 0
    ensures a == k && b == k
  {
    assert cmp(k, k) == 0;
  }

  lemma SameKeys(cmp: Comparator, k: UserKey, a: UserKey)
    requires TotalOrder(cmp) && cmp(k, a) <= 0 && cmp(a, k) <= 0
    ensures a == k
  {
  }

  /** Two files of one user key each, the same for both, overlap the same ranges. */
  lemma OneKeyFiles(cmp: Comparator, f: set<Entry>, g: set<Entry>, k: UserKey, r: set<Entry>)
    requires f != {} && g != {} && (forall e :: e in f ==> e.key == k) && (forall e :: e in g ==> e.key == k)
    ensures KeysApart(cmp, f, r) <==> KeysApart(cmp, g, r)
  {
    var e, x :| e in f && x in g;
  }

  /** A file that ends where the other begins does not lie behind it, unless both have one key only. */
  lemma EndsBeforeBegins(cmp: Comparator, f: set<Entry>, g: set<Entry>, last: Entry, first: Entry)
    requires TotalOrder(cmp) && IsLast(cmp, f, last) && IsFirst(cmp, g, first) && last.key == first.key
    requires AllBefore(cmp, g, f)
    ensures forall e :: e in f + g ==> e.key == last.key
  {
    hide TotalOrder;
    forall e | e in f ensures e.key == last.key {
      BeforeOrdersKeys(cmp, first, e);
      BeforeOrdersKeys(cmp, e, last);
      SameKeys(cmp, last.key, e.key);
    }
    forall x | x in g ensures x.key == last.key {
      BeforeOrdersKeys(cmp, first, x);
      BeforeOrdersKeys(cmp, x, last);
      SameKeys(cmp, last.key, x.key);
    }
  }

  lemma BoundaryIsOlder(cmp: Comparator, v: Version, tables: Tables, from: nat, in0: set<nat>, in1: set<nat>, f: nat, g: nat)
    requires TotalOrder(cmp) && LevelsApart(cmp, v, tables) && from + 1 < |v.levels| && LowerPicked(cmp, v, tables, from, in0, in1)
    requires f in in1 && InLevel(v, from + 1, g) && g !in in1 && BeginsWhereEnds(cmp, EntriesOf(tables, f), EntriesOf(tables, g))
    ensures !LowerSafe(v, tables, from, in0, in1)
  {
    hide TotalOrder, LevelsApart, LowerPicked;
    var e, x :| IsLast(cmp, EntriesOf(tables, f), e) && IsFirst(cmp, EntriesOf(tables, g), x) && e.key == x.key;
    PickedBesideLeft(cmp, v, tables, from, in0, in1, f, g);
    if AllBefore(cmp, EntriesOf(tables, f), EntriesOf(tables, g)) {
      assert e in Contents(in0 + in1, tables) && x in Contents(v.levels[from + 1] - in1, tables);
      BeforeOrdersKeys(cmp, e, x);
      NotBeforeItself(cmp, e);
    } else {
      EndsBeforeBegins(cmp, EntriesOf(tables, f), EntriesOf(tables, g), e, x);
      OneKeyFiles(cmp, EntriesOf(tables, f), EntriesOf(tables, g), e.key, Contents(in0, tables));
      PickedOverlaps(cmp, v, tables, from, in0, in1, f);
      assert false;
    }
  }

  lemma NotBeforeItself(cmp: Comparator, e: Entry)
    requires TotalOrder(cmp)
    ensures !EntryBefore(cmp, e, e)
  {
    assert cmp(e.key, e.key) == 0;
  }

  lemma PickedOverlaps(cmp: Comparator, v: Version, tables: Tables, from: nat, in0: set<nat>, in1: set<nat>, f: nat)
    requires LowerPicked(cmp, v, tables, from, in0, in1) && f in in1
    ensures !KeysApart(cmp, EntriesOf(tables, f), Contents(in0, tables))
  {
  }

  lemma OlderIsBoundary(cmp: Comparator, v: Version, tables: Tables, from: nat, in0: set<nat>, in1: set<nat>, e: Entry, x: Entry)
    requires TotalOrder(cmp) && LevelsApart(cmp, v, tables) && from + 1 < |v.levels| && LowerPicked(cmp, v, tables, from, in0, in1)
    requires Distinct(Contents(Files(v), tables)) && in0 <= v.levels[from]
    requires e in Contents(v.levels[from + 1] - in1, tables) && x in Contents(in0 + in1, tables) && e.key == x.key && e.sequence < x.sequence
    ensures BoundaryLeft(cmp, v, tables, from, in1)
  {
    hide TotalOrder, LevelsApart, LowerPicked, Apart, Distinct, BeginsWhereEnds;
    var g :| g in v.levels[from + 1] - in1 && e in EntriesOf(tables, g);
    var f :| f in in0 + in1 && x in EntriesOf(tables, f);
    assert InLevel(v, from + 1, g);
    if f in in0 {
      LeftOverlapsNothing(cmp, v, tables, from, in0, in1, g);
      assert x in Contents(in0, tables);
      KeysApartShareNothing(cmp, EntriesOf(tables, g), Contents(in0, tables), e, x);
    } else {
      PickedBesideLeft(cmp, v, tables, from, in0, in1, f, g);
      NewerInFront(cmp, EntriesOf(tables, f), EntriesOf(tables, g), x, e);
      FileDistinct(v, tables, from + 1, f);
      FileDistinct(v, tables, from + 1, g);
      MeetInKey(cmp, EntriesOf(tables, f), EntriesOf(tables, g), x, e);
    }
  }

  lemma LeftOverlapsNothing(cmp: Comparator, v: Version, tables: Tables, from: nat, in0: set<nat>, in1: set<nat>, g: nat)
    requires LowerPicked(cmp, v, tables, from, in0, in1) && InLevel(v, from + 1, g) && g !in in1
    ensures KeysApart(cmp, EntriesOf(tables, g), Contents(in0, tables))
  {
  }

  lemma NewerInFront(cmp: Comparator, f: set<Entry>, g: set<Entry>, x: Entry, e: Entry)
    requires TotalOrder(cmp) && Apart(cmp, f, g) && x in f && e in g && x.key == e.key && x.sequence > e.sequence
    ensures AllBefore(cmp, f, g)
  {
    if AllBefore(cmp, g, f) {
      BeforeOrdersKeys(cmp, e, x);
    }
  }

  lemma FileDistinct(v: Version, tables: Tables, i: nat, f: nat)
    requires Distinct(Contents(Files(v), tables)) && InLevel(v, i, f)
    ensures Distinct(EntriesOf(tables, f))
  {
    FilesOf(v, f);
    SingleContents(f, tables);
    MoreContents({f}, Files(v), tables);
  }

  /** For inputs picked as the program picks them: what stays in the output level is never older than the
      inputs exactly when no file that stays begins with the user key on which a picked one ends. */
  lemma LowerSafeIff(cmp: Comparator, v: Version, tables: Tables, from: nat, in0: set<nat>, in1: set<nat>)
    requires TotalOrder(cmp) && LevelsApart(cmp, v, tables) && Distinct(Contents(Files(v), tables))
    requires Picked(cmp, v, tables, from, in0, in1)
    ensures LowerSafe(v, tables, from, in0, in1) <==> !BoundaryLeft(cmp, v, tables, from, in1)
  {
    hide TotalOrder, LevelsApart, LowerPicked, UpperPicked, Solid, Distinct, BeginsWhereEnds;
    if f, g :| f in in1 && InLevel(v, from + 1, g) && g !in in1 && BeginsWhereEnds(cmp, EntriesOf(tables, f), EntriesOf(tables, g)) {
      BoundaryIsOlder(cmp, v, tables, from, in0, in1, f, g);
    }
    if !LowerSafe(v, tables, from, in0, in1) {
      var e, x :| e in Contents(v.levels[from + 1] - in1, tables) && x in Contents(in0 + in1, tables) && e.key == x.key && e.sequence < x.sequence;
      OlderIsBoundary(cmp, v, tables, from, in0, in1, e, x);
    }
  }

  // ---- Before or behind all inputs ----------------------------------------

  /** A file that is clear of a range, next to one that overlaps the range, lies on the same side of both. */
  lemma SameSide(cmp: Comparator, g: set<Entry>, f: set<Entry>, r: set<Entry>)
    requires TotalOrder(cmp) && g != {} && !KeysApart(cmp, f, r) && Apart(cmp, g, f)
    ensures KeysBefore(cmp, g, r) ==> AllBefore(cmp, g, f)
    ensures KeysBefore(cmp, r, g) ==> AllBefore(cmp, f, g)
  {
    hide TotalOrder;
    var y :| y in g;
    if KeysBefore(cmp, g, r) && AllBefore(cmp, f, g) {
      var a, b :| a in f && b in r && cmp(a.key, b.key) >= 0;
      BeforeOrdersKeys(cmp, a, y);
      NoLoop(cmp, a.key, y.key, b.key);
    }
    if KeysBefore(cmp, r, g) && AllBefore(cmp, g, f) {
      var a, b :| a in r && b in f && cmp(a.key, b.key) >= 0;
      BeforeOrdersKeys(cmp, y, b);
      NoLoop2(cmp, b.key, a.key, y.key);
    }
  }

  lemma NoLoop(cmp: Comparator, a: UserKey, y: UserKey, b: UserKey)
    requires TotalOrder(cmp) && cmp(a, y) <= 0 && cmp(y, b) < 0
    ensures cmp(a, b) < 0
  {
    assert a == y || cmp(a, y) < 0;
  }

  lemma NoLoop2(cmp: Comparator, b: UserKey, a: UserKey, y: UserKey)
    requires TotalOrder(cmp) && cmp(a, b) >= 0 && cmp(a, y) < 0
    ensures cmp(y, b) > 0
  {
    assert a == b || cmp(b, a) < 0;
  }

  lemma KeysSameSide(cmp: Comparator, g: set<Entry>, f: set<Entry>, r: set<Entry>)
    requires TotalOrder(cmp) && g != {} && !KeysApart(cmp, f, r) && KeysApart(cmp, g, f)
    ensures KeysBefore(cmp, g, r) ==> KeysBefore(cmp, g, f)
    ensures KeysBefore(cmp, r, g) ==> KeysBefore(cmp, f, g)
  {
    hide TotalOrder;
    var y :| y in g;
    if KeysBefore(cmp, g, r) && KeysBefore(cmp, f, g) {
      var a, b :| a in f && b in r && cmp(a.key, b.key) >= 0;
      NoLoop(cmp, a.key, y.key, b.key);
    }
    if KeysBefore(cmp, r, g) && KeysBefore(cmp, g, f) {
      var a, b :| a in r && b in f && cmp(a.key, b.key) >= 0;
      NoLoop2(cmp, b.key, a.key, y.key);
    }
  }

  lemma ContentsBeside(cmp: Comparator, tables: Tables, g: set<Entry>, files: set<nat>)
    ensures (forall f :: f in files ==> AllBefore(cmp, g, EntriesOf(tables, f))) ==> AllBefore(cmp, g, Contents(files, tables))
    ensures (forall f :: f in files ==> AllBefore(cmp, EntriesOf(tables, f), g)) ==> AllBefore(cmp, Contents(files, tables), g)
    ensures (forall f :: f in files ==> KeysBefore(cmp, g, EntriesOf(tables, f))) ==> KeysBefore(cmp, g, Contents(files, tables))
    ensures (forall f :: f in files ==> KeysBefore(cmp, EntriesOf(tables, f), g)) ==> KeysBefore(cmp, Contents(files, tables), g)
  {
  }

  lemma PartsBeside(cmp: Comparator, tables: Tables, g: set<Entry>, files: set<nat>, f: nat)
    requires f in files
    ensures AllBefore(cmp, g, Contents(files, tables)) ==> AllBefore(cmp, g, EntriesOf(tables, f))
    ensures AllBefore(cmp, Contents(files, tables), g) ==> AllBefore(cmp, EntriesOf(tables, f), g)
    ensures KeysBefore(cmp, g, Contents(files, tables)) ==> KeysBefore(cmp, g, EntriesOf(tables, f))
    ensures KeysBefore(cmp, Contents(files, tables), g) ==> KeysBefore(cmp, EntriesOf(tables, f), g)
  {
    SingleContents(f, tables);
    MoreContents({f}, files, tables);
  }

  lemma KeysBeforeIsBefore(cmp: Comparator, a: set<Entry>, b: set<Entry>)
    requires KeysBefore(cmp, a, b)
    ensures AllBefore(cmp, a, b)
  {
  }

  /** A file that stays in the output level lies wholly before or behind the inputs. */
  lemma LeftIsBeside(cmp: Comparator, v: Version, tables: Tables, from: nat, in0: set<nat>, in1: set<nat>, g: nat)
    requires TotalOrder(cmp) && LevelsApart(cmp, v, tables) && LowerPicked(cmp, v, tables, from, in0, in1)
    requires InLevel(v, from + 1, g) && g !in in1
    ensures Apart(cmp, EntriesOf(tables, g), Contents(in0 + in1, tables))
  {
    hide TotalOrder, LowerPicked, LevelsApart, AllBefore, KeysBefore;
    LeftOverlapsNothing(cmp, v, tables, from, in0, in1, g);
    assert EntriesOf(tables, g) != {} by { FileNotEmpty(cmp, v, tables, from + 1, g); }
    var before := KeysBefore(cmp, EntriesOf(tables, g), Contents(in0, tables));
    if before {
      KeysBeforeIsBefore(cmp, EntriesOf(tables, g), Contents(in0, tables));
    } else {
      KeysBeforeIsBefore(cmp, Contents(in0, tables), EntriesOf(tables, g));
    }
    forall f | f in in0 + in1
      ensures if before then AllBefore(cmp, EntriesOf(tables, g), EntriesOf(tables, f)) else AllBefore(cmp, EntriesOf(tables, f), EntriesOf(tables, g))
    {
      if f in in0 {
        PartsBeside(cmp, tables, EntriesOf(tables, g), in0, f);
      } else {
        PickedBesideLeft(cmp, v, tables, from, in0, in1, f, g);
        PickedOverlaps(cmp, v, tables, from, in0, in1, f);
        SameSide(cmp, EntriesOf(tables, g), EntriesOf(tables, f), Contents(in0, tables));
      }
    }
    ContentsBeside(cmp, tables, EntriesOf(tables, g), in0 + in1);
  }

  lemma FileNotEmpty(cmp: Comparator, v: Version, tables: Tables, i: nat, g: nat)
    requires LevelsApart(cmp, v, tables) && InLevel(v, i, g)
    ensures EntriesOf(tables, g) != {}
  {
  }

  lemma TwinIsBeside(cmp: Comparator, v: Version, tables: Tables, from: nat, in0: set<nat>, in1: set<nat>, g: nat, h: nat)
    requires TotalOrder(cmp) && LevelsApart(cmp, v, tables) && LowerPicked(cmp, v, tables, from, in0, in1)
    requires InLevel(v, from + 1, g) && g !in in1 && InLevel(v, from + 1, h) && g != h && EntriesOf(tables, g) == EntriesOf(tables, h)
    ensures KeysApart(cmp, EntriesOf(tables, g), Contents(in0 + in1, tables))
  {
    hide TotalOrder, LowerPicked, LevelsApart, KeysBefore;
    LeftOverlapsNothing(cmp, v, tables, from, in0, in1, g);
    FileNotEmpty(cmp, v, tables, from + 1, g);
    var before := KeysBefore(cmp, EntriesOf(tables, g), Contents(in0, tables));
    forall f | f in in0 + in1
      ensures if before then KeysBefore(cmp, EntriesOf(tables, g), EntriesOf(tables, f)) else KeysBefore(cmp, EntriesOf(tables, f), EntriesOf(tables, g))
    {
      if f in in0 {
        PartsBeside(cmp, tables, EntriesOf(tables, g), in0, f);
      } else {
        PickedOverlaps(cmp, v, tables, from, in0, in1, f);
        PickedBesideLeft(cmp, v, tables, from, in0, in1, f, g);
        TwinApart(cmp, v, tables, from + 1, g, h, f);
        KeysSameSide(cmp, EntriesOf(tables, g), EntriesOf(tables, f), Contents(in0, tables));
      }
    }
    ContentsBeside(cmp, tables, EntriesOf(tables, g), in0 + in1);
  }

  lemma TwinApart(cmp: Comparator, v: Version, tables: Tables, i: nat, g: nat, h: nat, f: nat)
    requires TotalOrder(cmp) && LevelsApart(cmp, v, tables) && i > 0 && InLevel(v, i, g) && InLevel(v, i, h) && InLevel(v, i, f) && g != h
    requires EntriesOf(tables, g) == EntriesOf(tables, h) && Apart(cmp, EntriesOf(tables, f), EntriesOf(tables, g))
    ensures KeysApart(cmp, EntriesOf(tables, g), EntriesOf(tables, f))
  {
    hide Apart, KeysApart;
    NotApartFromItself(cmp, EntriesOf(tables, g));
  }

  lemma HullIsFree(cmp: Comparator, v: Version, tables: Tables, from: nat, in0: set<nat>, in1: set<nat>)
    requires TotalOrder(cmp) && LevelsApart(cmp, v, tables) && LowerPicked(cmp, v, tables, from, in0, in1)
    ensures HullFree(cmp, v, tables, from, in1, Contents(in0 + in1, tables))
  {
    hide TotalOrder, LowerPicked, LevelsApart, Apart, KeysApart;
    forall g | InLevel(v, from + 1, g) && g !in in1 {
      LeftIsBeside(cmp, v, tables, from, in0, in1, g);
    }
    forall g, h | InLevel(v, from + 1, g) && InLevel(v, from + 1, h) && g != h && g !in in1 && EntriesOf(tables, g) == EntriesOf(tables, h) {
      TwinIsBeside(cmp, v, tables, from, in0, in1, g, h);
    }
  }

  /** Inputs picked as the program picks them are safe, unless a boundary file is left behind. */
  lemma PickedIsGood(cmp: Comparator, v: Version, tables: Tables, from: nat, in0: set<nat>, in1: set<nat>)
    requires TotalOrder(cmp) && LevelsApart(cmp, v, tables) && Distinct(Contents(Files(v), tables))
    requires Picked(cmp, v, tables, from, in0, in1) && !BoundaryLeft(cmp, v, tables, from, in1)
    ensures GoodInputs(cmp, v, tables, from, in0, in1, BaseOf(cmp, v, tables, from))
  {
    hide TotalOrder, LevelsApart, UpperPicked, Solid, Distinct, BoundaryLeft, UpperSafe, LowerSafe, BaseSound, HullFree, BaseOf;
    UpperPickedIsSafe(cmp, v, tables, from, in0);
    LowerSafeIff(cmp, v, tables, from, in0, in1);
    BaseIsSound(cmp, v, tables, from, Contents(in0 + in1, tables));
    HullIsFree(cmp, v, tables, from, in0, in1);
    forall g | g in in1 ensures g in v.levels[from + 1] {
      assert InLevel(v, from + 1, g);
    }
  }
}
