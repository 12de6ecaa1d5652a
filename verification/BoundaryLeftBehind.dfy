/** A version on which the program's choice of inputs is not enough: a deletion marker at the end of a picked
    file of the output level, and an older value of its key at the beginning of the next file, which stays. */
module BoundaryLeftBehind {
  import opened Common
  import opened Coding
  import opened DbFormat
  import opened Entries
  import opened Compaction
  import opened Versions
  import opened VersionEdits
  import opened Picks
  import opened FileMetas
  import opened Picking

  const A: UserKey := [1]
  const K: UserKey := [2]

  function NewA(): Entry { Entry(A, 20, TypeValue, []) }
  function OldA(): Entry { Entry(A, 3, TypeValue, []) }
  function DeleteK(): Entry { Entry(K, 10, TypeDeletion, []) }
  function OldK(older: seq<Byte>): Entry { Entry(K, 5, TypeValue, older) }

  /** The compaction would write table 4. */
  function Stored(older: seq<Byte>): Tables {
    map[1 := {NewA()}, 2 := {OldA(), DeleteK()}, 3 := {OldK(older)}, 4 := {NewA()}]
  }

  function Before(): Version {
    Version([{1}, {2, 3}, {}, {}, {}, {}, {}])
  }

  function Metas(older: seq<Byte>): seq<seq<FileMeta>> {
    [[FileMeta(1, 100, NewA(), NewA())],
     [FileMeta(2, 100, OldA(), DeleteK()), FileMeta(3, 100, OldK(older), OldK(older))], [], [], [], [], []]
  }

  lemma KeyOrder()
    ensures TotalOrder(BytewiseCompare) && BytewiseCompare(A, K) < 0 && BytewiseCompare(K, A) > 0
    ensures BytewiseCompare(A, A) == 0 && BytewiseCompare(K, K) == 0
  {
    BytewiseIsTotalOrder();
  }

  lemma WhichLevel()
    ensures forall i: nat, f: nat :: InLevel(Before(), i, f) <==> (i == 0 && f == 1) || (i == 1 && (f == 2 || f == 3))
    ensures |Before().levels| == 7 && Before().levels[0] == {1} && Before().levels[1] == {2, 3}
  {
  }

  lemma WhatIsStored(older: seq<Byte>)
    ensures EntriesOf(Stored(older), 1) == {NewA()} && EntriesOf(Stored(older), 2) == {OldA(), DeleteK()}
    ensures EntriesOf(Stored(older), 3) == {OldK(older)} && EntriesOf(Stored(older), 4) == {NewA()}
    ensures Stored(older).Keys == {1, 2, 3, 4}
  {
  }

  lemma AllFiles(older: seq<Byte>)
    ensures Files(Before()) == {1, 2, 3}
    ensures Contents(Files(Before()), Stored(older)) == {NewA(), OldA(), DeleteK(), OldK(older)}
  {
    WhichLevel();
    WhatIsStored(older);
    hide InLevel, Before, Stored, EntriesOf;
    forall f ensures f in Files(Before()) <==> f in {1, 2, 3} {
      FilesOf(Before(), f);
      if f in {1, 2, 3} {
        assert InLevel(Before(), 0, f) || InLevel(Before(), 1, f);
      }
    }
    hide Files;
    assert {1, 2, 3} == {1} + {2} + {3};
    ContentsUnion({1} + {2}, {3}, Stored(older));
    ContentsUnion({1}, {2}, Stored(older));
    SingleContents(1, Stored(older));
    SingleContents(2, Stored(older));
    SingleContents(3, Stored(older));
  }

  // ---- The version is as it should be --------------------------------------

  lemma MetasDescribe(older: seq<Byte>)
    ensures Lists(BytewiseCompare, Before(), Stored(older), Metas(older))
  {
    KeyOrder();
    WhatIsStored(older);
    hide TotalOrder, BytewiseCompare, EntriesOf, Stored;
    assert Describes(BytewiseCompare, Stored(older), Metas(older)[0][0]);
    assert Describes(BytewiseCompare, Stored(older), Metas(older)[1][0]);
    assert Describes(BytewiseCompare, Stored(older), Metas(older)[1][1]);
    hide Describes;
    assert SortedBySmallest(BytewiseCompare, Metas(older)[1]);
    assert forall l :: 0 <= l < 7 ==> Numbers(Metas(older)[l]) == Before().levels[l];
    assert VersionOf(Metas(older)).levels == Before().levels;
  }

  lemma FilesApart(older: seq<Byte>)
    ensures LevelsApart(BytewiseCompare, Before(), Stored(older))
  {
    KeyOrder();
    WhatIsStored(older);
    WhichLevel();
    hide TotalOrder, BytewiseCompare, EntriesOf, Stored, InLevel, Before;
    assert AllBefore(BytewiseCompare, EntriesOf(Stored(older), 2), EntriesOf(Stored(older), 3));
    assert OldA() !in EntriesOf(Stored(older), 3);
    hide AllBefore, KeysApart;
  }

  lemma WholeCut(older: seq<Byte>, c: Cut, e: Entry)
    requires e in Contents(CutFiles(Before(), c), Stored(older)) && e != NewA()
    ensures CutFiles(Before(), c) == Files(Before())
  {
    WhichLevel();
    WhatIsStored(older);
    hide InLevel, Before, Stored, EntriesOf, CutFiles;
    var f :| f in CutFiles(Before(), c) && e in EntriesOf(Stored(older), f);
    CutFilesOf(Before(), c, f);
    forall g | g in Files(Before()) ensures g in CutFiles(Before(), c) {
      FilesOf(Before(), g);
      CutFilesOf(Before(), c, g);
    }
  }

  /** Searching it level by level is right, and it holds every entry ever written. */
  lemma GoodBefore(older: seq<Byte>)
    ensures var hist := {NewA(), OldA(), DeleteK(), OldK(older)};
            Good(BytewiseCompare, Before(), Stored(older), hist, 20, 0)
  {
    var hist, tables := {NewA(), OldA(), DeleteK(), OldK(older)}, Stored(older);
    FilesApart(older);
    AllFiles(older);
    WhatIsStored(older);
    WhichLevel();
    OrderedBefore(older);
    NothingAbove(hist, 20);
    hide LevelsApart, InLevel, Files, Lookup, OrderedVersion, Contents, Stored, EntriesOf, BytewiseCompare, Before;
    assert OneLevelEach(Before());
    assert Upto(hist, 20) == hist;
  }

  lemma OrderedBefore(older: seq<Byte>)
    ensures OrderedVersion(Before(), Stored(older), 0)
  {
    var hist, tables := {NewA(), OldA(), DeleteK(), OldK(older)}, Stored(older);
    AllFiles(older);
    hide Files, Contents, Stored, EntriesOf, Before, CutFiles;
    forall c: Cut ensures Closed(Contents(CutFiles(Before(), c), tables), hist, 0) {
      forall e, x | e in Contents(CutFiles(Before(), c), tables) && x in hist && e.key == x.key && e.sequence < x.sequence
        ensures x in Contents(CutFiles(Before(), c), tables)
      {
        if e != NewA() {
          WholeCut(older, c, e);
        } else {
          assert x.key == A;
        }
      }
    }
  }

  // ---- What is picked ------------------------------------------------------

  lemma Ranges(older: seq<Byte>)
    ensures Overlaps(BytewiseCompare, EntriesOf(Stored(older), 2), EntriesOf(Stored(older), 1))
    ensures KeysApart(BytewiseCompare, EntriesOf(Stored(older), 3), EntriesOf(Stored(older), 1))
  {
    KeyOrder();
    WhatIsStored(older);
    hide TotalOrder, BytewiseCompare, EntriesOf, Stored;
    assert OldA() in EntriesOf(Stored(older), 2) && NewA() in EntriesOf(Stored(older), 1);
    assert KeysBefore(BytewiseCompare, EntriesOf(Stored(older), 1), EntriesOf(Stored(older), 3));
  }

  /** From level 0 there is one way to pick: file 1, and of the next level file 2 but not file 3. */
  lemma ThePick(older: seq<Byte>, in0: set<nat>, in1: set<nat>)
    ensures Picked(BytewiseCompare, Before(), Stored(older), 0, in0, in1) <==> in0 == {1} && in1 == {2}
  {
    hide *;
    PickExists(older);
    if Picked(BytewiseCompare, Before(), Stored(older), 0, in0, in1) {
      NoOtherPick(older, in0, in1);
    }
  }

  lemma PickExists(older: seq<Byte>)
    ensures Picked(BytewiseCompare, Before(), Stored(older), 0, {1}, {2})
  {
    hide *;
    var tables := Stored(older);
    BytewiseIsTotalOrder();
    Ranges(older);
    WhichLevel();
    SingleContents(1, tables);
    OneFileIsSolid(BytewiseCompare, tables, 1);
    forall f | f in {2} ensures Overlaps(BytewiseCompare, EntriesOf(tables, f), Contents({1}, tables)) {
    }
    SolidWithRange(BytewiseCompare, tables, {1}, {2});
    PickIs(BytewiseCompare, Before(), tables);
  }

  lemma PickIs(cmp: Comparator, v: Version, tables: Tables)
    requires |v.levels| == 7 && v.levels[0] == {1} && v.levels[1] == {2, 3} && Solid(cmp, tables, {1} + {2})
    requires Overlaps(cmp, EntriesOf(tables, 2), Contents({1}, tables)) && KeysApart(cmp, EntriesOf(tables, 3), Contents({1}, tables))
    ensures Picked(cmp, v, tables, 0, {1}, {2})
  {
    hide Solid, KeysApart, EntriesOf, Contents;
  }

  lemma NoOtherPick(older: seq<Byte>, in0: set<nat>, in1: set<nat>)
    requires Picked(BytewiseCompare, Before(), Stored(older), 0, in0, in1)
    ensures in0 == {1} && in1 == {2}
  {
    var tables := Stored(older);
    Ranges(older);
    WhichLevel();
    SingleContents(1, tables);
    hide TotalOrder, BytewiseCompare, Solid, UpperPicked, KeysApart, Contents, EntriesOf, Stored, InLevel, Before;
    assert in0 == {1};
    forall g ensures g in in1 <==> g == 2 {
      assert g in in1 <==> InLevel(Before(), 1, g) && Overlaps(BytewiseCompare, EntriesOf(tables, g), Contents({1}, tables));
    }
  }

  /** The file that stays begins with the key on which the picked one ends, and no deeper file covers a key. */
  lemma BoundaryStays(older: seq<Byte>)
    ensures BoundaryLeft(BytewiseCompare, Before(), Stored(older), 0, {2})
    ensures forall k :: BaseOf(BytewiseCompare, Before(), Stored(older), 0)(k)
  {
    var tables := Stored(older);
    KeyOrder();
    WhatIsStored(older);
    WhichLevel();
    hide TotalOrder, BytewiseCompare, EntriesOf, Stored, InLevel, Before;
    assert IsLast(BytewiseCompare, EntriesOf(tables, 2), DeleteK()) && IsFirst(BytewiseCompare, EntriesOf(tables, 3), OldK(older));
    assert BeginsWhereEnds(BytewiseCompare, EntriesOf(tables, 2), EntriesOf(tables, 3));
    hide BeginsWhereEnds;
    assert InLevel(Before(), 1, 3);
  }

  /** The compaction keeps only the newer of the two entries of the other key, … */
  lemma WhatIsKept(older: seq<Byte>)
    ensures Kept(Contents({1} + {2}, Stored(older)), 20, BaseOf(BytewiseCompare, Before(), Stored(older), 0)) == {NewA()}
  {
    var tables := Stored(older);
    BoundaryStays(older);
    ContentsUnion({1}, {2}, tables);
    SingleContents(1, tables);
    SingleContents(2, tables);
    WhatIsStored(older);
    hide BaseOf, BoundaryLeft, Contents, EntriesOf, Stored, BytewiseCompare;
    assert Hides(NewA(), 20, OldA());
  }

  /** … and the deleted key has its old value again. */
  lemma DeletedKeyReturns(older: seq<Byte>)
    ensures var after := ApplyEdit(Before(), Compacted(0, {1}, {2}, {4}));
            && Contents({4}, Stored(older)) == Kept(Contents({1} + {2}, Stored(older)), 20, BaseOf(BytewiseCompare, Before(), Stored(older), 0))
            && Lookup(Contents(Files(Before()), Stored(older)), 20, K) == None
            && Lookup(Contents(Files(after), Stored(older)), 20, K) == Some(older)
  {
    var tables := Stored(older);
    WhatIsKept(older);
    SingleContents(4, tables);
    WhatIsStored(older);
    AllFiles(older);
    FilesAfter(older);
    Answers(older);
    hide Contents, Stored, EntriesOf, Files, ApplyEdit, Before, BaseOf, Kept, BytewiseCompare, Lookup, NewA, OldA, DeleteK, OldK;
  }

  lemma Answers(older: seq<Byte>)
    ensures Lookup({NewA(), OldA(), DeleteK(), OldK(older)}, 20, K) == None
    ensures Lookup({NewA(), OldK(older)}, 20, K) == Some(older)
  {
    var all, left := {NewA(), OldA(), DeleteK(), OldK(older)}, {NewA(), OldK(older)};
    hide Lookup;
    assert IsNewest(all, 20, K, DeleteK());
    LookupIs(all, 20, K, DeleteK());
    assert IsNewest(left, 20, K, OldK(older));
    LookupIs(left, 20, K, OldK(older));
  }

  lemma FilesAfter(older: seq<Byte>)
    ensures Contents(Files(ApplyEdit(Before(), Compacted(0, {1}, {2}, {4}))), Stored(older)) == {NewA(), OldK(older)}
  {
    var after := ApplyEdit(Before(), Compacted(0, {1}, {2}, {4}));
    WhichLevel();
    WhatIsStored(older);
    FilesAfterCompaction(Before(), 0, {1}, {2}, {4});
    hide ApplyEdit, InLevel, Before, Stored, EntriesOf;
    forall f ensures f in Files(after) <==> f in {3} + {4} {
      FilesOf(after, f);
      assert InLevel(after, 1, f) <==> f in {3} + {4};
    }
    hide Files;
    assert Files(after) == {3} + {4};
    ContentsUnion({3}, {4}, Stored(older));
    SingleContents(3, Stored(older));
    SingleContents(4, Stored(older));
  }
}
