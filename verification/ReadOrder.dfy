/** The order in which a read searches a version: level-0 files newest first, then level by level. */
module ReadOrder {
  import opened Common
  import opened DbFormat
  import opened Entries
  import opened Versions

  ghost function Largest(files: set<nat>): (m: nat)
    requires files != {}
    ensures m in files && forall f :: f in files ==> f <= m
    decreases |files|
  {
    var f :| f in files;
    var rest := files - {f};
    if rest == {} then
      assert files == {f};
      f
    else
      assert files == rest + {f};
      var m := Largest(rest);
      if m < f then f else m
  }

  ghost function Descending(files: set<nat>): seq<nat> {
    if files == {} then [] else [Largest(files)] + Descending(files - {Largest(files)})
  }

  ghost function LevelLayers(v: Version, tables: Tables, level: nat): seq<set<Entry>>
    requires level <= |v.levels|
    decreases |v.levels| - level
  {
    if level == |v.levels| then [] else [Contents(v.levels[level], tables)] + LevelLayers(v, tables, level + 1)
  }

  ghost function VersionLayers(v: Version, tables: Tables): seq<set<Entry>> {
    if |v.levels| == 0 then []
    else
      var l0 := Descending(v.levels[0]);
      seq(|l0|, i requires 0 <= i < |l0| => EntriesOf(tables, l0[i])) + LevelLayers(v, tables, 1)
  }

  lemma {:induction false} DescendingIs(files: set<nat>)
    ensures forall f :: f in Descending(files) <==> f in files
    ensures forall i, j :: 0 <= i < j < |Descending(files)| ==> Descending(files)[i] > Descending(files)[j]
    decreases |files|
  {
    if files != {} {
      hide Largest;
      var m := Largest(files);
      DescendingIs(files - {m});
      var rest := Descending(files - {m});
      var d := [m] + rest;
      assert Descending(files) == d;
      forall i | 0 <= i < |rest| ensures rest[i] < m {
        assert rest[i] in rest;
      }
      forall i, j | 0 <= i < j < |d| ensures d[i] > d[j] {
        assert d[j] == rest[j - 1];
      }
    }
  }

  lemma {:induction false} LevelLayersAt(v: Version, tables: Tables, level: nat)
    requires level <= |v.levels|
    ensures |LevelLayers(v, tables, level)| == |v.levels| - level
    ensures forall i :: 0 <= i < |v.levels| - level ==> LevelLayers(v, tables, level)[i] == Contents(v.levels[level + i], tables)
    decreases |v.levels| - level
  {
    if level < |v.levels| {
      LevelLayersAt(v, tables, level + 1);
    }
  }

  /** The i-th layer is the i-th newest level-0 file, or a whole further level. */
  lemma VersionLayersAt(v: Version, tables: Tables)
    requires |v.levels| > 0
    ensures var l0 := Descending(v.levels[0]);
            && |VersionLayers(v, tables)| == |l0| + |v.levels| - 1
            && (forall i :: 0 <= i < |l0| ==> VersionLayers(v, tables)[i] == EntriesOf(tables, l0[i]))
            && (forall i :: 1 <= i < |v.levels| ==> VersionLayers(v, tables)[|l0| + i - 1] == Contents(v.levels[i], tables))
  {
    LevelLayersAt(v, tables, 1);
  }

  /** What the first i layers hold are the files of a cut. */
  lemma LayersOfCut(v: Version, tables: Tables, i: nat) returns (c: Cut)
    requires |v.levels| > 0 && 0 < i <= |VersionLayers(v, tables)|
    ensures Union(VersionLayers(v, tables)[..i]) == Contents(CutFiles(v, c), tables)
    ensures i == |VersionLayers(v, tables)| ==> CutFiles(v, c) == Files(v)
  {
    hide CutFiles, Files, VersionLayers;
    var l0, layers := Descending(v.levels[0]), VersionLayers(v, tables);
    DescendingIs(v.levels[0]);
    VersionLayersAt(v, tables);
    c := if i <= |l0| && i < |layers| then Number(l0[i - 1]) else Level(i - |l0|);
    forall e | e in Union(layers[..i]) ensures e in Contents(CutFiles(v, c), tables) {
      UnionHas(layers[..i], e);
      var j :| 0 <= j < i && e in layers[..i][j];
      var f: nat;
      if j < |l0| {
        f := l0[j];
        assert f in l0;
        assert InLevel(v, 0, f);
      } else {
        f :| f in v.levels[j - |l0| + 1] && e in EntriesOf(tables, f);
        assert InLevel(v, j - |l0| + 1, f);
      }
      CutFilesOf(v, c, f);
    }
    forall e | e in Contents(CutFiles(v, c), tables) ensures e in Union(layers[..i]) {
      var f :| f in CutFiles(v, c) && e in EntriesOf(tables, f);
      CutFilesOf(v, c, f);
      var j := PlaceInLayers(v, tables, c, i, f);
      assert e in layers[..i][j];
      UnionHas(layers[..i], e);
    }
    if i == |layers| {
      forall f ensures f in CutFiles(v, c) <==> f in Files(v) {
        CutFilesOf(v, c, f);
        FilesOf(v, f);
      }
    }
  }

  lemma PlaceInLayers(v: Version, tables: Tables, c: Cut, i: nat, f: nat) returns (j: nat)
    requires |v.levels| > 0 && 0 < i <= |VersionLayers(v, tables)| && f in CutFiles(v, c)
    requires var l0 := Descending(v.levels[0]);
             c == if i <= |l0| && i < |VersionLayers(v, tables)| then Number(l0[i - 1]) else Level(i - |l0|)
    ensures j < i && EntriesOf(tables, f) <= VersionLayers(v, tables)[j]
  {
    hide CutFiles, VersionLayers;
    var l0 := Descending(v.levels[0]);
    DescendingIs(v.levels[0]);
    VersionLayersAt(v, tables);
    CutFilesOf(v, c, f);
    if InLevel(v, 0, f) {
      j :| 0 <= j < |l0| && l0[j] == f;
    } else {
      var level: nat :| level <= i - |l0| && InLevel(v, level, f);
      j := |l0| + level - 1;
      SingleContents(f, tables);
      MoreContents({f}, v.levels[level], tables);
    }
  }

  lemma VersionLayersUnion(v: Version, tables: Tables)
    requires |v.levels| > 1
    ensures Union(VersionLayers(v, tables)) == Contents(Files(v), tables)
  {
    var layers := VersionLayers(v, tables);
    VersionLayersAt(v, tables);
    var c := LayersOfCut(v, tables, |layers|);
    assert layers[..|layers|] == layers;
  }

  /** The layers of a well-ordered version are well ordered. */
  lemma VersionLayersOrdered(v: Version, tables: Tables, h: nat)
    requires |v.levels| > 1 && OrderedVersion(v, tables, h)
    ensures Ordered(VersionLayers(v, tables), h)
  {
    hide Closed, VersionLayers, CutFiles, Files;
    var layers := VersionLayers(v, tables);
    VersionLayersUnion(v, tables);
    forall i | 0 <= i <= |layers| ensures Closed(Union(layers[..i]), Union(layers), h) {
      if i > 0 {
        var c := LayersOfCut(v, tables, i);
        assert Closed(Contents(CutFiles(v, c), tables), Contents(Files(v), tables), h);
      } else {
        NothingIsClosed(Union(layers), h);
      }
    }
  }

  lemma NothingIsClosed(t: set<Entry>, h: nat)
    ensures Closed({}, t, h)
  {
  }

  lemma SameVersionLayers(v: Version, tables: Tables, tables2: Tables)
    requires forall f :: f in Files(v) ==> EntriesOf(tables2, f) == EntriesOf(tables, f)
    ensures VersionLayers(v, tables2) == VersionLayers(v, tables)
  {
    if |v.levels| > 0 {
      VersionLayersAt(v, tables);
      VersionLayersAt(v, tables2);
      DescendingIs(v.levels[0]);
      var l0 := Descending(v.levels[0]);
      var a, b := VersionLayers(v, tables), VersionLayers(v, tables2);
      forall i | 0 <= i < |a| ensures a[i] == b[i] {
        if i < |l0| {
          assert l0[i] in l0;
          FilesOf(v, l0[i]);
          assert InLevel(v, 0, l0[i]);
        } else {
          var level := i - |l0| + 1;
          forall f | f in v.levels[level] ensures EntriesOf(tables2, f) == EntriesOf(tables, f) {
            FilesOf(v, f);
            assert InLevel(v, level, f);
          }
          SameContents(v.levels[level], tables, tables2);
          assert a[|l0| + level - 1] == b[|l0| + level - 1];
        }
      }
    }
  }

  // ---- The first layer that has the key decides ---------------------------

  lemma {:induction false} FirstHit(layers: seq<set<Entry>>, s: nat, k: UserKey, i: nat)
    requires i < |layers| && Has(layers[i], s, k) && forall j :: 0 <= j < i ==> !Has(layers[j], s, k)
    ensures LayeredGet(layers, s, k) == Lookup(layers[i], s, k)
  {
    if i > 0 {
      forall j | 0 <= j < i - 1 ensures !Has(layers[1..][j], s, k) {
        assert layers[1..][j] == layers[j + 1];
      }
      FirstHit(layers[1..], s, k, i - 1);
    }
  }

  lemma {:induction false} NoHit(layers: seq<set<Entry>>, s: nat, k: UserKey)
    requires forall j :: 0 <= j < |layers| ==> !Has(layers[j], s, k)
    ensures LayeredGet(layers, s, k) == None
  {
    if layers != [] {
      forall j | 0 <= j < |layers| - 1 ensures !Has(layers[1..][j], s, k) {
        assert layers[1..][j] == layers[j + 1];
      }
      NoHit(layers[1..], s, k);
    }
  }
}
