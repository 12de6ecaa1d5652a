/** What a key is worth at a sequence number: the reference meaning that memtables, tables,
    compactions and iterators are all measured against. */
module Entries {
  import opened Common
  import opened Coding
  import opened DbFormat

  /** One (user key, sequence, type) => value entry of a memtable or a table. */
  datatype Entry = Entry(key: UserKey, sequence: nat, valueType: ValueType, value: seq<Byte>)

  /** No two entries of one user key share a sequence number. */
  ghost predicate Distinct(es: set<Entry>) {
    forall e, f :: e in es && f in es && e.key == f.key && e.sequence == f.sequence ==> e == f
  }

  /** e is an entry of k that a reader at sequence s may see. */
  predicate Visible(e: Entry, s: nat, k: UserKey) {
    e.key == k && e.sequence <= s
  }

  ghost predicate Has(es: set<Entry>, s: nat, k: UserKey) {
    exists e :: e in es && Visible(e, s, k)
  }

  ghost predicate IsNewest(es: set<Entry>, s: nat, k: UserKey, e: Entry) {
    && e in es && Visible(e, s, k)
    && forall f :: f in es && Visible(f, s, k) ==> f.sequence <= e.sequence
  }

  function Answer(e: Entry): Option<seq<Byte>> {
    match e.valueType case TypeValue => Some(e.value) case TypeDeletion => None
  }

  /** The newest visible entry of k decides; a deletion or no entry at all is "not found". */
  ghost function Lookup(es: set<Entry>, s: nat, k: UserKey): Option<seq<Byte>> {
    if exists e :: IsNewest(es, s, k, e)
    then var e :| IsNewest(es, s, k, e); Answer(e)
    else None
  }

  lemma {:induction false} NewestExists(es: set<Entry>, s: nat, k: UserKey)
    requires Has(es, s, k)
    ensures exists e :: IsNewest(es, s, k, e)
    decreases |es|
  {
    var e :| e in es && Visible(e, s, k);
    var rest := es - {e};
    if Has(rest, s, k) {
      NewestExists(rest, s, k);
      var f :| IsNewest(rest, s, k, f);
      assert IsNewest(es, s, k, if f.sequence <= e.sequence then e else f);
    } else {
      assert IsNewest(es, s, k, e);
    }
  }

  /** Lookup is decided by any newest entry. */
  lemma LookupIs(es: set<Entry>, s: nat, k: UserKey, e: Entry)
    requires Distinct(es) && IsNewest(es, s, k, e)
    ensures Lookup(es, s, k) == Answer(e)
  {
    var f :| IsNewest(es, s, k, f) && Lookup(es, s, k) == Answer(f);
    assert IsNewest(es, s, k, f);
  }

  lemma NothingVisible(es: set<Entry>, s: nat, k: UserKey)
    requires !Has(es, s, k)
    ensures Lookup(es, s, k) == None
  {
  }

  /** Only the visible entries of k matter. */
  lemma LookupDependsOnVisible(a: set<Entry>, b: set<Entry>, s: nat, k: UserKey)
    requires Distinct(a)
    requires forall e :: Visible(e, s, k) ==> (e in a <==> e in b)
    ensures Lookup(a, s, k) == Lookup(b, s, k)
  {
    forall e ensures IsNewest(a, s, k, e) <==> IsNewest(b, s, k, e) {
    }
    if e :| IsNewest(a, s, k, e) {
      LookupIs(a, s, k, e);
      var f :| IsNewest(b, s, k, f) && Lookup(b, s, k) == Answer(f);
      assert IsNewest(a, s, k, f);
      LookupIs(a, s, k, f);
    }
  }

  // ---- Sorted lists of entries --------------------------------------------

  predicate EntryBefore(cmp: Comparator, a: Entry, b: Entry) {
    cmp(a.key, b.key) < 0 || (a.key == b.key && a.sequence > b.sequence)
  }

  /** Strictly increasing in internal-key order, as a merging iterator yields its entries. */
  ghost predicate Sorted(cmp: Comparator, es: seq<Entry>) {
    && (forall i, j :: 0 <= i < j < |es| ==> EntryBefore(cmp, es[i], es[j]))
    && (forall i :: 0 <= i < |es| ==> es[i].sequence <= MAX_SEQUENCE_NUMBER)
  }

  function Elements(es: seq<Entry>): set<Entry> {
    set e | e in es
  }

  lemma SortedIsDistinct(cmp: Comparator, es: seq<Entry>)
    requires TotalOrder(cmp) && Sorted(cmp, es)
    ensures Distinct(Elements(es))
  {
  }

  // ---- Layers: memtables before tables, lower levels before higher --------

  ghost function Union(layers: seq<set<Entry>>): set<Entry> {
    if layers == [] then {} else layers[0] + Union(layers[1..])
  }

  /** The first layer that has a visible entry of k decides (DBImpl::Get, Version::Get). */
  ghost function LayeredGet(layers: seq<set<Entry>>, s: nat, k: UserKey): Option<seq<Byte>> {
    if layers == [] then None
    else if Has(layers[0], s, k) then Lookup(layers[0], s, k)
    else LayeredGet(layers[1..], s, k)
  }

  /** For one user key, a holds only entries at least as new as those of b. */
  ghost predicate AtLeastAsNew(a: set<Entry>, b: set<Entry>) {
    forall e, f :: e in a && f in b && e.key == f.key ==> e.sequence >= f.sequence
  }

  /** p has x, or something newer of the key that every reader at or above h sees. */
  ghost predicate Covers(p: set<Entry>, x: Entry, h: nat) {
    x in p || exists y :: y in p && y.key == x.key && x.sequence < y.sequence <= h
  }

  /** Of a key that p has an entry of, p has everything newer that is in t, as far as readers at or above
      h can tell. What is in t twice, once in p and once outside, does no harm. */
  ghost predicate Closed(p: set<Entry>, t: set<Entry>, h: nat) {
    forall e, x :: e in p && x in t && e.key == x.key && e.sequence < x.sequence ==> Covers(p, x, h)
  }

  /** Wherever the layers are cut in two, the upper part is closed. */
  ghost predicate Ordered(layers: seq<set<Entry>>, h: nat) {
    forall i :: 0 <= i <= |layers| ==> Closed(Union(layers[..i]), Union(layers), h)
  }

  lemma {:induction false} UnionHas(layers: seq<set<Entry>>, e: Entry)
    ensures e in Union(layers) <==> exists i :: 0 <= i < |layers| && e in layers[i]
  {
    if layers != [] {
      UnionHas(layers[1..], e);
      if e in Union(layers[1..]) {
        var i :| 0 <= i < |layers[1..]| && e in layers[1..][i];
        assert e in layers[i + 1];
      }
      if i :| 0 <= i < |layers| && e in layers[i] {
        if i > 0 { assert e in layers[1..][i - 1]; }
      }
    }
  }

  lemma {:induction false} UnionSplit(layers: seq<set<Entry>>, i: nat)
    requires i <= |layers|
    ensures Union(layers) == Union(layers[..i]) + Union(layers[i..])
  {
    if i > 0 {
      UnionSplit(layers[1..], i - 1);
      assert layers[..i][1..] == layers[1..][..i - 1] && layers[1..][i - 1..] == layers[i..];
    } else {
      assert layers[0..] == layers;
    }
  }

  lemma UnionNext(layers: seq<set<Entry>>, i: nat)
    requires i < |layers|
    ensures Union(layers[..i + 1]) == Union(layers[..i]) + layers[i]
  {
    UnionSplit(layers[..i + 1], i);
    assert layers[..i + 1][..i] == layers[..i] && layers[..i + 1][i..] == [layers[i]];
    assert [layers[i]][1..] == [];
  }

  lemma NewestOfPart(p: set<Entry>, t: set<Entry>, h: nat, s: nat, k: UserKey, e: Entry)
    requires Closed(p, t, h) && p <= t && h <= s && IsNewest(p, s, k, e)
    ensures IsNewest(t, s, k, e)
  {
  }

  /** The first layer with a visible entry has the newest one of all. */
  lemma {:induction false} SearchFrom(layers: seq<set<Entry>>, i: nat, h: nat, s: nat, k: UserKey)
    requires Ordered(layers, h) && Distinct(Union(layers)) && h <= s
    requires i <= |layers| && !Has(Union(layers[..i]), s, k)
    ensures LayeredGet(layers[i..], s, k) == Lookup(Union(layers), s, k)
    decreases |layers| - i
  {
    hide Closed, Lookup;
    if i == |layers| {
      assert layers[..i] == layers;
      NothingVisible(Union(layers), s, k);
    } else {
      UnionNext(layers, i);
      assert layers[i..][1..] == layers[i + 1..];
      if Has(layers[i], s, k) {
        NewestExists(layers[i], s, k);
        var e :| IsNewest(layers[i], s, k, e);
        UnionSplit(layers, i + 1);
        NewestOfPart(Union(layers[..i + 1]), Union(layers), h, s, k, e);
        LookupIs(Union(layers), s, k, e);
        LookupIs(layers[i], s, k, e);
      } else {
        SearchFrom(layers, i + 1, h, s, k);
      }
    }
  }

  /** Searching layer by layer finds the globally newest visible entry. */
  lemma LayeredGetIsLookup(layers: seq<set<Entry>>, h: nat, s: nat, k: UserKey)
    requires Ordered(layers, h) && Distinct(Union(layers)) && h <= s
    ensures LayeredGet(layers, s, k) == Lookup(Union(layers), s, k)
  {
    SearchFrom(layers, 0, h, s, k);
    assert layers[0..] == layers;
  }
}
