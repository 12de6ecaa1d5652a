/** What a compaction may drop (db/db_impl.cc, DBImpl::DoCompactionWork), as a statement about
    sets of entries: readers at or above smallest_snapshot must not be able to tell. */
module Compaction {
  import opened Common
  import opened DbFormat
  import opened Entries

  /** f hides e from every reader at or above smallest: rule (A). */
  predicate Hides(f: Entry, smallest: nat, e: Entry) {
    f.key == e.key && e.sequence < f.sequence <= smallest
  }

  ghost predicate Hidden(inputs: set<Entry>, smallest: nat, e: Entry) {
    exists f :: f in inputs && Hides(f, smallest, e)
  }

  /** A deletion marker that IsBaseLevelForKey declares to be of no further use. */
  predicate ObsoleteDeletion(smallest: nat, base: UserKey -> bool, e: Entry) {
    e.valueType == TypeDeletion && e.sequence <= smallest && base(e.key)
  }

  ghost function Kept(inputs: set<Entry>, smallest: nat, base: UserKey -> bool): set<Entry> {
    set e | e in inputs && !Hidden(inputs, smallest, e) && !ObsoleteDeletion(smallest, base, e)
  }

  /** The two stores answer every reader at or above smallest alike. */
  ghost predicate SameAnswers(a: set<Entry>, b: set<Entry>, smallest: nat) {
    forall s, k :: s >= smallest ==> Lookup(a, s, k) == Lookup(b, s, k)
  }

  /** d is dropped as obsolete, yet what a reader at smallest finds outside the inputs is an older value. */
  ghost predicate Resurrects(outside: set<Entry>, inputs: set<Entry>, smallest: nat, base: UserKey -> bool,
                             d: Entry, v: Entry)
  {
    && d in inputs && ObsoleteDeletion(smallest, base, d) && !Hidden(inputs, smallest, d)
    && IsNewest(outside, smallest, d.key, v) && v.sequence < d.sequence && v.valueType == TypeValue
  }

  lemma KeptAnswersAlike(outside: set<Entry>, inputs: set<Entry>, smallest: nat, base: UserKey -> bool,
                         s: nat, k: UserKey)
    requires Distinct(outside + inputs) && s >= smallest
    requires forall d, v :: !Resurrects(outside, inputs, smallest, base, d, v)
    ensures Lookup(outside + inputs, s, k) == Lookup(outside + Kept(inputs, smallest, base), s, k)
  {
    hide Lookup;
    var a, b := outside + inputs, outside + Kept(inputs, smallest, base);
    if !Has(b, s, k) {
      NothingVisible(b, s, k);
    }
    if !Has(a, s, k) {
      NothingVisible(a, s, k);
    } else {
      NewestExists(a, s, k);
      var e :| IsNewest(a, s, k, e);
      LookupIs(a, s, k, e);
      if e in b {
        assert IsNewest(b, s, k, e);
        LookupIs(b, s, k, e);
      } else {
        assert !Hidden(inputs, smallest, e);
        if Has(b, s, k) {
          NewestExists(b, s, k);
          var g :| IsNewest(b, s, k, g);
          LookupIs(b, s, k, g);
          assert g.sequence < e.sequence;
          assert g in inputs ==> Hides(e, smallest, g);
          assert IsNewest(outside, smallest, k, g);
          assert !Resurrects(outside, inputs, smallest, base, e, g);
        }
      }
    }
  }

  lemma ResurrectedKeyDiffers(outside: set<Entry>, inputs: set<Entry>, smallest: nat, base: UserKey -> bool,
                              d: Entry, v: Entry)
    requires Distinct(outside + inputs)
    requires Resurrects(outside, inputs, smallest, base, d, v)
    ensures Lookup(outside + inputs, smallest, d.key) == None
    ensures Lookup(outside + Kept(inputs, smallest, base), smallest, d.key) == Some(v.value)
  {
    var a, b := outside + inputs, outside + Kept(inputs, smallest, base);
    forall f | f in a && Visible(f, smallest, d.key) ensures f.sequence <= d.sequence {
      if f in outside {
        assert f.sequence <= v.sequence;
      } else {
        assert !Hides(f, smallest, d);
      }
    }
    assert IsNewest(a, smallest, d.key, d);
    LookupIs(a, smallest, d.key, d);
    forall f | f in b && Visible(f, smallest, d.key) ensures f.sequence <= v.sequence {
      assert f in a && (f in inputs && f.sequence < d.sequence ==> Hides(d, smallest, f));
    }
    assert IsNewest(b, smallest, d.key, v);
    LookupIs(b, smallest, d.key, v);
  }

  /** The drops are invisible to readers at or above smallest exactly when no dropped deletion
      marker uncovers an older value outside the compaction. */
  lemma DropsInvisibleIff(outside: set<Entry>, inputs: set<Entry>, smallest: nat, base: UserKey -> bool)
    requires Distinct(outside + inputs)
    ensures SameAnswers(outside + inputs, outside + Kept(inputs, smallest, base), smallest)
            <==> forall d, v :: !Resurrects(outside, inputs, smallest, base, d, v)
  {
    if forall d, v :: !Resurrects(outside, inputs, smallest, base, d, v) {
      forall s, k | s >= smallest
        ensures Lookup(outside + inputs, s, k) == Lookup(outside + Kept(inputs, smallest, base), s, k)
      {
        KeptAnswersAlike(outside, inputs, smallest, base, s, k);
      }
    }
    forall d, v | Resurrects(outside, inputs, smallest, base, d, v)
      ensures !SameAnswers(outside + inputs, outside + Kept(inputs, smallest, base), smallest)
    {
      ResurrectedKeyDiffers(outside, inputs, smallest, base, d, v);
    }
  }

  /** For the keys picked out by base, nothing outside is older than an input. */
  ghost predicate NothingOlder(outside: set<Entry>, inputs: set<Entry>, base: UserKey -> bool) {
    forall d, x :: d in inputs && x in outside && x.key == d.key && base(d.key) ==> x.sequence >= d.sequence
  }

  lemma KeepingIsInvisible(outside: set<Entry>, inputs: set<Entry>, smallest: nat, base: UserKey -> bool)
    requires Distinct(outside + inputs) && NothingOlder(outside, inputs, base)
    ensures SameAnswers(outside + inputs, outside + Kept(inputs, smallest, base), smallest)
  {
    hide SameAnswers;
    DropsInvisibleIff(outside, inputs, smallest, base);
  }

  /** The assumptions the source states beside the drop: above the compaction everything is newer,
      and a base-level key has nothing below it. Under them no live reader can tell. */
  lemma CompactionPreservesMeaning(above: set<Entry>, inputs: set<Entry>, below: set<Entry>,
                                   smallest: nat, base: UserKey -> bool)
    requires Distinct(above + below + inputs)
    requires AtLeastAsNew(above, inputs)
    requires forall e :: e in below ==> !base(e.key)
    ensures SameAnswers(above + below + inputs, above + below + Kept(inputs, smallest, base), smallest)
  {
    KeepingIsInvisible(above + below, inputs, smallest, base);
  }

  /** Everything that can go does go: above smallest nothing is touched; at or below it the newest entry of each key
      is all that stays, and not even that if it is a deletion marker of no further use. */
  lemma NothingElseIsKept(inputs: set<Entry>, smallest: nat, base: UserKey -> bool, k: UserKey)
    requires Distinct(inputs)
    ensures forall e :: e in Kept(inputs, smallest, base) && e.key == k ==>
              e in inputs && (e.sequence > smallest || IsNewest(inputs, smallest, k, e))
    ensures forall e :: e in inputs && e.key == k && e.sequence > smallest ==> e in Kept(inputs, smallest, base)
    ensures forall e :: IsNewest(inputs, smallest, k, e) ==>
              (e in Kept(inputs, smallest, base) <==> e.valueType == TypeValue || !base(k))
    ensures forall e, f :: {e, f} <= Kept(inputs, smallest, base) && Visible(e, smallest, k) && Visible(f, smallest, k) ==> e == f
  {
    forall e | e in Kept(inputs, smallest, base) && e.key == k && e.sequence <= smallest ensures IsNewest(inputs, smallest, k, e) {
      forall f | f in inputs && Visible(f, smallest, k) ensures f.sequence <= e.sequence {
        assert !Hides(f, smallest, e);
      }
    }
  }
}
