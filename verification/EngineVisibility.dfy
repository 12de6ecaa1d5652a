/** Which writes a read sees: those acknowledged before it began, or before its snapshot was taken. */
module EngineVisibility {
  import opened Common
  import opened DbFormat
  import opened Entries
  import opened Versions
  import opened Compaction
  import opened VersionEdits
  import opened Picks
  import opened Engine
  import opened EngineInv
  import opened EngineTheorems

  // ---- Acknowledged writes are published -----------------------------------

  ghost predicate Published(s: State) {
    forall e :: e in s.acked ==> e.sequence <= s.lastSequence
  }

  lemma EndWritePublishes(s: State)
    requires Inv(s) && Enabled(s, EndWrite) && Published(s)
    ensures Published(Apply(s, EndWrite))
  {
    hide TotalOrder, NumbersInv, HistoryInv, GroupsInv, TablesInv, ManifestInv, CopiesInv, SnapshotsInv, ReadersInv, SchedulingInv, FlushInv, CompInv, ApplyInv;
  }

  lemma InsertPublishes(s: State)
    requires Enabled(s, Insert) && Published(s)
    ensures Published(Apply(s, Insert))
  {
    InsertAdds(s);
  }

  lemma SameHistoryPublishes(s: State, s2: State)
    requires SameHistory(s, s2) && Published(s)
    ensures Published(s2)
  {
  }

  lemma StepKeepsPublished(states: seq<State>, steps: seq<Step>, i: nat)
    requires Run(states, steps) && i < |steps| && Published(states[i])
    ensures Published(states[i + 1])
  {
    var s, step := states[i], steps[i];
    RunKeepsInv(states, steps, i);
    hide Inv, Enabled, Apply, Published, SameHistory;
    if step.EndWrite? {
      EndWritePublishes(s);
    } else if step.Insert? {
      InsertPublishes(s);
    } else if step.CrashRecover? {
      RecoveryPublishes(states, steps, i);
    } else {
      if WriterStep(step) {
        LogStepKeepsHistory(s, step);
      } else if ReaderStep(step) {
        ReaderStepKeepsHistory(s, step);
      } else {
        BackgroundStepKeepsHistory(s, step);
      }
      SameHistoryPublishes(s, states[i + 1]);
    }
  }

  lemma RecoveryPublishes(states: seq<State>, steps: seq<Step>, i: nat)
    requires Run(states, steps) && i < |steps| && steps[i].CrashRecover?
    ensures Published(states[i + 1])
  {
    hide Inv, Enabled, Apply;
    CrashLosesNothing(states, steps, i, steps[i].parts);
    AsRecovered(states[i], steps[i].parts);
  }

  lemma {:induction false} AckedIsPublished(states: seq<State>, steps: seq<Step>, i: nat)
    requires Run(states, steps) && i < |states|
    ensures Published(states[i])
  {
    hide Inv, Enabled, Apply;
    if i > 0 {
      AckedIsPublished(states, steps, i - 1);
      StepKeepsPublished(states, steps, i - 1);
    }
  }

  // ---- Beginning and ending ------------------------------------------------

  lemma NewSnapshotIs(s: State)
    requires Enabled(s, NewSnapshot)
    ensures var s2 := Apply(s, NewSnapshot); s2.snapshots == s.snapshots + [s.lastSequence] && s2.readers == s.readers
  {
  }

  lemma ReleaseSnapshotIs(s: State, p: nat)
    requires Enabled(s, ReleaseSnapshot(p))
    ensures var s2 := Apply(s, ReleaseSnapshot(p));
            p < |s.snapshots| && s2.snapshots == s.snapshots[..p] + s.snapshots[p + 1..] && s2.readers == s.readers
  {
  }

  lemma BeginReadIs(s: State, id: nat, snap: Option<nat>)
    requires Enabled(s, BeginRead(id, snap))
    ensures var s2 := Apply(s, BeginRead(id, snap));
            && id in s2.readers && s2.hist == s.hist && s2.snapshots == s.snapshots
            && id !in s.readers && s2.readers == s.readers[id := s2.readers[id]]
            && (snap.None? ==> s2.readers[id].snapshot == s.lastSequence)
            && (snap.Some? ==> snap.value < |s.snapshots| && s2.readers[id].snapshot == s.snapshots[snap.value])
  {
  }

  lemma EndReadIs(s: State, id: nat, chargedSeek: bool)
    requires Enabled(s, EndRead(id, chargedSeek))
    ensures var s2 := Apply(s, EndRead(id, chargedSeek)); s2.snapshots == s.snapshots && s2.readers == s.readers - {id}
  {
  }

  // ---- Reads without a snapshot --------------------------------------------

  /** A read without a snapshot sees every write acknowledged before it began, and all that is published by then
      and nothing else. */
  lemma ReadsSeeWhatIsAcknowledged(states: seq<State>, steps: seq<Step>, i: nat, id: nat, k: UserKey)
    requires Run(states, steps) && i < |steps| && steps[i] == BeginRead(id, None)
    ensures id in states[i + 1].readers
    ensures forall e :: e in states[i].acked ==> e in Upto(states[i + 1].hist, states[i + 1].readers[id].snapshot)
    ensures ReadIn(states[i + 1], id, k) == Lookup(states[i].hist, states[i].lastSequence, k)
  {
    hide Inv, Enabled, Apply, Lookup, ReadIn;
    BeginReadIs(states[i], id, None);
    AckedIsPublished(states, steps, i);
    AcknowledgedForever(states, steps, i, i);
    ReadsAreLookups(states, steps, i + 1, id, k);
  }

  /** Whoever reads a key after his write to it was acknowledged finds what he wrote, unless somebody wrote it
      since. */
  lemma ReadYourWrites(states: seq<State>, steps: seq<Step>, i: nat, id: nat, e: Entry)
    requires Run(states, steps) && i < |steps| && steps[i] == BeginRead(id, None)
    requires e in states[i].acked && forall x :: x in states[i].hist && x.key == e.key && x.sequence <= states[i].lastSequence ==> x.sequence <= e.sequence
    ensures id in states[i + 1].readers
    ensures ReadIn(states[i + 1], id, e.key) == match e.valueType case TypeValue => Some(e.value) case TypeDeletion => None
  {
    hide Inv, Enabled, Apply, ReadIn;
    ReadsSeeWhatIsAcknowledged(states, steps, i, id, e.key);
    AcknowledgedForever(states, steps, i, i);
    AckedIsPublished(states, steps, i);
    RunKeepsInv(states, steps, i + 1);
    BeginReadIs(states[i], id, None);
    ReaderIsOk(states[i + 1], id, e.key);
    NewestAnswers(states[i].hist, states[i].lastSequence, e);
  }

  lemma NewestAnswers(es: set<Entry>, at: nat, e: Entry)
    requires UniqueSequences(es) && e in es && e.sequence <= at
    requires forall x :: x in es && x.key == e.key && x.sequence <= at ==> x.sequence <= e.sequence
    ensures Lookup(es, at, e.key) == match e.valueType case TypeValue => Some(e.value) case TypeDeletion => None
  {
    LookupIs(es, at, e.key, e);
  }

  // ---- Reads in progress ---------------------------------------------------

  /** Until it ends, a read keeps its sequence number, and its answers. */
  lemma {:induction false} ReaderStays(states: seq<State>, steps: seq<Step>, i: nat, j: nat, id: nat)
    requires Run(states, steps) && i <= j < |states| && NoCrash(steps, i, j) && id in states[i].readers
    requires forall n :: i <= n < j && steps[n].EndRead? ==> steps[n].id != id
    ensures id in states[j].readers && states[j].readers[id] == states[i].readers[id]
    decreases j
  {
    hide Inv, Enabled, Apply;
    if i < j {
      ReaderStays(states, steps, i, j - 1, id);
      assert steps[j - 1].EndRead? ==> steps[j - 1].id != id;
      StepKeepsReader(states[j - 1], steps[j - 1], id);
    }
  }

  /** The steps that begin and end reads, and take and release snapshots. */
  predicate PinStep(step: Step) {
    step.NewSnapshot? || step.ReleaseSnapshot? || step.BeginRead? || step.EndRead?
  }

  ghost predicate SamePins(s: State, s2: State) {
    s2.readers == s.readers && s2.snapshots == s.snapshots
  }

  lemma LogStepKeepsPins(s: State, step: Step)
    requires Enabled(s, step) && (step.BeginWrite? || step.AppendLog? || step.SyncFail?)
    ensures SamePins(s, Apply(s, step))
  {
    hide EntriesOf, Elements;
  }

  lemma InsertKeepsPins(s: State)
    requires Enabled(s, Insert)
    ensures SamePins(s, Apply(s, Insert))
  {
    hide EntriesOf;
  }

  lemma EndWriteKeepsPins(s: State)
    requires Enabled(s, EndWrite)
    ensures SamePins(s, Apply(s, EndWrite))
  {
    hide Elements;
  }

  lemma SchedulingStepKeepsPins(s: State, step: Step)
    requires Enabled(s, step) && ReaderStep(step) && !PinStep(step)
    ensures SamePins(s, Apply(s, step))
  {
  }

  lemma BackgroundStepKeepsPins(s: State, step: Step)
    requires Enabled(s, step) && !step.CrashRecover? && !ReaderStep(step) && !WriterStep(step)
    ensures SamePins(s, Apply(s, step))
  {
    hide Picked, BoundaryLeft, BaseOf, GoodOutputs, RangeFree, LiveFiles, Kept, Contents, Cuts, Replayed, ApplyEdit;
  }

  lemma StepKeepsPins(s: State, step: Step)
    requires Enabled(s, step) && !PinStep(step) && !step.CrashRecover?
    ensures SamePins(s, Apply(s, step))
  {
    hide Enabled, Apply, SamePins;
    if step.Insert? {
      InsertKeepsPins(s);
    } else if step.EndWrite? {
      EndWriteKeepsPins(s);
    } else if WriterStep(step) {
      LogStepKeepsPins(s, step);
    } else if ReaderStep(step) {
      SchedulingStepKeepsPins(s, step);
    } else {
      BackgroundStepKeepsPins(s, step);
    }
  }

  lemma StepKeepsReader(s: State, step: Step, id: nat)
    requires Enabled(s, step) && id in s.readers && !step.CrashRecover? && (step.EndRead? ==> step.id != id)
    ensures id in Apply(s, step).readers && Apply(s, step).readers[id] == s.readers[id]
  {
    if PinStep(step) {
      PinStepKeepsReader(s, step, id);
    } else {
      hide Enabled, Apply;
      StepKeepsPins(s, step);
    }
  }

  lemma PinStepKeepsReader(s: State, step: Step, id: nat)
    requires Enabled(s, step) && PinStep(step) && id in s.readers && (step.EndRead? ==> step.id != id)
    ensures id in Apply(s, step).readers && Apply(s, step).readers[id] == s.readers[id]
  {
    hide Enabled, Apply;
    match step {
      case NewSnapshot => NewSnapshotIs(s);
      case ReleaseSnapshot(r) => ReleaseSnapshotIs(s, r);
      case BeginRead(a, snap) => BeginReadIs(s, a, snap);
      case EndRead(a, charged) => EndReadIs(s, a, charged);
      case _ =>
    }
  }

  lemma ReadsRepeat(states: seq<State>, steps: seq<Step>, i: nat, j: nat, id: nat, k: UserKey)
    requires Run(states, steps) && i <= j < |states| && NoCrash(steps, i, j) && id in states[i].readers
    requires forall n :: i <= n < j && steps[n].EndRead? ==> steps[n].id != id
    ensures id in states[j].readers && ReadIn(states[j], id, k) == ReadIn(states[i], id, k)
  {
    hide Inv, Enabled, Apply, ReadIn;
    ReaderStays(states, steps, i, j, id);
    SnapshotsAreStable(states, steps, i, j, id, id, k);
  }

  // ---- Reads with a snapshot -----------------------------------------------

  /** Where the snapshot at place p of the list is after a step, unless it is released or the process is gone. */
  function Follow(step: Step, p: nat): Option<nat> {
    if step.CrashRecover? || step.CrashInRecovery? || step == ReleaseSnapshot(p) then None
    else if step.ReleaseSnapshot? && step.index < p then Some(p - 1)
    else Some(p)
  }

  /** Where the snapshot that step i takes is in state j. */
  ghost function Position(states: seq<State>, steps: seq<Step>, i: nat, j: nat): Option<nat>
    requires i < j <= |steps| < |states|
  {
    if j == i + 1 then Some(|states[i].snapshots|)
    else match Position(states, steps, i, j - 1) case None => None case Some(p) => Follow(steps[j - 1], p)
  }

  lemma StepKeepsSnapshot(s: State, step: Step, p: nat)
    requires Enabled(s, step) && p < |s.snapshots| && Follow(step, p).Some?
    ensures var q := Follow(step, p).value; q < |Apply(s, step).snapshots| && Apply(s, step).snapshots[q] == s.snapshots[p]
  {
    if PinStep(step) {
      PinStepKeepsSnapshot(s, step, p);
    } else {
      hide Enabled, Apply;
      StepKeepsPins(s, step);
    }
  }

  lemma PinStepKeepsSnapshot(s: State, step: Step, p: nat)
    requires Enabled(s, step) && PinStep(step) && p < |s.snapshots| && Follow(step, p).Some?
    ensures var q := Follow(step, p).value; q < |Apply(s, step).snapshots| && Apply(s, step).snapshots[q] == s.snapshots[p]
  {
    hide Enabled, Apply;
    match step {
      case NewSnapshot => NewSnapshotIs(s);
      case ReleaseSnapshot(r) => ReleaseSnapshotIs(s, r);
      case BeginRead(a, snap) => BeginReadIs(s, a, snap);
      case EndRead(a, charged) => EndReadIs(s, a, charged);
      case _ =>
    }
  }

  /** Only releasing it, or the end of the process, takes a snapshot away. */
  lemma {:induction false} UnreleasedIsHeld(states: seq<State>, steps: seq<Step>, i: nat, j: nat)
    requires i < j <= |steps| < |states| && NoCrash(steps, i, j)
    requires forall n :: i < n < j ==> !steps[n].ReleaseSnapshot?
    ensures Position(states, steps, i, j) == Some(|states[i].snapshots|)
    decreases j
  {
    if j > i + 1 {
      UnreleasedIsHeld(states, steps, i, j - 1);
    }
  }

  /** A snapshot that is still held stands for the moment at which it was taken. */
  lemma {:induction false} HeldKeepsNumber(states: seq<State>, steps: seq<Step>, i: nat, j: nat)
    requires Run(states, steps) && i < j <= |steps| && steps[i].NewSnapshot? && Position(states, steps, i, j).Some?
    ensures var p := Position(states, steps, i, j).value; p < |states[j].snapshots| && states[j].snapshots[p] == states[i].lastSequence
    ensures NoCrash(steps, i, j)
    decreases j
  {
    hide Inv, Enabled, Apply;
    if j == i + 1 {
      NewSnapshotIs(states[i]);
    } else {
      HeldKeepsNumber(states, steps, i, j - 1);
      StepKeepsSnapshot(states[j - 1], steps[j - 1], Position(states, steps, i, j - 1).value);
    }
  }

  /** A read that uses a snapshot sees every write acknowledged before the snapshot was taken and nothing that was
      published later, however much later the read begins. */
  lemma SnapshotsSeeTheirMoment(states: seq<State>, steps: seq<Step>, i: nat, j: nat, id: nat, k: UserKey)
    requires Run(states, steps) && i < j < |steps| && steps[i].NewSnapshot?
    requires Position(states, steps, i, j).Some? && steps[j] == BeginRead(id, Position(states, steps, i, j))
    ensures id in states[j + 1].readers
    ensures forall e :: e in states[i].acked ==> e in Upto(states[j + 1].hist, states[j + 1].readers[id].snapshot)
    ensures Upto(states[j + 1].hist, states[j + 1].readers[id].snapshot) == Upto(states[i].hist, states[i].lastSequence)
    ensures ReadIn(states[j + 1], id, k) == Lookup(states[i].hist, states[i].lastSequence, k)
  {
    hide Inv, Enabled, Apply, Lookup, ReadIn, Position, UniqueSequences;
    HeldKeepsNumber(states, steps, i, j);
    BeginReadIs(states[j], id, Position(states, steps, i, j));
    AckedIsPublished(states, steps, i);
    AcknowledgedForever(states, steps, i, i);
    RunAddsAbove(states, steps, i, j);
    ReadsAreLookups(states, steps, j + 1, id, k);
    RunKeepsInv(states, steps, j + 1);
    ReaderIsOk(states[j + 1], id, k);
    UniqueIsDistinct(states[j + 1].hist, states[i].hist);
    LookupDependsOnVisible(states[i].hist, states[j].hist, states[i].lastSequence, k);
  }

  // ---- Compactions ---------------------------------------------------------

  lemma CompBeginIs(s: State, from: nat, in0: set<nat>, in1: set<nat>)
    requires Enabled(s, CompBegin(from, in0, in1))
    ensures var s2 := Apply(s, CompBegin(from, in0, in1)); s2.comp.Compacting? && s2.comp.smallest == SmallestSnapshot(s)
  {
    hide Picked, BoundaryLeft, BaseOf;
  }

  /** A compaction that begins may drop whatever is hidden below a bound, and that bound is as large as the snapshots
      still held and LastSequence allow. */
  lemma SmallestSnapshotIsTight(states: seq<State>, steps: seq<Step>, i: nat, bound: nat)
    requires Run(states, steps) && i < |steps| && steps[i].CompBegin?
    ensures states[i + 1].comp.Compacting?
    ensures bound <= states[i + 1].comp.smallest
            <==> bound <= states[i].lastSequence && forall p :: 0 <= p < |states[i].snapshots| ==> bound <= states[i].snapshots[p]
  {
    hide Inv, Enabled, Apply;
    RunKeepsInv(states, steps, i);
    CompBeginIs(states[i], steps[i].from, steps[i].in0, steps[i].in1);
    SnapshotsAscend(states[i]);
  }

  lemma SnapshotsAscend(s: State)
    requires Inv(s)
    ensures forall i, j :: 0 <= i < j < |s.snapshots| ==> s.snapshots[i] <= s.snapshots[j]
    ensures forall i :: 0 <= i < |s.snapshots| ==> s.snapshots[i] <= s.lastSequence
  {
    hide TotalOrder, NumbersInv, WriteInv, HistoryInv, GroupsInv, TablesInv, ManifestInv, CopiesInv, ReadersInv, SchedulingInv, FlushInv, CompInv, ApplyInv;
  }
}
