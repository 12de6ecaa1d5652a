/** The write queue and the storage engine together: what a writer is told and what the engine keeps. */
module EngineWriters {
  import opened Common
  import opened Entries
  import opened Versions
  import opened VersionEdits
  import opened Picks
  import opened Compaction
  import opened WriteQueue
  import DbFormat
  import Engine
  import EngineTheorems

  /** A batch's operations as entries, numbered from first. */
  function Stamped(ops: seq<Op>, first: nat): (es: seq<Entry>)
    ensures |es| == |ops|
    ensures forall i :: 0 <= i < |es| ==> es[i] == Entry(ops[i].key, first + i, ops[i].valueType, ops[i].value)
  {
    seq(|ops|, i requires 0 <= i < |ops| => Entry(ops[i].key, first + i, ops[i].valueType, ops[i].value))
  }

  /** The entries of the groups whose writers were told that all is well. */
  function Acked(events: seq<Event>): set<Entry> {
    if events == [] then {}
    else
      var e := events[|events| - 1];
      Acked(events[..|events| - 1]) + (if e.Committed? && e.status.Ok? then Elements(Stamped(e.group.ops, e.group.first)) else {})
  }

  /** The group at the head of the queue is what the engine is writing, and both count alike. */
  ghost predicate InStep(q: Queue, s: Engine.State) {
    && s.lastSequence == q.lastSequence && s.acked == Acked(q.events)
    && (q.leading.Some? <==> s.write.Writing?)
    && (q.leading.Some? ==> s.write.ops == Stamped(q.leading.value.ops, q.leading.value.first))
  }

  // ---- Steps of both -------------------------------------------------------

  datatype Joint =
    | QueueStep(q: Step)
    | EngineStep(e: Engine.Step)
    | Begin(n: nat)
    | End(status: Status)

  /** A group begins when its leader has numbered it; the writers are told that all is well exactly if neither
      the log nor the sync failed. */
  ghost predicate JointEnabled(q: Queue, s: Engine.State, step: Joint) {
    match step
    case QueueStep(qs) => (qs.Arrive? || qs.LeaveAlone?) && Enabled(q, qs)
    case EngineStep(e) => !e.BeginWrite? && !e.EndWrite? && !e.CrashRecover? && !e.CrashInRecovery? && Engine.Enabled(s, e)
    case Begin(n) => Enabled(q, Lead(n)) && !s.bgError && !s.crashed
    case End(status) => Enabled(q, Finish(status)) && Engine.Enabled(s, Engine.EndWrite) && (status.Ok? <==> !s.write.failed)
  }

  function GroupOf(q: Queue, n: nat): seq<Entry>
    requires n <= |q.waiting|
  {
    Stamped(AllOps(q.waiting[..n]), q.lastSequence + 1)
  }

  ghost predicate Moves(q: Queue, s: Engine.State, step: Joint, q2: Queue, s2: Engine.State) {
    && JointEnabled(q, s, step)
    && match step
       case QueueStep(qs) => q2 == Apply(q, qs) && s2 == s
       case EngineStep(e) => q2 == q && s2 == Engine.Apply(s, e)
       case Begin(n) =>
         && Engine.Enabled(s, Engine.BeginWrite(GroupOf(q, n)))
         && q2 == Apply(q, Lead(n)) && s2 == Engine.Apply(s, Engine.BeginWrite(GroupOf(q, n)))
       case End(status) => q2 == Apply(q, Finish(status)) && s2 == Engine.Apply(s, Engine.EndWrite)
  }

  lemma AckedNext(events: seq<Event>, e: Event)
    ensures Acked(events + [e]) == Acked(events) + (if e.Committed? && e.status.Ok? then Elements(Stamped(e.group.ops, e.group.first)) else {})
  {
    assert (events + [e])[..|events|] == events;
  }

  /** What the leader hands over is what the engine's next write wants. */
  lemma GroupIsEngineWrite(q: Queue, s: Engine.State, n: nat)
    requires InStep(q, s) && JointEnabled(q, s, Begin(n))
    ensures Engine.Enabled(s, Engine.BeginWrite(GroupOf(q, n)))
    ensures InStep(Apply(q, Lead(n)), Engine.Apply(s, Engine.BeginWrite(GroupOf(q, n))))
  {
  }

  /** When the group is done both are at the same LastSequence again, and exactly its entries are acknowledged
      if its writers are told so. */
  lemma EndTogether(q: Queue, s: Engine.State, status: Status)
    requires InStep(q, s) && JointEnabled(q, s, End(status))
    ensures InStep(Apply(q, Finish(status)), Engine.Apply(s, Engine.EndWrite))
  {
    AckedNext(q.events, Committed(q.leading.value, status));
  }

  lemma QueueAlone(q: Queue, s: Engine.State, step: Step)
    requires InStep(q, s) && JointEnabled(q, s, QueueStep(step))
    ensures InStep(Apply(q, step), s)
  {
    if step.LeaveAlone? {
      AckedNext(q.events, Alone(q.waiting[0], step.status));
    }
  }

  ghost predicate SameWrite(s: Engine.State, s2: Engine.State) {
    && s2.lastSequence == s.lastSequence && s2.acked == s.acked && s2.write.Writing? == s.write.Writing?
    && (s.write.Writing? ==> s2.write.ops == s.write.ops)
  }

  lemma LogStepKeepsWrite(s: Engine.State, e: Engine.Step)
    requires Engine.Enabled(s, e) && (e.AppendLog? || e.SyncFail? || e.Insert?)
    ensures SameWrite(s, Engine.Apply(s, e))
  {
    hide EntriesOf;
  }

  lemma ReaderStepKeepsWrite(s: Engine.State, e: Engine.Step)
    requires Engine.Enabled(s, e) && EngineTheorems.ReaderStep(e)
    ensures SameWrite(s, Engine.Apply(s, e))
  {
  }

  lemma BackgroundStepKeepsWrite(s: Engine.State, e: Engine.Step)
    requires Engine.Enabled(s, e) && !EngineTheorems.WriterStep(e) && !EngineTheorems.ReaderStep(e)
    ensures SameWrite(s, Engine.Apply(s, e))
  {
    hide Picked, BoundaryLeft, BaseOf, GoodOutputs, RangeFree, Engine.LiveFiles, Kept, Contents, Engine.Cuts, Engine.Replayed, ApplyEdit;
  }

  lemma EngineAlone(q: Queue, s: Engine.State, e: Engine.Step)
    requires InStep(q, s) && JointEnabled(q, s, EngineStep(e))
    ensures InStep(q, Engine.Apply(s, e))
  {
    hide Engine.Enabled, Engine.Apply, Acked;
    if EngineTheorems.ReaderStep(e) {
      ReaderStepKeepsWrite(s, e);
    } else if EngineTheorems.WriterStep(e) {
      LogStepKeepsWrite(s, e);
    } else {
      BackgroundStepKeepsWrite(s, e);
    }
  }

  // ---- Runs of both --------------------------------------------------------

  ghost predicate JointRun(qs: seq<Queue>, ss: seq<Engine.State>, steps: seq<Joint>) {
    && |qs| == |ss| == |steps| + 1
    && DbFormat.TotalOrder(ss[0].cmp) && ss[0] == Engine.Init(ss[0].cmp) && qs[0] == Queue([], [], None, [], 0, 0)
    && forall i :: 0 <= i < |steps| ==> Moves(qs[i], ss[i], steps[i], qs[i + 1], ss[i + 1])
  }

  /** In every run the acknowledged entries are exactly those of the groups whose writers were told so. */
  lemma {:induction false} AcknowledgedIsWhatWritersWereTold(qs: seq<Queue>, ss: seq<Engine.State>, steps: seq<Joint>, i: nat)
    requires JointRun(qs, ss, steps) && i < |ss|
    ensures InStep(qs[i], ss[i])
    ensures ss[i].acked == Acked(qs[i].events)
  {
    hide Engine.Enabled, Engine.Apply, Enabled, Apply, InStep, GroupOf;
    if i == 0 {
      StartTogether(ss[0].cmp);
    } else {
      var q, s, step := qs[i - 1], ss[i - 1], steps[i - 1];
      AcknowledgedIsWhatWritersWereTold(qs, ss, steps, i - 1);
      assert Moves(q, s, step, qs[i], ss[i]);
      match step {
        case QueueStep(k) => QueueAlone(q, s, k);
        case EngineStep(e) => EngineAlone(q, s, e);
        case Begin(n) => GroupIsEngineWrite(q, s, n);
        case End(status) => EndTogether(q, s, status);
      }
    }
    SameAcked(qs[i], ss[i]);
  }

  lemma {:induction false} JointRunKeepsQueue(qs: seq<Queue>, ss: seq<Engine.State>, steps: seq<Joint>, i: nat)
    requires JointRun(qs, ss, steps) && i < |qs|
    ensures Inv(qs[i]) && qs[i].base == 0 && |ss| == |qs|
  {
    hide Engine.Enabled, Engine.Apply, Inv, GroupOf;
    if i == 0 {
      InitInv(0);
    } else {
      var q, step := qs[i - 1], steps[i - 1];
      JointRunKeepsQueue(qs, ss, steps, i - 1);
      assert Moves(q, ss[i - 1], step, qs[i], ss[i]);
      match step {
        case QueueStep(k) => StepKeepsInv(q, k);
        case EngineStep(e) =>
        case Begin(n) => StepKeepsInv(q, Lead(n));
        case End(status) => StepKeepsInv(q, Finish(status));
      }
    }
  }

  lemma {:induction false} AckedHas(events: seq<Event>, j: nat)
    requires j < |events| && events[j].Committed? && events[j].status.Ok?
    ensures Elements(Stamped(events[j].group.ops, events[j].group.first)) <= Acked(events)
  {
    if j < |events| - 1 {
      AckedHas(events[..|events| - 1], j);
    }
  }

  /** Whoever is told that all is well has every operation of his batch acknowledged, with its key, type and value,
      in order, behind those of the writers in front of him. */
  lemma EveryOperationIsAcknowledged(qs: seq<Queue>, ss: seq<Engine.State>, steps: seq<Joint>, i: nat, j: nat, m: nat, x: nat)
    requires JointRun(qs, ss, steps) && i < |qs| && j < |qs[i].events| && qs[i].events[j].Committed? && qs[i].events[j].status.Ok?
    requires m < |qs[i].events[j].group.members| && qs[i].events[j].group.members[m].batch.Some?
    requires x < |qs[i].events[j].group.members[m].batch.value.ops|
    ensures var g := qs[i].events[j].group;
            var op := g.members[m].batch.value.ops[x];
            Entry(op.key, g.first + OpCount(g.members[..m]) + x, op.valueType, op.value) in ss[i].acked
  {
    hide JointRun, InStep, Inv, Acked, AllOps, OpCount, WholeBatches, Stamped, Elements;
    var q := qs[i];
    JointRunKeepsQueue(qs, ss, steps, i);
    AcknowledgedIsWhatWritersWereTold(qs, ss, steps, i);
    var g := q.events[j].group;
    GroupIsGood(q, j);
    BatchesAreWhole(g.members);
    AckedHas(q.events, j);
    OperationIsStamped(g.members, g.ops, g.first, m, x);
  }

  lemma OperationIsStamped(rs: seq<Request>, ops: seq<Op>, first: nat, m: nat, x: nat)
    requires WholeBatches(rs, ops) && m < |rs| && rs[m].batch.Some? && x < |rs[m].batch.value.ops|
    ensures var op := rs[m].batch.value.ops[x];
            Entry(op.key, first + OpCount(rs[..m]) + x, op.valueType, op.value) in Elements(Stamped(ops, first))
  {
    hide OpCount;
    var at, batch := OpCount(rs[..m]), rs[m].batch.value.ops;
    assert ops[at..at + |batch|][x] == ops[at + x];
    assert Stamped(ops, first)[at + x] in Elements(Stamped(ops, first));
  }

  lemma GroupIsGood(q: Queue, j: nat)
    requires Inv(q) && j < |q.events| && q.events[j].Committed?
    ensures q.events[j].group.ops == AllOps(q.events[j].group.members)
  {
  }

  lemma SameAcked(q: Queue, s: Engine.State)
    requires InStep(q, s)
    ensures s.acked == Acked(q.events)
  {
  }

  lemma StartTogether(cmp: DbFormat.Comparator)
    ensures InStep(Queue([], [], None, [], 0, 0), Engine.Init(cmp))
  {
  }
}
