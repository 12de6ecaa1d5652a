/** Group commit (DBImpl::Write and BuildBatchGroup in db/db_impl.cc): writers queue up, the one at the
    head commits its batch together with those of some that wait behind it. */
module WriteQueue {
  import opened Common
  import opened Coding
  import opened DbFormat

  datatype Op = Op(key: UserKey, valueType: ValueType, value: seq<Byte>)

  /** A batch and its size in bytes as WriteBatchInternal::ByteSize tells it. */
  datatype Batch = Batch(ops: seq<Op>, size: nat)

  /** A call of Write: no batch asks only for room in the memtable. */
  datatype Request = Request(batch: Option<Batch>, sync: bool)

  /** The batches of some writers in one log record, from one sequence number on. */
  datatype Group = Group(members: seq<Request>, ops: seq<Op>, first: nat)

  /** How writers left the queue: one alone without having written anything, or a group together. */
  datatype Event = Alone(request: Request, status: Status) | Committed(group: Group, status: Status)

  /** arrived is everything that ever entered the queue. */
  datatype Queue = Queue(arrived: seq<Request>, waiting: seq<Request>, leading: Option<Group>,
                         events: seq<Event>, base: nat, lastSequence: nat)

  const MAX_GROUP_SIZE: nat := 0x10_0000
  const SMALL_WRITE: nat := 0x2_0000

  // ---- Groups --------------------------------------------------------------

  function BatchSize(r: Request): nat {
    if r.batch.Some? then r.batch.value.size else 0
  }

  function BatchOps(r: Request): seq<Op> {
    if r.batch.Some? then r.batch.value.ops else []
  }

  function TotalSize(rs: seq<Request>): nat {
    if rs == [] then 0 else TotalSize(rs[..|rs| - 1]) + BatchSize(rs[|rs| - 1])
  }

  function AllOps(rs: seq<Request>): seq<Op> {
    if rs == [] then [] else AllOps(rs[..|rs| - 1]) + BatchOps(rs[|rs| - 1])
  }

  /** How many operations some writers bring. */
  function OpCount(rs: seq<Request>): nat {
    if rs == [] then 0
    else OpCount(rs[..|rs| - 1]) + match rs[|rs| - 1].batch case None => 0 case Some(batch) => |batch.ops|
  }

  /** Every member's batch stands whole behind the operations of those in front of it, and nothing else is there. */
  ghost predicate WholeBatches(rs: seq<Request>, ops: seq<Op>) {
    && |ops| == OpCount(rs)
    && forall i :: 0 <= i < |rs| && rs[i].batch.Some? ==>
         && OpCount(rs[..i]) + |rs[i].batch.value.ops| <= |ops|
         && ops[OpCount(rs[..i])..OpCount(rs[..i]) + |rs[i].batch.value.ops|] == rs[i].batch.value.ops
  }

  lemma {:induction false} BatchesAreWhole(rs: seq<Request>)
    ensures WholeBatches(rs, AllOps(rs))
  {
    hide AllOps, OpCount;
    CountsAddUp(rs);
    forall i | 0 <= i < |rs| && rs[i].batch.Some?
      ensures OpCount(rs[..i]) + |rs[i].batch.value.ops| <= |AllOps(rs)|
      ensures AllOps(rs)[OpCount(rs[..i])..OpCount(rs[..i]) + |rs[i].batch.value.ops|] == rs[i].batch.value.ops
    {
      BatchIsWhole(rs, i);
    }
  }

  lemma {:induction false} CountsAddUp(rs: seq<Request>)
    ensures |AllOps(rs)| == OpCount(rs)
  {
    if rs != [] {
      CountsAddUp(rs[..|rs| - 1]);
    }
  }

  lemma {:induction false} BatchIsWhole(rs: seq<Request>, i: nat)
    requires i < |rs| && rs[i].batch.Some?
    ensures var at, ops := OpCount(rs[..i]), rs[i].batch.value.ops;
            at + |ops| <= |AllOps(rs)| && AllOps(rs)[at..at + |ops|] == ops
  {
    hide OpCount;
    var n := |rs| - 1;
    if i < n {
      BatchIsWhole(rs[..n], i);
      assert rs[..n][..i] == rs[..i];
      Earlier(AllOps(rs[..n]), BatchOps(rs[n]), OpCount(rs[..i]), |rs[i].batch.value.ops|);
    } else {
      CountsAddUp(rs[..n]);
      Behind(AllOps(rs[..n]), BatchOps(rs[n]));
    }
  }

  lemma Behind(a: seq<Op>, b: seq<Op>)
    ensures (a + b)[|a|..|a| + |b|] == b
  {
  }

  lemma Earlier(a: seq<Op>, b: seq<Op>, at: nat, n: nat)
    requires at + n <= |a|
    ensures (a + b)[at..at + n] == a[at..at + n]
  {
  }

  /** Sizes add up, and so do operations. */
  lemma OneMoreBatch(rs: seq<Request>, r: Request)
    ensures TotalSize([]) == 0
    ensures TotalSize(rs + [r]) == TotalSize(rs) + match r.batch case None => 0 case Some(batch) => batch.size
    ensures AllOps(rs + [r]) == AllOps(rs) + match r.batch case None => [] case Some(batch) => batch.ops
  {
    assert (rs + [r])[..|rs|] == rs;
  }

  /** A small write is not held up by a large group. */
  function SizeLimit(first: Request): nat {
    if BatchSize(first) <= SMALL_WRITE then BatchSize(first) + SMALL_WRITE else MAX_GROUP_SIZE
  }

  /** The writer at position i may join those in front of it. */
  predicate MayJoin(rs: seq<Request>, i: nat)
    requires 0 < i < |rs|
  {
    && (rs[i].sync ==> rs[0].sync)
    && (rs[i].batch.Some? ==> TotalSize(rs[..i + 1]) <= SizeLimit(rs[0]))
  }

  /** The first n writers make a group: each may join those in front of it, and n is as large as it
      can be. */
  ghost predicate IsGroup(rs: seq<Request>, n: nat) {
    && 0 < n <= |rs| && rs[0].batch.Some?
    && (forall i :: 0 < i < n ==> MayJoin(rs, i))
    && (n < |rs| ==> !MayJoin(rs, n))
  }

  /** The rules as numbers: nobody who asks for a sync joins one who does not; with a batch of at most 128 KB at the
      head the group may grow by 128 KB, otherwise to 1 MB; a writer without a batch always fits. The first one
      that breaks a rule ends the group. */
  lemma GroupLimits(rs: seq<Request>, n: nat, i: nat)
    requires IsGroup(rs, n) && i < |rs| && 0 < i <= n
    ensures var first := rs[0].batch.value.size;
            var limit := if first <= 131072 then first + 131072 else 1048576;
            var fits := (rs[i].sync ==> rs[0].sync) && (rs[i].batch.Some? ==> TotalSize(rs[..i + 1]) <= limit);
            fits <==> i < n
  {
    assert i < n ==> MayJoin(rs, i);
  }

  lemma GroupIsUnique(rs: seq<Request>, n: nat, k: nat)
    requires IsGroup(rs, n) && IsGroup(rs, k)
    ensures n == k
  {
  }

  // ---- The queue as a state machine ---------------------------------------

  datatype Step =
    | Arrive(request: Request)
    | LeaveAlone(status: Status)
    | Lead(n: nat)
    | Finish(status: Status)

  ghost predicate Enabled(q: Queue, step: Step) {
    match step
    case Arrive(_) => true
    case LeaveAlone(status) => q.leading.None? && q.waiting != [] && (status.Ok? ==> q.waiting[0].batch.None?)
    case Lead(n) => q.leading.None? && IsGroup(q.waiting, n)
    case Finish(_) => q.leading.Some?
  }

  ghost function Apply(q: Queue, step: Step): Queue
    requires Enabled(q, step)
  {
    match step
    case Arrive(r) => q.(arrived := q.arrived + [r], waiting := q.waiting + [r])
    case LeaveAlone(status) => q.(waiting := q.waiting[1..], events := q.events + [Alone(q.waiting[0], status)])
    case Lead(n) => q.(leading := Some(Group(q.waiting[..n], AllOps(q.waiting[..n]), q.lastSequence + 1)))
    case Finish(status) =>
      var g := q.leading.value;
      q.(waiting := if |g.members| <= |q.waiting| then q.waiting[|g.members|..] else [],
         leading := None, events := q.events + [Committed(g, status)],
         lastSequence := q.lastSequence + |g.ops|)
  }

  /** The writers that an event let go, in order. */
  function Released(e: Event): seq<Request> {
    match e case Alone(r, _) => [r] case Committed(g, _) => g.members
  }

  function AllReleased(events: seq<Event>): seq<Request> {
    if events == [] then [] else AllReleased(events[..|events| - 1]) + Released(events[|events| - 1])
  }

  /** Sequence numbers taken, whether or not the append succeeded. */
  function Taken(e: Event): nat {
    match e case Alone(_, _) => 0 case Committed(g, _) => |g.ops|
  }

  function AllTaken(events: seq<Event>): nat {
    if events == [] then 0 else AllTaken(events[..|events| - 1]) + Taken(events[|events| - 1])
  }

  /** The group takes the numbers right behind those taken before it; it holds every member's batch, in
      order; nobody who asked for sync is led by somebody who did not. */
  ghost predicate GoodGroup(g: Group, first: nat) {
    && g.first == first && g.ops == AllOps(g.members)
    && g.members != [] && g.members[0].batch.Some?
    && forall i :: 0 <= i < |g.members| && g.members[i].sync ==> g.members[0].sync
  }

  ghost predicate GoodEvents(events: seq<Event>, base: nat) {
    forall i :: 0 <= i < |events| && events[i].Committed? ==> GoodGroup(events[i].group, base + AllTaken(events[..i]) + 1)
  }

  ghost predicate Inv(q: Queue) {
    && q.arrived == AllReleased(q.events) + q.waiting
    && q.lastSequence == q.base + AllTaken(q.events)
    && GoodEvents(q.events, q.base)
    && (q.leading.Some? ==>
          && GoodGroup(q.leading.value, q.lastSequence + 1)
          && |q.leading.value.members| <= |q.waiting|
          && q.leading.value.members == q.waiting[..|q.leading.value.members|])
  }

  ghost function Init(lastSequence: nat): Queue {
    Queue([], [], None, [], lastSequence, lastSequence)
  }

  lemma OneMoreEvent(events: seq<Event>, e: Event, base: nat)
    requires GoodEvents(events, base)
    requires e.Committed? ==> GoodGroup(e.group, base + AllTaken(events) + 1)
    ensures GoodEvents(events + [e], base)
    ensures AllReleased(events + [e]) == AllReleased(events) + Released(e)
    ensures AllTaken(events + [e]) == AllTaken(events) + Taken(e)
  {
    hide GoodGroup;
    var more := events + [e];
    assert more[..|events|] == events;
    forall i | 0 <= i < |more| && more[i].Committed? ensures GoodGroup(more[i].group, base + AllTaken(more[..i]) + 1) {
      assert more[..i] == events[..i];
      assert events[..|events|] == events;
    }
  }

  lemma StepKeepsInv(q: Queue, step: Step)
    requires Inv(q) && Enabled(q, step)
    ensures Inv(Apply(q, step))
  {
    hide GoodEvents, AllReleased, AllTaken, AllOps;
    match step
    case Arrive(r) => assert AllReleased(q.events) + q.waiting + [r] == AllReleased(q.events) + (q.waiting + [r]);
    case LeaveAlone(status) =>
      OneMoreEvent(q.events, Alone(q.waiting[0], status), q.base);
      assert q.waiting == [q.waiting[0]] + q.waiting[1..];
    case Lead(n) =>
      forall i | 0 <= i < n && q.waiting[i].sync ensures q.waiting[0].sync {
        assert i > 0 ==> MayJoin(q.waiting, i);
      }
    case Finish(status) =>
      OneMoreEvent(q.events, Committed(q.leading.value, status), q.base);
      var n := |q.leading.value.members|;
      assert q.waiting == q.waiting[..n] + q.waiting[n..];
  }

  // ---- Runs ----------------------------------------------------------------

  ghost predicate Run(states: seq<Queue>, steps: seq<Step>, lastSequence: nat) {
    && |states| == |steps| + 1 && states[0] == Init(lastSequence)
    && forall i :: 0 <= i < |steps| ==> Enabled(states[i], steps[i]) && states[i + 1] == Apply(states[i], steps[i])
  }

  lemma {:induction false} RunKeepsInv(states: seq<Queue>, steps: seq<Step>, lastSequence: nat, i: nat)
    requires Run(states, steps, lastSequence) && i < |states|
    ensures Inv(states[i])
  {
    hide Inv, Apply, Enabled;
    if i > 0 {
      RunKeepsInv(states, steps, lastSequence, i - 1);
      StepKeepsInv(states[i - 1], steps[i - 1]);
    } else {
      InitInv(lastSequence);
    }
  }

  lemma InitInv(lastSequence: nat)
    ensures Inv(Init(lastSequence))
  {
  }

  /** Writers leave in the order in which they came, each once: the k-th to come is the k-th to go. */
  lemma FirstComeFirstServed(states: seq<Queue>, steps: seq<Step>, lastSequence: nat, i: nat)
    requires Run(states, steps, lastSequence) && i < |states|
    ensures AllReleased(states[i].events) + states[i].waiting == states[i].arrived
    ensures AllReleased(states[i].events) <= states[i].arrived
  {
    hide Run, Apply, Enabled;
    RunKeepsInv(states, steps, lastSequence, i);
  }

  lemma {:induction false} ReleasedPrefix(events: seq<Event>, i: nat)
    requires i <= |events|
    ensures AllReleased(events[..i]) <= AllReleased(events)
  {
    if i < |events| {
      ReleasedPrefix(events[..|events| - 1], i);
      assert events[..|events| - 1][..i] == events[..i];
    } else {
      assert events[..i] == events;
    }
  }

  /** Every group is made of the next writers to have arrived, holds exactly their batches in that order,
      and syncs the log if any of them asked for it. */
  lemma GroupsAreTheNextInLine(states: seq<Queue>, steps: seq<Step>, lastSequence: nat, n: nat, j: nat)
    requires Run(states, steps, lastSequence) && n < |states| && j < |states[n].events| && states[n].events[j].Committed?
    ensures var g := states[n].events[j].group;
            && AllReleased(states[n].events[..j]) + g.members <= states[n].arrived
            && WholeBatches(g.members, g.ops)
            && g.members != [] && forall i :: 0 <= i < |g.members| && g.members[i].sync ==> g.members[0].sync
  {
    hide Run, Apply, Enabled, AllReleased, AllOps, AllTaken;
    RunKeepsInv(states, steps, lastSequence, n);
    var events := states[n].events;
    assert GoodGroup(events[j].group, states[n].base + AllTaken(events[..j]) + 1);
    BatchesAreWhole(events[j].group.members);
    ReleasedPrefix(events, j + 1);
    ReleasedNext(events, j);
  }

  lemma ReleasedNext(events: seq<Event>, j: nat)
    requires j < |events|
    ensures AllReleased(events[..j + 1]) == AllReleased(events[..j]) + Released(events[j])
  {
    assert events[..j + 1][..j] == events[..j];
  }

  lemma {:induction false} TakenGrows(events: seq<Event>, i: nat, j: nat)
    requires i < j <= |events|
    ensures AllTaken(events[..i]) + Taken(events[i]) <= AllTaken(events[..j])
    decreases j
  {
    assert events[..j][..j - 1] == events[..j - 1];
    if i < j - 1 {
      TakenGrows(events, i, j - 1);
    }
  }

  /** Groups take disjoint, increasing, gapless ranges of sequence numbers, even when a log append fails. */
  lemma SequencesAreConsecutive(states: seq<Queue>, steps: seq<Step>, lastSequence: nat, n: nat, i: nat, j: nat)
    requires Run(states, steps, lastSequence) && n < |states|
    requires i < j < |states[n].events| && states[n].events[i].Committed? && states[n].events[j].Committed?
    ensures var a, b := states[n].events[i].group, states[n].events[j].group;
            && lastSequence < a.first && a.first + |a.ops| <= b.first
            && b.first + |b.ops| <= states[n].lastSequence + 1
            && (AllTaken(states[n].events[i + 1..j]) == 0 ==> a.first + |a.ops| == b.first)
  {
    hide Apply, Enabled, Run, GoodEvents, AllTaken;
    RunKeepsInv(states, steps, lastSequence, n);
    RunBase(states, steps, lastSequence, n);
    EventsAreConsecutive(states[n].events, lastSequence, i, j);
  }

  lemma EventsAreConsecutive(events: seq<Event>, base: nat, i: nat, j: nat)
    requires GoodEvents(events, base) && i < j < |events| && events[i].Committed? && events[j].Committed?
    ensures var a, b := events[i].group, events[j].group;
            && base < a.first && a.first + |a.ops| <= b.first
            && b.first + |b.ops| <= base + AllTaken(events) + 1
            && (AllTaken(events[i + 1..j]) == 0 ==> a.first + |a.ops| == b.first)
  {
    hide AllTaken;
    TakenGrows(events, i, j);
    TakenGrows(events, j, |events|);
    assert events[..|events|] == events;
    TakenSplits(events[..j], i + 1);
    assert events[..j][..i + 1] == events[..i + 1] && events[..j][i + 1..] == events[i + 1..j];
    TakenNext(events, i);
  }

  lemma TakenNext(events: seq<Event>, i: nat)
    requires i < |events|
    ensures AllTaken(events[..i + 1]) == AllTaken(events[..i]) + Taken(events[i])
  {
    assert events[..i + 1][..i] == events[..i];
  }

  lemma {:induction false} TakenSplits(events: seq<Event>, i: nat)
    requires i <= |events|
    ensures AllTaken(events) == AllTaken(events[..i]) + AllTaken(events[i..])
    decreases |events|
  {
    if i == |events| {
      assert events[..i] == events;
    } else {
      var last := |events| - 1;
      TakenSplits(events[..last], i);
      assert events[..last][..i] == events[..i] && events[..last][i..] == events[i..][..last - i];
    }
  }

  lemma {:induction false} RunBase(states: seq<Queue>, steps: seq<Step>, lastSequence: nat, i: nat)
    requires Run(states, steps, lastSequence) && i < |states|
    ensures states[i].base == lastSequence
  {
    if i > 0 {
      RunBase(states, steps, lastSequence, i - 1);
    }
  }

  // ---- The queue as the program keeps it -----------------------------------

  class Writer {
    const request: Request
    var done: bool
    var status: Status

    constructor (request: Request)
      ensures this.request == request && !done
    {
      this.request, done, status := request, false, Ok;
    }
  }

  function Requests(ws: seq<Writer>): (rs: seq<Request>)
    ensures |rs| == |ws| && forall i :: 0 <= i < |ws| ==> rs[i] == ws[i].request
  {
    seq(|ws|, i requires 0 <= i < |ws| => ws[i].request)
  }

  lemma OneMoreMember(rs: seq<Request>, n: nat)
    requires n < |rs|
    ensures AllOps(rs[..n + 1]) == AllOps(rs[..n]) + BatchOps(rs[n])
    ensures TotalSize(rs[..n + 1]) == TotalSize(rs[..n]) + BatchSize(rs[n])
    ensures AllOps(rs[..0]) == [] && TotalSize(rs[..0]) == 0
  {
    assert rs[..n + 1][..n] == rs[..n];
  }

  class Writers {
    /** writers_: everybody whose batch has not been dealt with. */
    var queue: seq<Writer>
    var lastSequence: nat
    ghost var arrived: seq<Request>
    ghost var events: seq<Event>
    ghost var base: nat
    ghost var leading: Option<Group>

    ghost function Abs(): Queue
      reads this
    {
      Queue(arrived, Requests(queue), leading, events, base, lastSequence)
    }

    ghost predicate Valid()
      reads this, queue
    {
      && Inv(Abs())
      && (forall i, j :: 0 <= i < j < |queue| ==> queue[i] != queue[j])
      && (forall i :: 0 <= i < |queue| ==> !queue[i].done)
    }

    constructor (lastSequence: nat)
      ensures Valid() && Abs() == Init(lastSequence)
    {
      queue, arrived, events, leading := [], [], [], None;
      this.lastSequence, base := lastSequence, lastSequence;
    }

    /** The beginning of Write: a new writer takes its place behind the others. */
    method Enter(request: Request) returns (w: Writer)
      requires Valid()
      modifies this
      ensures Valid() && fresh(w) && w.request == request && queue == old(queue) + [w]
      ensures Abs() == Apply(old(Abs()), Arrive(request))
    {
      StepKeepsInv(Abs(), Arrive(request));
      w := new Writer(request);
      queue := queue + [w];
      arrived := arrived + [request];
      assert Abs().waiting == old(Abs()).waiting + [request];
    }

    /** BuildBatchGroup: gathers batches from the head of the queue until somebody may not join. */
    method BuildBatchGroup() returns (ops: seq<Op>, n: nat)
      requires queue != [] && queue[0].request.batch.Some?
      ensures IsGroup(Requests(queue), n) && ops == AllOps(Requests(queue)[..n]) && WholeBatches(Requests(queue)[..n], ops)
    {
      hide AllOps, TotalSize;
      var first := queue[0].request;
      ghost var rs := Requests(queue);
      OneMoreMember(rs, 0);
      ops := first.batch.value.ops;
      var size := first.batch.value.size;
      var maxSize := MAX_GROUP_SIZE;
      if size <= SMALL_WRITE {
        maxSize := size + SMALL_WRITE;
      }
      n := 1;
      while n < |queue|
        invariant 1 <= n <= |queue| && ops == AllOps(rs[..n]) && size == TotalSize(rs[..n])
        invariant maxSize == SizeLimit(rs[0])
        invariant forall i :: 0 < i < n ==> MayJoin(rs, i)
      {
        var w := queue[n].request;
        OneMoreMember(rs, n);
        if w.sync && !first.sync {
          break;
        }
        if w.batch.Some? {
          size := size + w.batch.value.size;
          if size > maxSize {
            break;
          }
          ops := ops + w.batch.value.ops;
        }
        n := n + 1;
      }
      BatchesAreWhole(rs[..n]);
    }

    /** The leader has its group and leaves the critical section. */
    method StartGroup() returns (ops: seq<Op>, n: nat, first: nat)
      requires Valid() && leading.None? && queue != [] && queue[0].request.batch.Some?
      modifies this
      ensures Valid() && queue == old(queue) && Enabled(old(Abs()), Lead(n)) && Abs() == Apply(old(Abs()), Lead(n))
      ensures leading == Some(Group(Requests(queue)[..n], ops, first)) && WholeBatches(Requests(queue)[..n], ops)
    {
      ops, n := BuildBatchGroup();
      first := lastSequence + 1;
      StepKeepsInv(Abs(), Lead(n));
      leading := Some(Group(Requests(queue)[..n], ops, first));
    }

    /** The end of Write: the first n writers leave; all but the leader are told the status. */
    method Release(n: nat, status: Status)
      requires 0 < n <= |queue| && forall i, j :: 0 <= i < j < |queue| ==> queue[i] != queue[j]
      modifies this`queue, queue
      ensures queue == old(queue)[n..]
      ensures forall i :: 0 < i < n ==> old(queue)[i].done && old(queue)[i].status == status
      ensures forall w: Writer :: w in old(queue) && (w == old(queue)[0] || w in queue) ==> w.done == old(w.done) && w.status == old(w.status)
    {
      var leader, last := queue[0], queue[n - 1];
      ghost var all := queue;
      ghost var k := 0;
      while true
        invariant k < n && queue == all[k..]
        invariant forall i :: 0 < i < k ==> all[i].done && all[i].status == status
        invariant forall i :: 0 <= i < |all| && (i == 0 || i >= k) ==> all[i].done == old(all[i].done) && all[i].status == old(all[i].status)
        decreases n - k
      {
        var ready := queue[0];
        queue := queue[1..];
        if ready != leader {
          ready.status := status;
          ready.done := true;
        }
        k := k + 1;
        if ready == last {
          break;
        }
      }
    }

    /** A leader that wrote nothing: no room, or no batch. */
    method FinishAlone(status: Status)
      requires Valid() && leading.None? && queue != [] && (status.Ok? ==> queue[0].request.batch.None?)
      modifies this, queue
      ensures Valid() && queue == old(queue)[1..] && Abs() == Apply(old(Abs()), LeaveAlone(status))
    {
      StepKeepsInv(Abs(), LeaveAlone(status));
      hide Inv;
      events := events + [Alone(queue[0].request, status)];
      Release(1, status);
      assert Abs().waiting == old(Abs()).waiting[1..];
    }

    /** A leader whose n-member group of count operations went to the log and the memtable, or failed
        to. The numbers are used up. */
    method FinishGroup(n: nat, count: nat, status: Status)
      requires Valid() && leading.Some? && n == |leading.value.members| && count == |leading.value.ops|
      modifies this, queue
      ensures Valid() && Abs() == Apply(old(Abs()), Finish(status)) && queue == old(queue)[n..]
      ensures forall i :: 0 < i < n ==> old(queue)[i].done && old(queue)[i].status == status
    {
      StepKeepsInv(Abs(), Finish(status));
      hide Inv;
      lastSequence := lastSequence + count;
      events := events + [Committed(leading.value, status)];
      leading := None;
      Release(n, status);
      assert Abs().waiting == old(Abs()).waiting[n..];
    }
  }
}
