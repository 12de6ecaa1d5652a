/** Recovery as the program does it (DBImpl::Recover in db/db_impl.cc) is the recovery step of the
    engine. */
module Recovery {
  import opened Common
  import opened Entries
  import opened DbImpl
  import Versions
  import Engine
  import EngineInv
  import EngineRecovery
  import DbFormat

  function Flatten(logs: seq<seq<LogRecord>>): seq<LogRecord> {
    if logs == [] then [] else Flatten(logs[..|logs| - 1]) + logs[|logs| - 1]
  }

  lemma {:induction false} EntriesOfBoth(a: seq<LogRecord>, b: seq<LogRecord>, floor: nat)
    ensures EntriesIn(a + b) == EntriesIn(a) + EntriesIn(b)
    ensures MaxOf(a + b, floor) == MaxOf(b, MaxOf(a, floor))
    decreases |b|
  {
    if b == [] {
      assert a + b == a;
    } else {
      var short := b[..|b| - 1];
      EntriesOfBoth(a, short, floor);
      assert (a + b)[..|a + b| - 1] == a + short && (a + b)[|a + b| - 1] == b[|b| - 1];
      var last := if b[|b| - 1].Batch? then b[|b| - 1].entries else [];
      assert EntriesIn(a) + EntriesIn(short) + last == EntriesIn(a) + (EntriesIn(short) + last);
    }
  }

  /** The logs that the manifest does not declare obsolete, in the order of their numbers. */
  method Recover(logs: seq<seq<LogRecord>>, usage: set<Entry> -> nat, writeBufferSize: nat, tableOk: set<Entry> -> bool, manifestLast: nat)
      returns (ok: bool, parts: seq<set<Entry>>, lastSequence: nat)
    requires Increasing(EntriesIn(Flatten(logs)))
    requires forall i, k :: 0 <= i < |logs| && 0 <= k < |logs[i]| ==> Numbered(logs[i][k])
    ensures ok ==> Engine.Cuts(parts, Elements(EntriesIn(Flatten(logs))))
    ensures ok ==> lastSequence == var m := MaxOf(Flatten(logs), 0); if manifestLast < m then m else manifestLast
    ensures (forall es :: tableOk(es)) ==> ok
  {
    hide Engine.Cuts, Increasing, EntriesIn, MaxOf;
    var maxSequence := 0;
    parts, lastSequence := [], manifestLast;
    NothingRead();
    assert logs[..0] == [];
    for i := 0 to |logs|
      invariant Engine.Cuts(parts, Elements(EntriesIn(Flatten(logs[..i])))) && maxSequence == MaxOf(Flatten(logs[..i]), 0)
    {
      var done := Flatten(logs[..i]);
      assert logs[..i + 1][..i] == logs[..i];
      assert Flatten(logs[..i + 1]) == done + logs[i];
      EntriesOfBoth(done, logs[i], 0);
      FlattenPrefix(logs, i + 1);
      IncreasingPrefix([], EntriesIn(done + logs[i]), EntriesIn(Flatten(logs)));
      ok, parts, maxSequence := RecoverLogFile(logs[i], usage, writeBufferSize, tableOk, parts, maxSequence, EntriesIn(done));
      if !ok {
        return;
      }
    }
    assert logs[..|logs|] == logs;
    if lastSequence < maxSequence {
      lastSequence := maxSequence;
    }
    ok := true;
  }

  lemma NothingRead()
    ensures EntriesIn(Flatten([])) == [] && MaxOf(Flatten([]), 0) == 0 && Engine.Cuts([], Elements([]))
    ensures forall es: seq<Entry> :: [] + es == es
  {
  }

  lemma {:induction false} FlattenPrefix(logs: seq<seq<LogRecord>>, i: nat)
    requires i <= |logs|
    ensures EntriesIn(Flatten(logs[..i])) <= EntriesIn(Flatten(logs))
  {
    if i < |logs| {
      var short := logs[..|logs| - 1];
      FlattenPrefix(short, i);
      assert short[..i] == logs[..i];
      EntriesOfBoth(Flatten(short), logs[|logs| - 1], 0);
    } else {
      assert logs[..i] == logs;
    }
  }

  function BatchEntries(log: seq<LogRecord>): nat {
    if log == [] then 0
    else BatchEntries(log[..|log| - 1]) + match log[|log| - 1] case TooSmall => 0 case Batch(_, entries) => |entries|
  }

  lemma {:induction false} HowManyEntries(log: seq<LogRecord>)
    ensures |EntriesIn(log)| == BatchEntries(log)
  {
    if log != [] {
      HowManyEntries(log[..|log| - 1]);
    }
  }

  /** Every batch of every log is replayed, whole, behind those before it, and nothing else is. */
  lemma BatchIsReplayed(logs: seq<seq<LogRecord>>, i: nat, k: nat)
    requires i < |logs| && k < |logs[i]| && logs[i][k].Batch?
    ensures var es, at, entries := EntriesIn(Flatten(logs)), BatchEntries(Flatten(logs[..i]) + logs[i][..k]), logs[i][k].entries;
            && |es| == BatchEntries(Flatten(logs))
            && at + |entries| <= |es| && es[at..at + |entries|] == entries
  {
    hide EntriesIn, BatchEntries, Flatten;
    var first, log := Flatten(logs[..i]), logs[i];
    HowManyEntries(Flatten(logs));
    HowManyEntries(first + log[..k]);
    EntriesOfBoth(first, log[..k], 0);
    LogOfBatch(log, k);
    LogsOfLog(logs, i);
    InBetween(EntriesIn(first), EntriesIn(log[..k]), log[k].entries, EntriesIn(log[k + 1..]), EntriesIn(Flatten(logs[i + 1..])));
  }

  lemma LogOfBatch(log: seq<LogRecord>, k: nat)
    requires k < |log| && log[k].Batch?
    ensures EntriesIn(log) == EntriesIn(log[..k]) + (log[k].entries + EntriesIn(log[k + 1..]))
  {
    hide EntriesIn;
    assert log == log[..k] + ([log[k]] + log[k + 1..]);
    EntriesOfBoth(log[..k], [log[k]] + log[k + 1..], 0);
    EntriesOfBoth([log[k]], log[k + 1..], 0);
    OneBatch(log[k]);
  }

  lemma LogsOfLog(logs: seq<seq<LogRecord>>, i: nat)
    requires i < |logs|
    ensures EntriesIn(Flatten(logs)) == EntriesIn(Flatten(logs[..i])) + EntriesIn(logs[i]) + EntriesIn(Flatten(logs[i + 1..]))
  {
    hide EntriesIn, Flatten;
    assert logs == logs[..i + 1] + logs[i + 1..];
    FlattenBoth(logs[..i + 1], logs[i + 1..]);
    FlattenOneMore(logs, i);
    EntriesOfBoth(Flatten(logs[..i]), logs[i], 0);
  }

  lemma OneBatch(r: LogRecord)
    ensures r.Batch? ==> EntriesIn([r]) == r.entries
  {
    assert [r][..0] == [];
  }

  lemma FlattenOneMore(logs: seq<seq<LogRecord>>, i: nat)
    requires i < |logs|
    ensures Flatten(logs[..i + 1]) == Flatten(logs[..i]) + logs[i]
  {
    assert logs[..i + 1][..i] == logs[..i];
  }

  lemma InBetween(a: seq<Entry>, b: seq<Entry>, c: seq<Entry>, d: seq<Entry>, e: seq<Entry>)
    ensures var all, at := a + (b + (c + d)) + e, |a + b|;
            at + |c| <= |all| && all[at..at + |c|] == c
  {
    assert a + (b + (c + d)) + e == a + b + c + (d + e);
  }

  // ---- The engine's point of view ------------------------------------------

  /** logs are what the files with these numbers hold, record by record. */
  ghost predicate Reads(s: Engine.State, numbers: seq<nat>, logs: seq<seq<LogRecord>>) {
    && |numbers| == |logs| && (forall i, j :: 0 <= i < j < |numbers| ==> numbers[i] < numbers[j])
    && (forall n :: n in numbers <==> n in s.logs && n >= s.manifest.logNumber)
    && (forall i :: 0 <= i < |logs| ==> Elements(EntriesIn(logs[i])) == Versions.EntriesOf(s.logs, numbers[i]) && Increasing(EntriesIn(logs[i])))
  }

  /** Logs that hold nothing: what an earlier recovery that a crash cut short may have left. */
  ghost predicate Blank(logs: seq<seq<LogRecord>>) {
    forall i :: 0 <= i < |logs| ==> EntriesIn(logs[i]) == []
  }

  lemma {:induction false} BlankIsNothing(logs: seq<seq<LogRecord>>)
    requires Blank(logs)
    ensures EntriesIn(Flatten(logs)) == []
    decreases |logs|
  {
    if logs != [] {
      BlankIsNothing(logs[..|logs| - 1]);
      EntriesOfBoth(Flatten(logs[..|logs| - 1]), logs[|logs| - 1], 0);
    }
  }

  lemma {:induction false} FlattenBoth(a: seq<seq<LogRecord>>, b: seq<seq<LogRecord>>)
    ensures EntriesIn(Flatten(a + b)) == EntriesIn(Flatten(a)) + EntriesIn(Flatten(b))
    decreases |b|
  {
    hide EntriesIn;
    if b == [] {
      assert a + b == a;
      assert EntriesIn(Flatten(b)) == [] by { NothingRead(); }
      assert EntriesIn(Flatten(a)) + [] == EntriesIn(Flatten(a));
    } else {
      var n := |b| - 1;
      var x, y, z := EntriesIn(Flatten(a)), EntriesIn(Flatten(b[..n])), EntriesIn(b[n]);
      FlattenBoth(a, b[..n]);
      assert (a + b)[..|a + b| - 1] == a + b[..n] && (a + b)[|a + b| - 1] == b[n];
      EntriesOfBoth(Flatten(a + b[..n]), b[n], 0);
      EntriesOfBoth(Flatten(b[..n]), b[n], 0);
      assert x + y + z == x + (y + z);
    }
  }

  /** First the log of the immutable memtable, if it is still needed, then that of the memtable, then blank ones. */
  lemma LogNumbers(s: Engine.State, numbers: seq<nat>, logs: seq<seq<LogRecord>>) returns (n: nat)
    requires EngineInv.Inv(s) && Reads(s, numbers, logs)
    ensures 0 < n <= |logs| && Blank(logs[n..])
    ensures (numbers[..n] == [s.memLog] && s.manifest.logNumber == s.memLog)
            || (numbers[..n] == [s.manifest.logNumber, s.memLog] && s.immLog == Some(s.manifest.logNumber))
  {
    hide EngineInv.Inv;
    WhichLogs(s);
    assert s.memLog in numbers && s.manifest.logNumber in numbers;
    var m: nat :| m < |numbers| && numbers[m] == s.memLog;
    n := m + 1;
    forall i | n <= i < |logs| ensures EntriesIn(logs[i]) == [] {
      assert numbers[i] in numbers && numbers[i] > s.memLog;
      assert s.logs[numbers[i]] == {};
      NoElements(EntriesIn(logs[i]));
    }
    var ns := numbers[..n];
    forall k | k in ns ensures k == s.memLog || k == s.manifest.logNumber {
      var i :| 0 <= i < n && numbers[i] == k;
      assert k in numbers;
    }
    var q :| 0 <= q < |numbers| && numbers[q] == s.manifest.logNumber;
    assert ns[q] == s.manifest.logNumber && ns[m] == s.memLog;
    OneOrTwo(ns, s.manifest.logNumber, s.memLog);
  }

  lemma WhichLogs(s: Engine.State)
    requires EngineInv.Inv(s)
    ensures s.memLog in s.logs && s.manifest.logNumber in s.logs && s.manifest.logNumber <= s.memLog
    ensures s.manifest.logNumber == s.memLog || s.immLog == Some(s.manifest.logNumber)
    ensures forall n :: n in s.logs && n >= s.manifest.logNumber ==>
              n == s.memLog || n == s.manifest.logNumber || (n > s.memLog && s.logs[n] == {})
  {
    hide EngineInv.TablesInv, EngineInv.CopiesInv, EngineInv.SnapshotsInv, EngineInv.ReadersInv, EngineInv.SchedulingInv, EngineInv.FlushInv,
         EngineInv.CompInv, EngineInv.ApplyInv, EngineInv.WriteInv, EngineInv.GroupsInv, EngineInv.HistoryInv, Versions.Good, DbFormat.TotalOrder;
  }

  lemma NoElements(es: seq<Entry>)
    requires Elements(es) == {}
    ensures es == []
  {
    FirstIsElement(es);
  }

  lemma FirstIsElement(es: seq<Entry>)
    ensures es != [] ==> Elements(es) != {}
  {
    if es != [] {
      assert es[0] in Elements(es);
    }
  }

  lemma OneOrTwo(ns: seq<nat>, a: nat, b: nat)
    requires a <= b && a in ns && b in ns && (forall n :: n in ns ==> n == a || n == b)
    requires forall i, j :: 0 <= i < j < |ns| ==> ns[i] < ns[j]
    ensures ns == if a == b then [b] else [a, b]
  {
    assert ns[0] in ns;
    if |ns| > 1 {
      assert ns[1] in ns && ns[0] < ns[1];
      NoThird(ns, a, b);
    }
  }

  lemma NoThird(ns: seq<nat>, a: nat, b: nat)
    requires (forall n :: n in ns ==> n == a || n == b) && |ns| > 1
    requires forall i, j :: 0 <= i < j < |ns| ==> ns[i] < ns[j]
    ensures |ns| == 2
  {
    var k := |ns| - 1;
    assert ns[0] in ns && ns[1] in ns && ns[k] in ns;
    assert ns[0] < ns[1] && ns[0] < ns[k];
  }

  lemma LogsAreIncreasing(s: Engine.State, numbers: seq<nat>, logs: seq<seq<LogRecord>>)
    requires EngineInv.Inv(s) && Reads(s, numbers, logs)
    ensures Increasing(EntriesIn(Flatten(logs))) && Elements(EntriesIn(Flatten(logs))) == Engine.Replayed(s)
  {
    hide EngineInv.Inv, EntriesIn, Engine.Replayed, EngineInv.LogFloor;
    var n := LogNumbers(s, numbers, logs);
    EngineRecovery.ReplayedIs(s);
    LogContents(s);
    hide Engine.Replayed, EngineInv.LogFloor, Increasing, Versions.Beyond, Versions.Upto;
    assert logs == logs[..n] + logs[n..];
    FlattenBoth(logs[..n], logs[n..]);
    BlankIsNothing(logs[n..]);
    assert EntriesIn(Flatten(logs)) == EntriesIn(Flatten(logs[..n]));
    assert numbers[n - 1] == numbers[..n][n - 1];
    if n == 1 {
      OneLog(logs[..1]);
    } else {
      assert numbers[0] == numbers[..n][0] && n == 2;
      TwoLogs(logs[..2], s.memFloor);
    }
  }

  lemma OneLog(logs: seq<seq<LogRecord>>)
    requires |logs| == 1
    ensures Flatten(logs) == logs[0]
  {
    assert logs[..0] == [];
    assert [] + logs[0] == logs[0];
  }

  lemma TwoLogs(logs: seq<seq<LogRecord>>, bound: nat)
    requires |logs| == 2 && Increasing(EntriesIn(logs[0])) && Increasing(EntriesIn(logs[1]))
    requires (forall e :: e in Elements(EntriesIn(logs[0])) ==> e.sequence <= bound) && forall e :: e in Elements(EntriesIn(logs[1])) ==> e.sequence > bound
    ensures Increasing(EntriesIn(Flatten(logs)))
    ensures Elements(EntriesIn(Flatten(logs))) == Elements(EntriesIn(logs[0])) + Elements(EntriesIn(logs[1]))
  {
    hide EntriesIn, Increasing;
    OneLog(logs[..1]);
    EntriesOfBoth(logs[0], logs[1], 0);
    TwoIncreasing(EntriesIn(logs[0]), EntriesIn(logs[1]), bound);
  }

  lemma TwoIncreasing(a: seq<Entry>, b: seq<Entry>, bound: nat)
    requires Increasing(a) && Increasing(b)
    requires (forall e :: e in Elements(a) ==> e.sequence <= bound) && (forall e :: e in Elements(b) ==> e.sequence > bound)
    ensures Increasing(a + b) && Elements(a + b) == Elements(a) + Elements(b)
  {
    forall i, j | 0 <= i < j < |a + b| ensures (a + b)[i].sequence < (a + b)[j].sequence {
      if i < |a| <= j {
        assert a[i] in Elements(a) && b[j - |a|] in Elements(b);
      }
    }
  }

  lemma LogContents(s: Engine.State)
    requires EngineInv.Inv(s)
    ensures forall e :: e in Versions.EntriesOf(s.logs, s.memLog) ==> e.sequence > s.memFloor
    ensures s.immLog.Some? ==> forall e :: e in Versions.EntriesOf(s.logs, s.immLog.value) ==> e.sequence <= s.memFloor
    ensures EngineInv.LogFloor(s) == (if s.manifest.logNumber == s.memLog then s.memFloor else s.immFloor)
    ensures Versions.EntriesOf(s.logs, s.memLog) == Versions.Beyond(s.appended, s.memFloor) && s.immFloor <= s.memFloor
    ensures s.immLog.Some? ==> Versions.EntriesOf(s.logs, s.immLog.value) == Versions.Beyond(Versions.Upto(s.appended, s.memFloor), s.immFloor)
  {
    hide EngineInv.TablesInv, EngineInv.CopiesInv, EngineInv.SnapshotsInv, EngineInv.ReadersInv, EngineInv.SchedulingInv, EngineInv.FlushInv,
         EngineInv.CompInv, EngineInv.ApplyInv, EngineInv.WriteInv, EngineInv.GroupsInv, EngineInv.ManifestInv, DbFormat.TotalOrder;
  }

  lemma {:induction false} MaxOfEntries(log: seq<LogRecord>, floor: nat)
    requires forall k :: 0 <= k < |log| ==> Numbered(log[k]) && (log[k].Batch? ==> log[k].entries != [])
    ensures forall e :: e in EntriesIn(log) ==> e.sequence <= MaxOf(log, floor)
    ensures MaxOf(log, floor) == floor || exists e :: e in EntriesIn(log) && e.sequence == MaxOf(log, floor)
  {
    if log != [] {
      var short, r := log[..|log| - 1], log[|log| - 1];
      MaxOfEntries(short, floor);
      if r.Batch? {
        assert Numbered(r);
        var last := r.entries[|r.entries| - 1];
        assert last in EntriesIn(log) && last.sequence == r.first + |r.entries| - 1;
      }
    }
  }

  /** What Recover makes of the logs that a crash leaves is what the engine's recovery step asks for, and
      LastSequence comes out the same. */
  lemma RecoverIsEngineStep(s: Engine.State, numbers: seq<nat>, logs: seq<seq<LogRecord>>, parts: seq<set<Entry>>)
    requires EngineInv.Inv(s) && Reads(s, numbers, logs)
    requires forall k :: 0 <= k < |Flatten(logs)| ==> Numbered(Flatten(logs)[k]) && (Flatten(logs)[k].Batch? ==> Flatten(logs)[k].entries != [])
    requires Engine.Cuts(parts, Elements(EntriesIn(Flatten(logs))))
    ensures Increasing(EntriesIn(Flatten(logs)))
    ensures Engine.Enabled(s, Engine.CrashRecover(parts))
    ensures var m := MaxOf(Flatten(logs), 0);
            Engine.Recovered(s, parts).lastSequence == if s.manifest.lastSequence < m then m else s.manifest.lastSequence
  {
    LogsAreIncreasing(s, numbers, logs);
    MaxOfEntries(Flatten(logs), 0);
    AsStep(s, parts);
    EngineRecovery.TablesBelow(s);
    hide EngineInv.Inv, Reads, Engine.Replayed, EntriesIn, MaxOf, Flatten, Increasing, Engine.Cuts, Engine.Enabled, Engine.Recovered, Engine.MaxSequence;
    SameMaximum(Elements(EntriesIn(Flatten(logs))), MaxOf(Flatten(logs), 0), s.manifest.lastSequence);
  }

  lemma AsStep(s: Engine.State, parts: seq<set<Entry>>)
    ensures Engine.Enabled(s, Engine.CrashRecover(parts)) <==> s.manifestFile in s.manifests && Engine.Cuts(parts, Engine.Replayed(s))
    ensures Engine.Recovered(s, parts).lastSequence == Engine.MaxSequence(Engine.Replayed(s), s.manifest.lastSequence)
  {
    hide Engine.Cuts, Engine.Replayed, Engine.MaxSequence, Engine.Numbered;
  }

  lemma SameMaximum(es: set<Entry>, m: nat, floor: nat)
    requires (forall e :: e in es ==> e.sequence <= m) && (m == 0 || exists e :: e in es && e.sequence == m)
    ensures Engine.MaxSequence(es, floor) == if floor < m then m else floor
  {
  }
}
