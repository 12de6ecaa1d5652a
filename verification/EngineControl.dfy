/** Every step of the engine moves the control machine, the one that the methods of the database object move. */
module EngineControl {
  import opened Common
  import DbFormat
  import opened Versions
  import opened VersionEdits
  import opened Picks
  import opened Compaction
  import opened Control
  import opened Engine
  import opened EngineInv
  import opened EngineTheorems

  predicate Crash(step: Step) {
    step.CrashRecover? || step.CrashInRecovery?
  }

  ghost predicate MovesAs(s: State, s2: State, m: Move) {
    Possible1(ControlOf(s), m) && ControlOf(s2) == Moved(ControlOf(s), m)
  }

  lemma WriterMoves(s: State, step: Step)
    requires Enabled(s, step) && (step.BeginWrite? || step.AppendLog? || step.SyncFail? || step.Insert?)
    ensures MovesAs(s, Apply(s, step), Stutter)
  {
    hide EntriesOf;
  }

  lemma EndWriteMoves(s: State)
    requires Enabled(s, EndWrite)
    ensures MovesAs(s, Apply(s, EndWrite), Effect(s, EndWrite))
  {
  }

  lemma SwitchMoves(s: State)
    requires Enabled(s, SwitchMemTable) && s.memLog < s.nextFile
    ensures MovesAs(s, Apply(s, SwitchMemTable), Switch(s.nextFile))
  {
  }

  lemma ReaderMoves(s: State, step: Step)
    requires Enabled(s, step) && (step.NewSnapshot? || step.ReleaseSnapshot? || step.BeginRead? || step.EndRead? || step.Shutdown? || step.BgBegin?)
    ensures MovesAs(s, Apply(s, step), Effect(s, step))
  {
  }

  lemma BgEndMoves(s: State)
    requires Enabled(s, BgEnd) && (s.active ==> s.scheduled)
    ensures MovesAs(s, Apply(s, BgEnd), CallEnds)
  {
  }

  lemma FlushMoves(s: State, step: Step)
    requires Enabled(s, step) && (step.FlushBegin? || step.FlushBuild? || step.FlushEnd?)
    ensures MovesAs(s, Apply(s, step), Effect(s, step))
  {
    hide RangeFree, EntriesOf;
  }

  lemma CompactionMoves(s: State, step: Step)
    requires Enabled(s, step) && (step.CompBegin? || step.CompOpen? || step.CompWrite? || step.CompFinish? || step.CompAbort? || step.TrivialMove?)
    ensures MovesAs(s, Apply(s, step), Effect(s, step))
  {
    hide Picked, BoundaryLeft, BaseOf, GoodOutputs, Kept, Contents;
  }

  lemma EditMoves(s: State, step: Step)
    requires Enabled(s, step) && (step.ManifestWrite? || step.ApplyOk? || step.ApplyFail? || step.DeleteObsoleteFiles?)
    requires s.apply.Applying? && s.apply.edit.Flushed? ==> s.immLog.Some?
    ensures MovesAs(s, Apply(s, step), Effect(s, step))
  {
    hide ApplyEdit, EditLog, LiveFiles;
  }

  lemma WhatInvSays(s: State)
    requires Inv(s)
    ensures s.memLog < s.nextFile && (s.active ==> s.scheduled) && (s.apply.Applying? && s.apply.edit.Flushed? ==> s.immLog.Some?)
  {
    hide DbFormat.TotalOrder, WriteInv, HistoryInv, GroupsInv, TablesInv, ManifestInv, CopiesInv, SnapshotsInv, ReadersInv, FlushInv, CompInv, Good, CopyOk;
  }

  lemma StepMoves(s: State, step: Step)
    requires Inv(s) && Enabled(s, step) && !Crash(step)
    ensures MovesAs(s, Apply(s, step), Effect(s, step))
  {
    hide Inv, Enabled, Apply, MovesAs;
    WhatInvSays(s);
    match step
    case EndWrite => EndWriteMoves(s);
    case SwitchMemTable => SwitchMoves(s);
    case BgEnd => BgEndMoves(s);
    case BeginWrite(_) => WriterMoves(s, step);
    case AppendLog(_, _) => WriterMoves(s, step);
    case SyncFail => WriterMoves(s, step);
    case Insert => WriterMoves(s, step);
    case FlushBegin => FlushMoves(s, step);
    case FlushBuild => FlushMoves(s, step);
    case FlushEnd(_, _) => FlushMoves(s, step);
    case CompBegin(_, _, _) => CompactionMoves(s, step);
    case CompOpen => CompactionMoves(s, step);
    case CompWrite(_, _) => CompactionMoves(s, step);
    case CompFinish => CompactionMoves(s, step);
    case CompAbort => CompactionMoves(s, step);
    case TrivialMove(_, _) => CompactionMoves(s, step);
    case ManifestWrite => EditMoves(s, step);
    case ApplyOk(_) => EditMoves(s, step);
    case ApplyFail => EditMoves(s, step);
    case DeleteObsoleteFiles(_, _, _) => EditMoves(s, step);
    case _ => ReaderMoves(s, step);
  }

  /** The moves of a run, one for each step. */
  function Moves(states: seq<State>, steps: seq<Step>): seq<Move>
    requires |states| == |steps| + 1
  {
    seq(|steps|, i requires 0 <= i < |steps| => Effect(states[i], steps[i]))
  }

  /** Short of a crash, a run of the engine is a run of the control machine. */
  lemma {:induction false} RunsMoveControl(states: seq<State>, steps: seq<Step>, i: nat)
    requires Run(states, steps) && i < |states| && forall n :: 0 <= n < i ==> !Crash(steps[n])
    ensures Possible(Fresh(states[0].memLog), Moves(states, steps)[..i])
    ensures ControlOf(states[i]) == After(Fresh(states[0].memLog), Moves(states, steps)[..i])
  {
    hide Inv, Enabled, Apply, Effect, Possible, After;
    var moves := Moves(states, steps);
    if i == 0 {
      assert moves[..0] == [];
      StartsFresh(states[0].cmp);
    } else {
      RunsMoveControl(states, steps, i - 1);
      RunKeepsInv(states, steps, i - 1);
      StepMoves(states[i - 1], steps[i - 1]);
      assert moves[..i] == moves[..i - 1] + [Effect(states[i - 1], steps[i - 1])];
      OneMore(Fresh(states[0].memLog), moves[..i - 1], Effect(states[i - 1], steps[i - 1]));
    }
  }

  lemma StartsFresh(cmp: DbFormat.Comparator)
    ensures ControlOf(Init(cmp)) == Fresh(3) && Init(cmp).memLog == 3
    ensures Possible(Fresh(3), []) && After(Fresh(3), []) == Fresh(3)
  {
  }
}
