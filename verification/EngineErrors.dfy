/** Background errors and failed syncs: nothing is written after them until the database is opened again. */
module EngineErrors {
  import opened Entries
  import opened Versions
  import opened Compaction
  import opened VersionEdits
  import opened Picks
  import opened Engine
  import opened EngineTheorems

  /** An error has been recorded, or will be at the end of the group whose sync has failed. */
  ghost predicate Stopped(s: State) {
    s.bgError || (s.write.Writing? && s.write.failed && s.write.syncError)
  }

  ghost predicate StillStopped(s: State, s2: State) {
    (s.bgError ==> s2.bgError) && (s2.write == s.write || (Stopped(s) ==> s2.bgError))
  }

  lemma LogStepStaysStopped(s: State, step: Step)
    requires Enabled(s, step) && (step.BeginWrite? || step.AppendLog? || step.SyncFail?) && Stopped(s)
    ensures s.bgError && Apply(s, step).bgError
  {
    hide EntriesOf, Elements;
  }

  lemma InsertStaysStopped(s: State)
    requires Enabled(s, Insert) && Stopped(s)
    ensures s.bgError && Apply(s, Insert).bgError
  {
    hide EntriesOf;
  }

  lemma EndWriteStaysStopped(s: State)
    requires Enabled(s, EndWrite) && Stopped(s)
    ensures Apply(s, EndWrite).bgError
  {
    hide Elements;
  }

  lemma ReaderStepStaysStopped(s: State, step: Step)
    requires Enabled(s, step) && ReaderStep(step) && Stopped(s)
    ensures StillStopped(s, Apply(s, step))
  {
  }

  lemma BackgroundStepStaysStopped(s: State, step: Step)
    requires Enabled(s, step) && !step.CrashRecover? && !ReaderStep(step) && !WriterStep(step) && Stopped(s)
    ensures StillStopped(s, Apply(s, step))
  {
    hide Picked, BoundaryLeft, BaseOf, GoodOutputs, RangeFree, LiveFiles, Kept, Contents, Cuts, Replayed, ApplyEdit;
  }

  lemma StepStaysStopped(s: State, step: Step)
    requires Enabled(s, step) && Stopped(s) && !step.CrashRecover?
    ensures Stopped(Apply(s, step)) && (s.bgError ==> Apply(s, step).bgError)
  {
    hide Enabled, Apply;
    if step.Insert? {
      InsertStaysStopped(s);
    } else if step.EndWrite? {
      EndWriteStaysStopped(s);
    } else if WriterStep(step) {
      LogStepStaysStopped(s, step);
    } else if ReaderStep(step) {
      ReaderStepStaysStopped(s, step);
    } else {
      BackgroundStepStaysStopped(s, step);
    }
  }

  /** A sync, a flush, a compaction or an installation that fails. */
  predicate Fails(step: Step) {
    step.SyncFail? || (step.FlushEnd? && !step.built) || step.CompAbort? || step.ApplyFail?
  }

  lemma FailureStops(s: State, step: Step)
    requires Enabled(s, step) && Fails(step)
    ensures Stopped(Apply(s, step)) && (!step.SyncFail? ==> Apply(s, step).bgError)
  {
    hide RangeFree, EntriesOf;
  }

  lemma {:induction false} StaysStopped(states: seq<State>, steps: seq<Step>, i: nat, j: nat)
    requires Run(states, steps) && i <= j < |states| && NoCrash(steps, i, j) && Stopped(states[i])
    ensures Stopped(states[j]) && (states[i].bgError ==> states[j].bgError)
    decreases j
  {
    hide Enabled, Apply, Stopped;
    if i < j {
      StaysStopped(states, steps, i, j - 1);
      StepStaysStopped(states[j - 1], steps[j - 1]);
    }
  }

  lemma NothingBegins(s: State, step: Step)
    requires Enabled(s, step) && Stopped(s)
    ensures !step.BeginWrite? && !step.SwitchMemTable?
    ensures s.bgError ==> !step.CompBegin? && !step.TrivialMove? && !step.DeleteObsoleteFiles?
  {
    hide Picked, BoundaryLeft, EntriesOf, LiveFiles;
  }

  /** After a failure no group is begun and no memtable switched in this run of the program; nor, unless it was a sync,
      is a compaction begun or a file deleted. */
  lemma ErrorsStopWrites(states: seq<State>, steps: seq<Step>, i: nat, j: nat)
    requires Run(states, steps) && i < j < |steps| && NoCrash(steps, i, j) && Fails(steps[i])
    ensures !steps[j].BeginWrite? && !steps[j].SwitchMemTable?
    ensures !steps[i].SyncFail? ==> !steps[j].CompBegin? && !steps[j].TrivialMove? && !steps[j].DeleteObsoleteFiles?
  {
    hide Enabled, Apply, Stopped;
    FailureStops(states[i], steps[i]);
    StaysStopped(states, steps, i + 1, j);
    NothingBegins(states[j], steps[j]);
  }
}
