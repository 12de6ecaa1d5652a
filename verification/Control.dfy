/** The part of the database object that decides about background work, as a machine of its own: the
    methods of the database object move it, and so does every step of the engine. */
module Control {
  import opened Common
  import Engine

  datatype ControlState = ControlState(mem: nat, imm: Option<nat>, needsCompaction: bool, bgError: bool, shuttingDown: bool, scheduled: bool)

  datatype Move =
    | Stutter
    | Switch(log: nat)
    | Flushed(needs: bool)
    | Compacted(needs: bool)
    | SeekCharged
    | Failed
    | CallEnds
    | ShutDown

  function Fresh(log: nat): ControlState {
    ControlState(log, None, false, false, false, false)
  }

  predicate HasWork(c: ControlState) {
    (c.imm.Some? || c.needsCompaction) && !c.bgError && !c.shuttingDown
  }

  function Asked(c: ControlState): ControlState {
    c.(scheduled := c.scheduled || HasWork(c))
  }

  /** Only a flush takes the immutable memtable away, and only when there is none a switch fills its place. */
  predicate Possible1(c: ControlState, m: Move) {
    match m
    case Switch(log) => c.imm.None? && !c.bgError && c.mem < log
    case Flushed(_) => c.imm.Some?
    case CallEnds => c.scheduled
    case _ => true
  }

  function Moved(c: ControlState, m: Move): ControlState {
    match m
    case Stutter => c
    case Switch(log) => Asked(c.(mem := log, imm := Some(c.mem)))
    case Flushed(needs) => c.(imm := None, needsCompaction := needs)
    case Compacted(needs) => c.(needsCompaction := needs)
    case SeekCharged => Asked(c.(needsCompaction := true))
    case Failed => c.(bgError := true)
    case CallEnds => Asked(c.(scheduled := false))
    case ShutDown => c.(shuttingDown := true)
  }

  function After(c: ControlState, moves: seq<Move>): ControlState {
    if moves == [] then c else Moved(After(c, moves[..|moves| - 1]), moves[|moves| - 1])
  }

  predicate Possible(c: ControlState, moves: seq<Move>) {
    moves == [] || (Possible(c, moves[..|moves| - 1]) && Possible1(After(c, moves[..|moves| - 1]), moves[|moves| - 1]))
  }

  lemma OneMore(c: ControlState, moves: seq<Move>, m: Move)
    requires Possible(c, moves) && Possible1(After(c, moves), m)
    ensures Possible(c, moves + [m]) && After(c, moves + [m]) == Moved(After(c, moves), m)
  {
    assert (moves + [m])[..|moves|] == moves;
  }

  // ---- The engine ----------------------------------------------------------

  function ControlOf(s: Engine.State): ControlState {
    ControlState(s.memLog, s.immLog, s.needsCompaction, s.bgError, s.shuttingDown, s.scheduled)
  }

  /** What a step of the engine is to the control machine. */
  function Effect(s: Engine.State, step: Engine.Step): Move {
    match step
    case SwitchMemTable => Switch(s.nextFile)
    case EndWrite => if s.write.Writing? && s.write.syncError then Failed else Stutter
    case EndRead(_, chargedSeek) => if chargedSeek then SeekCharged else Stutter
    case FlushEnd(built, _) => if built && !s.shuttingDown then Stutter else Failed
    case CompAbort => Failed
    case ApplyOk(needs) => if s.apply.Applying? && s.apply.edit.Flushed? then Flushed(needs) else Compacted(needs)
    case ApplyFail => Failed
    case BgEnd => CallEnds
    case Shutdown => ShutDown
    case _ => Stutter
  }
}
