/**
 * The Run row as the execution layer reads it: its status machine, the operator's
 * pause, the admission predicates every boundary revalidates, and the three store
 * operations that move it.
 */
module Runs {
  import opened Wrappers
  import opened Budgets

  datatype RunStatus = Created | Running | Waiting | Verifying | AwaitingSignoff | Completed | Failed | Cancelled

  datatype WaitReason = OnDecision | OnBudget | OnProviderCapacity | OnIntegrationConflict | OnOperator

  datatype PauseMode = Soft | Hard

  datatype Run = Run(conversation: nat, status: RunStatus, waitReason: Option<WaitReason>, pause: Option<PauseMode>)

  function Successors(from: RunStatus): set<RunStatus> {
    match from
    case Created => {Running, Cancelled}
    case Running => {Verifying, Waiting, Failed, Cancelled}
    case Waiting => {Running, Cancelled}
    case Verifying => {AwaitingSignoff, Running, Cancelled}
    case AwaitingSignoff => {Completed, Running, Cancelled}
    case Completed => {}
    case Failed => {}
    case Cancelled => {}
  }

  /** A status with no successor. */
  predicate IsTerminal(status: RunStatus): (terminal: bool)
    ensures terminal <==> status == Completed || status == Failed || status == Cancelled
  {
    assert status !in {Completed, Failed, Cancelled} ==> Cancelled in Successors(status);
    Successors(status) == {}
  }

  predicate AdmitsNewWork(run: Run) {
    !IsTerminal(run.status) && run.pause == None
  }

  datatype ExecutionInterruption = ByCancellation | ByHardPause

  function ExecutionInterruptionOf(run: Run): Option<ExecutionInterruption> {
    if run.status == Cancelled then Some(ByCancellation)
    else if run.pause == Some(Hard) then Some(ByHardPause)
    else None
  }

  predicate IncreasePermitted(status: RunStatus, partition: Partition) {
    match partition
    case Ordinary => status in {Created, Running, Waiting, AwaitingSignoff}
    case FinalReserve => status in {Created, Running, Waiting}
  }

  /**
   * The two tables, read the other way round: which statuses a Run can have had before each, and in which of them its
   * two partitions can be increased. A Run that has not ended can always be cancelled, and increased in its ordinary
   * partition unless it is verifying.
   */
  lemma TablesExactly(from: RunStatus, to: RunStatus)
    ensures to in Successors(from) <==>
      match to
      case Created => false
      case Running => from in {Created, Waiting, Verifying, AwaitingSignoff}
      case Waiting => from == Running
      case Verifying => from == Running
      case AwaitingSignoff => from == Verifying
      case Completed => from == AwaitingSignoff
      case Failed => from == Running
      case Cancelled => from !in {Completed, Failed, Cancelled}
    ensures IncreasePermitted(from, Ordinary) <==> from !in {Completed, Failed, Cancelled, Verifying}
    ensures IncreasePermitted(from, FinalReserve) <==> IncreasePermitted(from, Ordinary) && from != AwaitingSignoff
  {
  }

  // ---------------------------------------------------------------------------
  // Store operations
  // ---------------------------------------------------------------------------

  /** What the row schema demands of a Run's status, wait reason and pause. */
  ghost predicate WellFormed(run: Run) {
    && (run.status == Waiting <==> run.waitReason != None)
    && (run.pause != None ==> run.status in {Waiting, Verifying, AwaitingSignoff})
    && (run.waitReason == Some(OnOperator) <==> run.status == Waiting && run.pause != None)
  }

  datatype Transition = Transition(to: RunStatus, waitReason: Option<WaitReason>, cleared: Option<WaitReason>)

  datatype RunError = IllegalTransition | PausedByOperator | WrongWaitReason | InvalidRow | RunTerminal | NotStarted

  function Move(run: Run, t: Transition): Result<Run, RunError> {
    if t.to !in Successors(run.status) then Err(IllegalTransition)
    else if run.pause != None && t.to != Cancelled then Err(PausedByOperator)
    else if t.to == Running && t.cleared == Some(OnOperator) then Err(WrongWaitReason)
    else if t.to == Running && run.status == Waiting && t.cleared != run.waitReason then Err(WrongWaitReason)
    else if t.to == Waiting && t.waitReason in {None, Some(OnOperator)} then Err(InvalidRow)
    else Ok(run.(status := t.to, waitReason := if t.to == Waiting then t.waitReason else None, pause := None))
  }

  function Pause(run: Run, mode: PauseMode): Result<Run, RunError> {
    if IsTerminal(run.status) then Err(RunTerminal)
    else if run.status == Created then Err(NotStarted)
    else if run.pause != None then Ok(if mode == Hard then run.(pause := Some(Hard)) else run)
    else if run.status in {Running, Waiting} then
      Ok(run.(status := Waiting, waitReason := Some(OnOperator), pause := Some(mode)))
    else Ok(run.(pause := Some(mode)))
  }

  function Resume(run: Run): Result<Run, RunError> {
    if IsTerminal(run.status) then Err(RunTerminal)
    else if run.pause == None then Ok(run)
    else if run.status == Waiting then Ok(run.(status := Running, waitReason := None, pause := None))
    else Ok(run.(pause := None))
  }

  datatype Operation = ByTransition(t: Transition) | ByPause(mode: PauseMode) | ByResume

  function Operate(run: Run, op: Operation): Result<Run, RunError> {
    match op
    case ByTransition(t) => Move(run, t)
    case ByPause(mode) => Pause(run, mode)
    case ByResume => Resume(run)
  }

  /**
   * Every store operation keeps the row well formed; an ended Run never moves again;
   * a hard pause is never weakened except by a resume or a cancellation; and a paused
   * Run leaves its status only by those two.
   */
  lemma OperateKeeps(run: Run, op: Operation)
    requires WellFormed(run) && Operate(run, op).Ok?
    ensures var after := Operate(run, op).value;
      && WellFormed(after)
      && after.conversation == run.conversation
      && !IsTerminal(run.status)
      && (run.pause == Some(Hard) && op.ByPause? ==> after == run)
      && (run.pause != None && op.ByTransition? ==> after.status == Cancelled && after.pause == None)
      && (op.ByPause? && run.status in {Verifying, AwaitingSignoff} ==> after.status == run.status)
      && (op.ByResume? ==> AdmitsNewWork(after))
  {
    if op.ByTransition? {
      assert op.t.to in Successors(run.status);
    }
  }

  /**
   * When a transition is accepted, and the row it leaves: along an edge of the machine, of an unpaused Run unless it
   * cancels, from a wait only by clearing that wait, into a wait only with a reason of the runtime's own.
   */
  lemma MovedExactly(run: Run, t: Transition)
    requires WellFormed(run)
    ensures Move(run, t).Ok? <==>
      && t.to in Successors(run.status)
      && (t.to != Cancelled ==> run.pause == None)
      && (t.to == Running ==> t.cleared != Some(OnOperator) && (run.status == Waiting ==> t.cleared == run.waitReason))
      && (t.to == Waiting ==> t.waitReason.Some? && t.waitReason != Some(OnOperator))
    ensures Move(run, t).Ok? ==>
      var after := Move(run, t).value;
      && after.status == t.to && after.pause == None
      && after.waitReason == if t.to == Waiting then t.waitReason else None
    ensures Move(run, t) == Err(IllegalTransition) <==> t.to !in Successors(run.status)
    ensures Move(run, t) == Err(PausedByOperator) <==>
      t.to in Successors(run.status) && run.pause.Some? && t.to != Cancelled
    ensures Move(run, t) == Err(InvalidRow) <==>
      && t.to in Successors(run.status) && run.pause == None && t.to == Waiting
      && (t.waitReason == None || t.waitReason == Some(OnOperator))
    ensures Move(run, t).Err? ==>
      Move(run, t).error in {IllegalTransition, PausedByOperator, InvalidRow, WrongWaitReason}
  {
  }

  /**
   * A started Run that has not ended can be paused, and a hard pause stays hard; one that runs or waits then waits on
   * the operator, any other keeps its status.
   */
  lemma PausedExactly(run: Run, mode: PauseMode)
    requires WellFormed(run)
    ensures Pause(run, mode).Ok? <==> run.status in {Running, Waiting, Verifying, AwaitingSignoff}
    ensures Pause(run, mode).Err? ==>
      Pause(run, mode).error == if run.status == Created then NotStarted else RunTerminal
    ensures Pause(run, mode).Ok? ==>
      var after := Pause(run, mode).value;
      && (after.pause == Some(Hard) <==> mode == Hard || run.pause == Some(Hard))
      && after.pause.Some?
      && (run.status in {Running, Waiting} ==> after.status == Waiting && after.waitReason == Some(OnOperator))
      && (run.status in {Verifying, AwaitingSignoff} ==> after.status == run.status && after.waitReason == None)
  {
  }

  /**
   * A resume undoes a pause, except that a Run that was waiting for something else comes back running: the reason it
   * waited for is not kept.
   */
  lemma ResumeUndoesPause(run: Run, mode: PauseMode)
    requires WellFormed(run) && run.pause == None && Pause(run, mode).Ok?
    ensures var paused := Pause(run, mode).value;
      && Resume(paused).Ok?
      && Resume(paused).value == (if run.status == Waiting then run.(status := Running, waitReason := None) else run)
      && (Resume(paused).value == run <==> run.waitReason == None)
  {
  }

  /** A Run that has not ended can be resumed, and that changes only one that is paused. */
  lemma ResumedExactly(run: Run)
    requires WellFormed(run)
    ensures Resume(run).Ok? <==> run.status !in {Completed, Failed, Cancelled}
    ensures Resume(run).Err? ==> Resume(run).error == RunTerminal
    ensures Resume(run).Ok? ==>
      && Resume(run).value.pause == None
      && (Resume(run).value == run <==> run.pause == None)
      && Resume(run).value.status == (if run.pause.Some? && run.status == Waiting then Running else run.status)
  {
  }

  /**
   * Where the two admission rules part: a soft-paused or normally ended Run admits no new work yet
   * interrupts nothing.
   */
  lemma InterruptionVersusAdmission(run: Run)
    requires WellFormed(run)
    ensures ExecutionInterruptionOf(run) != None ==> !AdmitsNewWork(run)
    ensures !AdmitsNewWork(run) && ExecutionInterruptionOf(run) == None <==>
            run.pause == Some(Soft) || run.status == Completed || run.status == Failed
  {
    match run.pause
    case None =>
    case Some(mode) => assert mode == Soft || mode == Hard;
  }
}
