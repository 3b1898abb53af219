/**
 * Deterministic acceptance checks of one scope: any number of passes over the same
 * criteria, each in id order and failing fast, their commands running outside every
 * transaction, over one append-only table of Evaluations. Commands may be
 * nondeterministic, checks may fail to be carried out, and processes may die.
 */
module AcceptanceChecks {
  import opened Wrappers

  /** A recorded check: its criterion and the exit code that decided its verdict. */
  datatype Evaluation = Evaluation(criterion: nat, exitCode: int, passed: bool)

  datatype Check = Check(evaluation: Evaluation, executed: bool)

  datatype Outcome = Passed(checks: seq<Check>) | Failed(checks: seq<Check>)
    | InfrastructureFailure(checks: seq<Check>, criterion: nat)

  /** A pass whose command for the criterion at `at` is running. */
  datatype Pass = Pass(at: nat, checks: seq<Check>)

  /** The scope's criteria in id order, with the exit code each expects. */
  datatype Scope = Scope(ordered: seq<nat>, expected: map<nat, int>)

  /** `commands` records every command run, `finished` every outcome a pass returned; no step reads them. */
  datatype State = State(rows: seq<Evaluation>, passes: map<nat, Pass>, finished: seq<Outcome>, commands: seq<nat>)

  // ---------------------------------------------------------------------------
  // Canonical order
  // ---------------------------------------------------------------------------

  ghost predicate StrictlySorted(ids: seq<nat>) {
    forall i, k :: 0 <= i < k < |ids| ==> ids[i] < ids[k]
  }

  function InsertId(sorted: seq<nat>, id: nat): seq<nat> {
    if sorted == [] || sorted[|sorted| - 1] <= id then sorted + [id]
    else InsertId(sorted[..|sorted| - 1], id) + [sorted[|sorted| - 1]]
  }

  function SortIds(ids: seq<nat>): seq<nat> {
    if ids == [] then [] else InsertId(SortIds(ids[..|ids| - 1]), ids[|ids| - 1])
  }

  lemma {:induction false} InsertIdSorts(sorted: seq<nat>, id: nat)
    requires StrictlySorted(sorted) && id !in sorted
    ensures StrictlySorted(InsertId(sorted, id)) && forall x :: x in InsertId(sorted, id) <==> x == id || x in sorted
  {
    if sorted != [] {
      var front, last := sorted[..|sorted| - 1], sorted[|sorted| - 1];
      assert sorted == front + [last];
      if last > id {
        InsertIdSorts(front, id);
        var r := InsertId(front, id);
        forall i | 0 <= i < |r| ensures r[i] < last {
          assert r[i] in r;
          if r[i] != id { var k :| 0 <= k < |front| && front[k] == r[i]; }
        }
      }
    }
  }

  /** Distinct criteria sort into one strictly increasing list, whatever order a request names them in. */
  lemma {:induction false} SortIdsSorts(ids: seq<nat>)
    requires forall i, k :: 0 <= i < k < |ids| ==> ids[i] != ids[k]
    ensures StrictlySorted(SortIds(ids)) && forall x :: x in SortIds(ids) <==> x in ids
  {
    if ids != [] {
      assert ids == ids[..|ids| - 1] + [ids[|ids| - 1]];
      SortIdsSorts(ids[..|ids| - 1]);
      InsertIdSorts(SortIds(ids[..|ids| - 1]), ids[|ids| - 1]);
    }
  }

  // ---------------------------------------------------------------------------
  // One pass
  // ---------------------------------------------------------------------------

  /** The scope's Evaluation of a criterion, if it is recorded. */
  function Recorded(rows: seq<Evaluation>, criterion: nat): (found: Option<Evaluation>)
    ensures found.Some? ==> found.value in rows && found.value.criterion == criterion
    ensures found.None? ==> forall k :: 0 <= k < |rows| ==> rows[k].criterion != criterion
  {
    if rows == [] then None
    else
      var earlier := Recorded(rows[..|rows| - 1], criterion);
      if earlier.Some? then earlier
      else if rows[|rows| - 1].criterion == criterion then Some(rows[|rows| - 1]) else None
  }

  /** Where a pass gets to without awaiting anything: its outcome, or the next criterion whose command must run. */
  datatype Progress = Done(outcome: Outcome) | Await(pass: Pass)

  function Advance(scope: Scope, rows: seq<Evaluation>, at: nat, checks: seq<Check>): Progress
    decreases |scope.ordered| - at
  {
    if at >= |scope.ordered| then Done(Passed(checks))
    else match Recorded(rows, scope.ordered[at])
      case None => Await(Pass(at, checks))
      case Some(e) =>
        if !e.passed then Done(Failed(checks + [Check(e, false)]))
        else Advance(scope, rows, at + 1, checks + [Check(e, false)])
  }

  /** What a command's exit code records. */
  function Judge(scope: Scope, criterion: nat, exitCode: int): Evaluation {
    Evaluation(criterion, exitCode, criterion in scope.expected && exitCode == scope.expected[criterion])
  }

  function Continue(s: State, id: nat, progress: Progress, scope: Scope): State {
    match progress
    case Done(outcome) => s.(passes := s.passes - {id}, finished := s.finished + [outcome])
    case Await(pass) =>
      s.(passes := s.passes[id := pass],
         commands := s.commands + (if pass.at < |scope.ordered| then [scope.ordered[pass.at]] else []))
  }

  datatype Step =
    | StartPass(id: nat)
    | CommandReturns(id: nat, exitCode: int)
    | CommandNotCarriedOut(id: nat)
    | RecordFails(id: nat)
    | ProcessDies

  /** The record's transaction: a row that a concurrent pass wrote meanwhile wins and nothing is written twice. */
  function Record(rows: seq<Evaluation>, e: Evaluation): (seq<Evaluation>, Evaluation) {
    match Recorded(rows, e.criterion)
    case Some(existing) => (rows, existing)
    case None => (rows + [e], e)
  }

  function Apply(s: State, scope: Scope, step: Step): State {
    match step
    case StartPass(id) => if id in s.passes then s else Continue(s, id, Advance(scope, s.rows, 0, []), scope)
    case CommandReturns(id, exitCode) =>
      if id !in s.passes || s.passes[id].at >= |scope.ordered| then s
      else
        var pass := s.passes[id];
        var (rows, e) := Record(s.rows, Judge(scope, scope.ordered[pass.at], exitCode));
        var checks := pass.checks + [Check(e, true)];
        var progress := if !e.passed then Done(Failed(checks)) else Advance(scope, rows, pass.at + 1, checks);
        Continue(s.(rows := rows), id, progress, scope)
    case CommandNotCarriedOut(id) =>
      if id !in s.passes || s.passes[id].at >= |scope.ordered| then s
      else s.(passes := s.passes - {id},
              finished := s.finished + [InfrastructureFailure(s.passes[id].checks, scope.ordered[s.passes[id].at])])
    case RecordFails(id) => s.(passes := s.passes - {id})
    case ProcessDies => s.(passes := map[])
  }

  function After(scope: Scope, steps: seq<Step>): State {
    if steps == [] then State([], map[], [], [])
    else Apply(After(scope, steps[..|steps| - 1]), scope, steps[|steps| - 1])
  }

  // ---------------------------------------------------------------------------
  // What every interleaving keeps
  // ---------------------------------------------------------------------------

  /** The recorded criteria are a prefix of the canonical order, and only the last one may have failed. */
  ghost predicate RowsOk(scope: Scope, rows: seq<Evaluation>) {
    && |rows| <= |scope.ordered|
    && (forall k :: 0 <= k < |rows| ==> rows[k].criterion == scope.ordered[k])
    && (forall k :: 0 <= k < |rows| - 1 ==> rows[k].passed)
  }

  /** The Evaluations a pass reports are the first rows of the table. */
  ghost predicate Reports(rows: seq<Evaluation>, checks: seq<Check>) {
    |checks| <= |rows| && forall k :: 0 <= k < |checks| ==> checks[k].evaluation == rows[k]
  }

  /** A pass awaits the command behind passed checks only. */
  ghost predicate PassOk(scope: Scope, rows: seq<Evaluation>, p: Pass) {
    && p.at < |scope.ordered| && |p.checks| == p.at && Reports(rows, p.checks)
    && (forall k :: 0 <= k < p.at ==> p.checks[k].evaluation.passed)
  }

  /** No more criterion can ever be recorded: all passed, or the last one failed. */
  predicate Complete(scope: Scope, rows: seq<Evaluation>) {
    |rows| == |scope.ordered| || (rows != [] && !rows[|rows| - 1].passed)
  }

  predicate AllPassed(rows: seq<Evaluation>) {
    forall k :: 0 <= k < |rows| ==> rows[k].passed
  }

  ghost predicate OutcomeOk(scope: Scope, rows: seq<Evaluation>, o: Outcome) {
    && Reports(rows, o.checks)
    && (o.Passed? ==> |o.checks| == |rows| == |scope.ordered| && AllPassed(rows))
    && (o.Failed? ==> |o.checks| == |rows| && rows != [] && !rows[|rows| - 1].passed)
  }

  ghost predicate Inv(scope: Scope, s: State) {
    && RowsOk(scope, s.rows)
    && (forall id :: id in s.passes ==> PassOk(scope, s.rows, s.passes[id]))
    && (forall k :: 0 <= k < |s.finished| ==> OutcomeOk(scope, s.rows, s.finished[k]))
  }

  /** In canonical order a recorded criterion is at its own position. */
  lemma RecordedAt(scope: Scope, rows: seq<Evaluation>, at: nat)
    requires StrictlySorted(scope.ordered) && RowsOk(scope, rows) && at < |scope.ordered|
    ensures Recorded(rows, scope.ordered[at]) == if at < |rows| then Some(rows[at]) else None
  {
    var found := Recorded(rows, scope.ordered[at]);
    if at < |rows| { assert rows[at].criterion == scope.ordered[at]; }
    if found.Some? {
      var k :| 0 <= k < |rows| && rows[k] == found.value;
      SamePlace(scope.ordered, k, at);
    }
  }

  lemma SamePlace(ids: seq<nat>, i: nat, k: nat)
    requires StrictlySorted(ids) && i < |ids| && k < |ids| && ids[i] == ids[k]
    ensures i == k
  {
  }

  /**
   * What a pass finds already recorded it reports; it awaits a command only behind the last row,
   * and only while none failed.
   */
  lemma {:induction false} AdvanceOk(scope: Scope, rows: seq<Evaluation>, at: nat, checks: seq<Check>)
    requires StrictlySorted(scope.ordered) && RowsOk(scope, rows)
    requires at <= |scope.ordered| && |checks| == at && Reports(rows, checks)
      && forall k :: 0 <= k < at ==> checks[k].evaluation.passed
    ensures match Advance(scope, rows, at, checks)
      case Done(o) => OutcomeOk(scope, rows, o) && !o.InfrastructureFailure?
      case Await(p) => PassOk(scope, rows, p) && p.at == |rows| && !Complete(scope, rows)
    decreases |scope.ordered| - at
  {
    if at < |scope.ordered| {
      RecordedAt(scope, rows, at);
      if at < |rows| {
        var checks' := checks + [Check(rows[at], false)];
        assert Reports(rows, checks');
        if rows[at].passed {
          AdvanceOk(scope, rows, at + 1, checks');
        }
      } else {
        assert rows != [] ==> checks[|rows| - 1].evaluation == rows[|rows| - 1];
      }
    } else {
      assert forall k :: 0 <= k < |rows| ==> checks[k].evaluation == rows[k];
    }
  }

  /**
   * Recording keeps the rows in canonical order: a row is only added behind passed ones, by the
   * first pass to get there.
   */
  lemma RecordOk(scope: Scope, rows: seq<Evaluation>, p: Pass, exitCode: int)
    requires StrictlySorted(scope.ordered) && RowsOk(scope, rows) && PassOk(scope, rows, p)
    ensures var (rows', e) := Record(rows, Judge(scope, scope.ordered[p.at], exitCode));
      && RowsOk(scope, rows') && rows <= rows' && p.at < |rows'| && rows'[p.at] == e
      && (rows' != rows ==> !Complete(scope, rows))
  {
    RecordedAt(scope, rows, p.at);
    assert rows != [] && p.at == |rows| ==> p.checks[|rows| - 1].evaluation == rows[|rows| - 1];
  }

  /** Rows are only added while nothing is complete, so what was reported before still holds. */
  lemma Outlives(scope: Scope, rows: seq<Evaluation>, rows': seq<Evaluation>, o: Outcome)
    requires OutcomeOk(scope, rows, o) && rows <= rows' && (rows' != rows ==> !Complete(scope, rows))
    ensures OutcomeOk(scope, rows', o)
  {
  }

  lemma ContinueKeeps(s: State, scope: Scope, id: nat, progress: Progress)
    requires Inv(scope, s)
    requires match progress case Done(o) => OutcomeOk(scope, s.rows, o) case Await(p) => PassOk(scope, s.rows, p)
    ensures Inv(scope, Continue(s, id, progress, scope))
  {
    hide RowsOk, PassOk, OutcomeOk;
  }

  lemma ReturnKeeps(s: State, scope: Scope, id: nat, exitCode: int)
    requires StrictlySorted(scope.ordered) && Inv(scope, s) && id in s.passes
    ensures Inv(scope, Apply(s, scope, CommandReturns(id, exitCode)))
  {
    var p := s.passes[id];
    assert PassOk(scope, s.rows, p);
    RecordOk(scope, s.rows, p, exitCode);
    var (rows, e) := Record(s.rows, Judge(scope, scope.ordered[p.at], exitCode));
    var checks := p.checks + [Check(e, true)];
    assert Reports(rows, checks);
    var grown := s.(rows := rows);
    assert Inv(scope, grown) by { GrowKeeps(s, scope, rows); }
    if e.passed {
      AdvanceOk(scope, rows, p.at + 1, checks);
      ContinueKeeps(grown, scope, id, Advance(scope, rows, p.at + 1, checks));
    } else {
      ContinueKeeps(grown, scope, id, Done(Failed(checks)));
    }
  }

  lemma GrowKeeps(s: State, scope: Scope, rows: seq<Evaluation>)
    requires Inv(scope, s) && RowsOk(scope, rows) && s.rows <= rows && (rows != s.rows ==> !Complete(scope, s.rows))
    ensures Inv(scope, s.(rows := rows))
  {
    forall k | 0 <= k < |s.finished| ensures OutcomeOk(scope, rows, s.finished[k]) {
      Outlives(scope, s.rows, rows, s.finished[k]);
    }
    forall id | id in s.passes ensures PassOk(scope, rows, s.passes[id]) {
      assert PassOk(scope, s.rows, s.passes[id]);
    }
  }

  lemma StepKeeps(s: State, scope: Scope, step: Step)
    requires StrictlySorted(scope.ordered) && Inv(scope, s)
    ensures Inv(scope, Apply(s, scope, step))
  {
    match step
    case StartPass(id) =>
      if id !in s.passes {
        AdvanceOk(scope, s.rows, 0, []);
        ContinueKeeps(s, scope, id, Advance(scope, s.rows, 0, []));
      }
    case CommandReturns(id, exitCode) => if id in s.passes { ReturnKeeps(s, scope, id, exitCode); }
    case CommandNotCarriedOut(id) =>
      if id in s.passes {
        assert PassOk(scope, s.rows, s.passes[id]);
        ContinueKeeps(s, scope, id, Done(InfrastructureFailure(s.passes[id].checks, scope.ordered[s.passes[id].at])));
      }
    case RecordFails(id) =>
    case ProcessDies =>
  }

  lemma {:induction false} Reachable(scope: Scope, steps: seq<Step>)
    requires StrictlySorted(scope.ordered)
    ensures Inv(scope, After(scope, steps))
  {
    if steps != [] {
      Reachable(scope, steps[..|steps| - 1]);
      hide Inv, Apply;
      StepKeeps(After(scope, steps[..|steps| - 1]), scope, steps[|steps| - 1]);
    }
  }

  // ---------------------------------------------------------------------------
  // Results
  // ---------------------------------------------------------------------------

  /**
   * Over any interleaving there is at most one Evaluation per criterion, the recorded criteria are
   * a prefix of the canonical order, and only the last may have failed.
   */
  lemma OneEvaluationPerCriterion(scope: Scope, steps: seq<Step>)
    requires StrictlySorted(scope.ordered)
    ensures var rows := After(scope, steps).rows;
      && (forall i, k :: 0 <= i < k < |rows| ==> rows[i].criterion < rows[k].criterion)
      && |rows| <= |scope.ordered| && (forall k :: 0 <= k < |rows| ==> rows[k].criterion == scope.ordered[k])
      && (forall k :: 0 <= k < |rows| - 1 ==> rows[k].passed)
  {
    Reachable(scope, steps);
    hide After;
  }

  ghost predicate Completed(o: Outcome) {
    !o.InfrastructureFailure?
  }

  /**
   * All completed passes agree, however often and with whatever exit codes their commands ran: the
   * same verdict on the same Evaluations.
   */
  lemma CompletedPassesAgree(scope: Scope, steps: seq<Step>, i: nat, k: nat)
    requires StrictlySorted(scope.ordered)
    requires var finished := After(scope, steps).finished;
      i < |finished| && k < |finished| && Completed(finished[i]) && Completed(finished[k])
    ensures var a, b := After(scope, steps).finished[i], After(scope, steps).finished[k];
      && (a.Passed? <==> b.Passed?) && |a.checks| == |b.checks|
      && forall n :: 0 <= n < |a.checks| ==> a.checks[n].evaluation == b.checks[n].evaluation
  {
    Reachable(scope, steps);
    hide After;
    var s := After(scope, steps);
    assert OutcomeOk(scope, s.rows, s.finished[i]) && OutcomeOk(scope, s.rows, s.finished[k]);
  }

  /**
   * A pass runs a command if and only if the rows are not complete; over complete rows it finishes
   * at once and writes nothing.
   */
  lemma CompleteRowsRunNothing(scope: Scope, steps: seq<Step>, id: nat)
    requires StrictlySorted(scope.ordered) && id !in After(scope, steps).passes
    ensures var s, s' := After(scope, steps), Apply(After(scope, steps), scope, StartPass(id));
      && s'.rows == s.rows
      && (s'.commands == s.commands <==> Complete(scope, s.rows))
      && (Complete(scope, s.rows) ==> |s'.finished| == |s.finished| + 1 && Completed(s'.finished[|s.finished|]))
  {
    Reachable(scope, steps);
    hide After;
    var s := After(scope, steps);
    AdvanceOk(scope, s.rows, 0, []);
    AdvanceStops(scope, s.rows, 0, []);
  }

  /** Over complete rows a pass awaits nothing. */
  lemma {:induction false} AdvanceStops(scope: Scope, rows: seq<Evaluation>, at: nat, checks: seq<Check>)
    requires StrictlySorted(scope.ordered) && RowsOk(scope, rows) && at <= |scope.ordered| && |checks| == at
      && Reports(rows, checks)
    requires forall k :: 0 <= k < at ==> checks[k].evaluation.passed
    ensures Advance(scope, rows, at, checks).Await? ==> !Complete(scope, rows)
    ensures Advance(scope, rows, at, checks).Done? ==> Complete(scope, rows)
  {
    AdvanceOk(scope, rows, at, checks);
  }

  /** Commands run later are of criteria not recorded by then. */
  ghost predicate RunsOnlyUnrecorded(s: State, s': State) {
    s.rows <= s'.rows && s.commands <= s'.commands
      && forall k :: |s.commands| <= k < |s'.commands| ==> Recorded(s'.rows, s'.commands[k]) == None
  }

  lemma ContinueRuns(s: State, scope: Scope, id: nat, progress: Progress)
    requires StrictlySorted(scope.ordered) && RowsOk(scope, s.rows)
      && (progress.Await? ==> progress.pass.at == |s.rows| < |scope.ordered|)
    ensures RunsOnlyUnrecorded(s, Continue(s, id, progress, scope)) && Continue(s, id, progress, scope).rows == s.rows
  {
    if progress.Await? { RecordedAt(scope, s.rows, progress.pass.at); }
  }

  lemma ReturnRuns(s: State, scope: Scope, id: nat, exitCode: int)
    requires StrictlySorted(scope.ordered) && Inv(scope, s) && id in s.passes
    ensures RunsOnlyUnrecorded(s, Apply(s, scope, CommandReturns(id, exitCode)))
  {
    var p := s.passes[id];
    assert PassOk(scope, s.rows, p);
    RecordOk(scope, s.rows, p, exitCode);
    var (rows, e) := Record(s.rows, Judge(scope, scope.ordered[p.at], exitCode));
    var checks := p.checks + [Check(e, true)];
    assert Reports(rows, checks);
    var progress := if !e.passed then Done(Failed(checks)) else Advance(scope, rows, p.at + 1, checks);
    if e.passed { AdvanceOk(scope, rows, p.at + 1, checks); }
    hide Record, Inv, Continue, RunsOnlyUnrecorded;
    ContinueRuns(s.(rows := rows), scope, id, progress);
    RunsFrom(s, rows, Continue(s.(rows := rows), id, progress, scope));
  }

  lemma RunsFrom(s: State, rows: seq<Evaluation>, s': State)
    requires s.rows <= rows && RunsOnlyUnrecorded(s.(rows := rows), s')
    ensures RunsOnlyUnrecorded(s, s')
  {
  }

  /** A criterion once recorded is never executed again, and its row never changes. */
  lemma RecordedForGood(scope: Scope, s: State, step: Step)
    requires StrictlySorted(scope.ordered) && Inv(scope, s)
    ensures RunsOnlyUnrecorded(s, Apply(s, scope, step))
  {
    match step
    case StartPass(id) =>
      AdvanceOk(scope, s.rows, 0, []);
      ContinueRuns(s, scope, id, Advance(scope, s.rows, 0, []));
    case CommandReturns(id, exitCode) => if id in s.passes { ReturnRuns(s, scope, id, exitCode); }
    case _ =>
  }

  // ---------------------------------------------------------------------------
  // What a verdict means
  // ---------------------------------------------------------------------------

  /** Every recorded verdict is the comparison of its exit code with the expected one. */
  ghost predicate Judged(scope: Scope, rows: seq<Evaluation>) {
    forall k :: 0 <= k < |rows| ==>
      (rows[k].passed <==>
       rows[k].criterion in scope.expected && rows[k].exitCode == scope.expected[rows[k].criterion])
  }

  lemma StepJudges(s: State, scope: Scope, step: Step)
    requires Judged(scope, s.rows)
    ensures Judged(scope, Apply(s, scope, step).rows)
  {
    hide Advance, Recorded;
  }

  /**
   * Over any interleaving a recorded check passed if and only if its criterion expects an exit code
   * and its command returned exactly that one.
   */
  lemma {:induction false} VerdictIsExitCode(scope: Scope, steps: seq<Step>, k: nat)
    requires k < |After(scope, steps).rows|
    ensures var e := After(scope, steps).rows[k];
      e.passed <==> e.criterion in scope.expected && e.exitCode == scope.expected[e.criterion]
  {
    AllJudged(scope, steps);
    hide After;
  }

  lemma {:induction false} AllJudged(scope: Scope, steps: seq<Step>)
    ensures Judged(scope, After(scope, steps).rows)
  {
    if steps != [] {
      AllJudged(scope, steps[..|steps| - 1]);
      hide Apply, Judged;
      StepJudges(After(scope, steps[..|steps| - 1]), scope, steps[|steps| - 1]);
    }
  }

  /** The command of the criterion is on record with the exit code that the criterion expects. */
  ghost predicate ReturnedAsExpected(scope: Scope, rows: seq<Evaluation>, criterion: nat) {
    criterion in scope.expected && Evaluation(criterion, scope.expected[criterion], true) in rows
  }

  /** A completed pass passed if and only if every criterion of the scope is recorded with the exit code it expects. */
  lemma PassedExactly(scope: Scope, steps: seq<Step>, i: nat)
    requires StrictlySorted(scope.ordered)
    requires i < |After(scope, steps).finished| && Completed(After(scope, steps).finished[i])
    ensures After(scope, steps).finished[i].Passed? <==>
      forall k :: 0 <= k < |scope.ordered| ==> ReturnedAsExpected(scope, After(scope, steps).rows, scope.ordered[k])
  {
    Reachable(scope, steps);
    AllJudged(scope, steps);
    hide After;
    var s := After(scope, steps);
    var o := s.finished[i];
    assert OutcomeOk(scope, s.rows, o);
    if o.Passed? {
      forall k | 0 <= k < |scope.ordered|
        ensures ReturnedAsExpected(scope, s.rows, scope.ordered[k])
      {
        assert s.rows[k] in s.rows && s.rows[k].criterion == scope.ordered[k];
      }
    } else {
      var last := |s.rows| - 1;
      forall e | e in s.rows && e.criterion == scope.ordered[last] ensures e == s.rows[last] {
        var k :| 0 <= k < |s.rows| && s.rows[k] == e;
        SamePlace(scope.ordered, k, last);
      }
    }
  }

  /** What a pass reports that made `checks` and then found the other rows on record. */
  function Whole(rows: seq<Evaluation>, checks: seq<Check>): (all: seq<Check>)
    requires |checks| <= |rows|
    ensures |all| == |rows|
    ensures forall k :: 0 <= k < |rows| ==> all[k] == if k < |checks| then checks[k] else Check(rows[k], false)
  {
    seq(|rows|, k requires 0 <= k < |rows| => if k < |checks| then checks[k] else Check(rows[k], false))
  }

  /** Where a pass stands that made `checks` of the first rows and now meets all of `rows`. */
  function Onward(scope: Scope, rows: seq<Evaluation>, checks: seq<Check>): Progress
    requires |checks| <= |rows|
  {
    var all := Whole(rows, checks);
    if !Complete(scope, rows) then Await(Pass(|rows|, all))
    else Done(if AllPassed(rows) then Passed(all) else Failed(all))
  }

  lemma WholeMore(rows: seq<Evaluation>, checks: seq<Check>)
    requires |checks| <= |rows|
    ensures |checks| == |rows| ==> Whole(rows, checks) == checks
    ensures |checks| < |rows| ==> Whole(rows, checks + [Check(rows[|checks|], false)]) == Whole(rows, checks)
  {
  }

  lemma {:induction false} AdvanceStands(scope: Scope, rows: seq<Evaluation>, checks: seq<Check>)
    requires StrictlySorted(scope.ordered) && RowsOk(scope, rows) && |checks| <= |rows|
    requires forall k :: 0 <= k < |checks| ==> rows[k].passed
    ensures Advance(scope, rows, |checks|, checks) == Onward(scope, rows, checks)
    decreases |rows| - |checks|
  {
    var at := |checks|;
    if at < |scope.ordered| {
      RecordedAt(scope, rows, at);
    }
    WholeMore(rows, checks);
    hide Whole, StrictlySorted;
    if at < |rows| {
      var more := checks + [Check(rows[at], false)];
      if rows[at].passed {
        AdvanceStands(scope, rows, more);
      } else {
        assert at == |rows| - 1;
        WholeMore(rows, more);
      }
    }
  }

  /**
   * The pass `id` went on to `progress`: it reported an outcome and is gone, or runs the command of
   * the next criterion.
   */
  ghost predicate WentOn(s: State, s': State, scope: Scope, id: nat, progress: Progress) {
    match progress
    case Done(o) => s'.passes == s.passes - {id} && s'.finished == s.finished + [o] && s'.commands == s.commands
    case Await(p) =>
      && s'.passes == s.passes[id := p] && s'.finished == s.finished
      && p.at < |scope.ordered| && s'.commands == s.commands + [scope.ordered[p.at]]
  }

  lemma StartFrom(s: State, scope: Scope, id: nat)
    requires StrictlySorted(scope.ordered) && Inv(scope, s) && id !in s.passes
    ensures var s' := Apply(s, scope, StartPass(id));
      s'.rows == s.rows && WentOn(s, s', scope, id, Onward(scope, s.rows, []))
  {
    AdvanceStands(scope, s.rows, []);
  }

  /** What a command that returned `exitCode` to pass `id` leaves. */
  ghost predicate Returned(s: State, s': State, scope: Scope, id: nat, exitCode: int)
    requires id in s.passes
  {
    var p := s.passes[id];
    && p.at < |s'.rows| && p.at < |scope.ordered| && |p.checks| == p.at
    && (p.at < |s.rows| ==> s'.rows == s.rows)
    && (p.at >= |s.rows| ==>
          && |s'.rows| == p.at + 1 && s'.rows[..p.at] == s.rows
          && s'.rows[p.at].criterion == scope.ordered[p.at] && s'.rows[p.at].exitCode == exitCode)
    && Judged(scope, s'.rows)
    && var checks := p.checks + [Check(s'.rows[p.at], true)];
    && WentOn(s, s', scope, id, if s'.rows[p.at].passed then Onward(scope, s'.rows, checks) else Done(Failed(checks)))
  }

  lemma ReturnFrom(s: State, scope: Scope, id: nat, exitCode: int)
    requires StrictlySorted(scope.ordered) && Inv(scope, s) && Judged(scope, s.rows) && id in s.passes
    ensures Returned(s, Apply(s, scope, CommandReturns(id, exitCode)), scope, id, exitCode)
  {
    var p := s.passes[id];
    var (rows, e) := Record(s.rows, Judge(scope, scope.ordered[p.at], exitCode));
    RecordExactly(s, scope, id, exitCode);
    StepJudges(s, scope, CommandReturns(id, exitCode));
    var checks := p.checks + [Check(e, true)];
    if e.passed { AdvanceStands(scope, rows, checks); }
    AwaitsInside(scope, rows, p.at + 1, checks);
    hide Judge, Judged, Inv, Record, Advance, Onward, RowsOk, Continue;
    var progress := if !e.passed then Done(Failed(checks)) else Advance(scope, rows, p.at + 1, checks);
    ContinueWent(s, scope, rows, id, progress);
  }

  lemma ContinueWent(s: State, scope: Scope, rows: seq<Evaluation>, id: nat, progress: Progress)
    requires progress.Await? ==> progress.pass.at < |scope.ordered|
    ensures var s' := Continue(s.(rows := rows), id, progress, scope);
      s'.rows == rows && WentOn(s, s', scope, id, progress)
  {
  }

  lemma {:induction false} AwaitsInside(scope: Scope, rows: seq<Evaluation>, at: nat, checks: seq<Check>)
    ensures var progress := Advance(scope, rows, at, checks); progress.Await? ==> progress.pass.at < |scope.ordered|
    decreases |scope.ordered| - at
  {
    if at < |scope.ordered| && Recorded(rows, scope.ordered[at]).Some? {
      AwaitsInside(scope, rows, at + 1, checks + [Check(Recorded(rows, scope.ordered[at]).value, false)]);
    }
  }

  /** The transaction of one record: the row is there already, or is appended with the exit code. */
  lemma RecordExactly(s: State, scope: Scope, id: nat, exitCode: int)
    requires StrictlySorted(scope.ordered) && Inv(scope, s) && id in s.passes
    ensures s.passes[id].at < |scope.ordered|
    ensures var p := s.passes[id];
      var (rows, e) := Record(s.rows, Judge(scope, scope.ordered[p.at], exitCode));
      && p.at <= |s.rows| && |p.checks| == p.at < |rows| && rows[p.at] == e && RowsOk(scope, rows)
      && (p.at < |s.rows| ==> rows == s.rows)
      && (p.at == |s.rows| ==> rows == s.rows + [e] && e.criterion == scope.ordered[p.at] && e.exitCode == exitCode)
      && forall k :: 0 <= k < p.at ==> rows[k].passed
  {
    var p := s.passes[id];
    assert PassOk(scope, s.rows, p);
    RecordOk(scope, s.rows, p, exitCode);
    RecordedAt(scope, s.rows, p.at);
  }

  /** A check that was not carried out, a record that failed and a dead process end their passes and record nothing. */
  lemma LostPasses(s: State, scope: Scope, id: nat)
    requires Inv(scope, s) && id in s.passes
    ensures var p, s' := s.passes[id], Apply(s, scope, CommandNotCarriedOut(id));
      && s'.rows == s.rows && p.at < |scope.ordered|
      && WentOn(s, s', scope, id, Done(InfrastructureFailure(p.checks, scope.ordered[p.at])))
    ensures Apply(s, scope, RecordFails(id)) == State(s.rows, s.passes - {id}, s.finished, s.commands)
    ensures Apply(s, scope, ProcessDies) == State(s.rows, map[], s.finished, s.commands)
  {
    assert PassOk(scope, s.rows, s.passes[id]);
  }

  /**
   * A new pass reports every row on record, none of them executed; over complete rows it ends with
   * their verdict, and otherwise it runs the command of the first criterion not on record.
   */
  lemma StartExactly(scope: Scope, steps: seq<Step>, id: nat)
    requires StrictlySorted(scope.ordered) && id !in After(scope, steps).passes
    ensures var s, s' := After(scope, steps), After(scope, steps + [StartPass(id)]);
      s'.rows == s.rows && WentOn(s, s', scope, id, Onward(scope, s.rows, []))
  {
    Reachable(scope, steps);
    OneMore(scope, steps, StartPass(id));
    hide After, Apply, Inv, WentOn;
    StartFrom(After(scope, steps), scope, id);
  }

  lemma OneMore(scope: Scope, steps: seq<Step>, step: Step)
    ensures After(scope, steps + [step]) == Apply(After(scope, steps), scope, step)
  {
    hide Apply;
    assert (steps + [step])[..|steps|] == steps;
  }

  /**
   * A command that came back records its exit code for the criterion the pass awaited, unless a row
   * is there by now; the pass reports that row as executed, fails on it if it failed, and otherwise
   * goes on over the rows that other passes recorded.
   */
  lemma ReturnExactly(scope: Scope, steps: seq<Step>, id: nat, exitCode: int)
    requires StrictlySorted(scope.ordered) && id in After(scope, steps).passes
    ensures var s, s' := After(scope, steps), After(scope, steps + [CommandReturns(id, exitCode)]);
      Returned(s, s', scope, id, exitCode)
  {
    Reachable(scope, steps);
    AllJudged(scope, steps);
    OneMore(scope, steps, CommandReturns(id, exitCode));
    hide After, Apply, Inv, Judged, Returned;
    ReturnFrom(After(scope, steps), scope, id, exitCode);
  }

  // ---------------------------------------------------------------------------
  // The service
  // ---------------------------------------------------------------------------

  class AcceptanceCheckService {
    const scope: Scope
    var rows: seq<Evaluation>
    var passes: map<nat, Pass>
    var finished: seq<Outcome>
    var commands: seq<nat>

    ghost function View(): State
      reads this
    {
      State(rows, passes, finished, commands)
    }

    constructor (criteria: seq<nat>, expected: map<nat, int>)
      ensures scope == Scope(SortIds(criteria), expected) && View() == State([], map[], [], [])
    {
      scope := Scope(SortIds(criteria), expected);
      rows, passes, finished, commands := [], map[], [], [];
    }

    /** The first recorded Evaluation of a criterion. */
    method Find(criterion: nat) returns (found: Option<Evaluation>)
      ensures found == Recorded(rows, criterion)
    {
      for k := 0 to |rows|
        invariant Recorded(rows[..k], criterion) == None
      {
        assert rows[..k + 1][..k] == rows[..k];
        if rows[k].criterion == criterion {
          Earliest(rows, k, criterion);
          return Some(rows[k]);
        }
      }
      assert rows[..|rows|] == rows;
      return None;
    }

    /** The criteria loop of one pass from `at` on, up to its next command or its outcome. */
    method Loop(id: nat, from: nat, reported: seq<Check>)
      modifies this`passes, this`finished, this`commands
      ensures View() == Continue(old(View()), id, Advance(scope, rows, from, reported), scope)
    {
      var at, checks := from, reported;
      while at < |scope.ordered|
        invariant View() == old(View()) && Advance(scope, rows, at, checks) == Advance(scope, rows, from, reported)
      {
        var existing := Find(scope.ordered[at]);
        if existing == None {
          passes := passes[id := Pass(at, checks)];
          commands := commands + [scope.ordered[at]];
          return;
        }
        checks := checks + [Check(existing.value, false)];
        if !existing.value.passed {
          passes, finished := passes - {id}, finished + [Failed(checks)];
          return;
        }
        at := at + 1;
      }
      passes, finished := passes - {id}, finished + [Passed(checks)];
    }

    method Run(id: nat)
      requires id !in passes
      modifies this`passes, this`finished, this`commands
      ensures View() == Apply(old(View()), scope, StartPass(id))
    {
      Loop(id, 0, []);
    }

    /**
     * The command came back: its outcome is recorded in one transaction, unless the row exists by
     * now, and the pass goes on.
     */
    method CommandReturned(id: nat, exitCode: int)
      requires id in passes && passes[id].at < |scope.ordered|
      modifies this
      ensures View() == Apply(old(View()), scope, CommandReturns(id, exitCode))
    {
      var pass := passes[id];
      var criterion := scope.ordered[pass.at];
      var again := Find(criterion);
      var evaluation := Judge(scope, criterion, exitCode);
      if again.Some? {
        evaluation := again.value;
      } else {
        rows := rows + [evaluation];
      }
      var checks := pass.checks + [Check(evaluation, true)];
      if !evaluation.passed {
        passes, finished := passes - {id}, finished + [Failed(checks)];
        return;
      }
      Loop(id, pass.at + 1, checks);
    }

    method CommandFailed(id: nat)
      requires id in passes && passes[id].at < |scope.ordered|
      modifies this`passes, this`finished
      ensures View() == Apply(old(View()), scope, CommandNotCarriedOut(id))
    {
      finished := finished + [InfrastructureFailure(passes[id].checks, scope.ordered[passes[id].at])];
      passes := passes - {id};
    }
  }

  lemma {:induction false} Earliest(rows: seq<Evaluation>, k: nat, criterion: nat)
    requires k < |rows| && rows[k].criterion == criterion && Recorded(rows[..k], criterion) == None
    ensures Recorded(rows, criterion) == Some(rows[k])
    decreases |rows|
  {
    var front := rows[..|rows| - 1];
    if k == |rows| - 1 {
      assert rows[..k] == front;
    } else {
      assert front[..k] == rows[..k] && front[k] == rows[k];
      Earliest(front, k, criterion);
    }
  }
}
