/** Starting and closing the processing worker, as a machine over the single steps
    of the two calls in any interleaving. */
module WorkerProtocol {
  import opened Prelude

  /** Where StartProcessingWorker stands. */
  datatype WorkerAt = NotStarted | GroupMade | GroupAdded | BeforeLoop | InLoop | AtSelect | Parked | Leaving | Gone

  /** Where CloseProcessingWorker stands; the last state records whether it waited. */
  datatype CloserAt = NotClosing | Cancelled | Waiting | Closed(waited: bool)

  /** `group` is the counter of the wait group, `late` the passes begun after the
      context was cancelled. */
  datatype State = State(
    worker: WorkerAt, group: Option<int>, started: bool, cancelled: bool, late: nat, closer: CloserAt)

  const INITIAL := State(NotStarted, None, false, false, 0, NotClosing)

  datatype Step =
    | MakeGroup | AddOne | SetStarted | BeginPass | EndPass(ok: bool) | EnterSelect | TimerFires | DoneOne
    | ContextCancelled | CallCancel | ReadStarted | WaitReturns

  /** Cancelling the context wakes a worker that is parked in its select. */
  function Cancel(s: State): State {
    s.(cancelled := true, worker := if s.worker == Parked then Leaving else s.worker)
  }

  predicate Enabled(s: State, a: Step) {
    match a
    case MakeGroup => s.worker == NotStarted
    case AddOne => s.worker == GroupMade && s.group.Some?
    case SetStarted => s.worker == GroupAdded
    case BeginPass => s.worker == BeforeLoop
    case EndPass(_) => s.worker == InLoop
    case EnterSelect => s.worker == AtSelect
    case TimerFires => s.worker == Parked
    case DoneOne => s.worker == Leaving && s.group.Some?
    case ContextCancelled => true
    case CallCancel => s.closer == NotClosing
    case ReadStarted => s.closer == Cancelled
    case WaitReturns => s.closer == Waiting && s.group == Some(0)
  }

  /** On entering the select the fresh timer is not ready, so a cancelled context is
      the only case that can be taken; otherwise the worker parks. */
  function Next(s: State, a: Step): State
    requires Enabled(s, a)
  {
    match a
    case MakeGroup => s.(worker := GroupMade, group := Some(0))
    case AddOne => s.(worker := GroupAdded, group := Some(s.group.value + 1))
    case SetStarted => s.(worker := BeforeLoop, started := true)
    case BeginPass => s.(worker := InLoop, late := if s.cancelled then s.late + 1 else s.late)
    case EndPass(ok) => s.(worker := if ok then AtSelect else Leaving)
    case EnterSelect => s.(worker := if s.cancelled then Leaving else Parked)
    case TimerFires => s.(worker := BeforeLoop)
    case DoneOne => s.(worker := Gone, group := Some(s.group.value - 1))
    case ContextCancelled => Cancel(s)
    case CallCancel => Cancel(s).(closer := Cancelled)
    case ReadStarted => s.(closer := if s.started then Waiting else Closed(false))
    case WaitReturns => s.(closer := Closed(true))
  }

  /** The state after a run, if every step of it was possible. */
  function After(s: State, run: seq<Step>): Option<State>
    decreases |run|
  {
    if run == [] then Some(s)
    else if Enabled(s, run[0]) then After(Next(s, run[0]), run[1..])
    else None
  }

  /** Passes the worker may still begin although the context is cancelled. */
  function Outstanding(w: WorkerAt): nat {
    if w in {NotStarted, GroupMade, GroupAdded, BeforeLoop} then 1 else 0
  }

  predicate Invariant(s: State) {
    && s.group == (if s.worker == NotStarted then None else if s.worker in {GroupMade, Gone} then Some(0) else Some(1))
    && (s.started <==> s.worker !in {NotStarted, GroupMade, GroupAdded})
    && (s.closer != NotClosing ==> s.cancelled)
    && (s.closer in {Waiting, Closed(true)} ==> s.started)
    && (s.closer == Closed(true) ==> s.worker == Gone)
    && (if s.cancelled then s.worker != Parked && s.late + Outstanding(s.worker) <= 1 else s.late == 0)
  }

  lemma {:induction false} StepKeeps(s: State, a: Step)
    requires Invariant(s) && Enabled(s, a)
    ensures Invariant(Next(s, a))
  {
  }

  lemma {:induction false} RunKeeps(s: State, run: seq<Step>)
    requires Invariant(s) && After(s, run).Some?
    ensures Invariant(After(s, run).value)
    decreases |run|
  {
    if run != [] {
      StepKeeps(s, run[0]);
      RunKeeps(Next(s, run[0]), run[1..]);
    }
  }

  function Passes(run: seq<Step>): nat {
    if run == [] then 0 else (if run[0] == BeginPass then 1 else 0) + Passes(run[1..])
  }

  lemma {:induction false} OutstandingPasses(s: State, run: seq<Step>)
    requires Invariant(s) && s.cancelled && After(s, run).Some?
    ensures Passes(run) + Outstanding(After(s, run).value.worker) <= Outstanding(s.worker)
    decreases |run|
  {
    if run != [] {
      StepKeeps(s, run[0]);
      OutstandingPasses(Next(s, run[0]), run[1..]);
    }
  }

  /** However a run goes on once the context is cancelled, at most one pass begins, and
      none if the worker was in its loop or beyond. */
  lemma {:induction false} OneLatePass(run: seq<Step>, more: seq<Step>)
    requires After(INITIAL, run).Some? && After(INITIAL, run).value.cancelled
    requires After(After(INITIAL, run).value, more).Some?
    ensures Passes(more) <= 1
    ensures After(INITIAL, run).value.worker in {InLoop, AtSelect, Leaving, Gone} ==> Passes(more) == 0
  {
    RunKeeps(INITIAL, run);
    OutstandingPasses(After(INITIAL, run).value, more);
  }

  /** In every interleaving: a close that saw `started` finds the wait group set, and
      when it returns the worker has returned, so no pass is in progress; and at most
      one pass begins after the context was cancelled. */
  lemma {:induction false} CloseIsSafe(run: seq<Step>)
    requires After(INITIAL, run).Some?
    ensures var s := After(INITIAL, run).value;
      && (s.closer in {Waiting, Closed(true)} ==> s.group.Some? && s.group.value in {0, 1})
      && (s.closer == Closed(true) ==> s.worker == Gone)
      && s.late <= 1
  {
    RunKeeps(INITIAL, run);
  }

  lemma {:induction false} AfterConcat(s: State, a: seq<Step>, b: seq<Step>)
    requires After(s, a).Some?
    ensures After(s, a + b) == After(After(s, a).value, b)
    decreases |a|
  {
    if a == [] {
      assert a + b == b;
    } else {
      assert (a + b)[0] == a[0] && (a + b)[1..] == a[1..] + b;
      AfterConcat(Next(s, a[0]), a[1..], b);
    }
  }

  // ---- working until cancelled --------------------------------------------------------

  /** One more round: a pass, the select, the timer. */
  const ROUND: seq<Step> := [BeginPass, EndPass(true), EnterSelect, TimerFires]

  function Rounds(n: nat): seq<Step> {
    if n == 0 then [] else ROUND + Rounds(n - 1)
  }

  lemma {:induction false} OneRound(s: State)
    requires s.worker == BeforeLoop && !s.cancelled
    ensures After(s, ROUND) == Some(s)
  {
    var s1 := Next(s, BeginPass);
    var s2 := Next(s1, EndPass(true));
    var s3 := Next(s2, EnterSelect);
    assert ROUND[1..] == [EndPass(true), EnterSelect, TimerFires];
    assert ROUND[1..][1..] == [EnterSelect, TimerFires] && [EnterSelect, TimerFires][1..] == [TimerFires];
    assert [TimerFires][1..] == [];
    assert After(s3, [TimerFires]) == Some(s);
    assert After(s2, [EnterSelect, TimerFires]) == Some(s);
    assert After(s1, ROUND[1..]) == Some(s);
  }

  /** A worker that is not cancelled can go on for any number of passes. */
  lemma {:induction false} GoesOn(s: State, n: nat)
    requires s.worker == BeforeLoop && !s.cancelled
    ensures After(s, Rounds(n)) == Some(s)
    decreases n
  {
    if n > 0 {
      OneRound(s);
      AfterConcat(s, ROUND, Rounds(n - 1));
      GoesOn(s, n - 1);
    }
  }

  /** A pass that failed is the last one, whatever follows. */
  lemma {:induction false} FailedPassIsLast(s: State, run: seq<Step>)
    requires Enabled(s, EndPass(false)) && After(Next(s, EndPass(false)), run).Some?
    ensures BeginPass !in run
  {
    NoPassFromLeaving(Next(s, EndPass(false)), run);
  }

  lemma {:induction false} NoPassFromLeaving(s: State, run: seq<Step>)
    requires s.worker in {Leaving, Gone} && After(s, run).Some?
    ensures BeginPass !in run && After(s, run).value.worker in {Leaving, Gone}
    decreases |run|
  {
    if run != [] { NoPassFromLeaving(Next(s, run[0]), run[1..]); }
  }

  // ---- closing without having seen the flag ------------------------------------------

  /** Steps that take a worker that has not begun its first pass into that pass. */
  function Begin(w: WorkerAt): seq<Step>
    requires w in {NotStarted, GroupMade, GroupAdded}
  {
    match w
    case NotStarted => [MakeGroup, AddOne, SetStarted, BeginPass]
    case GroupMade => [AddOne, SetStarted, BeginPass]
    case GroupAdded => [SetStarted, BeginPass]
  }

  lemma {:induction false} BeginReachesPass(s: State)
    requires Invariant(s) && !s.started
    ensures After(s, Begin(s.worker)).Some?
    ensures After(s, Begin(s.worker)).value.worker == InLoop
    ensures After(s, Begin(s.worker)).value.closer == s.closer
    decreases |Begin(s.worker)|
  {
    var run := Begin(s.worker);
    var t := Next(s, run[0]);
    StepKeeps(s, run[0]);
    if s.worker == GroupAdded {
      assert run[1..] == [BeginPass] && [BeginPass][1..] == [];
      assert After(t, [BeginPass]) == Some(Next(t, BeginPass));
    } else {
      assert run[1..] == Begin(t.worker);
      BeginReachesPass(t);
    }
  }

  /** However the run goes on after the flag was read, a close that has returned finds
      the worker returned. */
  ghost predicate ClosesSafely(s: State)
    requires s.closer == Cancelled
  {
    forall run :: After(Next(s, ReadStarted), run).Some? ==>
      After(Next(s, ReadStarted), run).value.closer.Closed? ==>
      After(Next(s, ReadStarted), run).value.worker == Gone
  }

  /** After reading an unset flag the close is over, and a pass can still begin. */
  ghost predicate LeavesPass(s: State)
    requires s.closer == Cancelled
  {
    exists run :: After(Next(s, ReadStarted), run).Some? &&
      After(Next(s, ReadStarted), run).value.closer == Closed(false) &&
      After(Next(s, ReadStarted), run).value.worker == InLoop
  }

  lemma {:induction false} WaitedStays(s: State, run: seq<Step>)
    requires s.closer in {Waiting, Closed(true)} && After(s, run).Some?
    ensures After(s, run).value.closer in {Waiting, Closed(true)}
    decreases |run|
  {
    if run != [] { WaitedStays(Next(s, run[0]), run[1..]); }
  }

  /** Closing is safe exactly when the flag was set at the moment it was read; otherwise
      the close returns at once and a pass may still begin behind its back. */
  lemma {:induction false} CloseSafeExactly(s: State)
    requires Invariant(s) && s.closer == Cancelled
    ensures s.started <==> ClosesSafely(s)
    ensures !s.started <==> LeavesPass(s)
  {
    var t := Next(s, ReadStarted);
    StepKeeps(s, ReadStarted);
    forall run | After(t, run).Some? && s.started
      ensures After(t, run).value.closer.Closed? ==> After(t, run).value.worker == Gone
      ensures After(t, run).value.closer != Closed(false)
    {
      WaitedStays(t, run);
      RunKeeps(t, run);
    }
    if !s.started {
      BeginReachesPass(t);
      assert After(t, []) == Some(t) && t.closer == Closed(false) && t.worker != Gone;
    }
  }

  /** Both cases occur: here a close reads the flag before the worker is started. */
  lemma {:induction false} UnseenStartSurvives()
    ensures After(INITIAL, [CallCancel]).Some? && LeavesPass(After(INITIAL, [CallCancel]).value)
  {
    var s := Next(INITIAL, CallCancel);
    assert After(s, []) == Some(s);
    StepKeeps(INITIAL, CallCancel);
    CloseSafeExactly(s);
  }

  // ---- the wait ends -----------------------------------------------------------------

  /** How far a cancelled worker is from returning. */
  function Distance(w: WorkerAt): nat {
    match w
    case NotStarted => 7 case GroupMade => 6 case GroupAdded => 5 case BeforeLoop => 4
    case InLoop => 3 case AtSelect => 2 case Parked => 2 case Leaving => 1 case Gone => 0
  }

  predicate WorkerStep(a: Step) {
    a in {MakeGroup, AddOne, SetStarted, BeginPass, EndPass(true), EndPass(false), EnterSelect, TimerFires, DoneOne}
  }

  function WorkerSteps(run: seq<Step>): nat {
    if run == [] then 0 else (if WorkerStep(run[0]) then 1 else 0) + WorkerSteps(run[1..])
  }

  /** Every step of a cancelled worker brings it nearer to its end. */
  lemma {:induction false} StepNearer(s: State, a: Step)
    requires Invariant(s) && s.closer in {Waiting, Closed(true)} && Enabled(s, a)
    ensures Distance(Next(s, a).worker) + (if WorkerStep(a) then 1 else 0) <= Distance(s.worker)
  {
  }

  /** The wait is never stuck, and it ends: in every continuation of a waiting close the
      worker takes at most `Distance` steps, after that many it has returned, and until
      then it has a step to take; once it has returned the wait can return. */
  lemma {:induction false} WaitEnds(s: State, run: seq<Step>)
    requires Invariant(s) && s.closer in {Waiting, Closed(true)} && After(s, run).Some?
    ensures var t := After(s, run).value;
      && WorkerSteps(run) + Distance(t.worker) <= Distance(s.worker)
      && (WorkerSteps(run) == Distance(s.worker) ==> t.worker == Gone)
      && (t.worker != Gone ==> exists a :: WorkerStep(a) && Enabled(t, a))
      && (t.worker == Gone && t.closer == Waiting ==> Enabled(t, WaitReturns))
    decreases |run|
  {
    if run == [] {
      if s.worker != Gone { WorkerMoves(s); }
    } else {
      StepKeeps(s, run[0]);
      StepNearer(s, run[0]);
      WaitEnds(Next(s, run[0]), run[1..]);
    }
  }

  lemma {:induction false} WorkerMoves(s: State)
    requires Invariant(s) && s.closer in {Waiting, Closed(true)} && s.worker != Gone
    ensures exists a :: WorkerStep(a) && Enabled(s, a)
  {
    match s.worker
    case BeforeLoop => assert Enabled(s, BeginPass) && WorkerStep(BeginPass);
    case InLoop => assert Enabled(s, EndPass(true)) && WorkerStep(EndPass(true));
    case AtSelect => assert Enabled(s, EnterSelect) && WorkerStep(EnterSelect);
    case Leaving => assert Enabled(s, DoneOne) && WorkerStep(DoneOne);
  }
}
