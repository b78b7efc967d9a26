/**
  One call of an ActiveMethod: the calling thread creates the result holder and the runnable,
  starts a pool thread on the runnable and only then takes the worker's reference; the worker runs
  the method, stores its outcome, notifies and gives that reference up. Meanwhile copies of the
  result may be made, waited on and destroyed by any thread. A run is any interleaving of these
  atomic steps, the pool refusing to start among them.
 */
module ActiveCall {
  import opened Wrappers

  /** What the called method returns. */
  type Value(==, !new)

  /** What the called method does. */
  datatype Outcome = Returns(value: Value) | Throws(message: string)

  /** Where the calling thread is; each name is the step it takes next. */
  datatype Caller =
    | NewHolder | NewRunnable | PassCopy | PoolStart | Duplicate | DropParameter
    | ReturnResult | DropLocalRunnable | DropLocalResult | Returned
    | UnwindParameter | UnwindRunnable | UnwindResult | Threw

  /** Where the pool thread is. */
  datatype Worker = NotStarted | TakeGuard | StoreOutcome | Notify | DropGuard | Done

  datatype State = State(
    caller: Caller,
    worker: Worker,
    runnableCount: int,
    runnableFreed: nat,
    holderCount: int,
    holderFreed: nat,
    data: Option<Value>,
    error: Option<string>,
    event: bool,
    notifications: nat,
    localResult: bool,
    handles: nat,
    waited: bool,
    fault: bool)

  datatype Action =
    | Call
    | CallElided
    | StartRefused
    | Work
    | CopyHandle
    | DropHandle
    | WaitReturns

  function Init(): State {
    State(NewHolder, NotStarted, 0, 0, 0, 0, None, None, false, 0, false, 0, false, false)
  }

  // ----- counted objects -----

  /** Using an object after it was freed is a fault. */
  function TouchRunnable(s: State): State {
    s.(fault := s.fault || s.runnableFreed != 0)
  }

  function TouchHolder(s: State): State {
    s.(fault := s.fault || s.holderFreed != 0)
  }

  function DuplicateHolder(s: State): (t: State)
    ensures t.caller == s.caller && t.worker == s.worker
  {
    TouchHolder(s).(holderCount := s.holderCount + 1)
  }

  function ReleaseHolder(s: State): (t: State)
    ensures t.caller == s.caller && t.worker == s.worker
  {
    var r := TouchHolder(s).(holderCount := s.holderCount - 1);
    if r.holderCount == 0 then r.(holderFreed := r.holderFreed + 1) else r
  }

  function DuplicateRunnable(s: State): (t: State)
    ensures t.caller == s.caller && t.worker == s.worker
  {
    TouchRunnable(s).(runnableCount := s.runnableCount + 1)
  }

  /** The runnable's destructor destroys its own copy of the result. */
  function ReleaseRunnable(s: State): (t: State)
    ensures t.caller == s.caller && t.worker == s.worker
  {
    var r := TouchRunnable(s).(runnableCount := s.runnableCount - 1);
    if r.runnableCount == 0 then ReleaseHolder(r.(runnableFreed := r.runnableFreed + 1)) else r
  }

  // ----- the steps -----

  /** The calling thread; `elide` is the compiler constructing the result in place of the returned copy. */
  function CallStep(s: State, elide: bool): Option<State> {
    match s.caller
    case NewHolder => Some(s.(holderCount := 1, localResult := true, caller := NewRunnable))
    case NewRunnable => Some(DuplicateHolder(s).(runnableCount := 1, caller := PassCopy))
    case PassCopy => Some(DuplicateRunnable(s).(caller := PoolStart))
    case PoolStart => Some(TouchRunnable(s).(worker := TakeGuard, caller := Duplicate))
    case Duplicate => Some(DuplicateRunnable(s).(caller := DropParameter))
    case DropParameter => Some(ReleaseRunnable(s).(caller := ReturnResult))
    case ReturnResult =>
      if elide then Some(s.(localResult := false, handles := s.handles + 1, caller := DropLocalRunnable))
      else Some(DuplicateHolder(s).(handles := s.handles + 1, caller := DropLocalRunnable))
    case DropLocalRunnable => Some(ReleaseRunnable(s).(caller := DropLocalResult))
    case DropLocalResult =>
      if s.localResult then Some(ReleaseHolder(s).(localResult := false, caller := Returned))
      else Some(s.(caller := Returned))
    case UnwindParameter => Some(ReleaseRunnable(s).(caller := UnwindRunnable))
    case UnwindRunnable => Some(ReleaseRunnable(s).(caller := UnwindResult))
    case UnwindResult => Some(ReleaseHolder(s).(localResult := false, caller := Threw))
    case Returned => None
    case Threw => None
  }

  /** The pool thread: `run`. */
  function WorkStep(s: State, outcome: Outcome): Option<State> {
    match s.worker
    case TakeGuard => Some(TouchRunnable(s).(worker := StoreOutcome))
    case StoreOutcome =>
      var t := TouchHolder(TouchRunnable(s)).(worker := Notify);
      (match outcome
       case Returns(v) => Some(t.(data := Some(v)))
       case Throws(m) => Some(t.(error := Some(m))))
    case Notify =>
      Some(TouchHolder(TouchRunnable(s)).(event := true, notifications := s.notifications + 1, worker := DropGuard))
    case DropGuard => Some(ReleaseRunnable(s).(worker := Done))
    case NotStarted => None
    case Done => None
  }

  function Step(s: State, a: Action, outcome: Outcome): Option<State> {
    match a
    case Call => CallStep(s, false)
    case CallElided => CallStep(s, true)
    case StartRefused => if s.caller.PoolStart? then Some(TouchRunnable(s).(caller := UnwindParameter)) else None
    case Work => WorkStep(s, outcome)
    case CopyHandle => if s.handles > 0 then Some(DuplicateHolder(s).(handles := s.handles + 1)) else None
    case DropHandle => if s.handles > 0 then Some(ReleaseHolder(s).(handles := s.handles - 1)) else None
    case WaitReturns => if s.handles > 0 && s.event then Some(TouchHolder(s).(waited := true)) else None
  }

  /** The state after a schedule, if every step of it can be taken. */
  function Run(s: State, schedule: seq<Action>, outcome: Outcome): Option<State>
    decreases |schedule|
  {
    if schedule == [] then Some(s)
    else match Step(s, schedule[0], outcome)
      case None => None
      case Some(t) => Run(t, schedule[1..], outcome)
  }

  // ----- who owns what -----

  /** The caller's AutoPtr `pRunnable` exists. */
  predicate LocalRunnable(s: State) {
    s.caller.PassCopy? || s.caller.PoolStart? || s.caller.Duplicate? || s.caller.DropParameter? ||
    s.caller.ReturnResult? || s.caller.DropLocalRunnable? || s.caller.UnwindParameter? || s.caller.UnwindRunnable?
  }

  /** The starter's by-value copy exists. */
  predicate ParameterRunnable(s: State) {
    (s.caller.PoolStart? || s.caller.Duplicate? || s.caller.DropParameter? || s.caller.UnwindParameter?)
  }

  /** The reference for the worker has been taken. */
  predicate WorkerReferenceTaken(s: State) {
    s.caller.DropParameter? || s.caller.ReturnResult? || s.caller.DropLocalRunnable? ||
    s.caller.DropLocalResult? || s.caller.Returned?
  }

  /** The pool refused to start, and the exception passes through the caller's scopes. */
  predicate Unwinding(s: State) {
    s.caller.UnwindParameter? || s.caller.UnwindRunnable? || s.caller.UnwindResult?
  }

  /** Between the creation of the result and the return of a copy. */
  predicate HoldsResult(s: State) {
    s.caller.NewRunnable? || s.caller.PassCopy? || s.caller.PoolStart? || s.caller.Duplicate? ||
    s.caller.DropParameter? || s.caller.ReturnResult? || Unwinding(s)
  }

  predicate RunnableCreated(s: State) {
    !s.caller.NewHolder? && !s.caller.NewRunnable?
  }

  /** Owners of the runnable; a worker that is done before its reference is taken counts as a debt. */
  function RunnableOwners(s: State): int {
    One(LocalRunnable(s)) + One(ParameterRunnable(s)) + One(WorkerReferenceTaken(s)) - One(s.worker.Done?)
  }

  /** Live ActiveResult objects: the caller's local, the runnable's member and the copies handed out. */
  function LiveResults(s: State): nat {
    One(s.localResult) + One(RunnableCreated(s) && s.runnableFreed == 0) + s.handles
  }

  predicate Stored(s: State) {
    s.worker.Notify? || s.worker.DropGuard? || s.worker.Done?
  }

  predicate Notified(s: State) {
    s.worker.DropGuard? || s.worker.Done?
  }

  predicate Inv(s: State, outcome: Outcome) {
    && !s.fault
    && s.runnableCount == RunnableOwners(s)
    && s.runnableFreed == One(RunnableCreated(s) && s.runnableCount == 0)
    && s.holderCount == LiveResults(s)
    && s.holderFreed == One(!s.caller.NewHolder? && s.holderCount == 0)
    && (s.worker.NotStarted? <==>
        s.caller.NewHolder? || s.caller.NewRunnable? || s.caller.PassCopy? || s.caller.PoolStart? || Unwinding(s) ||
        s.caller.Threw?)
    && (HoldsResult(s) ==> s.localResult)
    && ((s.caller.NewHolder? || s.caller.Returned? || s.caller.Threw?) ==> !s.localResult)
    && (s.handles > 0 ==> (s.caller.DropLocalRunnable? || s.caller.DropLocalResult? || s.caller.Returned?))
    && s.data == (if Stored(s) && outcome.Returns? then Some(outcome.value) else None)
    && s.error == (if Stored(s) && outcome.Throws? then Some(outcome.message) else None)
    && s.event == Notified(s) && s.notifications == One(s.event)
    && (s.waited ==> s.event)
  }

  // ----- what holds in every run -----

  lemma UnstartedInv(s: State, outcome: Outcome)
    requires s.caller.NewHolder? && s.worker.NotStarted?
    requires s.runnableCount == s.runnableFreed == s.holderCount == s.holderFreed == 0
    requires s.data.None? && s.error.None? && s.notifications == s.handles == 0
    requires !s.event && !s.localResult && !s.waited && !s.fault
    ensures Inv(s, outcome)
  {}

  lemma InitInv(outcome: Outcome)
    ensures Inv(Init(), outcome)
  {
    hide Inv;
    UnstartedInv(Init(), outcome);
  }

  lemma CreateKeepsInv(s: State, elide: bool, outcome: Outcome)
    requires Inv(s, outcome) && (s.caller.NewHolder? || s.caller.NewRunnable? || s.caller.PassCopy?)
    ensures Inv(CallStep(s, elide).value, outcome)
  {}

  lemma StartKeepsInv(s: State, elide: bool, outcome: Outcome)
    requires Inv(s, outcome) && (s.caller.PoolStart? || s.caller.Duplicate?)
    ensures Inv(CallStep(s, elide).value, outcome)
  {}

  lemma ReturnKeepsInv(s: State, elide: bool, outcome: Outcome)
    requires Inv(s, outcome) && (s.caller.DropParameter? || s.caller.ReturnResult?)
    ensures Inv(CallStep(s, elide).value, outcome)
  {}

  lemma LeaveKeepsInv(s: State, elide: bool, outcome: Outcome)
    requires Inv(s, outcome) && (s.caller.DropLocalRunnable? || s.caller.DropLocalResult?)
    ensures Inv(CallStep(s, elide).value, outcome)
  {}

  lemma UnwindKeepsInv(s: State, elide: bool, outcome: Outcome)
    requires Inv(s, outcome) && Unwinding(s)
    ensures Inv(CallStep(s, elide).value, outcome)
  {}

  lemma CallKeepsInv(s: State, elide: bool, outcome: Outcome)
    requires Inv(s, outcome) && CallStep(s, elide).Some?
    ensures Inv(CallStep(s, elide).value, outcome)
  {
    hide Inv;
    if (s.caller.NewHolder? || s.caller.NewRunnable? || s.caller.PassCopy?) { CreateKeepsInv(s, elide, outcome); }
    else if (s.caller.PoolStart? || s.caller.Duplicate?) { StartKeepsInv(s, elide, outcome); }
    else if Unwinding(s) { UnwindKeepsInv(s, elide, outcome); }
    else if (s.caller.DropParameter? || s.caller.ReturnResult?) { ReturnKeepsInv(s, elide, outcome); }
    else { LeaveKeepsInv(s, elide, outcome); }
  }

  lemma StoreKeepsInv(s: State, outcome: Outcome)
    requires Inv(s, outcome) && (s.worker.TakeGuard? || s.worker.StoreOutcome? || s.worker.Notify?)
    ensures Inv(WorkStep(s, outcome).value, outcome)
  {
    hide ReleaseRunnable;
  }

  lemma GuardKeepsInv(s: State, outcome: Outcome)
    requires Inv(s, outcome) && s.worker.DropGuard?
    ensures Inv(WorkStep(s, outcome).value, outcome)
  {}

  lemma WorkKeepsInv(s: State, outcome: Outcome)
    requires Inv(s, outcome) && WorkStep(s, outcome).Some?
    ensures Inv(WorkStep(s, outcome).value, outcome)
  {
    hide Inv;
    if s.worker.DropGuard? { GuardKeepsInv(s, outcome); } else { StoreKeepsInv(s, outcome); }
  }

  lemma StepKeepsInv(s: State, a: Action, outcome: Outcome)
    requires Inv(s, outcome) && Step(s, a, outcome).Some?
    ensures Inv(Step(s, a, outcome).value, outcome)
  {
    if a.Call? { CallKeepsInv(s, false, outcome); }
    else if a.CallElided? { CallKeepsInv(s, true, outcome); }
    else if a.Work? { WorkKeepsInv(s, outcome); }
  }

  lemma {:induction false} RunKeepsInv(s: State, schedule: seq<Action>, outcome: Outcome)
    requires Inv(s, outcome) && Run(s, schedule, outcome).Some?
    ensures Inv(Run(s, schedule, outcome).value, outcome)
    decreases |schedule|
  {
    hide Inv;
    if schedule != [] {
      StepKeepsInv(s, schedule[0], outcome);
      RunKeepsInv(Step(s, schedule[0], outcome).value, schedule[1..], outcome);
    }
  }

  lemma ReachableInv(schedule: seq<Action>, outcome: Outcome)
    requires Run(Init(), schedule, outcome).Some?
    ensures Inv(Run(Init(), schedule, outcome).value, outcome)
  {
    InitInv(outcome);
    hide Inv;
    hide Init;
    RunKeepsInv(Init(), schedule, outcome);
  }

  /**
    In every interleaving nothing is used after it is freed, and the runnable is freed at most once
    and exactly when its last owner (starter's copy, caller's local, worker) has let go.
   */
  lemma RunnableIsSafe(schedule: seq<Action>, outcome: Outcome)
    requires Run(Init(), schedule, outcome).Some?
    ensures var s := Run(Init(), schedule, outcome).value;
            !s.fault && s.runnableFreed <= 1 &&
            (s.runnableFreed == 1 <==> RunnableCreated(s) && RunnableOwners(s) == 0)
  {
    ReachableInv(schedule, outcome);
    hide Run;
  }

  /**
    The same without the fault flag: whenever a thread's next step uses the runnable, or anybody is
    about to use the holder, it has not been freed.
   */
  lemma AliveWhenUsed(schedule: seq<Action>, outcome: Outcome)
    requires Run(Init(), schedule, outcome).Some?
    ensures
      var s := Run(Init(), schedule, outcome).value;
      && (!s.worker.NotStarted? && !s.worker.Done? ==> s.runnableFreed == 0 && s.holderFreed == 0)
      && (s.caller.PassCopy? || s.caller.PoolStart? || s.caller.Duplicate? || s.caller.DropParameter? ||
          s.caller.DropLocalRunnable? || s.caller.UnwindParameter? || s.caller.UnwindRunnable? ==>
          s.runnableFreed == 0 && s.holderFreed == 0)
      && (s.handles > 0 || s.localResult ==> s.holderFreed == 0)
  {
    ReachableInv(schedule, outcome);
    hide Run;
  }

  predicate Through(s: State) {
    s.caller.Threw? || (s.caller.Returned? && s.worker.Done?)
  }

  /** When both threads are through, whichever way, the runnable has been freed exactly once. */
  lemma RunnableIsFreed(schedule: seq<Action>, outcome: Outcome)
    requires Run(Init(), schedule, outcome).Some?
    ensures var s := Run(Init(), schedule, outcome).value;
            Through(s) ==>
            s.runnableFreed == 1 && s.holderCount == s.handles && s.holderFreed == One(s.handles == 0)
  {
    ReachableInv(schedule, outcome);
    hide Run;
  }

  /** The holder lives exactly as long as some ActiveResult does. */
  lemma HolderLivesWithResults(schedule: seq<Action>, outcome: Outcome)
    requires Run(Init(), schedule, outcome).Some?
    ensures var s := Run(Init(), schedule, outcome).value;
            s.holderCount == LiveResults(s) && s.holderFreed <= 1 &&
            (s.holderFreed == 1 <==> !s.caller.NewHolder? && LiveResults(s) == 0)
  {
    ReachableInv(schedule, outcome);
    hide Run;
  }

  /** After a wait has returned there is exactly one of data and error: the outcome of the method. */
  lemma WaitMeansOutcome(schedule: seq<Action>, outcome: Outcome)
    requires Run(Init(), schedule, outcome).Some?
    ensures var s := Run(Init(), schedule, outcome).value;
            s.waited ==>
              s.notifications == 1 &&
              match outcome {
                case Returns(v) => s.data == Some(v) && s.error == None
                case Throws(m) => s.data == None && s.error == Some(m)
              }
  {
    ReachableInv(schedule, outcome);
    hide Run;
  }

  predicate SameOutcome(s: State, t: State) {
    t.event == s.event && t.data == s.data && t.error == s.error && t.notifications == s.notifications
  }

  lemma ReleaseKeepsOutcome(s: State)
    ensures SameOutcome(s, ReleaseRunnable(s)) && SameOutcome(s, ReleaseHolder(s))
  {}

  lemma CallKeepsOutcome(s: State, elide: bool)
    requires CallStep(s, elide).Some?
    ensures SameOutcome(s, CallStep(s, elide).value)
  {
    hide ReleaseRunnable, ReleaseHolder;
    ReleaseKeepsOutcome(s);
  }

  lemma StepKeepsOutcome(s: State, a: Action, outcome: Outcome)
    requires Inv(s, outcome) && s.event && Step(s, a, outcome).Some?
    ensures SameOutcome(s, Step(s, a, outcome).value)
  {
    hide CallStep, ReleaseRunnable, ReleaseHolder;
    ReleaseKeepsOutcome(s);
    if a.Call? { CallKeepsOutcome(s, false); }
    else if a.CallElided? { CallKeepsOutcome(s, true); }
  }

  /** Once notified, neither data nor error ever changes and there is no second notification. */
  lemma {:induction false} OutcomeIsFinal(s: State, schedule: seq<Action>, outcome: Outcome)
    requires Inv(s, outcome) && s.event && Run(s, schedule, outcome).Some?
    ensures SameOutcome(s, Run(s, schedule, outcome).value)
    decreases |schedule|
  {
    hide Inv;
    hide Step;
    if schedule != [] {
      StepKeepsInv(s, schedule[0], outcome);
      StepKeepsOutcome(s, schedule[0], outcome);
      OutcomeIsFinal(Step(s, schedule[0], outcome).value, schedule[1..], outcome);
    }
  }

  // ----- the threads get through -----

  function CallerRank(c: Caller): nat {
    match c
    case NewHolder => 9
    case NewRunnable => 8
    case PassCopy => 7
    case PoolStart => 6
    case Duplicate => 5
    case DropParameter => 4
    case ReturnResult => 3
    case DropLocalRunnable => 2
    case DropLocalResult => 1
    case UnwindParameter => 3
    case UnwindRunnable => 2
    case UnwindResult => 1
    case Returned => 0
    case Threw => 0
  }

  function WorkerRank(w: Worker): nat {
    match w
    case NotStarted => 5
    case TakeGuard => 4
    case StoreOutcome => 3
    case Notify => 2
    case DropGuard => 1
    case Done => 0
  }

  /** Steps the two threads still have to take at most. */
  function Rank(s: State): nat {
    CallerRank(s.caller) + (if s.caller.Threw? then 0 else WorkerRank(s.worker))
  }

  predicate ThreadStep(a: Action) {
    a.Call? || a.CallElided? || a.StartRefused? || a.Work?
  }

  lemma CallRankDecreases(s: State, elide: bool)
    requires s.caller.PoolStart? ==> s.worker.NotStarted?
    requires CallStep(s, elide).Some?
    ensures Rank(CallStep(s, elide).value) < Rank(s)
  {
    hide ReleaseRunnable;
    hide ReleaseHolder;
    hide DuplicateRunnable;
    hide DuplicateHolder;
  }

  lemma WorkRankDecreases(s: State, outcome: Outcome)
    requires !s.caller.Threw? && WorkStep(s, outcome).Some?
    ensures Rank(WorkStep(s, outcome).value) < Rank(s)
  {
    hide CallerRank;
    hide ReleaseRunnable;
  }

  /** Thread steps use the rank up, users of the result cannot raise it. */
  lemma RankDecreases(s: State, a: Action, outcome: Outcome)
    requires (s.caller.PoolStart? || s.caller.Threw?) ==> s.worker.NotStarted?
    requires Step(s, a, outcome).Some?
    ensures Rank(Step(s, a, outcome).value) <= Rank(s)
    ensures ThreadStep(a) ==> Rank(Step(s, a, outcome).value) < Rank(s)
  {
    if a.Call? { CallRankDecreases(s, false); }
    else if a.CallElided? { CallRankDecreases(s, true); }
    else if a.Work? { WorkRankDecreases(s, outcome); }
    hide CallStep;
  }

  /** No deadlock: until both are through, one of the threads can take a step. */
  lemma SomeThreadCanStep(s: State, outcome: Outcome)
    requires Inv(s, outcome) && !Through(s)
    ensures Step(s, Call, outcome).Some? || Step(s, Work, outcome).Some?
  {}

  lemma ThroughIsFreed(s: State, outcome: Outcome)
    requires Inv(s, outcome)
    ensures Through(s) ==> s.runnableFreed == 1
    ensures s.caller.PoolStart? || s.caller.Threw? ==> s.worker.NotStarted?
  {}

  function ThreadSteps(schedule: seq<Action>): nat {
    if schedule == [] then 0 else One(ThreadStep(schedule[0])) + ThreadSteps(schedule[1..])
  }

  /** In every run the two threads together take at most as many steps as the rank it starts with. */
  lemma {:induction false} ThreadStepsBounded(s: State, schedule: seq<Action>, outcome: Outcome)
    requires Inv(s, outcome) && Run(s, schedule, outcome).Some?
    ensures ThreadSteps(schedule) + Rank(Run(s, schedule, outcome).value) <= Rank(s)
    decreases |schedule|
  {
    hide Inv, Step, Rank;
    if schedule != [] {
      ThroughIsFreed(s, outcome);
      StepKeepsInv(s, schedule[0], outcome);
      RankDecreases(s, schedule[0], outcome);
      ThreadStepsBounded(Step(s, schedule[0], outcome).value, schedule[1..], outcome);
    }
  }

  /** From every reachable state the threads can finish, and then the runnable is gone. */
  lemma {:induction false} ThreadsFinish(s: State, outcome: Outcome) returns (schedule: seq<Action>)
    requires Inv(s, outcome)
    ensures Run(s, schedule, outcome).Some?
    ensures var t := Run(s, schedule, outcome).value;
            Through(t) && t.runnableFreed == 1
    decreases Rank(s)
  {
    hide Inv, Step, Rank;
    ThroughIsFreed(s, outcome);
    if Through(s) {
      schedule := [];
    } else {
      SomeThreadCanStep(s, outcome);
      var a := if Step(s, Call, outcome).Some? then Call else Work;
      StepKeepsInv(s, a, outcome);
      RankDecreases(s, a, outcome);
      var rest := ThreadsFinish(Step(s, a, outcome).value, outcome);
      schedule := [a] + rest;
      assert schedule[1..] == rest;
    }
  }

  // ----- waiting -----

  /**
    What each party can do in a reachable state: a thread that is not through its next step, the
    pool refuse only where the thread is started, and whoever has a result copy it, drop it and,
    exactly once the worker has notified, return from a wait.
   */
  lemma EnabledExactly(schedule: seq<Action>, outcome: Outcome)
    requires Run(Init(), schedule, outcome).Some?
    ensures
      var s := Run(Init(), schedule, outcome).value;
      && (Step(s, WaitReturns, outcome).Some? <==> s.handles > 0 && (s.worker.DropGuard? || s.worker.Done?))
      && (Step(s, CopyHandle, outcome).Some? <==> s.handles > 0)
      && (Step(s, DropHandle, outcome).Some? <==> s.handles > 0)
      && (Step(s, Call, outcome).Some? <==> !s.caller.Returned? && !s.caller.Threw?)
      && (Step(s, CallElided, outcome).Some? <==> !s.caller.Returned? && !s.caller.Threw?)
      && (Step(s, StartRefused, outcome).Some? <==> s.caller.PoolStart?)
      && (Step(s, Work, outcome).Some? <==> !s.worker.NotStarted? && !s.worker.Done?)
  {
    ReachableInv(schedule, outcome);
    hide Run;
  }

  /** What the users of a result do to it: only the number of copies changes, and whether a wait has returned. */
  lemma UsersOnlyCount(s: State, outcome: Outcome)
    requires Inv(s, outcome) && s.handles > 0
    ensures
      var t := Step(s, CopyHandle, outcome);
      t.Some? && t.value == s.(handles := s.handles + 1, holderCount := LiveResults(s) + 1)
    ensures
      var t := Step(s, DropHandle, outcome);
      && t.Some?
      && t.value == s.(handles := s.handles - 1, holderCount := LiveResults(s) - 1,
                       holderFreed := One(LiveResults(s) == 1))
    ensures
      var t := Step(s, WaitReturns, outcome);
      Notified(s) ==> t.Some? && t.value == s.(waited := true)
  {
  }

  /** Somebody holds a result, or the caller is still to hand one out. */
  predicate ResultInSight(s: State) {
    || s.handles > 0
    || s.caller.NewHolder? || s.caller.NewRunnable? || s.caller.PassCopy? || s.caller.PoolStart?
    || s.caller.Duplicate? || s.caller.DropParameter? || s.caller.ReturnResult?
  }

  lemma StaysInSight(s: State, outcome: Outcome)
    requires Inv(s, outcome) && ResultInSight(s)
    ensures !s.caller.Threw?
    ensures Step(s, Call, outcome).Some? ==> ResultInSight(Step(s, Call, outcome).value)
    ensures Step(s, Work, outcome).Some? ==> ResultInSight(Step(s, Work, outcome).value)
    ensures Through(s) ==> s.handles > 0 && Step(s, WaitReturns, outcome) == Some(s.(waited := true))
  {
  }

  lemma HasItsOutcome(s: State, outcome: Outcome)
    requires Inv(s, outcome) && s.event
    ensures match outcome {
              case Returns(v) => s.data == Some(v) && s.error == None
              case Throws(m) => s.data == None && s.error == Some(m)
            }
  {
  }

  /**
    From every reachable state in which a result is held or still to come, the threads can go on
    until a wait returns, and the method's outcome is then in the result.
   */
  lemma {:induction false} WaitCanReturn(s: State, outcome: Outcome) returns (schedule: seq<Action>)
    requires Inv(s, outcome) && ResultInSight(s)
    ensures Run(s, schedule, outcome).Some?
    ensures var t := Run(s, schedule, outcome).value;
            t.waited && t.handles > 0 &&
            match outcome {
              case Returns(v) => t.data == Some(v) && t.error == None
              case Throws(m) => t.data == None && t.error == Some(m)
            }
    decreases Rank(s)
  {
    hide Inv, Step, Rank, Through, ResultInSight;
    ThroughIsFreed(s, outcome);
    StaysInSight(s, outcome);
    if Through(s) {
      schedule := [WaitReturns];
      StepKeepsInv(s, WaitReturns, outcome);
      WaitedNotified(s.(waited := true), outcome);
      HasItsOutcome(s.(waited := true), outcome);
      OneStep(s, WaitReturns, outcome);
    } else {
      SomeThreadCanStep(s, outcome);
      var a := if Step(s, Call, outcome).Some? then Call else Work;
      StepKeepsInv(s, a, outcome);
      RankDecreases(s, a, outcome);
      var rest := WaitCanReturn(Step(s, a, outcome).value, outcome);
      schedule := [a] + rest;
      assert schedule[1..] == rest;
    }
  }

  lemma WaitedNotified(s: State, outcome: Outcome)
    requires Inv(s, outcome) && s.waited
    ensures s.event
  {
  }

  lemma OneStep(s: State, a: Action, outcome: Outcome)
    ensures Run(s, [a], outcome) == Step(s, a, outcome)
  {
    hide Step;
  }

  /**
    The worker may be through before its reference is even taken: the runnable then lives on the
    caller's local and the starter's copy, with a count of one.
   */
  lemma WorkerFirst(s: State, outcome: Outcome)
    requires Inv(s, outcome) && s.caller.Duplicate? && s.worker.Done?
    ensures s.runnableCount == 1 && s.runnableFreed == 0
    ensures Step(s, Call, outcome).value.runnableCount == 2
  {}
}
