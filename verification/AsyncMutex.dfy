/** The async mutex and its waker list, as a machine whose steps are the single atomic operations of
    `try_lock`, `lock`, `spin_lock`, the locker's `poll` and the guard's `drop`. */
module AsyncMutex {
  import opened Sequences

  type Task = nat

  /** Which loop a failed `try_lock` returns to: `lock`, `spin_lock`, or none. */
  datatype Mode = Async | Spin | Once

  datatype Position =
    | Idle
    | LockerLoad            // about to load `locked` in the locker's poll
    | LockerRegister        // saw it set; about to push its waker
    | Parked                // returned pending
    | TryLoad(mode: Mode)   // about to load `locked` in `try_lock`
    | TryExchange(mode: Mode)
    | Holding
    | Notify                // stored false in `drop`; about to notify

  /** `wakers` is the waker list, oldest first; `ready` are the tasks whose waker fired and that have
      not been polled since. */
  datatype State = State(locked: bool, wakers: seq<Task>, ready: set<Task>, at: map<Task, Position>)

  const START: State := State(false, [], {}, map[])

  function At(s: State, t: Task): Position {
    if t in s.at then s.at[t] else Idle
  }

  function Move(s: State, t: Task, p: Position): State {
    s.(at := s.at[t := p])
  }

  /** One atomic step of a task. `Go` takes its next step; the flag lets a weak exchange fail for no
      reason. A parked task goes on only after its waker fired. */
  datatype Step = Begin(task: Task, mode: Mode) | Go(task: Task, spurious: bool)

  predicate Enabled(s: State, step: Step) {
    match step
    case Begin(t, _) => At(s, t) == Idle
    case Go(t, _) => At(s, t) != Idle && (At(s, t) == Parked ==> t in s.ready)
  }

  function AfterFailure(mode: Mode): Position {
    match mode
    case Async => LockerLoad
    case Spin => TryLoad(Spin)
    case Once => Idle
  }

  function Apply(s: State, step: Step): State
    requires Enabled(s, step)
  {
    var t := step.task;
    match step
    case Begin(_, mode) => Move(s, t, if mode == Async then LockerLoad else TryLoad(mode))
    case Go(_, spurious) =>
      match At(s, t)
      case LockerLoad => Move(s, t, if s.locked then LockerRegister else TryLoad(Async))
      case LockerRegister => Move(s, t, Parked).(wakers := s.wakers + [t])
      case Parked => Move(s, t, LockerLoad).(ready := s.ready - {t})
      case TryLoad(mode) => Move(s, t, if s.locked then AfterFailure(mode) else TryExchange(mode))
      case TryExchange(mode) =>
        if s.locked || spurious then Move(s, t, AfterFailure(mode)) else Move(s, t, Holding).(locked := true)
      case Holding => Move(s, t, Notify).(locked := false)
      case Notify =>
        if s.wakers == [] then Move(s, t, Idle)
        else Move(s, t, Idle).(wakers := s.wakers[1..], ready := s.ready + {s.wakers[0]})
  }

  predicate Runs(s: State, steps: seq<Step>, s': State)
    decreases |steps|
  {
    if steps == [] then s' == s
    else Enabled(s, steps[0]) && Runs(Apply(s, steps[0]), steps[1..], s')
  }

  // ---------------------------------------------------------------- any interleaving

  /** The flag is set exactly while a guard exists, and there is at most one guard. */
  ghost predicate Exclusive(s: State) {
    && (s.locked <==> exists t :: At(s, t) == Holding)
    && (forall t, u :: At(s, t) == Holding && At(s, u) == Holding ==> t == u)
  }

  /** A parked task is queued or woken, in one of the two and once; nobody else is. */
  ghost predicate Accounted(s: State) {
    && Distinct(s.wakers)
    && (forall t :: t in s.wakers ==> At(s, t) == Parked && t !in s.ready)
    && (forall t :: t in s.ready ==> At(s, t) == Parked)
    && (forall t :: At(s, t) == Parked ==> t in s.wakers || t in s.ready)
  }

  lemma StepKeepsExclusive(s: State, step: Step)
    requires Exclusive(s) && Enabled(s, step)
    ensures Exclusive(Apply(s, step))
  {
    var s' := Apply(s, step);
    var t := step.task;
    assert forall u :: u != t ==> At(s', u) == At(s, u);
    if s.locked && At(s, t) != Holding {
      var h :| At(s, h) == Holding;
      assert At(s', h) == Holding;
    }
    if !s.locked && s'.locked {
      assert At(s', t) == Holding;
    }
  }

  lemma NotifyKeepsAccounted(s: State, t: Task)
    requires Accounted(s) && At(s, t) == Notify && s.wakers != []
    ensures Accounted(Apply(s, Go(t, false)))
  {
    var s' := Apply(s, Go(t, false));
    var w := s.wakers[0];
    assert s.wakers == [w] + s'.wakers && w !in s'.wakers by {
      forall i | 0 <= i < |s'.wakers| ensures s'.wakers[i] != w {
        assert s'.wakers[i] == s.wakers[i + 1];
      }
    }
    assert forall u :: u != t ==> At(s', u) == At(s, u);
  }

  /** A step that neither parks a task nor takes one off the list or the ready set. */
  lemma MoveKeepsAccounted(s: State, s': State, t: Task)
    requires Accounted(s) && s'.wakers == s.wakers && s'.ready == s.ready
    requires At(s, t) != Parked && At(s', t) != Parked && forall u :: u != t ==> At(s', u) == At(s, u)
    ensures Accounted(s')
  {
  }

  lemma StepKeepsAccounted(s: State, step: Step)
    requires Accounted(s) && Enabled(s, step)
    ensures Accounted(Apply(s, step))
  {
    var s' := Apply(s, step);
    var t := step.task;
    assert forall u :: u != t ==> At(s', u) == At(s, u);
    if step.Go? && At(s, t) == Notify && s.wakers != [] {
      NotifyKeepsAccounted(s, t);
    } else if step.Begin? || (At(s, t) != Parked && At(s, t) != LockerRegister) {
      MoveKeepsAccounted(s, s', t);
    }
  }

  lemma {:induction false} RunKeepsExclusive(s: State, steps: seq<Step>, s': State)
    requires Exclusive(s) && Accounted(s) && Runs(s, steps, s')
    ensures Exclusive(s') && Accounted(s')
    decreases |steps|
  {
    if steps != [] {
      StepKeepsExclusive(s, steps[0]);
      StepKeepsAccounted(s, steps[0]);
      RunKeepsExclusive(Apply(s, steps[0]), steps[1..], s');
    }
  }

  /** Mutual exclusion at the level of single atomic operations, for any number of tasks, any
      interleaving and any spurious failures of the exchange; and every waiter is in the waker list
      or woken, exactly once. */
  lemma MutualExclusion(steps: seq<Step>, s: State)
    requires Runs(START, steps, s)
    ensures forall t, u :: At(s, t) == Holding && At(s, u) == Holding ==> t == u
    ensures s.locked <==> exists t :: At(s, t) == Holding
    ensures Distinct(s.wakers) && forall t :: At(s, t) == Parked <==> (t in s.wakers) != (t in s.ready)
  {
    RunKeepsExclusive(START, steps, s);
  }

  // ---------------------------------------------------------------- what each call does

  /** No step of task `t`. */
  predicate OthersOnly(steps: seq<Step>, t: Task) {
    forall i :: 0 <= i < |steps| ==> steps[i].task != t
  }

  lemma {:induction false} OthersDoNotMove(s: State, steps: seq<Step>, s': State, t: Task)
    requires Runs(s, steps, s') && OthersOnly(steps, t)
    ensures At(s', t) == At(s, t)
    decreases |steps|
  {
    if steps != [] {
      OthersDoNotMove(Apply(s, steps[0]), steps[1..], s', t);
    }
  }

  /** `try_lock`, whatever other tasks do between its steps: it returns a guard exactly when its load and
      its exchange both find the lock free and the exchange does not fail, and otherwise it gives up on
      the spot, leaving everything else as it was. */
  lemma TryLockAnswers(s: State, t: Task, a: seq<Step>, loading: State, x: bool, b: seq<Step>, trying: State, y: bool)
    requires At(s, t) == Idle && Runs(Apply(s, Begin(t, Once)), a, loading) && OthersOnly(a, t)
    requires Enabled(loading, Go(t, x)) && Runs(Apply(loading, Go(t, x)), b, trying) && OthersOnly(b, t)
    ensures loading.locked ==> Apply(loading, Go(t, x)) == Move(loading, t, Idle) && At(trying, t) == Idle
    ensures !loading.locked ==>
              && Enabled(trying, Go(t, y))
              && Apply(trying, Go(t, y)) ==
                 if trying.locked || y then Move(trying, t, Idle) else Move(trying, t, Holding).(locked := true)
  {
    OthersDoNotMove(Apply(s, Begin(t, Once)), a, loading, t);
    OthersDoNotMove(Apply(loading, Go(t, x)), b, trying, t);
  }

  /** Dropping the guard, whatever other tasks do between its steps: the lock is free after the first, and
      the second fires the longest waiter's waker, if there is one, and ends the call. */
  lemma DropAnswers(s: State, t: Task, x: bool, a: seq<Step>, notifying: State, y: bool)
    requires At(s, t) == Holding && Runs(Apply(s, Go(t, x)), a, notifying) && OthersOnly(a, t)
    ensures !Apply(s, Go(t, x)).locked && Apply(s, Go(t, x)).wakers == s.wakers && Apply(s, Go(t, x)).ready == s.ready
    ensures Enabled(notifying, Go(t, y))
    ensures var s' := Apply(notifying, Go(t, y));
            && At(s', t) == Idle && s'.locked == notifying.locked
            && (notifying.wakers == [] ==> s'.wakers == [] && s'.ready == notifying.ready)
            && (notifying.wakers != [] ==>
                  s'.wakers == notifying.wakers[1..] && s'.ready == notifying.ready + {notifying.wakers[0]})
  {
    OthersDoNotMove(Apply(s, Go(t, x)), a, notifying, t);
  }

  /** The task is inside `lock` or `spin_lock` and has no guard yet. */
  predicate Acquiring(p: Position, mode: Mode) {
    match mode
    case Async => p == LockerLoad || p == LockerRegister || p == Parked || p == TryLoad(Async) || p == TryExchange(Async)
    case Spin => p == TryLoad(Spin) || p == TryExchange(Spin)
    case Once => false
  }

  /** Somewhere on the run the task takes the lock. */
  ghost predicate GetsGuard(s: State, steps: seq<Step>, t: Task)
    decreases |steps|
  {
    && steps != [] && Enabled(s, steps[0])
    && ((At(s, t) != Holding && At(Apply(s, steps[0]), t) == Holding && !s.locked)
        || GetsGuard(Apply(s, steps[0]), steps[1..], t))
  }

  lemma {:induction false} AcquiringUntilGuard(s: State, steps: seq<Step>, s': State, t: Task, mode: Mode)
    requires Acquiring(At(s, t), mode) && Runs(s, steps, s')
    ensures Acquiring(At(s', t), mode) || GetsGuard(s, steps, t)
    decreases |steps|
  {
    if steps != [] {
      var next := Apply(s, steps[0]);
      assert steps[0].task != t ==> At(next, t) == At(s, t);
      if Acquiring(At(next, t), mode) {
        AcquiringUntilGuard(next, steps[1..], s', t, mode);
      }
    }
  }

  /** `lock` and `spin_lock` never return without the guard: on every run, whatever other tasks do, a task
      that began one of them is still inside it or has taken the free lock since. */
  lemma LockReturnsWithGuard(s: State, t: Task, mode: Mode, steps: seq<Step>, s': State)
    requires At(s, t) == Idle && mode != Once && Runs(Apply(s, Begin(t, mode)), steps, s')
    ensures Acquiring(At(s', t), mode) || GetsGuard(Apply(s, Begin(t, mode)), steps, t)
  {
    AcquiringUntilGuard(Apply(s, Begin(t, mode)), steps, s', t, mode);
  }

  /** Steps of one task alone, none of whose exchanges fails for no reason. */
  function Alone(s: State, t: Task, n: nat): State
    decreases n
  {
    if n == 0 || !Enabled(s, Go(t, false)) then s else Alone(Apply(s, Go(t, false)), t, n - 1)
  }

  lemma AloneStep(s: State, t: Task, n: nat)
    requires 0 < n && Enabled(s, Go(t, false))
    ensures Alone(s, t, n) == Alone(Apply(s, Go(t, false)), t, n - 1)
  {
  }

  /** On a lock that stays held, `lock` queues its waker and parks within three steps; `spin_lock` only
      reads the flag, again and again, and never queues. */
  lemma HeldLockWaits(s: State, t: Task, n: nat)
    requires s.locked && Accounted(s)
    ensures Acquiring(At(s, t), Async) && At(s, t) != Parked && 3 <= n ==>
              Alone(s, t, n) == Move(s, t, Parked).(wakers := s.wakers + [t])
    ensures Acquiring(At(s, t), Spin) ==>
              && Alone(s, t, n) == s.(at := Alone(s, t, n).at)
              && At(Alone(s, t, n), t) == if n == 0 then At(s, t) else TryLoad(Spin)
    decreases n
  {
    if Acquiring(At(s, t), Spin) && n > 0 {
      AloneStep(s, t, n);
      HeldLockWaits(Apply(s, Go(t, false)), t, n - 1);
    } else if Acquiring(At(s, t), Async) && At(s, t) != Parked && 3 <= n {
      HeldLockParks(s, t, n);
    }
  }

  function StepsToPark(p: Position): nat {
    match p
    case TryExchange(_) => 3
    case TryLoad(_) => 3
    case LockerLoad => 2
    case _ => 1
  }

  lemma {:induction false} HeldLockParks(s: State, t: Task, n: nat)
    requires s.locked && t !in s.ready && Acquiring(At(s, t), Async) && At(s, t) != Parked && StepsToPark(At(s, t)) <= n
    ensures Alone(s, t, n) == Move(s, t, Parked).(wakers := s.wakers + [t])
    decreases n
  {
    var next := Apply(s, Go(t, false));
    AloneStep(s, t, n);
    if At(next, t) != Parked {
      HeldLockParks(next, t, n - 1);
    } else {
      assert !Enabled(next, Go(t, false));
    }
    assert Move(next, t, Parked).at == Move(s, t, Parked).at;
  }

  function StepsToTake(p: Position): nat {
    match p
    case Parked => 4
    case LockerLoad => 3
    case TryLoad(_) => 2
    case _ => 1
  }

  /** On a lock that stays free every call takes it within four steps. */
  lemma {:induction false} FreeLockTaken(s: State, t: Task)
    requires !s.locked && Enabled(s, Go(t, false))
    requires At(s, t) == Parked || At(s, t) == LockerLoad || At(s, t).TryLoad? || At(s, t).TryExchange?
    ensures At(Alone(s, t, StepsToTake(At(s, t))), t) == Holding && Alone(s, t, StepsToTake(At(s, t))).locked
    decreases StepsToTake(At(s, t))
  {
    var next := Apply(s, Go(t, false));
    AloneStep(s, t, StepsToTake(At(s, t)));
    if At(s, t).TryExchange? {
      assert Alone(next, t, 0) == next;
    } else {
      FreeLockTaken(next, t);
    }
  }

  // ---------------------------------------------------------------- no lost wake-up

  /** Someone who will take or pass on the lock: woken, running or spinning towards it, or about to
      notify. A single `try_lock` does not count, since it gives up when it fails. */
  predicate Helps(s: State, t: Task) {
    || (At(s, t) == Parked && t in s.ready)
    || At(s, t) == LockerLoad || At(s, t) == Notify
    || ((At(s, t).TryLoad? || At(s, t).TryExchange?) && At(s, t).mode != Once)
  }

  /** A free lock with waiters queued has someone to wake them. */
  ghost predicate NoLostWakeup(s: State) {
    !s.locked && s.wakers != [] ==> exists t :: Helps(s, t)
  }

  /** A task in the middle of a poll. Holding a guard is not: a task may keep it while it waits. */
  predicate MidPoll(p: Position) {
    !(p == Idle || p == Parked || p == Holding)
  }

  /** Polls are atomic between tasks: a task steps only while no other is in the middle of a poll. */
  ghost predicate AtomicPolls(s: State, steps: seq<Step>)
    decreases |steps|
  {
    steps != [] ==>
      && Enabled(s, steps[0])
      && (forall u :: u != steps[0].task ==> !MidPoll(At(s, u)))
      && AtomicPolls(Apply(s, steps[0]), steps[1..])
  }

  /** Every waker is pushed while the lock is still held. */
  ghost predicate RegistersWhileLocked(s: State, steps: seq<Step>)
    decreases |steps|
  {
    steps != [] ==>
      && Enabled(s, steps[0])
      && (steps[0].Go? && At(s, steps[0].task) == LockerRegister ==> s.locked)
      && RegistersWhileLocked(Apply(s, steps[0]), steps[1..])
  }

  /** The one step that loses a wake-up: a waker is pushed on a free lock and nobody is left to fire it. */
  ghost predicate Strands(s: State, step: Step) {
    step.Go? && At(s, step.task) == LockerRegister && !s.locked && forall u :: !Helps(s, u)
  }

  lemma OtherStepsLoseNoWakeup(s: State, step: Step)
    requires Exclusive(s) && Accounted(s) && NoLostWakeup(s) && Enabled(s, step)
    requires !(step.Go? && At(s, step.task) == LockerRegister)
    ensures NoLostWakeup(Apply(s, step))
  {
    var s' := Apply(s, step);
    var t := step.task;
    assert forall u :: u != t ==> At(s', u) == At(s, u);
    if !s'.locked && s'.wakers != [] {
      if s.locked {
        assert At(s, t) == Holding;
        assert Helps(s', t);
      } else {
        var h :| Helps(s, h);
        if h != t {
          assert Helps(s', h);
        } else if At(s, t) == Notify {
          assert s.wakers[0] in s.wakers;
          assert Helps(s', s.wakers[0]);
        } else {
          assert Helps(s', t);
        }
      }
    }
  }

  /** Exactly one kind of step, in exactly one situation, loses a wake-up. */
  lemma StepLosesWakeupIff(s: State, step: Step)
    requires Exclusive(s) && Accounted(s) && NoLostWakeup(s) && Enabled(s, step)
    ensures !NoLostWakeup(Apply(s, step)) <==> Strands(s, step)
  {
    var s' := Apply(s, step);
    var t := step.task;
    if step.Go? && At(s, t) == LockerRegister {
      assert s'.wakers[|s.wakers|] == t;
      forall u ensures Helps(s', u) <==> Helps(s, u) {
        assert u != t ==> At(s', u) == At(s, u);
        assert t in s.ready ==> At(s, t) == Parked;
      }
    } else {
      OtherStepsLoseNoWakeup(s, step);
    }
  }

  ghost predicate NeverLost(s: State, steps: seq<Step>)
    decreases |steps|
  {
    NoLostWakeup(s) && (steps != [] ==> Enabled(s, steps[0]) && NeverLost(Apply(s, steps[0]), steps[1..]))
  }

  ghost predicate NobodyStranded(s: State, steps: seq<Step>)
    decreases |steps|
  {
    steps != [] ==>
      && Enabled(s, steps[0])
      && !Strands(s, steps[0])
      && NobodyStranded(Apply(s, steps[0]), steps[1..])
  }

  lemma {:induction false} RunLosesWakeupIff(s: State, steps: seq<Step>, s': State)
    requires Runs(s, steps, s') && Exclusive(s) && Accounted(s) && NoLostWakeup(s)
    ensures NeverLost(s, steps) <==> NobodyStranded(s, steps)
    decreases |steps|
  {
    if steps != [] {
      StepKeepsExclusive(s, steps[0]);
      StepKeepsAccounted(s, steps[0]);
      StepLosesWakeupIff(s, steps[0]);
      if !Strands(s, steps[0]) {
        RunLosesWakeupIff(Apply(s, steps[0]), steps[1..], s');
      }
    }
  }

  /** For any number of tasks and any interleaving: every free lock with waiters has someone to wake
      them, throughout the run, if and only if no waker is pushed on a free lock that nobody else is
      about to take or pass on. */
  lemma NoWakeupLostIff(steps: seq<Step>, s: State)
    requires Runs(START, steps, s)
    ensures NeverLost(START, steps) <==> NobodyStranded(START, steps)
  {
    RunLosesWakeupIff(START, steps, s);
  }

  /** How many steps a helper is from having fired the first waker. */
  function StepsToFire(p: Position): nat {
    match p
    case Parked => 6
    case LockerLoad => 5
    case TryLoad(_) => 4
    case TryExchange(_) => 3
    case Holding => 2
    case _ => 1
  }

  /** What `Helps` promises: on a free lock a helper, left alone, fires the longest waiter's waker. */
  lemma {:induction false} HelperFires(s: State, t: Task)
    requires s.wakers != [] && Enabled(s, Go(t, false))
    requires if s.locked then At(s, t) == Holding else Helps(s, t)
    ensures s.wakers[0] in Alone(s, t, StepsToFire(At(s, t))).ready
    decreases StepsToFire(At(s, t))
  {
    var next := Apply(s, Go(t, false));
    if At(s, t) == Notify {
      assert Alone(next, t, 0) == next;
    } else {
      assert next.wakers == s.wakers;
      HelperFires(next, t);
    }
  }

  /** A free lock with nobody to help, and no single `try_lock` under way. */
  ghost predicate Dead(s: State) {
    !s.locked && forall t :: !Helps(s, t) && !At(s, t).TryLoad? && !At(s, t).TryExchange? && At(s, t) != Holding
  }

  /** What the lack of helpers means: until another call begins, no waker is ever fired again. */
  lemma {:induction false} LostForGood(s: State, steps: seq<Step>, s': State)
    requires Dead(s) && Accounted(s) && Runs(s, steps, s') && forall i :: 0 <= i < |steps| ==> steps[i].Go?
    ensures Dead(s') && s.wakers <= s'.wakers && s'.ready == s.ready
    decreases |steps|
  {
    if steps != [] {
      var t, next := steps[0].task, Apply(s, steps[0]);
      assert !Helps(s, t) && At(s, t) == LockerRegister;
      StepKeepsAccounted(s, steps[0]);
      forall u ensures !Helps(next, u) && !At(next, u).TryLoad? && !At(next, u).TryExchange? && At(next, u) != Holding {
        assert u != t ==> At(next, u) == At(s, u) && !Helps(s, u);
        assert t in s.ready ==> At(s, t) == Parked;
      }
      LostForGood(next, steps[1..], s');
    }
  }

  lemma {:induction false} RunKeepsNoLostWakeup(s: State, steps: seq<Step>, s': State)
    requires Runs(s, steps, s') && RegistersWhileLocked(s, steps)
    requires Exclusive(s) && Accounted(s) && NoLostWakeup(s)
    ensures NoLostWakeup(s')
    decreases |steps|
  {
    if steps != [] {
      StepKeepsExclusive(s, steps[0]);
      StepKeepsAccounted(s, steps[0]);
      StepLosesWakeupIff(s, steps[0]);
      RunKeepsNoLostWakeup(Apply(s, steps[0]), steps[1..], s');
    }
  }

  lemma {:induction false} AtomicPollsRegisterWhileLocked(s: State, steps: seq<Step>, s': State)
    requires Runs(s, steps, s') && AtomicPolls(s, steps)
    requires forall t :: At(s, t) == LockerRegister ==> s.locked
    ensures RegistersWhileLocked(s, steps)
    decreases |steps|
  {
    if steps != [] {
      var next := Apply(s, steps[0]);
      assert forall u :: u != steps[0].task ==> At(next, u) == At(s, u);
      forall t | At(next, t) == LockerRegister ensures next.locked {
        assert t != steps[0].task ==> MidPoll(At(s, t));
      }
      assert Runs(next, steps[1..], s');
      AtomicPollsRegisterWhileLocked(next, steps[1..], s');
    }
  }

  /** With polls atomic between tasks, as on one processor, no wake-up is lost: whenever the lock is
      free and waiters are queued, someone woken has not run yet or a release is about to notify. */
  lemma AtomicPollsLoseNoWakeup(steps: seq<Step>, s: State)
    requires Runs(START, steps, s) && AtomicPolls(START, steps)
    ensures NoLostWakeup(s)
    ensures (forall t :: !MidPoll(At(s, t)) && At(s, t) != Holding) && s.ready == {} ==> s.wakers == []
  {
    AtomicPollsRegisterWhileLocked(START, steps, s);
    RunKeepsNoLostWakeup(START, steps, s);
    RunKeepsExclusive(START, steps, s);
  }

  lemma {:induction false} RunsCat(s: State, a: seq<Step>, m: State, b: seq<Step>, s': State)
    requires Runs(s, a, m) && Runs(m, b, s')
    ensures Runs(s, a + b, s')
    decreases |a|
  {
    if a == [] {
      assert a + b == b;
    } else {
      RunsCat(Apply(s, a[0]), a[1..], m, b, s');
      assert (a + b)[1..] == a[1..] + b;
    }
  }

  /** Two steps in a row. */
  lemma TwoSteps(s: State, x: Step, y: Step)
    requires Enabled(s, x) && Enabled(Apply(s, x), y)
    ensures Runs(s, [x, y], Apply(Apply(s, x), y))
  {
    assert [x, y][1..] == [y] && [y][1..] == [];
    assert Runs(Apply(Apply(s, x), y), [], Apply(Apply(s, x), y));
    assert Runs(Apply(s, x), [y], Apply(Apply(s, x), y));
  }

  lemma ThreeSteps(s: State, x: Step, y: Step, z: Step)
    requires Enabled(s, x) && Enabled(Apply(s, x), y) && Enabled(Apply(Apply(s, x), y), z)
    ensures Runs(s, [x, y, z], Apply(Apply(Apply(s, x), y), z))
  {
    TwoSteps(Apply(s, x), y, z);
    assert [x, y, z][1..] == [y, z];
  }

  /** A release that falls between a waiter's load and its registration. */
  function LossyRun(holder: Task, waiter: Task): seq<Step> {
    [Begin(waiter, Async), Go(waiter, false)] + [Go(holder, false), Go(holder, false)] + [Go(waiter, false)]
  }

  function LossyEnd(s: State, holder: Task, waiter: Task): State {
    State(false, [waiter], s.ready,
          s.at[waiter := LockerLoad][waiter := LockerRegister][holder := Notify][holder := Idle][waiter := Parked])
  }

  /** Atomicity is needed: from any state where one task holds the lock and nothing else is going on, a
      release between another task's load and its registration leaves that task parked on a free lock
      with nobody to wake it. */
  lemma InterleavedPollLosesWakeup(s: State, holder: Task, waiter: Task)
    requires Exclusive(s) && Accounted(s) && At(s, holder) == Holding && At(s, waiter) == Idle
    requires s.wakers == [] && forall t :: !Helps(s, t)
    ensures Runs(s, LossyRun(holder, waiter), LossyEnd(s, holder, waiter))
    ensures !NoLostWakeup(LossyEnd(s, holder, waiter))
  {
    var seen := Apply(Apply(s, Begin(waiter, Async)), Go(waiter, false));
    TwoSteps(s, Begin(waiter, Async), Go(waiter, false));
    var released := Apply(Apply(seen, Go(holder, false)), Go(holder, false));
    TwoSteps(seen, Go(holder, false), Go(holder, false));
    var end := Apply(released, Go(waiter, false));
    assert [Go(waiter, false)][1..] == [];
    assert Runs(released, [Go(waiter, false)], end);
    RunsCat(s, [Begin(waiter, Async), Go(waiter, false)], seen, [Go(holder, false), Go(holder, false)], released);
    RunsCat(s, [Begin(waiter, Async), Go(waiter, false)] + [Go(holder, false), Go(holder, false)], released, [Go(waiter, false)], end);
    assert end == LossyEnd(s, holder, waiter);
    forall t ensures !Helps(end, t) {
      assert !Helps(s, t);
      assert t != holder && t != waiter ==> At(end, t) == At(s, t);
    }
  }

  /** One task takes the lock. */
  function TakingRun(holder: Task): seq<Step> {
    [Begin(holder, Once), Go(holder, false), Go(holder, false)]
  }

  /** Such a run from the start: the waiter is parked for good, on a free lock. */
  lemma WakeupLostFromStart(holder: Task, waiter: Task) returns (s: State)
    requires holder != waiter
    ensures Runs(START, TakingRun(holder) + LossyRun(holder, waiter), s)
    ensures !NoLostWakeup(s) && Dead(s) && s.wakers == [waiter]
  {
    var take := TakingRun(holder);
    var held := Apply(Apply(Apply(START, take[0]), take[1]), take[2]);
    ThreeSteps(START, take[0], take[1], take[2]);
    RunKeepsExclusive(START, take, held);
    forall t ensures !Helps(held, t) {
      assert t != holder ==> At(held, t) == Idle;
    }
    InterleavedPollLosesWakeup(held, holder, waiter);
    s := LossyEnd(held, holder, waiter);
    RunsCat(START, take, held, LossyRun(holder, waiter), s);
    forall t ensures At(s, t) == Idle || At(s, t) == Parked {
      assert t != holder && t != waiter ==> At(held, t) == Idle && At(s, t) == Idle;
    }
  }

  // ---------------------------------------------------------------- whose turn it is

  /** The waker a step pushes, if any. */
  function PushedBy(s: State, step: Step): seq<Task> {
    if step.Go? && At(s, step.task) == LockerRegister then [step.task] else []
  }

  /** The waker a step fires, if any. */
  function FiredBy(s: State, step: Step): seq<Task> {
    if step.Go? && At(s, step.task) == Notify then s.wakers[..if s.wakers == [] then 0 else 1] else []
  }

  /** The tasks whose wakers a run pushes, in order. */
  function Pushed(s: State, steps: seq<Step>): seq<Task>
    decreases |steps|
  {
    if steps == [] || !Enabled(s, steps[0]) then []
    else PushedBy(s, steps[0]) + Pushed(Apply(s, steps[0]), steps[1..])
  }

  /** The tasks whose wakers a run fires, in order. */
  function Fired(s: State, steps: seq<Step>): seq<Task>
    decreases |steps|
  {
    if steps == [] || !Enabled(s, steps[0]) then []
    else FiredBy(s, steps[0]) + Fired(Apply(s, steps[0]), steps[1..])
  }

  lemma StepFiresInOrder(s: State, step: Step)
    requires Enabled(s, step)
    ensures s.wakers + PushedBy(s, step) == FiredBy(s, step) + Apply(s, step).wakers
  {
  }

  /** Wakers are fired in the order in which they were pushed, each once, on every run. */
  lemma {:induction false} WakersFiredInOrder(s: State, steps: seq<Step>, s': State)
    requires Runs(s, steps, s')
    ensures s.wakers + Pushed(s, steps) == Fired(s, steps) + s'.wakers
    decreases |steps|
  {
    if steps != [] {
      var next, rest := Apply(s, steps[0]), steps[1..];
      WakersFiredInOrder(next, rest, s');
      StepFiresInOrder(s, steps[0]);
      CatAssociative(s.wakers, PushedBy(s, steps[0]), Pushed(next, rest));
      CatAssociative(FiredBy(s, steps[0]), next.wakers, Pushed(next, rest));
      CatAssociative(FiredBy(s, steps[0]), Fired(next, rest), s'.wakers);
    }
  }

  /** The step takes the lock. */
  predicate Takes(s: State, step: Step) {
    step.Go? && At(s, step.task).TryExchange? && !s.locked && !step.spurious
  }

  ghost predicate NobodyTakes(s: State, steps: seq<Step>)
    decreases |steps|
  {
    steps != [] ==> Enabled(s, steps[0]) && !Takes(s, steps[0]) && NobodyTakes(Apply(s, steps[0]), steps[1..])
  }

  /** The first step of the run that takes the lock is one of task `w`. */
  ghost predicate TakesFirst(s: State, steps: seq<Step>, w: Task)
    decreases |steps|
  {
    && steps != [] && Enabled(s, steps[0])
    && if Takes(s, steps[0]) then steps[0].task == w else TakesFirst(Apply(s, steps[0]), steps[1..], w)
  }

  function Turns(steps: seq<Step>, w: Task): nat {
    if steps == [] then 0 else (if steps[0].task == w then 1 else 0) + Turns(steps[1..], w)
  }

  /** How many steps a waiter is from having tried the lock. */
  function Distance(p: Position): nat {
    match p
    case Parked => 4
    case LockerLoad => 3
    case TryLoad(Async) => 2
    case TryExchange(Async) => 1
    case _ => 0
  }

  lemma {:induction false} LastTurn(steps: seq<Step>, w: Task)
    requires steps != [] && steps[|steps| - 1].task == w
    ensures Turns(steps, w) >= 1
  {
    if |steps| > 1 {
      assert steps[1..][|steps| - 2] == steps[|steps| - 1];
      LastTurn(steps[1..], w);
    }
  }

  lemma {:induction false} TurnKeptFrom(s: State, steps: seq<Step>, s': State, w: Task)
    requires !s.locked && Runs(s, steps, s') && Turns(steps, w) == Distance(At(s, w)) > 0
    requires steps != [] && steps[|steps| - 1].Go? && steps[|steps| - 1].task == w
    ensures TakesFirst(s, steps, w) <==> NobodyTakes(s, steps[..|steps| - 1]) && !steps[|steps| - 1].spurious
    decreases |steps|
  {
    var next, rest := Apply(s, steps[0]), steps[1..];
    if |steps| == 1 {
      assert rest == [];
    } else {
      assert rest[|rest| - 1] == steps[|steps| - 1];
      LastTurn(rest, w);
      assert steps[..|steps| - 1][1..] == rest[..|rest| - 1];
      if !Takes(s, steps[0]) {
        TurnKeptFrom(next, rest, s', w);
      }
    }
  }

  /** When a waiter keeps its turn. From the state a release's store leaves, and however the other tasks
      run meanwhile, the waiter's first attempt, its next four steps, makes it the next to hold the lock
      if and only if nobody takes the lock before its exchange and that exchange does not fail. */
  lemma TurnKeptIff(s: State, steps: seq<Step>, s': State, w: Task)
    requires !s.locked && At(s, w) == Parked && Runs(s, steps, s') && Turns(steps, w) == 4
    requires steps[|steps| - 1].Go? && steps[|steps| - 1].task == w
    ensures TakesFirst(s, steps, w) <==> NobodyTakes(s, steps[..|steps| - 1]) && !steps[|steps| - 1].spurious
  {
    TurnKeptFrom(s, steps, s', w);
  }

  /** A run in which polls are atomic between tasks. */
  ghost predicate AtomicRun(s: State, steps: seq<Step>, s': State) {
    Runs(s, steps, s') && AtomicPolls(s, steps)
  }

  lemma {:induction false} AtomicRunsCat(s: State, a: seq<Step>, m: State, b: seq<Step>, s': State)
    requires AtomicRun(s, a, m) && AtomicRun(m, b, s')
    ensures AtomicRun(s, a + b, s')
    decreases |a|
  {
    if a == [] {
      assert a + b == b;
    } else {
      AtomicRunsCat(Apply(s, a[0]), a[1..], m, b, s');
      assert (a + b)[1..] == a[1..] + b;
    }
  }

  /** Steps of one task while nobody else is in the middle of a poll. */
  lemma {:induction false} OwnSteps(s: State, steps: seq<Step>, s': State, t: Task)
    requires Runs(s, steps, s') && (forall i :: 0 <= i < |steps| ==> steps[i].task == t)
    requires forall u :: u != t ==> !MidPoll(At(s, u))
    ensures AtomicRun(s, steps, s') && forall u :: u != t ==> At(s', u) == At(s, u)
    decreases |steps|
  {
    if steps != [] {
      var next := Apply(s, steps[0]);
      assert forall u :: u != t ==> At(next, u) == At(s, u);
      OwnSteps(next, steps[1..], s', t);
    }
  }

  /** A release, then a task that had not been waiting, then a poll of the woken waiter. */
  function OvertakingRun(holder: Task, other: Task, waiter: Task): seq<Step> {
    [Go(holder, false), Go(holder, false)]
    + [Begin(other, Once), Go(other, false), Go(other, false)]
    + [Go(waiter, false), Go(waiter, false), Go(waiter, false)]
  }

  /** The lock is not fair: even with polls atomic between tasks, a task that had not been waiting can
      take the lock after a release, and then the longest waiter goes to the back of the list. */
  lemma WaiterOvertaken(s: State, holder: Task, other: Task) returns (s': State)
    requires Exclusive(s) && Accounted(s) && At(s, holder) == Holding && s.wakers != []
    requires At(s, other) == Idle && forall t :: !MidPoll(At(s, t))
    ensures AtomicRun(s, OvertakingRun(holder, other, s.wakers[0]), s')
    ensures At(s', other) == Holding && s'.wakers == s.wakers[1..] + [s.wakers[0]]
  {
    var w := s.wakers[0];
    assert w in s.wakers;
    var release := [Go(holder, false), Go(holder, false)];
    var attempt := [Begin(other, Once), Go(other, false), Go(other, false)];
    var poll := [Go(w, false), Go(w, false), Go(w, false)];
    var freed := Apply(Apply(s, release[0]), release[1]);
    TwoSteps(s, release[0], release[1]);
    OwnSteps(s, release, freed, holder);
    var taken := Apply(Apply(Apply(freed, attempt[0]), attempt[1]), attempt[2]);
    ThreeSteps(freed, attempt[0], attempt[1], attempt[2]);
    OwnSteps(freed, attempt, taken, other);
    s' := Apply(Apply(Apply(taken, poll[0]), poll[1]), poll[2]);
    ThreeSteps(taken, poll[0], poll[1], poll[2]);
    OwnSteps(taken, poll, s', w);
    AtomicRunsCat(s, release, freed, attempt, taken);
    AtomicRunsCat(s, release + attempt, taken, poll, s');
  }

  /** One task takes the lock, then two queue behind it. */
  function QueueRun(holder: Task, first: Task, second: Task): seq<Step> {
    TakingRun(holder)
    + [Begin(first, Async), Go(first, false), Go(first, false)]
    + [Begin(second, Async), Go(second, false), Go(second, false)]
  }

  lemma TwoWaitersQueue(holder: Task, first: Task, second: Task) returns (s: State)
    requires Distinct([holder, first, second])
    ensures AtomicRun(START, QueueRun(holder, first, second), s)
    ensures At(s, holder) == Holding && s.wakers == [first, second] && forall t :: !MidPoll(At(s, t))
    ensures forall t :: t != holder && t != first && t != second ==> At(s, t) == Idle
  {
    var tasks := [holder, first, second];
    assert tasks[0] != tasks[1] && tasks[1] != tasks[2] && tasks[0] != tasks[2];
    var a := TakingRun(holder);
    var b := [Begin(first, Async), Go(first, false), Go(first, false)];
    var c := [Begin(second, Async), Go(second, false), Go(second, false)];
    var held := Apply(Apply(Apply(START, a[0]), a[1]), a[2]);
    ThreeSteps(START, a[0], a[1], a[2]);
    OwnSteps(START, a, held, holder);
    var one := Apply(Apply(Apply(held, b[0]), b[1]), b[2]);
    ThreeSteps(held, b[0], b[1], b[2]);
    OwnSteps(held, b, one, first);
    s := Apply(Apply(Apply(one, c[0]), c[1]), c[2]);
    ThreeSteps(one, c[0], c[1], c[2]);
    OwnSteps(one, c, s, second);
    AtomicRunsCat(START, a, held, b, one);
    AtomicRunsCat(START, a + b, one, c, s);
  }

  /** Such a run from the start: the list `[first, second]` becomes `[second, first]`, and a task that
      never waited holds the lock. */
  lemma OrderOfArrivalLost(holder: Task, first: Task, second: Task, other: Task) returns (s: State)
    requires Distinct([holder, first, second, other])
    ensures AtomicRun(START, QueueRun(holder, first, second) + OvertakingRun(holder, other, first), s)
    ensures At(s, other) == Holding && s.wakers == [second, first]
  {
    var tasks := [holder, first, second, other];
    assert tasks[0] != tasks[3] && tasks[1] != tasks[3] && tasks[2] != tasks[3];
    assert [holder, first, second] == tasks[..3];
    var queued := TwoWaitersQueue(holder, first, second);
    RunKeepsExclusive(START, QueueRun(holder, first, second), queued);
    s := WaiterOvertaken(queued, holder, other);
    AtomicRunsCat(START, QueueRun(holder, first, second), queued, OvertakingRun(holder, other, first), s);
  }

  // ---------------------------------------------------------------- progress

  /** The steps by which a release reaches the longest waiter: the store, the notification, and one
      poll of the woken task. */
  function HandOver(holder: Task, waiter: Task): seq<Step> {
    [Go(holder, false), Go(holder, false)] + [Go(waiter, false), Go(waiter, false)] + [Go(waiter, false), Go(waiter, false)]
  }

  /** A release can always hand the lock to the task that has waited longest: if the other tasks take no
      step meanwhile and the exchange does not fail, it does. */
  lemma UncontendedHandOver(s: State, holder: Task) returns (s': State)
    requires Exclusive(s) && Accounted(s) && At(s, holder) == Holding && s.wakers != []
    ensures Runs(s, HandOver(holder, s.wakers[0]), s')
    ensures s'.locked && At(s', s.wakers[0]) == Holding && At(s', holder) == Idle
    ensures s'.wakers == s.wakers[1..] && s'.ready == s.ready
    ensures forall t :: t != holder && t != s.wakers[0] ==> At(s', t) == At(s, t)
    ensures Exclusive(s') && Accounted(s')
  {
    var w := s.wakers[0];
    assert w in s.wakers;
    var freed := Apply(Apply(s, Go(holder, false)), Go(holder, false));
    TwoSteps(s, Go(holder, false), Go(holder, false));
    var polled := Apply(Apply(freed, Go(w, false)), Go(w, false));
    TwoSteps(freed, Go(w, false), Go(w, false));
    s' := Apply(Apply(polled, Go(w, false)), Go(w, false));
    TwoSteps(polled, Go(w, false), Go(w, false));
    RunsCat(s, [Go(holder, false), Go(holder, false)], freed, [Go(w, false), Go(w, false)], polled);
    RunsCat(s, [Go(holder, false), Go(holder, false)] + [Go(w, false), Go(w, false)], polled, [Go(w, false), Go(w, false)], s');
    RunKeepsExclusive(s, HandOver(holder, w), s');
    assert s'.ready == s.ready;
  }

  /** Passing the lock down the whole list, with no other task running. */
  function ServeAll(holder: Task, wakers: seq<Task>): seq<Step>
    decreases |wakers|
  {
    if wakers == [] then [] else HandOver(holder, wakers[0]) + ServeAll(wakers[0], wakers[1..])
  }

  /** From every state with a guard there is a schedule that serves the whole list in order: nobody on it
      is stuck. */
  lemma {:induction false} ListCanBeServed(s: State, holder: Task) returns (s': State)
    requires Exclusive(s) && Accounted(s) && At(s, holder) == Holding
    ensures Runs(s, ServeAll(holder, s.wakers), s')
    ensures s'.wakers == [] && s'.ready == s.ready
    ensures At(s', if s.wakers == [] then holder else s.wakers[|s.wakers| - 1]) == Holding
    ensures forall t :: t in s.wakers && t != s.wakers[|s.wakers| - 1] ==> At(s', t) == Idle
    ensures s.wakers != [] ==> At(s', holder) == Idle
    ensures forall t :: t !in s.wakers && t != holder ==> At(s', t) == At(s, t)
    decreases |s.wakers|
  {
    s' := s;
    if s.wakers != [] {
      var w := s.wakers[0];
      var next := UncontendedHandOver(s, holder);
      assert s.wakers == [w] + next.wakers && holder !in s.wakers;
      s' := ListCanBeServed(next, w);
      RunsCat(s, HandOver(holder, w), next, ServeAll(w, next.wakers), s');
    }
  }
}
