/** The task executor together with the keyboard task and its interrupt, as one machine of atomic
    steps. Interrupt handlers run between any two steps while interrupts are enabled. */
module Executor {
  import opened Options
  import opened Sequences

  type TaskId = nat

  type Scancode = c: nat | c < 256

  const QUEUE_CAPACITY: nat := 100

  /** What the processor does next. `Lookup` to `Polling` are inside `run_ready_tasks`, the `Keyboard`
      positions are inside `poll_next` of the keyboard task, and the last four are `sleep_if_idle`. */
  datatype Cpu =
    | Boot
    | DrainPop
    | DrainInsert(id: TaskId)
    | DrainPush(id: TaskId)
    | ReadyPop
    | Lookup(id: TaskId)
    | KeyboardInit
    | KeyboardPop
    | KeyboardRegister
    | KeyboardPopAgain
    | KeyboardTake
    | Polling(id: TaskId)
    | Disable
    | Check
    | Enable
    | Halted

  /** `created` are tasks built but not yet spawned, `completed` those that finished; `woken` are the
      tasks whose waker fired, or that were inserted, since their last poll began; `accepted` and
      `delivered` record the scancodes that entered and left the queue. */
  datatype State = State(
    cpu: Cpu,
    interruptsOn: bool,
    taskQueue: seq<TaskId>,
    spawnQueue: seq<TaskId>,
    mapped: set<TaskId>,
    nextId: nat,
    created: set<TaskId>,
    completed: set<TaskId>,
    woken: set<TaskId>,
    keyboard: Option<TaskId>,
    scancodes: Option<seq<Scancode>>,
    waker: Option<TaskId>,
    accepted: seq<Scancode>,
    delivered: seq<Scancode>)

  const START: State :=
    State(Boot, true, [], [], {}, 0, {}, {}, {}, None, None, None, [], [])

  /** `Run` is the next step of the processor; the others say what an interrupt, or the code of a task
      other than the keyboard's, chooses to do. */
  datatype Step =
    | Run
    | Create(forKeyboard: bool)
    | Spawn(id: TaskId)
    | Wake(ids: seq<TaskId>)
    | Finish(ready: bool)
    | StartRun
    | KeyboardInterrupt(code: Scancode)
    | OtherInterrupt(ids: seq<TaskId>)

  /** Code that may create, spawn and wake tasks: the kernel before `run`, and the body of a task. */
  predicate TaskCode(s: State) {
    s.cpu.Boot? || s.cpu.Polling?
  }

  predicate Enabled(s: State, step: Step) {
    match step
    case Run => !TaskCode(s) && !s.cpu.Halted?
    case Create(forKeyboard) => TaskCode(s) && (forKeyboard ==> s.keyboard.None?)
    case Spawn(id) => TaskCode(s) && id in s.created
    case Wake(ids) => s.cpu.Polling?
    case Finish(ready) => s.cpu.Polling?
    case StartRun => s.cpu.Boot?
    case KeyboardInterrupt(code) => s.interruptsOn
    case OtherInterrupt(ids) => s.interruptsOn
  }

  function Fire(s: State, ids: seq<TaskId>): State {
    s.(taskQueue := s.taskQueue + ids, woken := s.woken + set id | id in ids)
  }

  /** An interrupt ends a halt; the executor then begins its loop again. */
  function Resume(s: State): State {
    if s.cpu.Halted? then s.(cpu := DrainPop) else s
  }

  /** `add_scancode`. */
  function AddScancode(s: State, code: Scancode): State {
    match s.scancodes
    case None => s
    case Some(queue) =>
      if |queue| >= QUEUE_CAPACITY then s
      else
        var pushed := s.(scancodes := Some(queue + [code]), accepted := s.accepted + [code]);
        match s.waker
        case None => pushed
        case Some(id) => Fire(pushed.(waker := None), [id])
  }

  function PopScancode(s: State, ifSome: Cpu, ifNone: Cpu): State {
    match s.scancodes
    case Some(queue) =>
      if queue == [] then s.(cpu := ifNone)
      else s.(cpu := ifSome, scancodes := Some(queue[1..]), delivered := s.delivered + [queue[0]])
    case None => s.(cpu := ifNone)
  }

  function RunStep(s: State): State
    requires Enabled(s, Run)
  {
    match s.cpu
    case DrainPop =>
      if s.spawnQueue == [] then s.(cpu := ReadyPop)
      else s.(cpu := DrainInsert(s.spawnQueue[0]), spawnQueue := s.spawnQueue[1..])
    case DrainInsert(id) => s.(cpu := DrainPush(id), mapped := s.mapped + {id}, woken := s.woken + {id})
    case DrainPush(id) => s.(cpu := DrainPop, taskQueue := s.taskQueue + [id])
    case ReadyPop =>
      if s.taskQueue == [] then s.(cpu := Disable)
      else s.(cpu := Lookup(s.taskQueue[0]), taskQueue := s.taskQueue[1..])
    case Lookup(id) =>
      if id !in s.mapped then s.(cpu := ReadyPop)
      else s.(woken := s.woken - {id},
              cpu := if s.keyboard != Some(id) then Polling(id)
                     else if s.scancodes.None? then KeyboardInit else KeyboardPop)
    case KeyboardInit => s.(cpu := KeyboardPop, scancodes := Some([]))
    case KeyboardPop => PopScancode(s, KeyboardPop, KeyboardRegister)
    case KeyboardRegister => s.(cpu := KeyboardPopAgain, waker := s.keyboard)
    case KeyboardPopAgain => PopScancode(s, KeyboardTake, ReadyPop)
    case KeyboardTake => s.(cpu := KeyboardPop, waker := None)
    case Disable => s.(cpu := Check, interruptsOn := false)
    case Check => if s.taskQueue == [] then s.(cpu := Halted, interruptsOn := true) else s.(cpu := Enable)
    case Enable => s.(cpu := DrainPop, interruptsOn := true)
  }

  function Apply(s: State, step: Step): State
    requires Enabled(s, step)
  {
    match step
    case Run => RunStep(s)
    case Create(forKeyboard) =>
      s.(nextId := s.nextId + 1, created := s.created + {s.nextId},
         keyboard := if forKeyboard then Some(s.nextId) else s.keyboard)
    case Spawn(id) => s.(created := s.created - {id}, spawnQueue := s.spawnQueue + [id])
    case Wake(ids) => Fire(s, ids)
    case Finish(ready) =>
      if ready then s.(cpu := ReadyPop, mapped := s.mapped - {s.cpu.id}, completed := s.completed + {s.cpu.id})
      else s.(cpu := ReadyPop)
    case StartRun => s.(cpu := DrainPop)
    case KeyboardInterrupt(code) => Resume(AddScancode(s, code))
    case OtherInterrupt(ids) => Resume(Fire(s, ids))
  }

  predicate Runs(s: State, steps: seq<Step>, s': State)
    decreases |steps|
  {
    if steps == [] then s' == s
    else Enabled(s, steps[0]) && Runs(Apply(s, steps[0]), steps[1..], s')
  }

  // ---------------------------------------------------------------- what every step keeps

  /** Interrupts are off exactly between `disable` and the end of `sleep_if_idle`, and the processor
      halts only with an empty task queue. */
  predicate InterruptsOk(s: State) {
    && s.interruptsOn == !(s.cpu.Check? || s.cpu.Enable?)
    && (s.cpu.Halted? ==> s.taskQueue == [])
  }

  /** Built, but neither spawned into the map nor finished. */
  predicate Waiting(s: State, id: TaskId) {
    id < s.nextId && id !in s.mapped && id !in s.completed
  }

  /** The stages of a task's life do not overlap. */
  predicate StagesOk(s: State) {
    && Distinct(s.spawnQueue)
    && (forall id :: id in s.spawnQueue ==> Waiting(s, id) && id !in s.created)
    && (forall id :: id in s.created ==> Waiting(s, id))
    && (forall id :: id in s.mapped ==> id < s.nextId && id !in s.completed)
    && (forall id :: id in s.completed ==> id < s.nextId)
    && (s.cpu.DrainInsert? ==> Waiting(s, s.cpu.id) && s.cpu.id !in s.spawnQueue && s.cpu.id !in s.created)
    && (s.cpu.DrainPush? || s.cpu.Polling? ==> s.cpu.id in s.mapped)
    && (s.keyboard.Some? ==> s.keyboard.value < s.nextId && s.keyboard.value !in s.completed)
    && (s.cpu.Polling? ==> s.keyboard != Some(s.cpu.id))
  }

  /** A woken task is about to be found: queued, or the one the executor has in hand. */
  predicate Findable(s: State, id: TaskId) {
    id in s.taskQueue || s.cpu == Lookup(id) || s.cpu == DrainPush(id)
  }

  predicate WokenOk(s: State) {
    forall id :: id in s.woken && id in s.mapped ==> Findable(s, id)
  }

  predicate InKeyboardPoll(s: State) {
    s.cpu.KeyboardInit? || s.cpu.KeyboardPop? || s.cpu.KeyboardRegister? || s.cpu.KeyboardPopAgain? || s.cpu.KeyboardTake?
  }

  /** The keyboard task cannot be asleep on a queue that holds something. */
  predicate KeyboardOk(s: State) {
    && (InKeyboardPoll(s) ==> s.keyboard.Some? && s.keyboard.value in s.mapped)
    && (InKeyboardPoll(s) ==> s.scancodes.Some? == !s.cpu.KeyboardInit?)
    && (s.scancodes.Some? ==> s.keyboard.Some? && s.keyboard.value in s.mapped)
    && (s.waker.Some? ==> s.waker == s.keyboard && s.scancodes.Some?)
    && (s.cpu.KeyboardPopAgain? ==> s.waker == s.keyboard || s.keyboard.value in s.taskQueue)
    && (s.scancodes.Some? && !InKeyboardPoll(s) ==>
          Findable(s, s.keyboard.value) || (s.scancodes == Some([]) && s.waker == s.keyboard))
  }

  /** What left the queue, followed by what is in it, is what entered it. */
  predicate StreamOk(s: State) {
    && s.accepted == s.delivered + (if s.scancodes.Some? then s.scancodes.value else [])
    && (s.scancodes.Some? ==> |s.scancodes.value| <= QUEUE_CAPACITY)
  }

  predicate Inv(s: State) {
    InterruptsOk(s) && StagesOk(s) && WokenOk(s) && KeyboardOk(s) && StreamOk(s)
  }

  lemma StepKeepsInterrupts(s: State, step: Step)
    requires InterruptsOk(s) && Enabled(s, step)
    ensures InterruptsOk(Apply(s, step))
  {
  }

  lemma DistinctTail(s: seq<TaskId>)
    requires Distinct(s) && s != []
    ensures Distinct(s[1..]) && s[0] !in s[1..]
    ensures forall id :: id in s[1..] ==> id in s
  {
    forall i | 0 <= i < |s[1..]| ensures s[1..][i] != s[0] {
      assert s[1..][i] == s[i + 1];
    }
  }

  /** The positions at which a step changes none of the sets of tasks. */
  lemma QuietStepKeepsStages(s: State, s': State)
    requires StagesOk(s)
    requires s'.spawnQueue == s.spawnQueue && s'.mapped == s.mapped && s'.created == s.created
    requires s'.completed == s.completed && s'.nextId == s.nextId && s'.keyboard == s.keyboard
    requires s'.cpu == s.cpu || !(s'.cpu.DrainInsert? || s'.cpu.DrainPush? || s'.cpu.Polling?)
             || (s'.cpu.Polling? && s'.cpu.id in s.mapped && s.keyboard != Some(s'.cpu.id))
    ensures StagesOk(s')
  {
  }

  lemma RunStepKeepsStages(s: State)
    requires StagesOk(s) && Enabled(s, Run)
    ensures StagesOk(RunStep(s))
  {
    if s.cpu.DrainPop? {
      if s.spawnQueue != [] {
        DistinctTail(s.spawnQueue);
        assert s.spawnQueue[0] in s.spawnQueue;
      }
    } else if !s.cpu.DrainInsert? && !s.cpu.DrainPush? {
      QuietStepKeepsStages(s, RunStep(s));
    }
  }

  lemma CreateKeepsStages(s: State, forKeyboard: bool)
    requires StagesOk(s) && Enabled(s, Create(forKeyboard))
    ensures StagesOk(Apply(s, Create(forKeyboard)))
  {
  }

  lemma SpawnKeepsStages(s: State, id: TaskId)
    requires StagesOk(s) && Enabled(s, Spawn(id))
    ensures StagesOk(Apply(s, Spawn(id)))
  {
  }

  lemma FinishKeepsStages(s: State, ready: bool)
    requires StagesOk(s) && Enabled(s, Finish(ready))
    ensures StagesOk(Apply(s, Finish(ready)))
  {
  }

  lemma StepKeepsStages(s: State, step: Step)
    requires StagesOk(s) && Enabled(s, step)
    ensures StagesOk(Apply(s, step))
  {
    match step {
      case Run => RunStepKeepsStages(s);
      case Create(forKeyboard) => CreateKeepsStages(s, forKeyboard);
      case Spawn(id) => SpawnKeepsStages(s, id);
      case Finish(ready) => FinishKeepsStages(s, ready);
      case _ => QuietStepKeepsStages(s, Apply(s, step));
    }
  }

  lemma FireKeepsFindable(s: State, ids: seq<TaskId>, id: TaskId)
    requires Findable(s, id) || id in ids
    ensures Findable(Fire(s, ids), id)
  {
  }

  lemma FireKeepsWoken(s: State, ids: seq<TaskId>)
    requires WokenOk(s)
    ensures WokenOk(Fire(s, ids))
  {
    forall id | id in Fire(s, ids).woken && id in s.mapped ensures Findable(Fire(s, ids), id) {
      FireKeepsFindable(s, ids, id);
    }
  }

  lemma PopKeepsFindable(s: State, id: TaskId)
    requires s.cpu.ReadyPop? && s.taskQueue != [] && Findable(s, id)
    ensures Findable(RunStep(s), id)
  {
    assert s.taskQueue == [s.taskQueue[0]] + s.taskQueue[1..];
  }

  lemma RunStepKeepsWoken(s: State)
    requires StagesOk(s) && WokenOk(s) && Enabled(s, Run)
    ensures WokenOk(RunStep(s))
  {
    var s' := RunStep(s);
    forall id | id in s'.woken && id in s'.mapped ensures Findable(s', id) {
      if s.cpu.ReadyPop? && s.taskQueue != [] {
        PopKeepsFindable(s, id);
      }
    }
  }

  lemma StepKeepsWoken(s: State, step: Step)
    requires StagesOk(s) && WokenOk(s) && Enabled(s, step)
    ensures WokenOk(Apply(s, step))
  {
    match step {
      case Run => RunStepKeepsWoken(s);
      case Wake(ids) => FireKeepsWoken(s, ids);
      case OtherInterrupt(ids) => FireKeepsWoken(s, ids);
      case KeyboardInterrupt(code) =>
        if s.waker.Some? {
          FireKeepsWoken(s, [s.waker.value]);
        }
      case _ =>
    }
  }

  lemma KeyboardStepKeepsKeyboard(s: State)
    requires StagesOk(s) && KeyboardOk(s) && InKeyboardPoll(s) && Enabled(s, Run)
    ensures KeyboardOk(RunStep(s))
  {
  }

  /** The steps that leave the keyboard's queue, waker and task alone. */
  lemma OtherStepKeepsKeyboard(s: State, s': State)
    requires KeyboardOk(s) && !InKeyboardPoll(s) && !InKeyboardPoll(s')
    requires s'.scancodes == s.scancodes && s'.waker == s.waker
    requires s.keyboard.Some? ==> s'.keyboard == s.keyboard
    requires s.scancodes.Some? ==> s.keyboard.value in s'.mapped
    requires s.scancodes.Some? && Findable(s, s.keyboard.value) ==> Findable(s', s.keyboard.value)
    ensures KeyboardOk(s')
  {
  }

  lemma RunStepKeepsKeyboard(s: State)
    requires StagesOk(s) && KeyboardOk(s) && Enabled(s, Run)
    ensures KeyboardOk(RunStep(s))
  {
    if InKeyboardPoll(s) {
      KeyboardStepKeepsKeyboard(s);
    } else if !InKeyboardPoll(RunStep(s)) {
      if s.scancodes.Some? && Findable(s, s.keyboard.value) && s.cpu.ReadyPop? {
        PopKeepsFindable(s, s.keyboard.value);
      }
      OtherStepKeepsKeyboard(s, RunStep(s));
    }
  }

  lemma FireKeepsKeyboard(s: State, ids: seq<TaskId>)
    requires KeyboardOk(s)
    ensures KeyboardOk(Fire(s, ids))
  {
    if s.keyboard.Some? && Findable(s, s.keyboard.value) {
      FireKeepsFindable(s, ids, s.keyboard.value);
    }
  }

  lemma ResumeKeepsKeyboard(s: State)
    requires KeyboardOk(s)
    ensures KeyboardOk(Resume(s))
  {
  }

  lemma AddScancodeKeepsKeyboard(s: State, code: Scancode)
    requires KeyboardOk(s)
    ensures KeyboardOk(AddScancode(s, code))
  {
    if s.scancodes.Some? && s.waker.Some? {
      FireKeepsFindable(s, [s.waker.value], s.waker.value);
    }
  }

  lemma StepKeepsKeyboard(s: State, step: Step)
    requires StagesOk(s) && KeyboardOk(s) && Enabled(s, step)
    ensures KeyboardOk(Apply(s, step))
  {
    match step {
      case Run => RunStepKeepsKeyboard(s);
      case Wake(ids) => FireKeepsKeyboard(s, ids);
      case OtherInterrupt(ids) =>
        FireKeepsKeyboard(s, ids);
        ResumeKeepsKeyboard(Fire(s, ids));
      case KeyboardInterrupt(code) =>
        AddScancodeKeepsKeyboard(s, code);
        ResumeKeepsKeyboard(AddScancode(s, code));
      case _ => OtherStepKeepsKeyboard(s, Apply(s, step));
    }
  }

  lemma PopKeepsStream(s: State, ifSome: Cpu, ifNone: Cpu)
    requires StreamOk(s)
    ensures StreamOk(PopScancode(s, ifSome, ifNone))
  {
    if s.scancodes.Some? && s.scancodes.value != [] {
      assert s.scancodes.value == [s.scancodes.value[0]] + s.scancodes.value[1..];
    }
  }

  lemma AddScancodeKeepsStream(s: State, code: Scancode)
    requires StreamOk(s)
    ensures StreamOk(AddScancode(s, code))
  {
    if s.scancodes.Some? {
      assert s.accepted + [code] == s.delivered + (s.scancodes.value + [code]);
    }
  }

  lemma StepKeepsStream(s: State, step: Step)
    requires StreamOk(s) && KeyboardOk(s) && Enabled(s, step)
    ensures StreamOk(Apply(s, step))
  {
    if step.KeyboardInterrupt? {
      AddScancodeKeepsStream(s, step.code);
    } else if step.Run? && s.cpu.KeyboardPop? {
      PopKeepsStream(s, KeyboardPop, KeyboardRegister);
    } else if step.Run? && s.cpu.KeyboardPopAgain? {
      PopKeepsStream(s, KeyboardTake, ReadyPop);
    }
  }

  lemma StepKeepsInv(s: State, step: Step)
    requires Inv(s) && Enabled(s, step)
    ensures Inv(Apply(s, step))
  {
    StepKeepsInterrupts(s, step);
    StepKeepsStages(s, step);
    StepKeepsWoken(s, step);
    StepKeepsKeyboard(s, step);
    StepKeepsStream(s, step);
  }

  lemma {:induction false} RunKeepsInv(s: State, steps: seq<Step>, s': State)
    requires Inv(s) && Runs(s, steps, s')
    ensures Inv(s')
    decreases |steps|
  {
    if steps != [] {
      StepKeepsInv(s, steps[0]);
      RunKeepsInv(Apply(s, steps[0]), steps[1..], s');
    }
  }

  lemma ReachableInv(steps: seq<Step>, s: State)
    requires Runs(START, steps, s)
    ensures Inv(s)
  {
    RunKeepsInv(START, steps, s);
  }

  // ---------------------------------------------------------------- what holds on every run

  /** No wake-up is lost: whenever the processor is halted, no task in the map has been woken since
      its last poll began; in particular, once its queue exists, the keyboard task sleeps with its
      waker registered and the scancode queue empty. */
  lemma HaltedMeansIdle(steps: seq<Step>, s: State)
    requires Runs(START, steps, s) && s.cpu.Halted?
    ensures s.interruptsOn && s.taskQueue == []
    ensures forall id :: id in s.mapped ==> id !in s.woken
    ensures s.scancodes.Some? ==> s.scancodes == Some([]) && s.waker == s.keyboard && s.accepted == s.delivered
  {
    ReachableInv(steps, s);
  }

  /** The tasks spawned on a run since the spawn queue was last found empty. */
  function SpawnedSinceDrain(s: State, steps: seq<Step>, before: seq<TaskId>): seq<TaskId>
    decreases |steps|
  {
    if steps == [] || !Enabled(s, steps[0]) then before
    else
      var after :=
        if steps[0].Run? && s.cpu.DrainPop? && s.spawnQueue == [] then []
        else if steps[0].Spawn? then before + [steps[0].id]
        else before;
      SpawnedSinceDrain(Apply(s, steps[0]), steps[1..], after)
  }

  predicate Draining(s: State) {
    s.cpu.Boot? || s.cpu.DrainPop? || s.cpu.DrainInsert? || s.cpu.DrainPush?
  }

  lemma {:induction false} QueueIsSpawnedSince(s: State, steps: seq<Step>, s': State, before: seq<TaskId>)
    requires Runs(s, steps, s') && (Draining(s) || s.spawnQueue == before)
    ensures Draining(s') || s'.spawnQueue == SpawnedSinceDrain(s, steps, before)
    decreases |steps|
  {
    if steps != [] {
      var after :=
        if steps[0].Run? && s.cpu.DrainPop? && s.spawnQueue == [] then []
        else if steps[0].Spawn? then before + [steps[0].id]
        else before;
      QueueIsSpawnedSince(Apply(s, steps[0]), steps[1..], s', after);
    }
  }

  /** The idle check looks at the task queue only, so spawned tasks can wait through a halt: exactly those
      spawned since the executor last drained the spawn queue. */
  lemma HaltedSpawnsAreLate(steps: seq<Step>, s: State)
    requires Runs(START, steps, s) && s.cpu.Halted?
    ensures s.spawnQueue == SpawnedSinceDrain(START, steps, [])
  {
    QueueIsSpawnedSince(START, steps, s, []);
  }

  lemma {:induction false} RunsCat(s: State, a: seq<Step>, m: State, b: seq<Step>, s': State)
    requires Runs(s, a, m) && Runs(m, b, s')
    ensures Runs(s, a + b, s')
    decreases |a|
  {
    if a == [] {
      assert a + b == b;
    } else {
      RunsCat(Apply(s, a[0]), a[1..], m, b, s');
      assert (a + b)[1..] == a[1..] + b;
    }
  }

  lemma ThreeSteps(s: State, x: Step, m: State, y: Step, n: State, z: Step, s': State)
    requires Enabled(s, x) && m == Apply(s, x) && Enabled(m, y) && n == Apply(m, y) && Enabled(n, z) && s' == Apply(n, z)
    ensures Runs(s, [x, y, z], s')
  {
    assert [x, y, z][1..] == [y, z] && [y, z][1..] == [z] && [z][1..] == [];
    assert Runs(s', [], s');
    assert Runs(n, [z], s');
    assert Runs(m, [y, z], s');
  }

  /** A polled task that spawns another and goes back to waiting, with nothing else to do. */
  function SpawnAndWait(s: State): seq<Step> {
    [Create(false), Spawn(s.nextId), Finish(false)] + [Run, Run, Run]
  }

  /** It happens: the processor halts with the new task still in the spawn queue. */
  lemma HaltsWithSpawnWaiting(s: State) returns (s': State)
    requires s.cpu.Polling? && s.taskQueue == []
    ensures Runs(s, SpawnAndWait(s), s')
    ensures s'.cpu.Halted? && s'.spawnQueue == s.spawnQueue + [s.nextId]
  {
    var created := Apply(s, Create(false));
    var spawned := Apply(created, Spawn(s.nextId));
    var waiting := Apply(spawned, Finish(false));
    var off := RunStep(waiting);
    var checking := RunStep(off);
    s' := RunStep(checking);
    ThreeSteps(s, Create(false), created, Spawn(s.nextId), spawned, Finish(false), waiting);
    ThreeSteps(waiting, Run, off, Run, checking, Run, s');
    RunsCat(s, [Create(false), Spawn(s.nextId), Finish(false)], waiting, [Run, Run, Run], s');
  }

  /** The first task is created, spawned and polled. */
  function FirstPoll(): seq<Step> {
    [Create(false), Spawn(0), StartRun] + ([Run, Run, Run] + [Run, Run, Run])
  }

  function AtFirstPoll(): State {
    START.(cpu := Polling(0), mapped := {0}, nextId := 1)
  }

  lemma FirstPollReached()
    ensures Runs(START, FirstPoll(), AtFirstPoll())
  {
    var created := START.(nextId := 1, created := {0});
    var spawned := START.(nextId := 1, spawnQueue := [0]);
    var draining := spawned.(cpu := DrainPop);
    var inserting := START.(nextId := 1, cpu := DrainInsert(0));
    var pushing := START.(nextId := 1, cpu := DrainPush(0), mapped := {0}, woken := {0});
    var drained := pushing.(cpu := DrainPop, taskQueue := [0]);
    var ready := drained.(cpu := ReadyPop);
    var found := ready.(cpu := Lookup(0), taskQueue := []);
    ThreeSteps(START, Create(false), created, Spawn(0), spawned, StartRun, draining);
    ThreeSteps(draining, Run, inserting, Run, pushing, Run, drained);
    ThreeSteps(drained, Run, ready, Run, found, Run, AtFirstPoll());
    RunsCat(draining, [Run, Run, Run], drained, [Run, Run, Run], AtFirstPoll());
    RunsCat(START, [Create(false), Spawn(0), StartRun], draining, [Run, Run, Run] + [Run, Run, Run], AtFirstPoll());
  }

  /** Such a run from the start. */
  lemma SpawnWaitsThroughHalt() returns (s: State)
    ensures Runs(START, FirstPoll() + SpawnAndWait(AtFirstPoll()), s)
    ensures s.cpu.Halted? && s.spawnQueue == [1]
  {
    FirstPollReached();
    s := HaltsWithSpawnWaiting(AtFirstPoll());
    RunsCat(START, FirstPoll(), AtFirstPoll(), SpawnAndWait(AtFirstPoll()), s);
  }

  /** Scancodes leave the queue in the order they entered it, none lost and none twice; a keystroke is
      dropped only while the queue does not exist yet or holds a hundred others. */
  lemma ScancodesInOrder(steps: seq<Step>, s: State, code: Scancode)
    requires Runs(START, steps, s) && Enabled(s, KeyboardInterrupt(code))
    ensures s.delivered <= s.accepted
    ensures var s' := Apply(s, KeyboardInterrupt(code));
            && s'.delivered == s.delivered
            && s'.accepted == (if s.scancodes.Some? && |s.accepted| - |s.delivered| < 100
                               then s.accepted + [code] else s.accepted)
  {
    ReachableInv(steps, s);
  }

  lemma StagesApart(s: State)
    requires StagesOk(s)
    ensures s.mapped !! s.completed && s.mapped !! s.created && s.created !! s.completed
  {
    forall id | id in s.mapped ensures id !in s.completed && id !in s.created { }
    forall id | id in s.created ensures id !in s.completed { }
  }

  /** A task is in one stage at a time: an insertion never overwrites another task, and a completed
      task is never in the map, so never polled, again. */
  lemma TasksNotConfused(steps: seq<Step>, s: State)
    requires Runs(START, steps, s)
    ensures s.cpu.DrainInsert? ==> s.cpu.id !in s.mapped && s.cpu.id !in s.completed
    ensures s.mapped !! s.completed && s.mapped !! s.created && s.created !! s.completed
    ensures forall id :: id in s.spawnQueue ==> id !in s.mapped && id !in s.completed && id !in s.created
    ensures s.cpu.Polling? ==> s.cpu.id in s.mapped && s.cpu.id !in s.completed
    ensures forall id :: id in s.woken && id in s.mapped ==> Findable(s, id)
  {
    ReachableInv(steps, s);
    StagesApart(s);
  }

  lemma RunStepOnlyAdds(s: State)
    requires Enabled(s, Run)
    ensures RunStep(s).completed == s.completed && RunStep(s).nextId == s.nextId && RunStep(s).accepted == s.accepted
    ensures s.delivered <= RunStep(s).delivered
  {
  }

  lemma StepOnlyAdds(s: State, step: Step)
    requires Enabled(s, step)
    ensures var s' := Apply(s, step);
            s.completed <= s'.completed && s.nextId <= s'.nextId && s.accepted <= s'.accepted && s.delivered <= s'.delivered
  {
    if step.Run? {
      RunStepOnlyAdds(s);
    }
  }

  /** Completion is for ever. */
  lemma {:induction false} CompletedStays(s: State, steps: seq<Step>, s': State)
    requires Runs(s, steps, s')
    ensures s.completed <= s'.completed && s.nextId <= s'.nextId && s.accepted <= s'.accepted && s.delivered <= s'.delivered
    decreases |steps|
  {
    if steps != [] {
      StepOnlyAdds(s, steps[0]);
      CompletedStays(Apply(s, steps[0]), steps[1..], s');
    }
  }

  /** A task that returns ready is out of the map at once and is never polled again, however often it is
      woken; a task that returns pending stays and can be. */
  lemma FinishedNeverPolled(before: seq<Step>, s: State, steps: seq<Step>, s': State)
    requires Runs(START, before, s) && s.cpu.Polling? && Runs(Apply(s, Finish(true)), steps, s')
    ensures s.cpu.id in s'.completed && s.cpu.id !in s'.mapped
    ensures s'.cpu != Polling(s.cpu.id) && s.cpu.id !in s'.spawnQueue && s.cpu.id !in s'.created
    ensures Apply(s, Finish(true)).mapped == s.mapped - {s.cpu.id}
    ensures Apply(s, Finish(false)).mapped == s.mapped && Apply(s, Finish(false)).completed == s.completed
  {
    ReachableInv(before, s);
    FinishCompletes(s);
    StepKeepsInv(s, Finish(true));
    RunKeepsInv(Apply(s, Finish(true)), steps, s');
    CompletedStays(Apply(s, Finish(true)), steps, s');
    CompletedIsOut(s', s.cpu.id);
  }

  lemma FinishCompletes(s: State)
    requires s.cpu.Polling?
    ensures s.cpu.id in Apply(s, Finish(true)).completed
  {
  }

  lemma CompletedIsOut(s: State, id: TaskId)
    requires StagesOk(s) && id in s.completed
    ensures id !in s.mapped && s.cpu != Polling(id) && id !in s.spawnQueue && id !in s.created
  {
  }

  function FinishedBy(s: State, step: Step): seq<TaskId> {
    if step == Finish(true) && s.cpu.Polling? then [s.cpu.id] else []
  }

  /** The tasks whose poll returned ready on a run. */
  function AllFinished(s: State, steps: seq<Step>): seq<TaskId>
    decreases |steps|
  {
    if steps == [] || !Enabled(s, steps[0]) then []
    else FinishedBy(s, steps[0]) + AllFinished(Apply(s, steps[0]), steps[1..])
  }

  lemma StepCompletes(s: State, step: Step, id: TaskId)
    requires Enabled(s, step)
    ensures id in Apply(s, step).completed <==> id in s.completed || id in FinishedBy(s, step)
  {
  }

  /** The completed tasks are exactly those whose poll returned ready. */
  lemma {:induction false} CompletedAreFinished(s: State, steps: seq<Step>, s': State, id: TaskId)
    requires Runs(s, steps, s')
    ensures id in s'.completed <==> id in s.completed || id in AllFinished(s, steps)
    decreases |steps|
  {
    if steps != [] {
      StepCompletes(s, steps[0], id);
      CompletedAreFinished(Apply(s, steps[0]), steps[1..], s', id);
    }
  }

  predicate OnlyInterrupts(steps: seq<Step>) {
    forall i :: 0 <= i < |steps| ==> steps[i].KeyboardInterrupt? || steps[i].OtherInterrupt?
  }

  /** A keyboard task that is awake is not woken: once it has taken a scancode found at the second look,
      keystrokes queue no wake-up until it registers again. */
  lemma {:induction false} AwakeNotWoken(s: State, steps: seq<Step>, s': State, code: Scancode)
    requires s.waker.None? && !s.cpu.Halted? && Runs(s, steps, s') && OnlyInterrupts(steps)
    ensures s'.waker.None? && s'.cpu == s.cpu && AddScancode(s', code).taskQueue == s'.taskQueue
    decreases |steps|
  {
    if steps != [] {
      AwakeNotWoken(Apply(s, steps[0]), steps[1..], s', code);
    }
  }

  /** A scancode found at the second look, after registering, is delivered and the registration is undone,
      whatever interrupts come in between. */
  lemma SecondLookCancelsWaker(s: State, a: seq<Step>, taking: State, b: seq<Step>, s': State, code: Scancode)
    requires s.cpu.KeyboardPopAgain? && s.scancodes.Some? && s.scancodes.value != []
    requires Runs(Apply(s, Run), a, taking) && OnlyInterrupts(a)
    ensures Apply(s, Run).delivered == s.delivered + [s.scancodes.value[0]]
    ensures taking.cpu.KeyboardTake? && Enabled(taking, Run)
    ensures Runs(Apply(taking, Run), b, s') && OnlyInterrupts(b) ==>
              s'.waker.None? && s'.cpu.KeyboardPop? && AddScancode(s', code).taskQueue == s'.taskQueue
  {
    InterruptsKeepCpu(Apply(s, Run), a, taking);
    if Runs(Apply(taking, Run), b, s') && OnlyInterrupts(b) {
      AwakeNotWoken(Apply(taking, Run), b, s', code);
    }
  }

  lemma {:induction false} InterruptsKeepCpu(s: State, steps: seq<Step>, s': State)
    requires !s.cpu.Halted? && Runs(s, steps, s') && OnlyInterrupts(steps)
    ensures s'.cpu == s.cpu
    decreases |steps|
  {
    if steps != [] {
      InterruptsKeepCpu(Apply(s, steps[0]), steps[1..], s');
    }
  }

  /** A sleeping keyboard task is woken by the first accepted keystroke and by no later one. */
  lemma KeystrokeWakesOnce(s: State, first: Scancode, steps: seq<Step>, s': State, code: Scancode)
    requires s.waker.Some? && s.scancodes.Some? && |s.scancodes.value| < QUEUE_CAPACITY
    requires s.interruptsOn && Runs(Apply(s, KeyboardInterrupt(first)), steps, s') && OnlyInterrupts(steps)
    ensures Apply(s, KeyboardInterrupt(first)).taskQueue == s.taskQueue + [s.waker.value]
    ensures AddScancode(s', code).taskQueue == s'.taskQueue
  {
    AwakeNotWoken(Apply(s, KeyboardInterrupt(first)), steps, s', code);
  }

  /** A keyboard poll looks at the queue before it registers: a scancode that is there is delivered at once
      and the waker is left alone. */
  lemma FirstLookDelivers(before: seq<Step>, s: State)
    requires Runs(START, before, s) && s.cpu.Lookup? && s.keyboard == Some(s.cpu.id) && s.cpu.id in s.mapped
    requires s.scancodes.Some? && s.scancodes.value != []
    ensures Enabled(Apply(s, Run), Run)
    ensures var s' := Apply(Apply(s, Run), Run);
            s'.delivered == s.delivered + [s.scancodes.value[0]] && s'.waker == s.waker && s'.cpu.KeyboardPop?
  {
  }

  // ---------------------------------------------------------------- passes of the executor's loop

  /** Whether the spawn queue has been found empty since the last idle check, or since the start. */
  function DrainedSinceCheck(s: State, steps: seq<Step>, drained: bool): bool
    decreases |steps|
  {
    if steps == [] || !Enabled(s, steps[0]) then drained
    else
      var now :=
        if steps[0].Run? && s.cpu.Disable? then false
        else if steps[0].Run? && s.cpu.DrainPop? && s.spawnQueue == [] then true
        else drained;
      DrainedSinceCheck(Apply(s, steps[0]), steps[1..], now)
  }

  predicate BetweenChecks(s: State) {
    Draining(s) || s.cpu.Check? || s.cpu.Enable? || s.cpu.Halted?
  }

  lemma {:induction false} DrainedOrBetween(s: State, steps: seq<Step>, s': State, drained: bool)
    requires Runs(s, steps, s') && (drained || BetweenChecks(s))
    ensures DrainedSinceCheck(s, steps, drained) || BetweenChecks(s')
    decreases |steps|
  {
    if steps != [] {
      var now :=
        if steps[0].Run? && s.cpu.Disable? then false
        else if steps[0].Run? && s.cpu.DrainPop? && s.spawnQueue == [] then true
        else drained;
      DrainedOrBetween(Apply(s, steps[0]), steps[1..], s', now);
    }
  }

  /** Every pass drains the spawn queue: no task is looked up or polled, and no idle check begins, unless
      the queue has been found empty since the check before. */
  lemma EveryPassDrains(steps: seq<Step>, s: State)
    requires Runs(START, steps, s)
    requires s.cpu.ReadyPop? || s.cpu.Lookup? || s.cpu.Polling? || InKeyboardPoll(s) || s.cpu.Disable?
    ensures DrainedSinceCheck(START, steps, false)
  {
    DrainedOrBetween(START, steps, s, false);
  }

  // ---------------------------------------------------------------- the order of the two queues

  /** The task a step puts into the ready queue: a waker fired, or a spawned task after its insertion. */
  function Readied(s: State, step: Step): seq<TaskId> {
    match step
    case Run => if s.cpu.DrainPush? then [s.cpu.id] else []
    case Wake(ids) => ids
    case OtherInterrupt(ids) => ids
    case KeyboardInterrupt(_) =>
      if s.scancodes.Some? && |s.scancodes.value| < QUEUE_CAPACITY && s.waker.Some? then [s.waker.value] else []
    case _ => []
  }

  /** The task whose turn a step ends: it is looked up, and polled if it is still in the map. */
  function LookedUp(s: State, step: Step): seq<TaskId> {
    if step.Run? && s.cpu.Lookup? then [s.cpu.id] else []
  }

  /** The task the executor has in hand. */
  function InHand(s: State): seq<TaskId> {
    if s.cpu.Lookup? then [s.cpu.id] else []
  }

  function AllReadied(s: State, steps: seq<Step>): seq<TaskId>
    decreases |steps|
  {
    if steps == [] || !Enabled(s, steps[0]) then []
    else Readied(s, steps[0]) + AllReadied(Apply(s, steps[0]), steps[1..])
  }

  function AllLookedUp(s: State, steps: seq<Step>): seq<TaskId>
    decreases |steps|
  {
    if steps == [] || !Enabled(s, steps[0]) then []
    else LookedUp(s, steps[0]) + AllLookedUp(Apply(s, steps[0]), steps[1..])
  }

  lemma RunStepKeepsReadyOrder(s: State)
    requires Enabled(s, Run)
    ensures InHand(s) + s.taskQueue + Readied(s, Run) ==
            LookedUp(s, Run) + (InHand(RunStep(s)) + RunStep(s).taskQueue)
  {
    if s.cpu.ReadyPop? && s.taskQueue != [] {
      assert s.taskQueue == [s.taskQueue[0]] + s.taskQueue[1..];
    }
  }

  lemma StepKeepsReadyOrder(s: State, step: Step)
    requires Enabled(s, step)
    ensures InHand(s) + s.taskQueue + Readied(s, step) ==
            LookedUp(s, step) + (InHand(Apply(s, step)) + Apply(s, step).taskQueue)
  {
    if step.Run? {
      RunStepKeepsReadyOrder(s);
    } else {
      assert Apply(s, step).taskQueue == s.taskQueue + Readied(s, step);
    }
  }

  /** Ready tasks have their turn in the order in which they became ready, each as often as it did, on
      every run. */
  lemma {:induction false} ReadyTasksInOrder(s: State, steps: seq<Step>, s': State)
    requires Runs(s, steps, s')
    ensures InHand(s) + s.taskQueue + AllReadied(s, steps) ==
            AllLookedUp(s, steps) + (InHand(s') + s'.taskQueue)
    decreases |steps|
  {
    if steps != [] {
      var step, rest, next := steps[0], steps[1..], Apply(s, steps[0]);
      ReadyTasksInOrder(next, rest, s');
      StepKeepsReadyOrder(s, step);
      CatAssociative(InHand(s) + s.taskQueue, Readied(s, step), AllReadied(next, rest));
      CatAssociative(LookedUp(s, step), InHand(next) + next.taskQueue, AllReadied(next, rest));
      CatAssociative(LookedUp(s, step), AllLookedUp(next, rest), InHand(s') + s'.taskQueue);
    } else {
      assert [] + (InHand(s) + s.taskQueue) == InHand(s) + s.taskQueue + [];
    }
  }

  /** A turn is a poll exactly when the task is still in the map; the keyboard's task polls its stream. */
  lemma TurnIsPoll(before: seq<Step>, s: State)
    requires Runs(START, before, s) && s.cpu.Lookup?
    ensures var s' := Apply(s, Run);
            if s.cpu.id !in s.mapped then s' == s.(cpu := ReadyPop)
            else if s.keyboard == Some(s.cpu.id) then InKeyboardPoll(s') && s'.mapped == s.mapped
            else s'.cpu == Polling(s.cpu.id) && s'.mapped == s.mapped
  {
    ReachableInv(before, s);
  }

  function SpawnedBy(step: Step): seq<TaskId> {
    if step.Spawn? then [step.id] else []
  }

  function InsertedBy(s: State, step: Step): seq<TaskId> {
    if step.Run? && s.cpu.DrainInsert? then [s.cpu.id] else []
  }

  function Inserting(s: State): seq<TaskId> {
    if s.cpu.DrainInsert? then [s.cpu.id] else []
  }

  function AllSpawned(steps: seq<Step>): seq<TaskId> {
    if steps == [] then [] else SpawnedBy(steps[0]) + AllSpawned(steps[1..])
  }

  function AllInserted(s: State, steps: seq<Step>): seq<TaskId>
    decreases |steps|
  {
    if steps == [] || !Enabled(s, steps[0]) then []
    else InsertedBy(s, steps[0]) + AllInserted(Apply(s, steps[0]), steps[1..])
  }

  lemma StepKeepsSpawnOrder(s: State, step: Step)
    requires Enabled(s, step)
    ensures Inserting(s) + s.spawnQueue + SpawnedBy(step) ==
            InsertedBy(s, step) + (Inserting(Apply(s, step)) + Apply(s, step).spawnQueue)
    ensures InsertedBy(s, step) != [] ==> s.cpu.id in Apply(s, step).mapped && Apply(s, step).cpu == DrainPush(s.cpu.id)
  {
    if step.Run? && s.cpu.DrainPop? && s.spawnQueue != [] {
      assert s.spawnQueue == [s.spawnQueue[0]] + s.spawnQueue[1..];
    }
  }

  /** Spawned tasks enter the map in the order in which they were spawned, each once, on every run. */
  lemma {:induction false} SpawnsInsertedInOrder(s: State, steps: seq<Step>, s': State)
    requires Runs(s, steps, s')
    ensures Inserting(s) + s.spawnQueue + AllSpawned(steps) ==
            AllInserted(s, steps) + (Inserting(s') + s'.spawnQueue)
    decreases |steps|
  {
    if steps != [] {
      var step, rest, next := steps[0], steps[1..], Apply(s, steps[0]);
      SpawnsInsertedInOrder(next, rest, s');
      StepKeepsSpawnOrder(s, step);
      CatAssociative(Inserting(s) + s.spawnQueue, SpawnedBy(step), AllSpawned(rest));
      CatAssociative(InsertedBy(s, step), Inserting(next) + next.spawnQueue, AllSpawned(rest));
      CatAssociative(InsertedBy(s, step), AllInserted(next, rest), Inserting(s') + s'.spawnQueue);
    } else {
      assert [] + (Inserting(s) + s.spawnQueue) == Inserting(s) + s.spawnQueue + [];
    }
  }

  // ---------------------------------------------------------------- progress

  /** The step taken when no interrupt comes and every task, once polled, goes back to waiting. */
  function QuietStep(s: State): Step {
    if s.cpu.Boot? then StartRun else if s.cpu.Polling? then Finish(false) else Run
  }

  function QuietAfter(s: State, n: nat): State
    decreases n
  {
    if n == 0 || s.cpu.Halted? then s else QuietAfter(Apply(s, QuietStep(s)), n - 1)
  }

  function CpuWeight(s: State): nat {
    match s.cpu
    case Boot => 5
    case DrainPop => 4
    case DrainInsert(_) => 16
    case DrainPush(_) => 15
    case ReadyPop => 3
    case Lookup(_) => 8
    case KeyboardInit => 7
    case KeyboardPop => 6
    case KeyboardRegister => 5
    case KeyboardPopAgain => 4
    case KeyboardTake => 7
    case Polling(_) => 4
    case Disable => if s.taskQueue == [] then 2 else 7
    case Check => if s.taskQueue == [] then 1 else 6
    case Enable => 5
    case Halted => 0
  }

  /** A bound on how many quiet steps remain before the processor halts. */
  function QuietBound(s: State): nat {
    20 * |s.spawnQueue| + 10 * |s.taskQueue| + 5 * (if s.scancodes.Some? then |s.scancodes.value| else 0) + CpuWeight(s)
  }

  lemma QuietStepShrinks(s: State)
    requires Inv(s) && !s.cpu.Halted?
    ensures Enabled(s, QuietStep(s))
    ensures QuietBound(Apply(s, QuietStep(s))) < QuietBound(s)
    ensures Apply(s, QuietStep(s)).accepted == s.accepted
  {
  }

  /** From every state a run can reach: if interrupts stop, and tasks other than the keyboard's only
      wait, the processor halts within the bound, and by then every accepted scancode was delivered. */
  lemma {:induction false} QuietRunDelivers(s: State, n: nat)
    requires Inv(s) && QuietBound(s) <= n
    ensures var s' := QuietAfter(s, n);
            && s'.cpu.Halted?
            && s'.accepted == s.accepted
            && s'.delivered == s.accepted
    decreases n
  {
    if !s.cpu.Halted? {
      QuietStepShrinks(s);
      StepKeepsInv(s, QuietStep(s));
      QuietRunDelivers(Apply(s, QuietStep(s)), n - 1);
    }
  }

  lemma EveryScancodeDelivered(steps: seq<Step>, s: State)
    requires Runs(START, steps, s)
    ensures QuietAfter(s, QuietBound(s)).delivered == s.accepted
  {
    ReachableInv(steps, s);
    QuietRunDelivers(s, QuietBound(s));
  }
}
