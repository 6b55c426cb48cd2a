/** The sleep service: a map from deadlines to wakers, filled by sleeping tasks and emptied by the
    clock interrupt. */
module SleepService {
  /** A waker, named by the sleep it belongs to. */
  type Waker = nat

  type Service = map<nat, seq<Waker>>

  lemma MaxExists(s: set<nat>)
    requires s != {}
    ensures exists k :: k in s && forall j :: j in s ==> j <= k
  {
    var x :| x in s;
    if s - {x} != {} {
      MaxExists(s - {x});
      var k :| k in s - {x} && forall j :: j in s - {x} ==> j <= k;
      var m := if k < x then x else k;
      forall j | j in s ensures j <= m {
        assert j == x || j in s - {x};
      }
    } else {
      assert s == {x};
    }
  }

  /** The first key of the map, whose keys are ordered in reverse: the latest deadline. */
  function Latest(s: set<nat>): (k: nat)
    requires s != {}
    ensures k in s && forall j :: j in s ==> j <= k
  {
    MaxExists(s);
    var k :| k in s && forall j :: j in s ==> j <= k;
    k
  }

  /** All wakers, latest deadline first and in order of registration for each deadline. */
  function Drain(m: Service): seq<Waker>
    decreases |m.Keys|
  {
    if m.Keys == {} then []
    else var k := Latest(m.Keys); m[k] + Drain(m - {k})
  }

  lemma DrainStep(before: seq<Waker>, m: Service)
    requires m.Keys != {}
    ensures var k := Latest(m.Keys); before + Drain(m) == before + m[k] + Drain(m - {k})
  {
  }

  predicate Waits(m: Service, w: Waker) {
    exists k :: k in m && w in m[k]
  }

  lemma {:induction false} DrainHoldsWaiting(m: Service, w: Waker)
    ensures w in Drain(m) <==> Waits(m, w)
    decreases |m.Keys|
  {
    if m.Keys != {} {
      var k := Latest(m.Keys);
      var rest := m - {k};
      DrainHoldsWaiting(rest, w);
      if Waits(rest, w) {
        var j :| j in rest && w in rest[j];
        assert j in m && w in m[j];
      }
      if Waits(m, w) {
        var j :| j in m && w in m[j];
        assert j != k ==> j in rest && w in rest[j];
      }
    }
  }

  /** The part of the map whose deadlines lie after, or before, `k`. */
  function After(m: Service, k: nat): Service {
    map j | j in m && k < j :: m[j]
  }

  function Before(m: Service, k: nat): Service {
    map j | j in m && j < k :: m[j]
  }

  lemma LatestAfter(m: Service, k: nat)
    requires k in m && Latest(m.Keys) != k
    ensures var latest := Latest(m.Keys);
            && After(m, k).Keys != {} && Latest(After(m, k).Keys) == latest && After(m, k)[latest] == m[latest]
            && After(m, k) - {latest} == After(m - {latest}, k) && Before(m, k) == Before(m - {latest}, k)
  {
    var latest := Latest(m.Keys);
    assert k in m.Keys && latest in After(m, k).Keys;
  }

  lemma DrainUnfold(m: Service)
    requires m.Keys != {}
    ensures Drain(m) == m[Latest(m.Keys)] + Drain(m - {Latest(m.Keys)})
  {
  }

  lemma Reassociate(a: seq<Waker>, b: seq<Waker>, c: seq<Waker>, d: seq<Waker>)
    ensures a + (b + c + d) == (a + b) + c + d
  {
  }

  /** Wakers come latest deadline first, and in order of registration for each: around every deadline the
      list splits into later wakers, its own, and earlier ones. */
  lemma {:induction false} DrainSplits(m: Service, k: nat)
    requires k in m
    ensures Drain(m) == Drain(After(m, k)) + m[k] + Drain(Before(m, k))
    decreases |m.Keys|
  {
    assert k in m.Keys;
    var latest := Latest(m.Keys);
    DrainUnfold(m);
    if latest == k {
      assert After(m, k) == map[] && Before(m, k) == m - {k};
      assert [] + m[k] == m[k];
    } else {
      var rest := m - {latest};
      DrainSplits(rest, k);
      LatestAfter(m, k);
      DrainUnfold(After(m, k));
      Reassociate(m[latest], Drain(After(rest, k)), m[k], Drain(Before(rest, k)));
    }
  }

  function WaitersAt(m: Service, tick: nat): seq<Waker> {
    if tick in m then m[tick] else []
  }

  function Registered(m: Service, tick: nat, w: Waker): Service {
    m[tick := WaitersAt(m, tick) + [w]]
  }

  /** What one pass of `wake_sleep` leaves, and whom it wakes. */
  function AfterPass(m: Service, tick: nat): Service {
    if m.Keys != {} && tick < Latest(m.Keys) then m else map k | k in m && tick < k :: m[k]
  }

  function WokenBy(m: Service, tick: nat): seq<Waker> {
    if m.Keys != {} && tick < Latest(m.Keys) then [] else Drain(map k | k in m && k <= tick :: m[k])
  }

  lemma RegisteredWaits(m: Service, tick: nat, w: Waker, id: Waker)
    ensures Waits(Registered(m, tick, w), id) <==> Waits(m, id) || id == w
  {
    var m' := Registered(m, tick, w);
    if Waits(m, id) {
      var k :| k in m && id in m[k];
      assert k in m' && id in m'[k];
    }
    assert tick in m' && w in m'[tick];
  }

  lemma RegisteredFacts(m: Service, tick: nat, waker: Waker)
    ensures var m' := Registered(m, tick, waker);
            && (forall w :: Waits(m', w) <==> Waits(m, w) || w == waker)
            && (forall t :: waker in WokenBy(m', t) <==> tick <= t && forall k :: k in m ==> k <= t)
  {
    var m' := Registered(m, tick, waker);
    forall w ensures Waits(m', w) <==> Waits(m, w) || w == waker {
      RegisteredWaits(m, tick, waker, w);
    }
    forall t ensures waker in WokenBy(m', t) <==> tick <= t && forall k :: k in m ==> k <= t {
      PassIsAllOrNothing(m', t, waker);
      assert Waits(m', waker);
      assert forall k :: k in m' <==> k in m || k == tick;
    }
  }

  class WakeupService {
    var service: Service

    constructor ()
      ensures service == map[]
    {
      service := map[];
    }

    /** The waker waits last under its own deadline, everyone else waits as before, and the passes that
        will wake it are those after which no deadline registered now still lies ahead. */
    method RegisterSleep(tick: nat, waker: Waker)
      modifies this
      ensures forall w :: Waits(service, w) <==> Waits(old(service), w) || w == waker
      ensures WaitersAt(service, tick) == WaitersAt(old(service), tick) + [waker]
      ensures forall k :: k != tick ==> WaitersAt(service, k) == WaitersAt(old(service), k)
      ensures service.Keys == old(service).Keys + {tick}
      ensures forall t :: waker in WokenBy(service, t) <==> tick <= t && forall k :: k in old(service) ==> k <= t
    {
      RegisteredFacts(service, tick, waker);
      var requested := if tick in service then service[tick] else [];
      service := service[tick := requested + [waker]];
      assert service == Registered(old(service), tick, waker);
    }

    /** The wakers are fired in the order of `woken`. */
    method WakeSleep(tick: nat) returns (woken: seq<Waker>)
      modifies this
      ensures service == AfterPass(old(service), tick)
      ensures woken == WokenBy(old(service), tick)
    {
      woken := [];
      if service.Keys != {} && tick < Latest(service.Keys) {
        return;
      }
      var done: Service := map k | k in service && k <= tick :: service[k];
      service := map k | k in service && tick < k :: service[k];
      woken := FireAll(done);
    }

    static method FireEach(before: seq<Waker>, wakers: seq<Waker>) returns (woken: seq<Waker>)
      ensures woken == before + wakers
    {
      woken := before;
      var i := 0;
      while i < |wakers|
        invariant 0 <= i <= |wakers| && woken == before + wakers[..i]
      {
        woken := woken + [wakers[i]];
        i := i + 1;
      }
    }

    /** The two nested loops over the split-off part of the map. */
    static method FireAll(all: Service) returns (woken: seq<Waker>)
      ensures woken == Drain(all)
    {
      woken := [];
      var done := all;
      while done.Keys != {}
        invariant woken + Drain(done) == Drain(all)
        decreases |done.Keys|
      {
        var time := Latest(done.Keys);
        var wakers := done[time];
        ghost var before := woken;
        woken := FireEach(woken, wakers);
        DrainStep(before, done);
        done := done - {time};
      }
    }
  }

  /** A pass is all or nothing. It looks at the latest deadline only, so a sleeper whose deadline has
      come is woken exactly when no registered deadline lies in the future. */
  lemma PassIsAllOrNothing(m: Service, tick: nat, w: Waker)
    ensures w in WokenBy(m, tick) <==> Waits(m, w) && forall k :: k in m ==> k <= tick
    ensures if forall k :: k in m ==> k <= tick then AfterPass(m, tick) == map[] && WokenBy(m, tick) == Drain(m)
            else AfterPass(m, tick) == m && WokenBy(m, tick) == []
  {
    var due := map k | k in m && k <= tick :: m[k];
    if m.Keys != {} {
      var latest := Latest(m.Keys);
      assert latest in m;
    }
    if forall k :: k in m ==> k <= tick {
      assert due == m;
      DrainHoldsWaiting(m, w);
    } else {
      var k :| k in m && tick < k;
      assert k in m.Keys;
    }
  }

  // ---------------------------------------------------------------- sleepers and the clock

  /** The progress of one `SleepFuture`. */
  datatype Sleeper = Sleeper(endTick: nat, registered: bool, finished: bool)

  /** What the processor does with the sleep it is polling. */
  datatype Cpu =
    | Outside
    | Loaded(id: Waker, time: nat)   // loaded the time; about to compare
    | Disabled(id: Waker)            // interrupts off; about to lock the service
    | Locked(id: Waker)              // about to insert
    | Inserted(id: Waker)            // about to unlock
    | Unlocked(id: Waker)            // about to enable interrupts
    | Enabling(id: Waker)            // about to note the registration

  /** `fired` are the sleeps whose waker the clock handler called; `panicked` says that it could not take
      the lock of the service. */
  datatype State = State(now: nat, service: Service, lockHeld: bool, interruptsOn: bool, cpu: Cpu,
                         sleepers: map<Waker, Sleeper>, fired: set<Waker>, panicked: bool)

  const START: State := State(0, map[], false, true, Outside, map[], {}, false)

  /** `Go` is the next step of the poll, `Tick` a clock interrupt; the flag lets the weak exchange in
      `try_lock` fail for no reason. */
  datatype Step = NewSleep(id: Waker, endTick: nat) | Poll(id: Waker) | Go(spurious: bool) | Tick(spurious: bool)

  predicate Enabled(s: State, step: Step) {
    && !s.panicked
    && match step
       case NewSleep(id, _) => s.cpu.Outside? && id !in s.sleepers
       case Poll(id) => s.cpu.Outside? && id in s.sleepers && !s.sleepers[id].finished
       case Go(_) => !s.cpu.Outside? && s.cpu.id in s.sleepers
       case Tick(_) => s.interruptsOn
  }

  /** `clock_interrupt_handler`: the pass is given the time before the increment. */
  function ClockInterrupt(s: State, spurious: bool): State {
    var ticked := s.(now := s.now + 1);
    if s.lockHeld || spurious then ticked.(panicked := true)
    else ticked.(service := AfterPass(s.service, s.now), fired := s.fired + set w | w in WokenBy(s.service, s.now))
  }

  function Apply(s: State, step: Step): State
    requires Enabled(s, step)
  {
    match step
    case NewSleep(id, endTick) => s.(sleepers := s.sleepers[id := Sleeper(endTick, false, false)])
    case Poll(id) => s.(cpu := Loaded(id, s.now))
    case Tick(spurious) => ClockInterrupt(s, spurious)
    case Go(spurious) =>
      var id := s.cpu.id;
      var sleeper := s.sleepers[id];
      match s.cpu
      case Loaded(_, time) =>
        if time >= sleeper.endTick then s.(cpu := Outside, sleepers := s.sleepers[id := sleeper.(finished := true)])
        else if sleeper.registered then s.(cpu := Outside)
        else s.(cpu := Disabled(id), interruptsOn := false)
      case Disabled(_) => if s.lockHeld || spurious then s else s.(cpu := Locked(id), lockHeld := true)
      case Locked(_) => s.(cpu := Inserted(id), service := Registered(s.service, sleeper.endTick, id))
      case Inserted(_) => s.(cpu := Unlocked(id), lockHeld := false)
      case Unlocked(_) => s.(cpu := Enabling(id), interruptsOn := true)
      case Enabling(_) => s.(cpu := Outside, sleepers := s.sleepers[id := sleeper.(registered := true)])
  }

  predicate Runs(s: State, steps: seq<Step>, s': State)
    decreases |steps|
  {
    if steps == [] then s' == s
    else Enabled(s, steps[0]) && Runs(Apply(s, steps[0]), steps[1..], s')
  }

  /** The service is locked only with interrupts off, so the handler never finds it held. */
  predicate LockOk(s: State) {
    && s.lockHeld == (s.cpu.Locked? || s.cpu.Inserted?)
    && s.interruptsOn == !(s.cpu.Disabled? || s.cpu.Locked? || s.cpu.Inserted? || s.cpu.Unlocked?)
    && (!s.cpu.Outside? ==> s.cpu.id in s.sleepers && !s.sleepers[s.cpu.id].finished)
    && (!s.cpu.Outside? && !s.cpu.Loaded? ==> !s.sleepers[s.cpu.id].registered)
    && (s.cpu.Loaded? ==> s.cpu.time <= s.now)
  }

  /** The sleep has put its waker into the service at some point. */
  predicate Entered(s: State, id: Waker) {
    && id in s.sleepers
    && (s.sleepers[id].registered || ((s.cpu.Inserted? || s.cpu.Unlocked? || s.cpu.Enabling?) && s.cpu.id == id))
  }

  /** A sleep that was inserted waits in the service under its own deadline, or was fired, and not
      both; a fired one is past its deadline. */
  ghost predicate SleepersOk(s: State) {
    && (forall k, i :: k in s.service && 0 <= i < |s.service[k]| ==>
          s.service[k][i] in s.sleepers && s.sleepers[s.service[k][i]].endTick == k)
    && (forall id :: Waits(s.service, id) <==> Entered(s, id) && id !in s.fired)
    && (forall id :: id in s.fired ==> Entered(s, id) && s.sleepers[id].endTick < s.now)
    && (forall id :: id in s.sleepers && s.sleepers[id].finished ==> s.sleepers[id].endTick <= s.now)
  }

  ghost predicate Inv(s: State) {
    LockOk(s) && SleepersOk(s)
  }

  lemma StepKeepsLock(s: State, step: Step)
    requires LockOk(s) && Enabled(s, step)
    ensures LockOk(Apply(s, step))
  {
  }

  lemma InsertKeepsSleepers(s: State)
    requires Inv(s) && s.cpu.Locked? && !s.panicked
    ensures forall spurious :: SleepersOk(Apply(s, Go(spurious)))
  {
    var s' := Apply(s, Go(false));
    var id := s.cpu.id;
    forall w ensures Waits(s'.service, w) <==> Entered(s', w) && w !in s'.fired {
      RegisteredWaits(s.service, s.sleepers[id].endTick, id, w);
      assert Waits(s.service, w) <==> Entered(s, w) && w !in s.fired;
      assert Entered(s', w) <==> Entered(s, w) || w == id;
      assert id in s.fired ==> Entered(s, id);
    }
  }

  lemma TickKeepsSleepers(s: State)
    requires Inv(s) && Enabled(s, Tick(false))
    ensures SleepersOk(Apply(s, Tick(false)))
  {
    var s' := Apply(s, Tick(false));
    forall w
      ensures Waits(s'.service, w) <==> Entered(s', w) && w !in s'.fired
      ensures w in s'.fired ==> Entered(s', w) && s'.sleepers[w].endTick < s'.now
    {
      PassIsAllOrNothing(s.service, s.now, w);
      assert Entered(s', w) == Entered(s, w);
      if w in WokenBy(s.service, s.now) {
        var k :| k in s.service && w in s.service[k];
        var i :| 0 <= i < |s.service[k]| && s.service[k][i] == w;
        assert s.sleepers[w].endTick == k <= s.now;
      }
    }
    PassIsAllOrNothing(s.service, s.now, 0);
  }

  lemma QuietStepKeepsSleepers(s: State, step: Step)
    requires Inv(s) && Enabled(s, step) && step != Tick(false) && !(step.Go? && s.cpu.Locked?)
    ensures SleepersOk(Apply(s, step))
  {
    var s' := Apply(s, step);
    forall w ensures Entered(s', w) == Entered(s, w) {
    }
    forall w ensures Waits(s'.service, w) <==> Entered(s', w) && w !in s'.fired {
      assert Waits(s.service, w) <==> Entered(s, w) && w !in s.fired;
    }
  }

  lemma StepKeepsInv(s: State, step: Step)
    requires Inv(s) && Enabled(s, step)
    ensures Inv(Apply(s, step))
  {
    StepKeepsLock(s, step);
    if step == Tick(false) {
      TickKeepsSleepers(s);
    } else if step.Go? && s.cpu.Locked? {
      InsertKeepsSleepers(s);
    } else {
      QuietStepKeepsSleepers(s, step);
    }
  }

  lemma StartInv()
    ensures Inv(START)
  {
    forall id ensures !Waits(START.service, id) && !Entered(START, id) { }
  }

  lemma {:induction false} RunKeepsInv(s: State, steps: seq<Step>, s': State)
    requires Inv(s) && Runs(s, steps, s')
    ensures Inv(s')
    decreases |steps|
  {
    if steps != [] {
      StepKeepsInv(s, steps[0]);
      RunKeepsInv(Apply(s, steps[0]), steps[1..], s');
    }
  }

  // ---------------------------------------------------------------- what holds on every run

  lemma {:induction false} PanicsOnlySpuriously(s: State, steps: seq<Step>, s': State)
    requires LockOk(s) && !s.panicked && Runs(s, steps, s')
    ensures s'.panicked <==> Tick(true) in steps
    decreases |steps|
  {
    if steps != [] {
      var next := Apply(s, steps[0]);
      StepKeepsLock(s, steps[0]);
      if next.panicked {
        assert steps[1..] == [];
      } else {
        PanicsOnlySpuriously(next, steps[1..], s');
        assert steps == [steps[0]] + steps[1..];
      }
    }
  }

  /** For every interleaving of clock interrupts with the load-then-register poll: the handler never
      finds the service held, so it panics exactly when its exchange fails for no reason; no sleep is
      woken, or finishes, before its end tick; and every sleep that entered the service is still in it
      or was woken, never both. */
  lemma SleepersSafe(steps: seq<Step>, s: State)
    requires Runs(START, steps, s)
    ensures (s.interruptsOn ==> !s.lockHeld) && (s.panicked <==> Tick(true) in steps)
    ensures forall id :: id in s.fired ==> id in s.sleepers && s.sleepers[id].endTick < s.now
    ensures forall id :: id in s.sleepers && s.sleepers[id].finished ==> s.sleepers[id].endTick <= s.now
    ensures forall id :: id in s.sleepers && s.sleepers[id].registered ==> Waits(s.service, id) != (id in s.fired)
  {
    StartInv();
    RunKeepsInv(START, steps, s);
    PanicsOnlySpuriously(START, steps, s);
    forall id | id in s.sleepers && s.sleepers[id].registered ensures Waits(s.service, id) != (id in s.fired) {
      assert Entered(s, id);
    }
  }

  /** A woken sleep is ready at its next poll. */
  lemma WokenSleepIsReady(steps: seq<Step>, s: State, id: Waker)
    requires Runs(START, steps, s) && id in s.fired && Enabled(s, Poll(id))
    ensures Enabled(Apply(s, Poll(id)), Go(false))
    ensures var s' := Apply(Apply(s, Poll(id)), Go(false)); id in s'.sleepers && s'.sleepers[id].finished
  {
    SleepersSafe(steps, s);
  }

  /** Only the poll and the clock run. */
  predicate PollAndClock(steps: seq<Step>) {
    forall i :: 0 <= i < |steps| ==> steps[i].Go? || steps[i].Tick?
  }

  /** Where a poll that loaded `time` may be, and what it has done once it is over. */
  ghost predicate PollUnderway(s: State, id: Waker, endTick: nat, time: nat) {
    && id in s.sleepers && s.sleepers[id].endTick == endTick
    && match s.cpu
       case Outside =>
         if endTick <= time then s.sleepers[id].finished else !s.sleepers[id].finished && s.sleepers[id].registered
       case Loaded(i, t) => i == id && t == time
       case _ => s.cpu.id == id && time < endTick
  }

  lemma {:induction false} PollStaysUnderway(s: State, steps: seq<Step>, s': State, id: Waker, endTick: nat, time: nat)
    requires Inv(s) && PollUnderway(s, id, endTick, time) && Runs(s, steps, s') && PollAndClock(steps)
    ensures Inv(s') && PollUnderway(s', id, endTick, time)
    decreases |steps|
  {
    if steps != [] {
      StepKeepsInv(s, steps[0]);
      PollStaysUnderway(Apply(s, steps[0]), steps[1..], s', id, endTick, time);
    }
  }

  /** Every poll, whatever clock interrupts and failed exchanges come in between: when it is over, the
      sleep has finished exactly if the time it loaded had reached the end tick, and otherwise its waker
      is in the service or has been fired. */
  lemma PollOutcome(before: seq<Step>, s: State, id: Waker, steps: seq<Step>, s': State)
    requires Runs(START, before, s) && Enabled(s, Poll(id))
    requires Runs(Apply(s, Poll(id)), steps, s') && PollAndClock(steps) && s'.cpu.Outside?
    ensures id in s'.sleepers && (s'.sleepers[id].finished <==> s.sleepers[id].endTick <= s.now)
    ensures !s'.sleepers[id].finished ==> s'.sleepers[id].registered && Waits(s'.service, id) != (id in s'.fired)
  {
    StartInv();
    RunKeepsInv(START, before, s);
    StepKeepsInv(s, Poll(id));
    PollStaysUnderway(Apply(s, Poll(id)), steps, s', id, s.sleepers[id].endTick, s.now);
    assert Waits(s'.service, id) <==> Entered(s', id) && id !in s'.fired;
  }

  /** An exchange that fails for no reason only makes the poll try again. */
  lemma FailedExchangeRetries(s: State)
    requires s.cpu.Disabled? && Enabled(s, Go(true))
    ensures Apply(s, Go(true)) == s
  {
  }

  /** A poll does end: with the lock free and no failed exchange it takes at most six steps. */
  lemma {:induction false} PollEnds(s: State, n: nat)
    requires Inv(s) && !s.panicked && !s.cpu.Outside? && PollSteps(s.cpu) <= n
    ensures PollAlone(s, n).cpu.Outside? && PollAlone(s, n).interruptsOn
    decreases n
  {
    StepKeepsInv(s, Go(false));
    var next := Apply(s, Go(false));
    if !next.cpu.Outside? {
      PollEnds(next, n - 1);
    }
  }

  function PollSteps(cpu: Cpu): nat {
    match cpu
    case Outside => 0
    case Loaded(_, _) => 6
    case Disabled(_) => 5
    case Locked(_) => 4
    case Inserted(_) => 3
    case Unlocked(_) => 2
    case Enabling(_) => 1
  }

  /** The poll goes on alone, for at most `n` steps. */
  function PollAlone(s: State, n: nat): State
    decreases n
  {
    if n == 0 || !Enabled(s, Go(false)) then s else PollAlone(Apply(s, Go(false)), n - 1)
  }

  /** No sleep enters the service on this run. */
  predicate NoInsertion(s: State, steps: seq<Step>)
    decreases |steps|
  {
    steps != [] ==>
      && Enabled(s, steps[0])
      && !(steps[0].Go? && s.cpu.Locked?)
      && NoInsertion(Apply(s, steps[0]), steps[1..])
  }

  /** Once no more sleeps enter, nothing happens to the service until the latest deadline, and by the
      tick after it, if the handler did not panic, every sleep has been woken. */
  lemma {:induction false} AllWokenByLatestDeadline(s: State, steps: seq<Step>, s': State, deadline: nat)
    requires Inv(s) && Runs(s, steps, s') && NoInsertion(s, steps)
    requires forall k :: k in s.service ==> k <= deadline
    ensures s'.service == s.service || s'.service == map[]
    ensures deadline < s'.now && s.now < s'.now && !s'.panicked ==> s'.service == map[]
    ensures s'.service == map[] ==> forall id :: Waits(s.service, id) ==> id in s'.fired
    ensures s.now <= s'.now && s.fired <= s'.fired
    decreases |steps|
  {
    if steps == [] {
      assert forall id :: !Waits(map[], id);
    } else {
      var next := Apply(s, steps[0]);
      StepKeepsInv(s, steps[0]);
      if steps[0] == Tick(false) {
        PassIsAllOrNothing(s.service, s.now, 0);
      }
      AllWokenByLatestDeadline(next, steps[1..], s', deadline);
      forall id | s'.service == map[] && Waits(s.service, id) ensures id in s'.fired {
        if steps[0] == Tick(false) {
          PassIsAllOrNothing(s.service, s.now, id);
        }
      }
    }
  }

  // ---------------------------------------------------------------- how late a sleeper can be

  lemma {:induction false} RunsCat(s: State, a: seq<Step>, m: State, b: seq<Step>, s': State)
    requires Runs(s, a, m) && Runs(m, b, s')
    ensures Runs(s, a + b, s')
    decreases |a|
  {
    if a == [] {
      assert a + b == b;
    } else {
      RunsCat(Apply(s, a[0]), a[1..], m, b, s');
      assert (a + b)[1..] == a[1..] + b;
    }
  }

  lemma TwoSteps(s: State, x: Step, m: State, y: Step, s': State)
    requires Enabled(s, x) && m == Apply(s, x) && Enabled(m, y) && s' == Apply(m, y)
    ensures Runs(s, [x, y], s')
  {
    assert [x, y][1..] == [y] && [y][1..] == [];
    assert Runs(s', [], s');
    assert Runs(m, [y], s');
  }

  /** Nothing is going on and the handler is free to run. */
  predicate Calm(s: State) {
    s.cpu.Outside? && s.interruptsOn && !s.lockHeld && !s.panicked
  }

  /** A new sleep is polled once and registers. */
  function RegisterRun(id: Waker, endTick: nat): seq<Step> {
    [NewSleep(id, endTick), Poll(id)] + [Go(false), Go(false)] + ([Go(false), Go(false)] + [Go(false), Go(false)])
  }

  function AfterRegister(s: State, id: Waker, endTick: nat): State {
    s.(sleepers := s.sleepers[id := Sleeper(endTick, true, false)], service := Registered(s.service, endTick, id))
  }

  lemma RegisterRuns(s: State, id: Waker, endTick: nat)
    requires Calm(s) && id !in s.sleepers && s.now < endTick
    ensures Runs(s, RegisterRun(id, endTick), AfterRegister(s, id, endTick))
  {
    var go := Go(false);
    var added := s.(sleepers := s.sleepers[id := Sleeper(endTick, false, false)]);
    var loaded := added.(cpu := Loaded(id, s.now));
    var disabled := added.(cpu := Disabled(id), interruptsOn := false);
    var locked := disabled.(cpu := Locked(id), lockHeld := true);
    var inserted := locked.(cpu := Inserted(id), service := Registered(s.service, endTick, id));
    var unlocked := inserted.(cpu := Unlocked(id), lockHeld := false);
    var enabling := unlocked.(cpu := Enabling(id), interruptsOn := true);
    var done := enabling.(cpu := Outside, sleepers := added.sleepers[id := Sleeper(endTick, true, false)]);
    assert done == AfterRegister(s, id, endTick);
    TwoSteps(s, NewSleep(id, endTick), added, Poll(id), loaded);
    TwoSteps(loaded, go, disabled, go, locked);
    TwoSteps(locked, go, inserted, go, unlocked);
    TwoSteps(unlocked, go, enabling, go, done);
    RunsCat(s, [NewSleep(id, endTick), Poll(id)], loaded, [go, go], locked);
    RunsCat(locked, [go, go], unlocked, [go, go], done);
    RunsCat(s, [NewSleep(id, endTick), Poll(id)] + [go, go], locked, [go, go] + [go, go], done);
  }

  function Ticks(n: nat): seq<Step> {
    if n == 0 then [] else [Tick(false)] + Ticks(n - 1)
  }

  /** Until the latest deadline has come, clock ticks wake nobody. */
  lemma {:induction false} TicksWakeNobody(s: State, n: nat, deadline: nat)
    requires Calm(s) && deadline in s.service && s.now + n <= deadline
    ensures Runs(s, Ticks(n), s.(now := s.now + n))
    decreases n
  {
    if n > 0 {
      var next := s.(now := s.now + 1);
      PassIsAllOrNothing(s.service, s.now, 0);
      assert Apply(s, Tick(false)) == next;
      TicksWakeNobody(next, n - 1, deadline);
      assert Ticks(n)[1..] == Ticks(n - 1);
    }
  }

  /** One sleep is due after a tick, another much later; the clock ticks on. */
  function OversleepRun(first: Waker, second: Waker, n: nat): seq<Step> {
    RegisterRun(first, 1) + (RegisterRun(second, n + 2) + Ticks(n + 2))
  }

  /** A sleep can be arbitrarily late: for every `n` there is a run on which a registered sleep is more
      than `n` ticks past its end and still waits, because a later deadline is registered. */
  lemma SleeperCanBeLate(first: Waker, second: Waker, n: nat) returns (s: State)
    requires first != second
    ensures Runs(START, OversleepRun(first, second, n), s)
    ensures first in s.sleepers && s.sleepers[first].registered && s.sleepers[first].endTick + n < s.now
    ensures Waits(s.service, first) && first !in s.fired
  {
    var one := AfterRegister(START, first, 1);
    var two := AfterRegister(one, second, n + 2);
    s := two.(now := n + 2);
    RegisterRuns(START, first, 1);
    RegisterRuns(one, second, n + 2);
    TicksWakeNobody(two, n + 2, n + 2);
    RunsCat(one, RegisterRun(second, n + 2), two, Ticks(n + 2), s);
    RunsCat(START, RegisterRun(first, 1), one, RegisterRun(second, n + 2) + Ticks(n + 2), s);
    RegisteredWaits(map[], 1, first, first);
    RegisteredWaits(one.service, n + 2, second, first);
  }
}
