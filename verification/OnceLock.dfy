/** One-time initialisation: the UNINIT / RUNNING / INIT protocol of `OnceLock`, for any number of
    threads, as a machine of single atomic operations. */
module OnceLock {
  import opened Options

  type Thread = nat

  datatype Status = Uninit | Running | Init

  /** A call, with the value its initialiser would produce. */
  datatype Call<V> = Get | TryGet | InitOnce(value: V) | TryInitOnce(value: V) | GetOrInit(value: V)

  /** `entry` is the call's place among those whose first load did not see INIT; `ran` says whether its
      own initialiser ran. */
  datatype Position<V> =
    | Idle
    | FirstLoad(call: Call<V>)                             // about to load the status in `is_init`
    | Exchange(call: Call<V>, entry: nat)                  // at the weak exchange of `try_init_inner`
    | Initialise(call: Call<V>, entry: nat)                // won it; about to run the initialiser and write
    | Publish(call: Call<V>, entry: nat)                   // about to store INIT
    | Return(call: Call<V>, entry: nat, ran: bool)         // `try_init_inner` is done
    | Read(call: Call<V>, origin: Option<nat>, ran: bool)  // about to read the cell

  /** `Garbage` is a read of a cell that was never written. */
  datatype Outcome<V> = Unit | Value(value: V) | Garbage | Panicked | Uninitialized | AlreadyInitialized

  /** A call that ended; `entry` is none if its first load saw INIT, or if it never initialises. */
  datatype Record<V> = Record(thread: Thread, call: Call<V>, outcome: Outcome<V>, entry: Option<nat>, ran: bool)

  /** `written` lists every value ever written to the cell, `returned` every call that ended, `entered`
      every initialising call whose first load did not see INIT; `winner` won the exchange. */
  datatype State<V> = State(status: Status, inner: Option<V>, at: map<Thread, Position<V>>,
                            written: seq<V>, returned: seq<Record<V>>,
                            entered: seq<Call<V>>, winner: Option<nat>)

  function New<V>(): State<V> {
    State(Uninit, None, map[], [], [], [], None)
  }

  function WithValue<V>(v: V): State<V> {
    State(Init, Some(v), map[], [v], [], [], None)
  }

  function At<V>(s: State<V>, t: Thread): Position<V> {
    if t in s.at then s.at[t] else Idle
  }

  function Move<V>(s: State<V>, t: Thread, p: Position<V>): State<V> {
    s.(at := s.at[t := p])
  }

  function End<V>(s: State<V>, t: Thread, call: Call<V>, outcome: Outcome<V>, entry: Option<nat>, ran: bool): State<V> {
    Move(s, t, Idle).(returned := s.returned + [Record(t, call, outcome, entry, ran)])
  }

  /** The first load did not see INIT: the call goes on to `try_init_inner`. */
  function Enter<V>(s: State<V>, t: Thread, call: Call<V>): State<V> {
    Move(s, t, Exchange(call, |s.entered|)).(entered := s.entered + [call])
  }

  datatype Step<V> = Begin(thread: Thread, call: Call<V>) | Go(thread: Thread, spurious: bool)

  predicate Enabled<V>(s: State<V>, step: Step<V>) {
    match step
    case Begin(t, _) => At(s, t).Idle?
    case Go(t, _) => !At(s, t).Idle?
  }

  function AfterFirstLoad<V>(s: State<V>, t: Thread, call: Call<V>): State<V> {
    match call
    case Get => if s.status.Init? then Move(s, t, Read(call, None, false)) else End(s, t, call, Panicked, None, false)
    case TryGet =>
      if s.status.Init? then Move(s, t, Read(call, None, false)) else End(s, t, call, Uninitialized, None, false)
    case InitOnce(_) => if s.status.Init? then End(s, t, call, Unit, None, false) else Enter(s, t, call)
    case TryInitOnce(_) =>
      if s.status.Init? then End(s, t, call, AlreadyInitialized, None, false) else Enter(s, t, call)
    case GetOrInit(_) => if s.status.Init? then Move(s, t, Read(call, None, false)) else Enter(s, t, call)
  }

  /** Only the three initialising calls reach `try_init_inner`. */
  predicate Initialises<V>(call: Call<V>) {
    call.InitOnce? || call.TryInitOnce? || call.GetOrInit?
  }

  function AfterExchange<V>(s: State<V>, t: Thread, call: Call<V>, k: nat, spurious: bool): State<V> {
    match s.status
    case Uninit => if spurious then s else Move(s, t, Initialise(call, k)).(status := Running, winner := Some(k))
    case Running => s
    case Init => Move(s, t, Return(call, k, false))
  }

  function Apply<V>(s: State<V>, step: Step<V>): State<V>
    requires Enabled(s, step)
  {
    var t := step.thread;
    match step
    case Begin(_, call) => Move(s, t, FirstLoad(call))
    case Go(_, spurious) =>
      match At(s, t)
      case FirstLoad(call) => AfterFirstLoad(s, t, call)
      case Exchange(call, k) => AfterExchange(s, t, call, k, spurious)
      case Initialise(call, k) =>
        if Initialises(call)
        then Move(s, t, Publish(call, k)).(inner := Some(call.value), written := s.written + [call.value])
        else s
      case Publish(call, k) => Move(s, t, Return(call, k, true)).(status := Init)
      case Return(call, k, ran) =>
        if call.GetOrInit? then Move(s, t, Read(call, Some(k), ran)) else End(s, t, call, Unit, Some(k), ran)
      case Read(call, origin, ran) =>
        End(s, t, call, if s.inner.Some? then Value(s.inner.value) else Garbage, origin, ran)
  }

  predicate Runs<V(==)>(s: State<V>, steps: seq<Step<V>>, s': State<V>)
    decreases |steps|
  {
    if steps == [] then s' == s
    else Enabled(s, steps[0]) && Runs(Apply(s, steps[0]), steps[1..], s')
  }

  // ---------------------------------------------------------------- what every step keeps

  predicate Working<V>(p: Position<V>) {
    p.Initialise? || p.Publish?
  }

  /** One thread at most is between winning the exchange and publishing, and only while RUNNING. */
  ghost predicate OneWorker<V>(s: State<V>) {
    && (forall t, u :: Working(At(s, t)) && Working(At(s, u)) ==> t == u)
    && (s.status.Running? <==> exists t :: Working(At(s, t)))
  }

  /** Only initialising calls are inside `try_init_inner`. */
  predicate Inside<V>(p: Position<V>) {
    !p.Idle? && !p.FirstLoad? && !p.Read? ==> Initialises(p.call)
  }

  ghost predicate OneWinner<V>(s: State<V>) {
    OneWorker(s) && forall t :: Inside(At(s, t))
  }

  /** The cell is written once, before INIT is published, and not touched again. */
  predicate CellOk<V(==)>(s: State<V>) {
    && s.written == (if s.inner.Some? then [s.inner.value] else [])
    && (s.status.Uninit? ==> s.inner.None?)
    && (s.status.Init? ==> s.inner.Some?)
  }

  /** What a thread may assume of the cell where it is. */
  predicate CellAt<V>(s: State<V>, p: Position<V>) {
    && (p.Initialise? ==> s.inner.None?)
    && (p.Publish? ==> s.inner.Some?)
    && (p.Return? || p.Read? ==> s.status.Init?)
    && (p.Read? ==> !p.call.InitOnce? && !p.call.TryInitOnce?)
  }

  ghost predicate WrittenOnce<V>(s: State<V>) {
    CellOk(s) && forall t :: CellAt(s, At(s, t))
  }

  /** What a call may have returned. */
  predicate GoodRecord<V(==)>(s: State<V>, r: Record<V>) {
    match r.outcome
    case Value(v) => s.status.Init? && s.inner == Some(v) && (r.call.Get? || r.call.TryGet? || r.call.GetOrInit?)
    case Unit => s.status.Init? && (r.call.InitOnce? || r.call.TryInitOnce?)
    case AlreadyInitialized => s.status.Init? && r.call.TryInitOnce?
    case Panicked => r.call.Get?
    case Uninitialized => r.call.TryGet?
    case Garbage => false
  }

  ghost predicate Inv<V>(s: State<V>) {
    OneWinner(s) && WrittenOnce(s) && forall i :: 0 <= i < |s.returned| ==> GoodRecord(s, s.returned[i])
  }

  /** The status moves with the one thread that works. */
  ghost predicate StatusEffect<V>(s: State<V>, s': State<V>, t: Thread) {
    && (forall u :: u != t ==> At(s', u) == At(s, u))
    && var before, after := Working(At(s, t)), Working(At(s', t));
       || (s'.status == s.status && after == before)
       || (s.status.Uninit? && s'.status.Running? && !before && after)
       || (s'.status.Init? && before && !after)
  }

  lemma LoadStatusEffect<V>(s: State<V>, t: Thread, call: Call<V>)
    requires At(s, t) == FirstLoad(call)
    ensures StatusEffect(s, AfterFirstLoad(s, t, call), t)
  {
  }

  lemma ExchangeStatusEffect<V>(s: State<V>, t: Thread, call: Call<V>, k: nat, spurious: bool)
    requires At(s, t) == Exchange(call, k)
    ensures StatusEffect(s, AfterExchange(s, t, call, k, spurious), t)
  {
  }

  lemma StepStatusEffect<V>(s: State<V>, step: Step<V>)
    requires Enabled(s, step)
    ensures StatusEffect(s, Apply(s, step), step.thread)
  {
    var t := step.thread;
    if step.Go? {
      match At(s, t) {
        case FirstLoad(call) => LoadStatusEffect(s, t, call);
        case Exchange(call, k) => ExchangeStatusEffect(s, t, call, k, step.spurious);
        case _ =>
      }
    }
  }

  lemma EffectKeepsOneWorker<V>(s: State<V>, s': State<V>, t: Thread)
    requires OneWorker(s) && StatusEffect(s, s', t)
    ensures OneWorker(s')
  {
    if Working(At(s', t)) && !Working(At(s, t)) {
      assert forall u :: !Working(At(s, u));
    } else if s.status.Running? && s'.status.Running? {
      var w :| Working(At(s, w));
      assert Working(At(s', w));
    } else if Working(At(s, t)) && !Working(At(s', t)) {
      assert forall u :: u != t ==> !Working(At(s, u));
    }
  }

  lemma StepKeepsOneWinner<V>(s: State<V>, step: Step<V>)
    requires OneWinner(s) && Enabled(s, step)
    ensures OneWinner(Apply(s, step))
  {
    StepStatusEffect(s, step);
    EffectKeepsOneWorker(s, Apply(s, step), step.thread);
    StepKeepsInside(s, step);
  }

  lemma StepKeepsOwnInside<V>(s: State<V>, step: Step<V>)
    requires Inside(At(s, step.thread)) && Enabled(s, step)
    ensures Inside(At(Apply(s, step), step.thread))
  {
  }

  lemma StepKeepsInside<V>(s: State<V>, step: Step<V>)
    requires (forall u :: Inside(At(s, u))) && Enabled(s, step)
    ensures var s' := Apply(s, step); forall u :: Inside(At(s', u))
  {
    var s' := Apply(s, step);
    StepStatusEffect(s, step);
    StepKeepsOwnInside(s, step);
    forall u ensures Inside(At(s', u)) {
      assert u != step.thread ==> At(s', u) == At(s, u) && Inside(At(s, u));
    }
  }

  /** The cell changes only at the initialiser, the status only at the exchange and the publication. */
  ghost predicate CellEffect<V>(s: State<V>, s': State<V>, t: Thread) {
    && (forall u :: u != t ==> At(s', u) == At(s, u))
    && if At(s, t).Initialise?
       then s'.status == s.status && s'.inner.Some? && s'.written == s.written + [s'.inner.value]
       else s'.inner == s.inner && s'.written == s.written && StatusStep(s.status, s'.status, At(s, t).Publish?)
  }

  predicate StatusStep(before: Status, after: Status, publishing: bool) {
    after == before || (before.Uninit? && after.Running?) || (publishing && after.Init?)
  }

  lemma LoadCellEffect<V>(s: State<V>, t: Thread, call: Call<V>)
    requires At(s, t) == FirstLoad(call)
    ensures CellEffect(s, AfterFirstLoad(s, t, call), t)
    ensures CellAt(AfterFirstLoad(s, t, call), At(AfterFirstLoad(s, t, call), t))
  {
  }

  lemma ExchangeCellEffect<V>(s: State<V>, t: Thread, call: Call<V>, k: nat, spurious: bool)
    requires At(s, t) == Exchange(call, k) && CellOk(s)
    ensures CellEffect(s, AfterExchange(s, t, call, k, spurious), t)
    ensures CellAt(AfterExchange(s, t, call, k, spurious), At(AfterExchange(s, t, call, k, spurious), t))
  {
  }

  lemma StepCellEffect<V>(s: State<V>, step: Step<V>)
    requires OneWinner(s) && WrittenOnce(s) && Enabled(s, step)
    ensures CellEffect(s, Apply(s, step), step.thread)
    ensures CellAt(Apply(s, step), At(Apply(s, step), step.thread))
  {
    var t := step.thread;
    if step.Go? {
      assert CellAt(s, At(s, t)) && Inside(At(s, t));
      match At(s, t) {
        case FirstLoad(call) => LoadCellEffect(s, t, call);
        case Exchange(call, k) => ExchangeCellEffect(s, t, call, k, step.spurious);
        case _ =>
      }
    }
  }

  lemma EffectKeepsWrittenOnce<V>(s: State<V>, s': State<V>, t: Thread)
    requires OneWorker(s) && WrittenOnce(s) && CellEffect(s, s', t) && CellAt(s', At(s', t))
    ensures WrittenOnce(s')
  {
    assert CellAt(s, At(s, t));
    assert Working(At(s, t)) ==> s.status.Running?;
    forall u ensures CellAt(s', At(s', u)) {
      assert CellAt(s, At(s, u));
      assert Working(At(s, u)) ==> s.status.Running?;
    }
  }

  lemma StepKeepsWrittenOnce<V>(s: State<V>, step: Step<V>)
    requires OneWinner(s) && WrittenOnce(s) && Enabled(s, step)
    ensures WrittenOnce(Apply(s, step))
  {
    StepCellEffect(s, step);
    EffectKeepsWrittenOnce(s, Apply(s, step), step.thread);
  }

  /** A record stays good while the cell keeps its value and INIT stays published. */
  lemma RecordStaysGood<V>(s: State<V>, s': State<V>, r: Record<V>)
    requires GoodRecord(s, r)
    requires s.status.Init? ==> s'.status.Init? && s'.inner == s.inner
    ensures GoodRecord(s', r)
  {
  }

  lemma NewRecordGood<V>(s: State<V>, step: Step<V>)
    requires Inv(s) && Enabled(s, step) && |Apply(s, step).returned| > |s.returned|
    ensures GoodRecord(Apply(s, step), Apply(s, step).returned[|s.returned|])
  {
    assert CellAt(s, At(s, step.thread)) && Inside(At(s, step.thread));
  }

  lemma StepKeepsRecords<V>(s: State<V>, step: Step<V>)
    requires Inv(s) && Enabled(s, step)
    ensures var s' := Apply(s, step); forall i :: 0 <= i < |s'.returned| ==> GoodRecord(s', s'.returned[i])
  {
    var s' := Apply(s, step);
    StepCellEffect(s, step);
    StepAppends(s, step);
    assert Working(At(s, step.thread)) ==> s.status.Running?;
    forall i | 0 <= i < |s'.returned| ensures GoodRecord(s', s'.returned[i]) {
      if i < |s.returned| { RecordStaysGood(s, s', s.returned[i]); } else { NewRecordGood(s, step); }
    }
  }

  lemma StepAppends<V>(s: State<V>, step: Step<V>)
    requires Enabled(s, step)
    ensures s.returned <= Apply(s, step).returned && |Apply(s, step).returned| <= |s.returned| + 1
  {
  }

  lemma StepKeepsInv<V>(s: State<V>, step: Step<V>)
    requires Inv(s) && Enabled(s, step)
    ensures Inv(Apply(s, step))
  {
    StepKeepsOneWinner(s, step);
    StepKeepsWrittenOnce(s, step);
    StepKeepsRecords(s, step);
  }

  lemma {:induction false} RunKeepsInv<V>(s: State<V>, steps: seq<Step<V>>, s': State<V>)
    requires Inv(s) && Runs(s, steps, s')
    ensures Inv(s')
    decreases |steps|
  {
    if steps != [] {
      StepKeepsInv(s, steps[0]);
      RunKeepsInv(Apply(s, steps[0]), steps[1..], s');
    }
  }

  // ---------------------------------------------------------------- what holds on every run

  /** For any number of threads, any interleaving and any spurious failure: at most one initialiser
      ever runs, every successful read returns the one value it wrote, no call reads an unwritten
      cell, and `get_or_init` never returns anything but that value. */
  lemma InitialisedOnce<V>(start: State<V>, steps: seq<Step<V>>, s: State<V>)
    requires start == New() || (exists v :: start == WithValue(v))
    requires Runs(start, steps, s)
    ensures |s.written| <= 1
    ensures s.status.Init? ==> |s.written| == 1
    ensures forall r :: r in s.returned ==>
              && !r.outcome.Garbage?
              && (r.outcome.Value? ==> s.written == [r.outcome.value])
              && (r.call.GetOrInit? ==> r.outcome.Value?)
              && (r.outcome.Unit? || r.outcome.AlreadyInitialized? ==> |s.written| == 1)
    ensures forall t, u :: Working(At(s, t)) && Working(At(s, u)) ==> t == u
  {
    assert Inv(start);
    RunKeepsInv(start, steps, s);
  }

  function Rank(status: Status): nat {
    match status case Uninit => 0 case Running => 1 case Init => 2
  }

  /** The status only moves forward, and what was written stays. */
  lemma {:induction false} StatusMovesForward<V>(s: State<V>, steps: seq<Step<V>>, s': State<V>)
    requires Inv(s) && Runs(s, steps, s')
    ensures Rank(s.status) <= Rank(s'.status)
    ensures s.written <= s'.written && s.returned <= s'.returned
    decreases |steps|
  {
    if steps != [] {
      var t := steps[0].thread;
      assert Working(At(s, t)) ==> s.status.Running?;
      StepKeepsInv(s, steps[0]);
      StatusMovesForward(Apply(s, steps[0]), steps[1..], s');
    }
  }

  // ---------------------------------------------------------------- what each call returns

  /** What a call returns, given whether its first load saw INIT and what the cell holds. */
  function Expected<V>(call: Call<V>, sawInit: bool, cell: Option<V>): Outcome<V> {
    var value := if cell.Some? then Value(cell.value) else Garbage;
    match call
    case Get => if sawInit then value else Panicked
    case TryGet => if sawInit then value else Uninitialized
    case InitOnce(_) => Unit
    case TryInitOnce(_) => if sawInit then AlreadyInitialized else Unit
    case GetOrInit(_) => value
  }

  /** The calls of a thread that have ended, in order. */
  function RecordsOf<V>(returned: seq<Record<V>>, t: Thread): seq<Record<V>> {
    if returned == [] then []
    else
      var last := returned[|returned| - 1];
      RecordsOf(returned[..|returned| - 1], t) + if last.thread == t then [last] else []
  }

  lemma RecordsOfSnoc<V>(returned: seq<Record<V>>, r: Record<V>, t: Thread)
    ensures RecordsOf(returned + [r], t) == RecordsOf(returned, t) + if r.thread == t then [r] else []
  {
    assert (returned + [r])[..|returned|] == returned;
  }

  /** A call whose first load is done has ended as expected, or is still inside on its way there. */
  predicate OnCourse<V(==)>(s: State<V>, t: Thread, call: Call<V>, sawInit: bool, before: seq<Record<V>>) {
    var p, records := At(s, t), RecordsOf(s.returned, t);
    if p.Idle? then
      && |records| == |before| + 1 && before <= records && records[|before|].call == call
      && records[|before|].outcome == Expected(call, sawInit, s.inner)
      && (sawInit || call.GetOrInit? ==> s.status.Init?)
    else
      && records == before && !p.FirstLoad? && p.call == call
      && (call.Get? || call.TryGet? ==> sawInit)
      && (call.TryInitOnce? || call.InitOnce? ==> !sawInit)
      && (sawInit ==> s.status.Init?)
  }

  /** A step adds the record of its own thread or none. */
  ghost predicate RecordEffect<V>(s: State<V>, s': State<V>, t: Thread) {
    s'.returned == s.returned || (|s'.returned| == |s.returned| + 1 && s.returned <= s'.returned
                                  && s'.returned[|s.returned|].thread == t && At(s', t).Idle?)
  }

  lemma StepRecordEffect<V>(s: State<V>, step: Step<V>)
    requires Enabled(s, step)
    ensures RecordEffect(s, Apply(s, step), step.thread)
  {
  }

  lemma OthersKeepRecords<V>(s: State<V>, s': State<V>, u: Thread, t: Thread)
    requires RecordEffect(s, s', u) && u != t
    ensures RecordsOf(s'.returned, t) == RecordsOf(s.returned, t)
  {
    if s'.returned != s.returned {
      var r := s'.returned[|s.returned|];
      assert s'.returned == s.returned + [r];
      RecordsOfSnoc(s.returned, r, t);
    }
  }

  lemma OthersKeepOnCourse<V>(s: State<V>, step: Step<V>, t: Thread, call: Call<V>, sawInit: bool, before: seq<Record<V>>)
    requires Inv(s) && OnCourse(s, t, call, sawInit, before) && Enabled(s, step) && step.thread != t
    ensures OnCourse(Apply(s, step), t, call, sawInit, before)
  {
    StepRecordEffect(s, step);
    OthersKeepRecords(s, Apply(s, step), step.thread, t);
    StepCellEffect(s, step);
    assert Working(At(s, step.thread)) ==> s.status.Running?;
  }

  lemma OwnStepOnCourse<V>(s: State<V>, t: Thread, x: bool, call: Call<V>, sawInit: bool, before: seq<Record<V>>)
    requires Inv(s) && OnCourse(s, t, call, sawInit, before) && Enabled(s, Go(t, x))
    ensures OnCourse(Apply(s, Go(t, x)), t, call, sawInit, before)
  {
    var s' := Apply(s, Go(t, x));
    assert CellAt(s, At(s, t)) && Inside(At(s, t));
    if s'.returned != s.returned {
      var r := s'.returned[|s.returned|];
      assert s'.returned == s.returned + [r];
      RecordsOfSnoc(s.returned, r, t);
    }
  }

  lemma {:induction false} StaysOnCourse<V>(s: State<V>, steps: seq<Step<V>>, s': State<V>, t: Thread, call: Call<V>,
                                            sawInit: bool, before: seq<Record<V>>)
    requires Inv(s) && OnCourse(s, t, call, sawInit, before) && Runs(s, steps, s') && NoNewCall(steps, t)
    ensures OnCourse(s', t, call, sawInit, before)
    decreases |steps|
  {
    if steps != [] {
      var step := steps[0];
      if step.thread == t {
        OwnStepOnCourse(s, t, step.spurious, call, sawInit, before);
      } else {
        OthersKeepOnCourse(s, step, t, call, sawInit, before);
      }
      StepKeepsInv(s, step);
      StaysOnCourse(Apply(s, step), steps[1..], s', t, call, sawInit, before);
    }
  }

  predicate NoNewCall<V>(steps: seq<Step<V>>, t: Thread) {
    forall i :: 0 <= i < |steps| && steps[i].Begin? ==> steps[i].thread != t
  }

  lemma LoadOnCourse<V>(s: State<V>, t: Thread, call: Call<V>, x: bool)
    requires Inv(s) && At(s, t) == FirstLoad(call)
    ensures OnCourse(Apply(s, Go(t, x)), t, call, s.status.Init?, RecordsOf(s.returned, t))
  {
    var s' := Apply(s, Go(t, x));
    if s'.returned != s.returned {
      var r := s'.returned[|s.returned|];
      assert s'.returned == s.returned + [r];
      RecordsOfSnoc(s.returned, r, t);
    }
  }

  /** What every call returns, on every run: if it has ended since its first load it ended once, with the
      outcome that load decides. A `get` or `try_get` that finds INIT returns the one value written, and
      fails exactly if it does not find it. */
  lemma CallReturns<V>(start: State<V>, first: seq<Step<V>>, s: State<V>, t: Thread, x: bool, steps: seq<Step<V>>, s': State<V>)
    requires start == New() || (exists v :: start == WithValue(v))
    requires Runs(start, first, s) && At(s, t).FirstLoad?
    requires Runs(Apply(s, Go(t, x)), steps, s') && NoNewCall(steps, t)
    ensures var call, before, after := At(s, t).call, RecordsOf(s.returned, t), RecordsOf(s'.returned, t);
            if !At(s', t).Idle? then after == before
            else
              && |after| == |before| + 1 && before <= after && after[|before|].call == call
              && after[|before|].outcome == Expected(call, s.status.Init?, s'.inner)
              && (after[|before|].outcome.Value? ==> s'.written == [after[|before|].outcome.value])
              && !after[|before|].outcome.Garbage?
  {
    assert Inv(start);
    RunKeepsInv(start, first, s);
    StepKeepsInv(s, Go(t, x));
    LoadOnCourse(s, t, At(s, t).call, x);
    StaysOnCourse(Apply(s, Go(t, x)), steps, s', t, At(s, t).call, s.status.Init?, RecordsOf(s.returned, t));
    RunKeepsInv(Apply(s, Go(t, x)), steps, s');
  }

  /** A lock built with a value is initialised from the start: on every run nobody initialises, and every
      call that ended returned as if its first load saw INIT, with that value. */
  lemma {:induction false} WithValueStays<V>(v: V, s: State<V>, steps: seq<Step<V>>, s': State<V>)
    requires BuiltWith(s, v) && Runs(s, steps, s')
    ensures BuiltWith(s', v)
    decreases |steps|
  {
    if steps != [] {
      BuiltWithStep(v, s, steps[0]);
      WithValueStays(v, Apply(s, steps[0]), steps[1..], s');
    }
  }

  ghost predicate BuiltWith<V>(s: State<V>, v: V) {
    && s.status.Init? && s.inner == Some(v) && s.written == [v] && s.entered == []
    && (forall t :: At(s, t).Idle? || At(s, t).FirstLoad? || PlainRead(At(s, t)))
    && (forall r :: r in s.returned ==> r.outcome == Expected(r.call, true, Some(v)) && !r.ran)
  }

  predicate PlainRead<V>(p: Position<V>) {
    p.Read? && p.origin.None? && !p.ran && !p.call.InitOnce? && !p.call.TryInitOnce?
  }

  lemma BuiltWithStep<V>(v: V, s: State<V>, step: Step<V>)
    requires BuiltWith(s, v) && Enabled(s, step)
    ensures BuiltWith(Apply(s, step), v)
  {
    var s' := Apply(s, step);
    assert forall u :: u != step.thread ==> At(s', u) == At(s, u);
  }

  lemma WithValueInitialised<V>(v: V, steps: seq<Step<V>>, s: State<V>)
    requires Runs(WithValue(v), steps, s)
    ensures s.status.Init? && s.written == [v] && s.entered == []
    ensures forall r :: r in s.returned ==> r.outcome == Expected(r.call, true, Some(v)) && !r.ran
  {
    WithValueStays(v, WithValue(v), steps, s);
  }

  /** Steps of one thread alone, none of whose exchanges fails for no reason. */
  function Alone<V>(s: State<V>, t: Thread, n: nat): State<V>
    decreases n
  {
    if n == 0 || !Enabled(s, Go(t, false)) then s else Alone(Apply(s, Go(t, false)), t, n - 1)
  }

  function StepsToEnd<V>(p: Position<V>): nat {
    match p
    case Idle => 0
    case FirstLoad(_) => 6
    case Exchange(_, _) => 5
    case Initialise(_, _) => 4
    case Publish(_, _) => 3
    case Return(_, _, _) => 2
    case Read(_, _, _) => 1
  }

  /** Every call ends, within six steps of its own, unless another thread is running its initialiser. */
  lemma {:induction false} CallEnds<V>(s: State<V>, t: Thread, n: nat)
    requires Inv(s) && StepsToEnd(At(s, t)) <= n && (s.status.Running? ==> Working(At(s, t)))
    ensures At(Alone(s, t, n), t).Idle?
    decreases n
  {
    if !At(s, t).Idle? {
      var next := Apply(s, Go(t, false));
      assert CellAt(s, At(s, t)) && Inside(At(s, t));
      StepKeepsInv(s, Go(t, false));
      AloneProgress(s, t);
      CallEnds(next, t, n - 1);
    }
  }

  lemma AloneProgress<V>(s: State<V>, t: Thread)
    requires Inv(s) && !At(s, t).Idle? && (s.status.Running? ==> Working(At(s, t)))
    ensures var next := Apply(s, Go(t, false));
            StepsToEnd(At(next, t)) < StepsToEnd(At(s, t)) && (next.status.Running? ==> Working(At(next, t)))
  {
    assert CellAt(s, At(s, t)) && Inside(At(s, t));
    assert Working(At(s, t)) ==> s.status.Running?;
  }

  // ---------------------------------------------------------------- who ran the initialiser

  /** The place among `entered` of the call a thread is in. */
  function EntryOf<V>(p: Position<V>): Option<nat> {
    match p
    case Idle => None
    case FirstLoad(_) => None
    case Read(_, origin, _) => origin
    case _ => Some(p.entry)
  }

  /** What a call knows about its own initialiser agrees with who won the exchange. */
  predicate PositionOk<V(==)>(s: State<V>, p: Position<V>) {
    && (EntryOf(p).Some? ==> EntryOf(p).value < |s.entered| && s.entered[EntryOf(p).value] == p.call)
    && (p.Exchange? ==> s.winner != Some(p.entry))
    && (p.Initialise? || p.Publish? ==> s.winner == Some(p.entry))
    && (p.Return? ==> p.ran == (s.winner == Some(p.entry)))
    && (p.Read? ==> p.ran == (p.origin.Some? && s.winner == p.origin))
  }

  predicate RecordOk<V(==)>(s: State<V>, r: Record<V>) {
    && (r.entry.Some? ==> r.entry.value < |s.entered| && s.entered[r.entry.value] == r.call)
    && r.ran == (r.entry.Some? && s.winner == r.entry)
    && (r.call.TryInitOnce? ==> r.outcome == if r.entry.Some? then Unit else AlreadyInitialized)
  }

  predicate WinnerOk<V(==)>(s: State<V>) {
    && (s.winner.None? ==> s.status.Uninit? || (s.status.Init? && s.entered == []))
    && (s.winner.Some? ==> !s.status.Uninit? && s.winner.value < |s.entered|)
    && (forall k :: 0 <= k < |s.entered| ==> Initialises(s.entered[k]))
    && (s.winner.Some? && s.inner.Some? ==> s.inner.value == s.entered[s.winner.value].value)
  }

  ghost predicate WinnersAgree<V>(s: State<V>) {
    && WinnerOk(s)
    && (forall t :: PositionOk(s, At(s, t)))
    && (forall i :: 0 <= i < |s.returned| ==> RecordOk(s, s.returned[i]))
  }

  ghost predicate InFlight<V>(s: State<V>, k: nat) {
    exists t :: EntryOf(At(s, t)) == Some(k)
  }

  predicate Ended<V>(s: State<V>, k: nat) {
    exists i :: 0 <= i < |s.returned| && s.returned[i].entry == Some(k)
  }

  /** Each entered call is in flight in one thread, or ended once, and not both. */
  ghost predicate EntriesCounted<V>(s: State<V>) {
    && (forall t, u :: EntryOf(At(s, t)).Some? && EntryOf(At(s, t)) == EntryOf(At(s, u)) ==> t == u)
    && (forall i, j :: 0 <= i < j < |s.returned| && s.returned[i].entry.Some? ==>
          s.returned[i].entry != s.returned[j].entry)
    && (forall k :: 0 <= k < |s.entered| ==> InFlight(s, k) != Ended(s, k))
  }

  ghost predicate Traced<V>(s: State<V>) {
    Inv(s) && WinnersAgree(s) && EntriesCounted(s)
  }

  lemma LoadKeepsWinner<V>(s: State<V>, t: Thread, call: Call<V>)
    requires WinnerOk(s) && At(s, t) == FirstLoad(call)
    ensures var s' := AfterFirstLoad(s, t, call); WinnerOk(s') && PositionOk(s', At(s', t))
  {
  }

  lemma ExchangeKeepsWinner<V>(s: State<V>, t: Thread, call: Call<V>, k: nat, spurious: bool)
    requires WinnerOk(s) && CellOk(s) && At(s, t) == Exchange(call, k) && PositionOk(s, At(s, t))
    ensures var s' := AfterExchange(s, t, call, k, spurious); WinnerOk(s') && PositionOk(s', At(s', t))
  {
  }

  lemma StepKeepsWinner<V>(s: State<V>, step: Step<V>)
    requires WinnerOk(s) && OneWinner(s) && WrittenOnce(s) && PositionOk(s, At(s, step.thread)) && Enabled(s, step)
    ensures var s' := Apply(s, step); WinnerOk(s') && PositionOk(s', At(s', step.thread))
  {
    var t := step.thread;
    if step.Go? {
      assert Working(At(s, t)) ==> s.status.Running?;
      assert CellAt(s, At(s, t));
      match At(s, t) {
        case FirstLoad(call) => LoadKeepsWinner(s, t, call);
        case Exchange(call, k) => ExchangeKeepsWinner(s, t, call, k, step.spurious);
        case _ =>
      }
    }
  }

  /** Only a step at the exchange makes a winner, and makes its own call the winner. */
  predicate WinnerEffect<V(==)>(s: State<V>, s': State<V>, t: Thread) {
    && s.entered <= s'.entered
    && (s'.winner == s.winner || (s.winner.None? && At(s, t).Exchange? && s'.winner == Some(At(s, t).entry)))
  }

  lemma StepWinnerEffect<V>(s: State<V>, step: Step<V>)
    requires WinnerOk(s) && Enabled(s, step)
    ensures WinnerEffect(s, Apply(s, step), step.thread)
  {
  }

  lemma EffectKeepsPosition<V>(s: State<V>, s': State<V>, t: Thread, p: Position<V>)
    requires WinnerEffect(s, s', t) && PositionOk(s, p)
    requires EntryOf(At(s, t)).Some? ==> EntryOf(p) != EntryOf(At(s, t))
    ensures PositionOk(s', p)
  {
  }

  /** Nobody who already ended can be the one who now wins the exchange. */
  lemma StepKeepsRecordsOk<V>(s: State<V>, step: Step<V>)
    requires Traced(s) && Enabled(s, step)
    ensures var s' := Apply(s, step); forall i :: 0 <= i < |s'.returned| ==> RecordOk(s', s'.returned[i])
  {
    var s' := Apply(s, step);
    StepWinnerEffect(s, step);
    StepAppends(s, step);
    forall i | 0 <= i < |s'.returned| ensures RecordOk(s', s'.returned[i]) {
      if i < |s.returned| { OldRecordStays(s, s', step.thread, i); } else { NewRecordOk(s, step); }
    }
  }

  lemma OldRecordStays<V>(s: State<V>, s': State<V>, t: Thread, i: nat)
    requires Traced(s) && WinnerEffect(s, s', t) && i < |s.returned|
    ensures RecordOk(s', s.returned[i])
  {
    var r := s.returned[i];
    assert RecordOk(s, r);
    if r.entry.Some? && r.entry == EntryOf(At(s, t)) {
      assert InFlight(s, r.entry.value) && Ended(s, r.entry.value);
    }
  }

  lemma NewRecordOk<V>(s: State<V>, step: Step<V>)
    requires Traced(s) && Enabled(s, step) && |Apply(s, step).returned| > |s.returned|
    ensures RecordOk(Apply(s, step), Apply(s, step).returned[|s.returned|])
  {
    assert PositionOk(s, At(s, step.thread));
  }

  /** A step of `t` keeps its entry, gives it the next one, or ends the call that had it. */
  ghost predicate EntryEffect<V>(s: State<V>, s': State<V>, t: Thread) {
    && (forall u :: u != t ==> At(s', u) == At(s, u))
    && var before, after := EntryOf(At(s, t)), EntryOf(At(s', t));
       || (after == before && s'.entered == s.entered && s'.returned == s.returned)
       || (before == None && after == Some(|s.entered|) && s'.returned == s.returned
           && |s'.entered| == |s.entered| + 1 && s.entered <= s'.entered)
       || (after == None && s'.entered == s.entered && Ends(s, s', before))
  }

  /** One more call has ended, with this entry. */
  predicate Ends<V(==)>(s: State<V>, s': State<V>, entry: Option<nat>) {
    |s'.returned| == |s.returned| + 1 && s.returned <= s'.returned && s'.returned[|s.returned|].entry == entry
  }

  lemma LoadEntryEffect<V>(s: State<V>, t: Thread, call: Call<V>)
    requires At(s, t) == FirstLoad(call)
    ensures EntryEffect(s, AfterFirstLoad(s, t, call), t)
  {
  }

  lemma ExchangeEntryEffect<V>(s: State<V>, t: Thread, call: Call<V>, k: nat, spurious: bool)
    requires At(s, t) == Exchange(call, k)
    ensures EntryEffect(s, AfterExchange(s, t, call, k, spurious), t)
  {
  }

  lemma StepEntryEffect<V>(s: State<V>, step: Step<V>)
    requires Enabled(s, step)
    ensures EntryEffect(s, Apply(s, step), step.thread)
  {
    var t := step.thread;
    if step.Go? {
      match At(s, t) {
        case FirstLoad(call) => LoadEntryEffect(s, t, call);
        case Exchange(call, k) => ExchangeEntryEffect(s, t, call, k, step.spurious);
        case _ =>
      }
    }
  }

  ghost predicate EntriesInRange<V>(s: State<V>) {
    && (forall t :: EntryOf(At(s, t)).Some? ==> EntryOf(At(s, t)).value < |s.entered|)
    && (forall i :: 0 <= i < |s.returned| && s.returned[i].entry.Some? ==> s.returned[i].entry.value < |s.entered|)
  }

  lemma EntryStaysCounted<V>(s: State<V>, s': State<V>, t: Thread, k: nat)
    requires EntriesCounted(s) && EntriesInRange(s) && EntryEffect(s, s', t) && k < |s.entered|
    ensures InFlight(s', k) != Ended(s', k)
  {
    if EntryOf(At(s, t)) == Some(k) {
      assert InFlight(s, k) && !Ended(s, k);
      if EntryOf(At(s', t)) == Some(k) {
        assert InFlight(s', k);
      } else {
        assert s'.returned[|s.returned|].entry == Some(k);
        forall u ensures EntryOf(At(s', u)) != Some(k) {
          assert u != t ==> At(s', u) == At(s, u);
        }
      }
    } else if InFlight(s, k) {
      var u :| EntryOf(At(s, u)) == Some(k);
      assert EntryOf(At(s', u)) == Some(k);
      forall i | 0 <= i < |s'.returned| ensures s'.returned[i].entry != Some(k) {
        assert i < |s.returned| ==> s'.returned[i] == s.returned[i];
      }
    } else {
      var i :| 0 <= i < |s.returned| && s.returned[i].entry == Some(k);
      assert s'.returned[i].entry == Some(k);
      forall u ensures EntryOf(At(s', u)) != Some(k) {
        assert u != t ==> At(s', u) == At(s, u);
      }
    }
  }

  lemma NewEntryCounted<V>(s: State<V>, s': State<V>, t: Thread)
    requires EntriesInRange(s) && EntryEffect(s, s', t) && |s'.entered| == |s.entered| + 1
    ensures InFlight(s', |s.entered|) && !Ended(s', |s.entered|)
  {
    assert EntryOf(At(s', t)) == Some(|s.entered|);
  }

  lemma EffectKeepsEntriesCounted<V>(s: State<V>, s': State<V>, t: Thread)
    requires EntriesCounted(s) && EntriesInRange(s) && EntryEffect(s, s', t)
    ensures EntriesCounted(s')
  {
    forall k | 0 <= k < |s'.entered| ensures InFlight(s', k) != Ended(s', k) {
      if k < |s.entered| { EntryStaysCounted(s, s', t, k); } else { NewEntryCounted(s, s', t); }
    }
    forall i, j | 0 <= i < j < |s'.returned| && s'.returned[i].entry.Some?
      ensures s'.returned[i].entry != s'.returned[j].entry
    {
      assert s'.returned[i] == s.returned[i];
      if j == |s.returned| {
        assert Ended(s, s.returned[i].entry.value) && !InFlight(s, s.returned[i].entry.value);
      }
    }
  }

  lemma StepKeepsEntriesCounted<V>(s: State<V>, step: Step<V>)
    requires Traced(s) && Enabled(s, step)
    ensures EntriesCounted(Apply(s, step))
  {
    StepEntryEffect(s, step);
    forall t ensures EntryOf(At(s, t)).Some? ==> EntryOf(At(s, t)).value < |s.entered| {
      assert PositionOk(s, At(s, t));
    }
    forall i | 0 <= i < |s.returned| ensures s.returned[i].entry.Some? ==> s.returned[i].entry.value < |s.entered| {
      assert RecordOk(s, s.returned[i]);
    }
    EffectKeepsEntriesCounted(s, Apply(s, step), step.thread);
  }

  lemma StepKeepsPosition<V>(s: State<V>, step: Step<V>, u: Thread)
    requires Traced(s) && Enabled(s, step)
    ensures PositionOk(Apply(s, step), At(Apply(s, step), u))
  {
    if u == step.thread {
      assert PositionOk(s, At(s, u));
      StepKeepsWinner(s, step);
    } else {
      StepStatusEffect(s, step);
      StepWinnerEffect(s, step);
      EffectKeepsPosition(s, Apply(s, step), step.thread, At(s, u));
    }
  }

  lemma StepKeepsWinnersAgree<V>(s: State<V>, step: Step<V>)
    requires Traced(s) && Enabled(s, step)
    ensures WinnersAgree(Apply(s, step))
  {
    var s' := Apply(s, step);
    assert PositionOk(s, At(s, step.thread));
    StepKeepsWinner(s, step);
    forall u ensures PositionOk(s', At(s', u)) {
      StepKeepsPosition(s, step, u);
    }
    StepKeepsRecordsOk(s, step);
  }

  lemma StepKeepsTraced<V>(s: State<V>, step: Step<V>)
    requires Traced(s) && Enabled(s, step)
    ensures Traced(Apply(s, step)) && s.entered <= Apply(s, step).entered
  {
    StepKeepsInv(s, step);
    StepKeepsWinnersAgree(s, step);
    StepKeepsEntriesCounted(s, step);
    StepEntryEffect(s, step);
  }

  lemma {:induction false} RunKeepsTraced<V>(s: State<V>, steps: seq<Step<V>>, s': State<V>)
    requires Traced(s) && Runs(s, steps, s')
    ensures Traced(s') && s.entered <= s'.entered
    decreases |steps|
  {
    if steps != [] {
      StepKeepsTraced(s, steps[0]);
      RunKeepsTraced(Apply(s, steps[0]), steps[1..], s');
    }
  }

  // ---------------------------------------------------------------- what try_init_once promises

  lemma StartTraced<V>(start: State<V>)
    requires start == New() || (exists v :: start == WithValue(v))
    ensures Traced(start)
  {
  }

  lemma EnteredRecord<V>(s: State<V>, i: nat)
    requires Traced(s) && i < |s.returned| && s.returned[i].entry.Some?
    ensures s.status.Init? && s.winner.Some?
  {
    assert RecordOk(s, s.returned[i]) && GoodRecord(s, s.returned[i]);
    assert Initialises(s.entered[s.returned[i].entry.value]);
  }

  /** On every run: `try_init_once` fails exactly when its first load saw INIT and reports success
      otherwise; a call ran its own initialiser exactly when it won the exchange; at most one did; the
      value stored is the winner's; and a call nobody raced with ran its own. */
  lemma TryInitOutcomes<V>(start: State<V>, steps: seq<Step<V>>, s: State<V>)
    requires start == New() || (exists v :: start == WithValue(v))
    requires Runs(start, steps, s)
    ensures forall r :: r in s.returned && r.call.TryInitOnce? ==>
              (r.outcome.AlreadyInitialized? <==> r.entry.None?) && (r.outcome.Unit? <==> r.entry.Some?)
    ensures forall r :: r in s.returned ==> (r.ran <==> r.entry.Some? && r.entry == s.winner)
    ensures forall i, j :: 0 <= i < j < |s.returned| ==> !(s.returned[i].ran && s.returned[j].ran)
    ensures s.winner.Some? ==> s.winner.value < |s.entered| && Initialises(s.entered[s.winner.value])
    ensures s.winner.Some? && s.written != [] ==> s.written == [s.entered[s.winner.value].value]
    ensures |s.entered| <= 1 ==> forall r :: r in s.returned && r.entry.Some? ==> r.ran
  {
    StartTraced(start);
    RunKeepsTraced(start, steps, s);
    forall r | r in s.returned ensures RecordOk(s, r) && (|s.entered| <= 1 && r.entry.Some? ==> r.ran) {
      var i :| 0 <= i < |s.returned| && s.returned[i] == r;
      assert RecordOk(s, s.returned[i]);
      if r.entry.Some? {
        EnteredRecord(s, i);
      }
    }
    forall i, j | 0 <= i < j < |s.returned| ensures !(s.returned[i].ran && s.returned[j].ran) {
      assert s.returned[i] in s.returned && s.returned[j] in s.returned;
    }
  }

  ghost predicate AllEnded<V>(s: State<V>) {
    forall t :: EntryOf(At(s, t)).None?
  }

  lemma EndedEntry<V>(s: State<V>, k: nat) returns (r: Record<V>)
    requires Traced(s) && AllEnded(s) && k < |s.entered|
    ensures r in s.returned && r.entry == Some(k) && r.call == s.entered[k]
    ensures r.ran == (s.winner == Some(k)) && (r.call.TryInitOnce? ==> r.outcome.Unit?)
  {
    assert !InFlight(s, k) && Ended(s, k);
    var i :| 0 <= i < |s.returned| && s.returned[i].entry == Some(k);
    r := s.returned[i];
    assert RecordOk(s, r);
  }

  lemma RecordsPointBack<V>(s: State<V>)
    requires Traced(s)
    ensures forall r :: r in s.returned && r.entry.Some? ==>
              r.entry.value < |s.entered| && s.entered[r.entry.value] == r.call
  {
    forall r | r in s.returned && r.entry.Some?
      ensures r.entry.value < |s.entered| && s.entered[r.entry.value] == r.call
    {
      var i :| 0 <= i < |s.returned| && s.returned[i] == r;
      assert RecordOk(s, s.returned[i]);
    }
  }

  /** When success means that the caller's own initialiser ran, once every call that entered has ended.
      Over all three initialising calls: exactly when at most one of them got past its first load before
      INIT was published. Over `try_init_once` alone: exactly when no `try_init_once` but the winner did. */
  lemma SuccessMeansOwnIff<V>(start: State<V>, steps: seq<Step<V>>, s: State<V>)
    requires start == New() || (exists v :: start == WithValue(v))
    requires Runs(start, steps, s) && AllEnded(s)
    ensures (forall r :: r in s.returned && r.entry.Some? ==> r.ran) <==> |s.entered| <= 1
    ensures (forall r :: r in s.returned && r.call.TryInitOnce? && r.outcome.Unit? ==> r.ran)
            <==> (forall k :: 0 <= k < |s.entered| && s.entered[k].TryInitOnce? ==> s.winner == Some(k))
  {
    StartTraced(start);
    RunKeepsTraced(start, steps, s);
    TryInitOutcomes(start, steps, s);
    RecordsPointBack(s);
    if |s.entered| >= 2 {
      var r := EndedEntry(s, if s.winner == Some(0) then 1 else 0);
      assert !r.ran;
    }
    if k :| 0 <= k < |s.entered| && s.entered[k].TryInitOnce? && s.winner != Some(k) {
      var r := EndedEntry(s, k);
      assert !r.ran;
    }
  }

  // ---------------------------------------------------------------- the race

  /** Two callers of `try_init_once` have both loaded the status before either initialised. */
  function RaceStart<V>(a: Thread, x: V, b: Thread, y: V): State<V> {
    var p, q := TryInitOnce(x), TryInitOnce(y);
    New().(at := map[a := Exchange(p, 0), b := Exchange(q, 1)], entered := [p, q])
  }

  function ToRace<V>(a: Thread, x: V, b: Thread, y: V): seq<Step<V>> {
    [Begin(a, TryInitOnce(x)), Begin(b, TryInitOnce(y)), Go(a, false), Go(b, false)]
  }

  lemma RaceReached<V>(a: Thread, x: V, b: Thread, y: V)
    requires a != b
    ensures Runs(New(), ToRace(a, x, b, y), RaceStart(a, x, b, y))
  {
    var p, q := TryInitOnce(x), TryInitOnce(y);
    var s1 := Apply(New(), Begin(a, p));
    var s2 := Apply(s1, Begin(b, q));
    var s3 := Apply(s2, Go(a, false));
    var s4 := Apply(s3, Go(b, false));
    assert s4 == RaceStart(a, x, b, y);
    var steps := ToRace(a, x, b, y);
    assert Runs(s4, steps[1..][1..][1..][1..], s4);
    assert Runs(s3, steps[1..][1..][1..], s4);
    assert Runs(s2, steps[1..][1..], s4);
    assert Runs(s1, steps[1..], s4);
  }

  /** `try_init_once` reports success to a caller whose initialiser never ran: however the race goes on,
      and whoever joins it, once both calls have ended both have reported success, not both ran their
      initialiser, and a single value is stored. */
  lemma LoserAlsoReportsSuccess<V>(a: Thread, x: V, b: Thread, y: V, steps: seq<Step<V>>, s: State<V>)
    requires a != b && Runs(RaceStart(a, x, b, y), steps, s) && Ended(s, 0) && Ended(s, 1)
    ensures forall r :: r in s.returned && (r.entry == Some(0) || r.entry == Some(1)) ==>
              && r.call == TryInitOnce(if r.entry == Some(0) then x else y)
              && r.outcome.Unit?
              && (r.ran ==> s.written == [r.call.value])
    ensures |s.written| == 1
    ensures exists r :: r in s.returned && (r.entry == Some(0) || r.entry == Some(1)) && !r.ran
  {
    RaceReached(a, x, b, y);
    StartTraced(New<V>());
    RunKeepsTraced(New(), ToRace(a, x, b, y), RaceStart(a, x, b, y));
    RunKeepsTraced(RaceStart(a, x, b, y), steps, s);
    assert s.entered[0] == TryInitOnce(x) && s.entered[1] == TryInitOnce(y);
    forall r | r in s.returned ensures RecordOk(s, r) && GoodRecord(s, r) {
      var i :| 0 <= i < |s.returned| && s.returned[i] == r;
      assert RecordOk(s, s.returned[i]) && GoodRecord(s, s.returned[i]);
    }
    var i :| 0 <= i < |s.returned| && s.returned[i].entry == Some(0);
    var j :| 0 <= j < |s.returned| && s.returned[j].entry == Some(1);
    assert s.returned[i] in s.returned && s.returned[j] in s.returned;
  }

  lemma {:induction false} RunsCat<V>(s: State<V>, a: seq<Step<V>>, m: State<V>, b: seq<Step<V>>, s': State<V>)
    requires Runs(s, a, m) && Runs(m, b, s')
    ensures Runs(s, a + b, s')
    decreases |a|
  {
    if a == [] {
      assert a + b == b;
    } else {
      RunsCat(Apply(s, a[0]), a[1..], m, b, s');
      assert (a + b)[1..] == a[1..] + b;
    }
  }

  lemma TwoSteps<V>(s: State<V>, x: Step<V>, m: State<V>, y: Step<V>, s': State<V>)
    requires Enabled(s, x) && m == Apply(s, x) && Enabled(m, y) && s' == Apply(m, y)
    ensures Runs(s, [x, y], s')
  {
    assert [x, y][1..] == [y] && [y][1..] == [];
    assert Runs(s', [], s');
    assert Runs(m, [y], s');
  }

  /** The race can end: the first caller wins and publishes, then the second comes back. */
  lemma RaceEnds<V>(a: Thread, x: V, b: Thread, y: V) returns (s: State<V>)
    requires a != b
    ensures var g, h: Step<V> := Go(a, false), Go(b, false); Runs(RaceStart(a, x, b, y), [g, g, g, g, h, h], s)
    ensures s.returned == [Record(a, TryInitOnce(x), Unit, Some(0), true),
                           Record(b, TryInitOnce(y), Unit, Some(1), false)]
    ensures s.written == [x] && Ended(s, 0) && Ended(s, 1)
  {
    var g, h: Step<V> := Go(a, false), Go(b, false);
    var s1 := Apply(RaceStart(a, x, b, y), g);
    var s2 := Apply(s1, g);
    var s3 := Apply(s2, g);
    var s4 := Apply(s3, g);
    var s5 := Apply(s4, h);
    s := Apply(s5, h);
    TwoSteps(s4, h, s5, h, s);
    TwoSteps(s2, g, s3, g, s4);
    TwoSteps(RaceStart(a, x, b, y), g, s1, g, s2);
    RunsCat(s2, [g, g], s4, [h, h], s);
    RunsCat(RaceStart(a, x, b, y), [g, g], s2, [g, g] + [h, h], s);
    assert [g, g] + ([g, g] + [h, h]) == [g, g, g, g, h, h];
    assert s.returned[0].entry == Some(0) && s.returned[1].entry == Some(1);
  }
}
