/**
 Provisioning as a state machine. Webhook handlers (queueProvision), the background worker
 (provisionLoop), and the other callers of the store (PUT, DELETE and the idle collector) interleave
 at their atomic points; every tc command succeeds or fails without effect, and nothing else touches
 the user classes during a run.
 */
module Protocol {
  import opened Options
  import opened Marks

  const MAX_RATE := 0xffff_ffff
  type Rate = r: nat | r <= MAX_RATE

  datatype Config = Config(queues: nat, capacity: nat, perUser: Rate) {
    predicate Valid() { QueueCount(queues) && capacity > 0 }
  }

  /** A call of the store. */
  datatype Op = Set(mark: Mark32, rate: Rate) | Delete(mark: Mark32)

  /**
   Where a goroutine is. Load, Send and Drop are the points of queueProvision after its Get; Lock, Tc,
   Base and Unlock are those of the store's Set and Delete; Flag is the worker's deletion of the flag.
   */
  datatype Pc =
    | Idle
    | Load(mark: Mark32) | Send(mark: Mark32) | Drop(mark: Mark32)
    | Lock(op: Op) | Tc(op: Op) | Base(op: Op) | Unlock(op: Op)
    | Flag(mark: Mark32)
  {
    predicate Critical() { Tc? || Base? || Unlock? }
    predicate InStore() { Lock? || Critical() }
    /** Before the record of the store changes. */
    predicate Unrecorded() { Lock? || Tc? || Base? }
  }

  datatype Tid = Worker | Caller(id: nat)

  datatype State = State(
    queued: set<Mark32>,
    chan: seq<Mark32>,
    lock: Option<Tid>,
    base: map<Mark32, Rate>,
    kernel: map<Mark32, nat>,
    worker: Pc,
    callers: seq<Pc>)
  {
    predicate Has(t: Tid) { t.Worker? || t.id < |callers| }

    function At(t: Tid): Pc
      requires Has(t)
    {
      if t.Worker? then worker else callers[t.id]
    }

    function Goto(t: Tid, pc: Pc): State
      requires Has(t)
    {
      if t.Worker? then this.(worker := pc) else this.(callers := callers[t.id := pc])
    }
  }

  /** One atomic step of one goroutine. */
  datatype Step =
    | Get(i: nat, mark: Mark32)
    | LoadOrStore(i: nat)
    | TrySend(i: nat)
    | Undo(i: nat)
    | Call(i: nat, op: Op)
    | Receive
    | Acquire(t: Tid)
    | RunTc(t: Tid, ok: bool)
    | Record(t: Tid)
    | Release(t: Tid)
    | ClearFlag
  {
    function Actor(): Tid {
      match this
      case Get(i, _) => Caller(i)
      case LoadOrStore(i) => Caller(i)
      case TrySend(i) => Caller(i)
      case Undo(i) => Caller(i)
      case Call(i, _) => Caller(i)
      case Receive => Worker
      case Acquire(t) => t
      case RunTc(t, _) => t
      case Record(t) => t
      case Release(t) => t
      case ClearFlag => Worker
    }

    /** A new webhook or a new store call, as opposed to a step of one already under way. */
    predicate Starts() { Get? || Call? }
  }

  predicate Enabled(cfg: Config, s: State, step: Step) {
    && s.Has(step.Actor())
    && var pc := s.At(step.Actor());
    match step
    case Get(_, m) => pc.Idle? && cfg.perUser > 0 && UserMark(m, cfg.queues)
    case LoadOrStore(_) => pc.Load?
    case TrySend(_) => pc.Send?
    case Undo(_) => pc.Drop?
    case Call(_, op) => pc.Idle? && (op.Set? ==> op.rate > 0)
    case Receive => pc.Idle? && s.chan != []
    case Acquire(_) => pc.Lock? && s.lock == None
    case RunTc(_, _) => pc.Tc?
    case Record(_) => pc.Base?
    case Release(_) => pc.Unlock?
    case ClearFlag => pc.Flag?
  }

  /** What one tc command leaves in the kernel: the classes, and whether it reported success. */
  function TcEffect(queues: nat, kernel: map<Mark32, nat>, op: Op, ok: bool): (map<Mark32, nat>, bool) {
    match op
    case Set(m, r) => if UserMark(m, queues) && ok then (kernel[m := r], true) else (kernel, false)
    case Delete(m) =>
      if !UserMark(m, queues) then (kernel, true)
      else if ok then (kernel - {m}, true)
      else (kernel, false)
  }

  function BaseEffect(base: map<Mark32, Rate>, op: Op): map<Mark32, Rate> {
    match op
    case Set(m, r) => base[m := r]
    case Delete(m) => base - {m}
  }

  function Apply(cfg: Config, s: State, step: Step): State
    requires Enabled(cfg, s, step)
  {
    var t := step.Actor();
    var pc := s.At(t);
    match step
    case Get(_, m) => if m in s.base then s else s.Goto(t, Load(m))
    case LoadOrStore(_) =>
      if pc.mark in s.queued then s.Goto(t, Idle)
      else s.(queued := s.queued + {pc.mark}).Goto(t, Send(pc.mark))
    case TrySend(_) =>
      if |s.chan| < cfg.capacity then s.(chan := s.chan + [pc.mark]).Goto(t, Idle)
      else s.Goto(t, Drop(pc.mark))
    case Undo(_) => s.(queued := s.queued - {pc.mark}).Goto(t, Idle)
    case Call(_, op) => s.Goto(t, Lock(op))
    case Receive => s.(chan := s.chan[1..]).Goto(t, Lock(Set(s.chan[0], cfg.perUser)))
    case Acquire(_) => s.(lock := Some(t)).Goto(t, Tc(pc.op))
    case RunTc(_, ok) =>
      var (kernel, done) := TcEffect(cfg.queues, s.kernel, pc.op, ok);
      s.(kernel := kernel).Goto(t, if done then Base(pc.op) else Unlock(pc.op))
    case Record(_) => s.(base := BaseEffect(s.base, pc.op)).Goto(t, Unlock(pc.op))
    case Release(_) =>
      s.(lock := None).Goto(t, if t.Worker? then Flag(pc.op.mark) else Idle)
    case ClearFlag => s.(queued := s.queued - {pc.mark}).Goto(t, Idle)
  }

  // ----- the invariant -----

  /** Rates are listed by the kernel capped at 32 bits. */
  function Capped(rate: nat): Rate {
    if rate <= MAX_RATE then rate else MAX_RATE
  }

  /** The mark the worker has taken from the channel and not finished with. */
  predicate WorkerHolds(s: State, m: Mark32) {
    (s.worker.InStore() && s.worker.op.mark == m) || s.worker == Flag(m)
  }

  /** Handler i set the flag of m and has not yet passed it on, or given it up. */
  predicate HandlerHolds(s: State, i: nat, m: Mark32) {
    i < |s.callers| && (s.callers[i] == Send(m) || s.callers[i] == Drop(m))
  }

  ghost predicate SomeHandlerHolds(s: State, m: Mark32) {
    exists i: nat :: HandlerHolds(s, i, m)
  }

  ghost predicate Distinct(q: seq<Mark32>) {
    forall i, j | 0 <= i < j < |q| :: q[i] != q[j]
  }

  /** The queued flags are the disjoint union of the channel, the worker's mark and the handlers' marks. */
  ghost predicate FlagsAreOwned(s: State) {
    && Distinct(s.chan)
    && (forall m: Mark32 :: m in s.queued <==> m in s.chan || WorkerHolds(s, m) || SomeHandlerHolds(s, m))
    && (forall m: Mark32 | m in s.chan :: !WorkerHolds(s, m) && !SomeHandlerHolds(s, m))
    && (forall m: Mark32 | WorkerHolds(s, m) :: !SomeHandlerHolds(s, m))
    && (forall i: nat, j: nat, m: Mark32 | HandlerHolds(s, i, m) && HandlerHolds(s, j, m) :: i == j)
  }

  ghost predicate LockIsHeld(s: State) {
    && (s.lock.Some? ==> s.Has(s.lock.value) && s.At(s.lock.value).Critical())
    && (forall t: Tid | s.Has(t) && s.At(t).Critical() :: s.lock == Some(t))
  }

  /** The record and the kernel agree on m; a class may lack a record only if it was left unadopted. */
  predicate AgreesOn(s: State, unadopted: set<Mark32>, m: Mark32) {
    && (m in s.base ==> m in s.kernel && s.base[m] == Capped(s.kernel[m]))
    && (m in s.kernel && m !in s.base ==> m in unadopted)
  }

  /** The one mark whose tc change is done and whose record is not. */
  function InDoubt(s: State): Option<Op>
    requires LockIsHeld(s)
  {
    if s.lock.Some? && s.At(s.lock.value).Base? then Some(s.At(s.lock.value).op) else None
  }

  ghost predicate StoreAgrees(cfg: Config, s: State, unadopted: set<Mark32>)
    requires LockIsHeld(s)
  {
    && (forall m: Mark32 :: InDoubt(s).None? || m != InDoubt(s).value.mark ==> AgreesOn(s, unadopted, m))
    && (forall m: Mark32 | m in s.base :: UserMark(m, cfg.queues))
    && (InDoubt(s).Some? ==>
          match InDoubt(s).value
          case Set(m, r) => UserMark(m, cfg.queues) && m in s.kernel && s.kernel[m] == r
          case Delete(m) => m !in s.kernel || (!UserMark(m, cfg.queues) && AgreesOn(s, unadopted, m)))
  }

  ghost predicate WellFormed(cfg: Config, s: State) {
    && |s.chan| <= cfg.capacity
    && (forall m: Mark32 | m in s.chan :: UserMark(m, cfg.queues))
    && (s.worker.Idle? || s.worker.Flag? || (s.worker.InStore() && s.worker.op.Set? && s.worker.op.rate == cfg.perUser))
    && (forall i | 0 <= i < |s.callers| :: !s.callers[i].Flag?)
    && (forall i | 0 <= i < |s.callers| && (s.callers[i].Load? || s.callers[i].Send?) ::
          UserMark(s.callers[i].mark, cfg.queues))
    && (s.worker.InStore() ==> UserMark(s.worker.op.mark, cfg.queues))
  }

  ghost predicate Inv(cfg: Config, s: State, unadopted: set<Mark32>) {
    && WellFormed(cfg, s)
    && FlagsAreOwned(s)
    && LockIsHeld(s)
    && StoreAgrees(cfg, s, unadopted)
  }

  // ----- preservation -----

  lemma WorkerKeepsShape(cfg: Config, s: State, step: Step)
    requires WellFormed(cfg, s) && Enabled(cfg, s, step) && step.Actor().Worker?
    ensures WellFormed(cfg, Apply(cfg, s, step))
  {
    if step.Receive? {
      assert s.chan[0] in s.chan;
    }
  }

  lemma CallerKeepsShape(cfg: Config, s: State, step: Step)
    requires WellFormed(cfg, s) && Enabled(cfg, s, step) && step.Actor().Caller?
    ensures WellFormed(cfg, Apply(cfg, s, step))
  {
    var i, s' := step.Actor().id, Apply(cfg, s, step);
    assert forall j | 0 <= j < |s.callers| && j != i :: s'.callers[j] == s.callers[j];
  }

  lemma StepKeepsShape(cfg: Config, s: State, step: Step)
    requires WellFormed(cfg, s) && Enabled(cfg, s, step)
    ensures WellFormed(cfg, Apply(cfg, s, step))
  {
    if step.Actor().Worker? {
      WorkerKeepsShape(cfg, s, step);
    } else {
      CallerKeepsShape(cfg, s, step);
    }
  }

  lemma StepKeepsLock(cfg: Config, s: State, step: Step)
    requires LockIsHeld(s) && Enabled(cfg, s, step)
    ensures LockIsHeld(Apply(cfg, s, step))
  {
    var t, s' := step.Actor(), Apply(cfg, s, step);
    forall u: Tid | s'.Has(u) && s'.At(u).Critical() ensures s'.lock == Some(u) {
      assert u != t ==> s.Has(u) && s'.At(u) == s.At(u);
    }
  }

  lemma StepKeepsRecords(cfg: Config, s: State, step: Step, unadopted: set<Mark32>)
    requires LockIsHeld(s) && StoreAgrees(cfg, s, unadopted) && Enabled(cfg, s, step)
    requires step.RunTc? || step.Record? || step.Release?
    requires LockIsHeld(Apply(cfg, s, step))
    ensures StoreAgrees(cfg, Apply(cfg, s, step), unadopted)
  {
    var t, s' := step.Actor(), Apply(cfg, s, step);
    assert s.lock == Some(t);
    assert step.RunTc? ==> InDoubt(s) == None && AgreesOn(s, unadopted, s.At(t).op.mark);
    assert step.Record? ==> InDoubt(s) == Some(s.At(t).op) && InDoubt(s') == None;
    forall m: Mark32 | InDoubt(s').None? || m != InDoubt(s').value.mark
      ensures AgreesOn(s', unadopted, m)
    {
      assert InDoubt(s).None? || m != InDoubt(s).value.mark ==> AgreesOn(s, unadopted, m);
    }
  }

  lemma StepKeepsAgreement(cfg: Config, s: State, step: Step, unadopted: set<Mark32>)
    requires LockIsHeld(s) && StoreAgrees(cfg, s, unadopted) && Enabled(cfg, s, step)
    ensures LockIsHeld(Apply(cfg, s, step)) && StoreAgrees(cfg, Apply(cfg, s, step), unadopted)
  {
    StepKeepsLock(cfg, s, step);
    var s' := Apply(cfg, s, step);
    if step.RunTc? || step.Record? || step.Release? {
      StepKeepsRecords(cfg, s, step, unadopted);
    } else {
      assert InDoubt(s') == InDoubt(s);
      assert forall m: Mark32 | AgreesOn(s, unadopted, m) :: AgreesOn(s', unadopted, m);
    }
  }

  lemma HeldAfter(s: State, s': State, i: nat, pc: Pc)
    requires i < |s.callers| && s'.callers == s.callers[i := pc]
    ensures forall j: nat, m: Mark32 :: HandlerHolds(s', j, m) <==>
              if j == i then pc == Send(m) || pc == Drop(m) else HandlerHolds(s, j, m)
    ensures forall m: Mark32 :: SomeHandlerHolds(s', m) <==>
              pc == Send(m) || pc == Drop(m) || exists j: nat :: j != i && HandlerHolds(s, j, m)
  {
    forall m: Mark32 | SomeHandlerHolds(s', m)
      ensures pc == Send(m) || pc == Drop(m) || exists j: nat :: j != i && HandlerHolds(s, j, m)
    {
      var j: nat :| HandlerHolds(s', j, m);
      assert j != i ==> HandlerHolds(s, j, m);
    }
    forall m: Mark32 | pc == Send(m) || pc == Drop(m) || exists j: nat :: j != i && HandlerHolds(s, j, m)
      ensures SomeHandlerHolds(s', m)
    {
      if pc == Send(m) || pc == Drop(m) {
        assert HandlerHolds(s', i, m);
      } else {
        var j: nat :| j != i && HandlerHolds(s, j, m);
        assert HandlerHolds(s', j, m);
      }
    }
  }

  /** A handler that sets a flag becomes its one owner. */
  lemma LoadOrStoreKeepsFlags(cfg: Config, s: State, step: Step)
    requires FlagsAreOwned(s) && Enabled(cfg, s, step) && step.LoadOrStore?
    ensures FlagsAreOwned(Apply(cfg, s, step))
  {
    var i, s' := step.i, Apply(cfg, s, step);
    HeldAfter(s, s', i, s'.callers[i]);
    assert forall m: Mark32 :: !HandlerHolds(s, i, m);
    assert forall m: Mark32 :: SomeHandlerHolds(s', m) <==> s'.callers[i] == Send(m) || SomeHandlerHolds(s, m);
  }

  /** A handler that sends passes the flag on to the channel. */
  lemma TrySendKeepsFlags(cfg: Config, s: State, step: Step)
    requires FlagsAreOwned(s) && Enabled(cfg, s, step) && step.TrySend?
    ensures FlagsAreOwned(Apply(cfg, s, step))
  {
    var i, s' := step.i, Apply(cfg, s, step);
    var m := s.callers[i].mark;
    HeldAfter(s, s', i, s'.callers[i]);
    assert HandlerHolds(s, i, m) && SomeHandlerHolds(s, m) && m !in s.chan && m in s.queued;
    assert forall m': Mark32 | m' != m :: SomeHandlerHolds(s', m') <==> SomeHandlerHolds(s, m');
    assert forall m' :: m' in s'.chan <==> m' in s.chan || (m' == m && s' != s && s'.callers[i] == Idle);
  }

  /** A handler that gives up clears the flag it owned. */
  lemma UndoKeepsFlags(cfg: Config, s: State, step: Step)
    requires FlagsAreOwned(s) && Enabled(cfg, s, step) && step.Undo?
    ensures FlagsAreOwned(Apply(cfg, s, step))
  {
    var i, s' := step.i, Apply(cfg, s, step);
    var m := s.callers[i].mark;
    HeldAfter(s, s', i, Idle);
    assert HandlerHolds(s, i, m) && SomeHandlerHolds(s, m) && m !in s.chan && !WorkerHolds(s, m);
    assert forall m': Mark32 :: WorkerHolds(s', m') <==> WorkerHolds(s, m');
    assert forall m': Mark32 :: SomeHandlerHolds(s', m') <==> m' != m && SomeHandlerHolds(s, m');
  }

  lemma OtherCallerKeepsFlags(cfg: Config, s: State, step: Step)
    requires WellFormed(cfg, s) && FlagsAreOwned(s) && Enabled(cfg, s, step)
    requires step.Actor().Caller? && !step.LoadOrStore? && !step.TrySend? && !step.Undo?
    ensures FlagsAreOwned(Apply(cfg, s, step))
  {
    var i, s' := step.Actor().id, Apply(cfg, s, step);
    if s' != s {
      HeldAfter(s, s', i, s'.callers[i]);
      forall m: Mark32 ensures SomeHandlerHolds(s', m) <==> SomeHandlerHolds(s, m) {
        if SomeHandlerHolds(s, m) {
          var j: nat :| HandlerHolds(s, j, m);
          assert HandlerHolds(s', j, m);
        }
      }
    }
  }

  lemma WorkerKeepsFlags(cfg: Config, s: State, step: Step)
    requires WellFormed(cfg, s) && FlagsAreOwned(s) && Enabled(cfg, s, step) && step.Actor().Worker?
    ensures FlagsAreOwned(Apply(cfg, s, step))
  {
    var s' := Apply(cfg, s, step);
    assert forall j: nat, m: Mark32 :: HandlerHolds(s', j, m) <==> HandlerHolds(s, j, m);
    assert forall m: Mark32 :: SomeHandlerHolds(s', m) <==> SomeHandlerHolds(s, m);
    if step.Receive? {
      var m := s.chan[0];
      assert m in s.chan && s.chan == [m] + s'.chan;
      assert forall m' :: m' in s.chan <==> m' == m || m' in s'.chan;
    }
  }

  lemma StepKeepsFlags(cfg: Config, s: State, step: Step)
    requires WellFormed(cfg, s) && FlagsAreOwned(s) && Enabled(cfg, s, step)
    ensures FlagsAreOwned(Apply(cfg, s, step))
  {
    if step.Actor().Worker? {
      WorkerKeepsFlags(cfg, s, step);
    } else if step.LoadOrStore? {
      LoadOrStoreKeepsFlags(cfg, s, step);
    } else if step.TrySend? {
      TrySendKeepsFlags(cfg, s, step);
    } else if step.Undo? {
      UndoKeepsFlags(cfg, s, step);
    } else {
      OtherCallerKeepsFlags(cfg, s, step);
    }
  }

  lemma StepKeepsInv(cfg: Config, s: State, step: Step, unadopted: set<Mark32>)
    requires cfg.Valid() && Inv(cfg, s, unadopted) && Enabled(cfg, s, step)
    ensures Inv(cfg, Apply(cfg, s, step), unadopted)
  {
    StepKeepsShape(cfg, s, step);
    StepKeepsFlags(cfg, s, step);
    StepKeepsAgreement(cfg, s, step, unadopted);
  }
}
