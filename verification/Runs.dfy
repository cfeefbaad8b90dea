/**
 What whole runs of the provisioning protocol guarantee: every reachable state satisfies the
 invariant, the work always drains, queued marks end up provisioned, and exactly when a rate set by
 hand survives.
 */
module Runs {
  import opened Options
  import opened Marks
  import opened Protocol

  /** The state run leaves at startup: nothing queued, nobody running, the store filled by adoption. */
  ghost predicate Initial(cfg: Config, s: State, unadopted: set<Mark32>) {
    && s.queued == {} && s.chan == [] && s.lock == None && s.worker == Idle
    && (forall i | 0 <= i < |s.callers| :: s.callers[i] == Idle)
    && (forall m: Mark32 :: AgreesOn(s, unadopted, m))
    && (forall m: Mark32 | m in s.base :: UserMark(m, cfg.queues))
  }

  /** The steps can be taken one after another from s, and end in s'. */
  predicate Reaches(cfg: Config, s: State, steps: seq<Step>, s': State)
    decreases |steps|
  {
    if steps == [] then s' == s
    else Enabled(cfg, s, steps[0]) && Reaches(cfg, Apply(cfg, s, steps[0]), steps[1..], s')
  }

  predicate NoneStart(steps: seq<Step>) {
    forall k | 0 <= k < |steps| :: !steps[k].Starts()
  }

  /** No PUT, DELETE or collection of m begins. */
  predicate NoneCall(steps: seq<Step>, m: Mark32) {
    forall k | 0 <= k < |steps| :: steps[k].Call? ==> steps[k].op.mark != m
  }

  /** No tc command of the worker fails. */
  predicate NoneFail(steps: seq<Step>) {
    forall k | 0 <= k < |steps| :: steps[k] != RunTc(Worker, false)
  }

  lemma {:induction false} Then(cfg: Config, s: State, steps: seq<Step>, t: State, more: seq<Step>, u: State)
    requires Reaches(cfg, s, steps, t) && Reaches(cfg, t, more, u)
    ensures Reaches(cfg, s, steps + more, u)
    decreases |steps|
  {
    if steps == [] {
      assert steps + more == more;
    } else {
      Then(cfg, Apply(cfg, s, steps[0]), steps[1..], t, more, u);
      assert (steps + more)[1..] == steps[1..] + more;
    }
  }

  // ----- safety -----

  lemma InitialInv(cfg: Config, s: State, unadopted: set<Mark32>)
    requires Initial(cfg, s, unadopted)
    ensures Inv(cfg, s, unadopted)
  {
    assert forall t: Tid | s.Has(t) :: s.At(t) == Idle;
  }

  lemma {:induction false} RunKeepsInv(cfg: Config, s: State, steps: seq<Step>, s': State, unadopted: set<Mark32>)
    requires cfg.Valid() && Inv(cfg, s, unadopted) && Reaches(cfg, s, steps, s')
    ensures Inv(cfg, s', unadopted)
    decreases |steps|
  {
    if steps != [] {
      StepKeepsInv(cfg, s, steps[0], unadopted);
      RunKeepsInv(cfg, Apply(cfg, s, steps[0]), steps[1..], s', unadopted);
    }
  }

  /**
   In every reachable state: while the lock is free the record and the kernel agree on every mark,
   while it is held they agree on all marks but the one being changed, and only user marks are recorded.
   */
  lemma StoreMatchesKernel(cfg: Config, s: State, steps: seq<Step>, s': State, unadopted: set<Mark32>)
    requires cfg.Valid() && Initial(cfg, s, unadopted) && Reaches(cfg, s, steps, s')
    ensures s'.lock.None? ==> forall m: Mark32 :: AgreesOn(s', unadopted, m)
    ensures s'.lock.Some? ==> s'.Has(s'.lock.value) && s'.At(s'.lock.value).Critical()
    ensures s'.lock.Some? ==>
              forall m: Mark32 | m != s'.At(s'.lock.value).op.mark :: AgreesOn(s', unadopted, m)
    ensures forall m: Mark32 | m in s'.base :: UserMark(m, cfg.queues)
  {
    InitialInv(cfg, s, unadopted);
    RunKeepsInv(cfg, s, steps, s', unadopted);
  }

  /** In every reachable state the flags are owned one to one, and the channel is within its bound. */
  lemma FlagsNeverLeak(cfg: Config, s: State, steps: seq<Step>, s': State, unadopted: set<Mark32>)
    requires cfg.Valid() && Initial(cfg, s, unadopted) && Reaches(cfg, s, steps, s')
    ensures FlagsAreOwned(s') && |s'.chan| <= cfg.capacity
  {
    InitialInv(cfg, s, unadopted);
    RunKeepsInv(cfg, s, steps, s', unadopted);
  }

  /** The steps of one webhook for m at handler i, when no one else runs. */
  function Webhook(cfg: Config, s: State, i: nat, m: Mark32): seq<Step> {
    if m in s.base then [Get(i, m)]
    else if m in s.queued then [Get(i, m), LoadOrStore(i)]
    else if |s.chan| < cfg.capacity then [Get(i, m), LoadOrStore(i), TrySend(i)]
    else [Get(i, m), LoadOrStore(i), TrySend(i), Undo(i)]
  }

  /**
   A mark with no rate and no owner is put into the channel by its next webhook unless the channel is
   full; every other webhook leaves the whole state as it was.
   */
  lemma WebhookQueues(cfg: Config, s: State, i: nat, m: Mark32, unadopted: set<Mark32>)
    requires Inv(cfg, s, unadopted) && cfg.perUser > 0 && UserMark(m, cfg.queues)
    requires i < |s.callers| && s.callers[i] == Idle
    ensures var owned := m in s.chan || WorkerHolds(s, m) || SomeHandlerHolds(s, m);
            Reaches(cfg, s, Webhook(cfg, s, i, m),
                    if m !in s.base && !owned && |s.chan| < cfg.capacity
                    then s.(queued := s.queued + {m}, chan := s.chan + [m]) else s)
  {
    var s1 := Apply(cfg, s, Get(i, m));
    assert s.callers[i := Idle] == s.callers;
    if m !in s.base {
      var s2 := Apply(cfg, s1, LoadOrStore(i));
      assert s1.callers[i := Idle] == s.callers;
      assert Reaches(cfg, s2, [], s2);
      if m in s.queued {
        assert Reaches(cfg, s1, [LoadOrStore(i)], s2);
      } else {
        var s3 := Apply(cfg, s2, TrySend(i));
        assert s2.callers[i := Idle] == s.callers;
        assert Reaches(cfg, s3, [], s3);
        if |s.chan| < cfg.capacity {
          assert Reaches(cfg, s2, [TrySend(i)], s3);
          assert Reaches(cfg, s1, [LoadOrStore(i), TrySend(i)], s3);
        } else {
          var s4 := Apply(cfg, s3, Undo(i));
          assert s3.callers[i := Idle] == s.callers;
          assert s.queued + {m} - {m} == s.queued;
          assert Reaches(cfg, s4, [], s4);
          assert Reaches(cfg, s3, [Undo(i)], s4);
          assert Reaches(cfg, s2, [TrySend(i), Undo(i)], s4);
          assert Reaches(cfg, s1, [LoadOrStore(i), TrySend(i), Undo(i)], s4);
        }
      }
    }
  }

  /** A mark Get reports has a class, except exactly while a Delete of it is between tc and the record. */
  lemma GetMeansClassIff(cfg: Config, s: State, m: Mark32, unadopted: set<Mark32>)
    requires Inv(cfg, s, unadopted) && m in s.base
    ensures m in s.kernel <==> InDoubt(s) != Some(Delete(m))
  {
    assert UserMark(m, cfg.queues);
    assert InDoubt(s).None? || m != InDoubt(s).value.mark ==> AgreesOn(s, unadopted, m);
  }

  // ----- the work drains -----

  function Rank(pc: Pc): nat {
    match pc
    case Idle => 0
    case Drop(_) => 1
    case Flag(_) => 1
    case Unlock(_) => 2
    case Base(_) => 3
    case Tc(_) => 4
    case Lock(_) => 5
    case Send(_) => 7
    case Load(_) => 8
  }

  function Work(callers: seq<Pc>): nat {
    if callers == [] then 0 else Rank(callers[0]) + Work(callers[1..])
  }

  /** Steps left, at most, before only a new webhook or store call can run. */
  function Measure(s: State): nat {
    6 * |s.chan| + Rank(s.worker) + Work(s.callers)
  }

  lemma {:induction false} WorkAfter(callers: seq<Pc>, i: nat, pc: Pc)
    requires i < |callers|
    ensures Work(callers[i := pc]) == Work(callers) - Rank(callers[i]) + Rank(pc)
    ensures Work(callers) >= Rank(callers[i])
  {
    if i == 0 {
      assert callers[i := pc][1..] == callers[1..];
    } else {
      assert callers[i := pc][1..] == callers[1..][i - 1 := pc];
      WorkAfter(callers[1..], i - 1, pc);
    }
  }

  lemma StepDoesWork(cfg: Config, s: State, step: Step)
    requires Enabled(cfg, s, step) && !step.Starts()
    ensures Measure(Apply(cfg, s, step)) < Measure(s)
  {
    var s' := Apply(cfg, s, step);
    if step.Actor().Caller? {
      var i := step.Actor().id;
      WorkAfter(s.callers, i, s'.callers[i]);
    }
  }

  lemma {:induction false} SomeoneIsBusy(callers: seq<Pc>) returns (i: nat)
    requires Work(callers) > 0
    ensures i < |callers| && Rank(callers[i]) > 0
  {
    if Rank(callers[0]) > 0 {
      i := 0;
    } else {
      i := SomeoneIsBusy(callers[1..]);
      i := i + 1;
    }
  }

  /** The step a goroutine in the middle of something takes next, with tc succeeding. */
  function NextOf(t: Tid, pc: Pc): Step
    requires t.Worker? ==> !pc.Load? && !pc.Send? && !pc.Drop?
  {
    match pc
    case Idle => Receive
    case Load(_) => LoadOrStore(t.id)
    case Send(_) => TrySend(t.id)
    case Drop(_) => Undo(t.id)
    case Lock(_) => Acquire(t)
    case Tc(_) => RunTc(t, true)
    case Base(_) => Record(t)
    case Unlock(_) => Release(t)
    case Flag(_) => ClearFlag
  }

  /** Nothing blocks for good: as long as there is work, some step that does it is enabled. */
  lemma NoDeadlock(cfg: Config, s: State, unadopted: set<Mark32>) returns (step: Step)
    requires Inv(cfg, s, unadopted) && Measure(s) > 0
    ensures Enabled(cfg, s, step) && !step.Starts() && step != RunTc(Worker, false)
  {
    if s.lock.Some? {
      step := NextOf(s.lock.value, s.At(s.lock.value));
    } else if !s.worker.Idle? || s.chan != [] {
      assert !s.worker.Critical() by {
        assert s.At(Worker) == s.worker;
      }
      step := NextOf(Worker, s.worker);
    } else {
      var i := SomeoneIsBusy(s.callers);
      assert s.At(Caller(i)) == s.callers[i];
      step := NextOf(Caller(i), s.callers[i]);
    }
  }

  lemma {:induction false} RunDoesWork(cfg: Config, s: State, steps: seq<Step>, s': State)
    requires Reaches(cfg, s, steps, s') && NoneStart(steps)
    ensures |steps| + Measure(s') <= Measure(s)
    decreases |steps|
  {
    if steps != [] {
      StepDoesWork(cfg, s, steps[0]);
      RunDoesWork(cfg, Apply(cfg, s, steps[0]), steps[1..], s');
    }
  }

  lemma {:induction false} NoWorkMeansIdle(callers: seq<Pc>, i: nat)
    requires Work(callers) == 0 && i < |callers|
    ensures callers[i] == Idle
  {
    WorkAfter(callers, i, callers[i]);
  }

  /** No goroutine is in the middle of anything, and nothing is left for the worker. */
  predicate Quiet(s: State) {
    && s.chan == [] && s.queued == {} && s.lock == None && s.worker == Idle
    && forall i | 0 <= i < |s.callers| :: s.callers[i] == Idle
  }

  lemma NoWorkIsQuiet(cfg: Config, s: State, unadopted: set<Mark32>)
    requires Inv(cfg, s, unadopted) && Measure(s) == 0
    ensures Quiet(s)
  {
    forall i | 0 <= i < |s.callers| ensures s.callers[i] == Idle {
      NoWorkMeansIdle(s.callers, i);
    }
    assert forall t: Tid | s.Has(t) :: !s.At(t).Critical();
    assert forall m: Mark32 :: !SomeHandlerHolds(s, m) && !WorkerHolds(s, m) && m !in s.chan;
  }

  lemma QuietIsDone(cfg: Config, s: State)
    requires Quiet(s)
    ensures forall step | Enabled(cfg, s, step) :: step.Starts()
  {
    assert forall t: Tid | s.Has(t) :: s.At(t) == Idle;
  }

  /**
   Once webhooks and store calls stop, every run is at most Measure(s) steps long, and it cannot stop
   before the channel, the flags and the lock are all clear.
   */
  lemma WorkDrains(cfg: Config, s: State, steps: seq<Step>, s': State, unadopted: set<Mark32>)
    requires cfg.Valid() && Inv(cfg, s, unadopted) && Reaches(cfg, s, steps, s') && NoneStart(steps)
    ensures |steps| <= Measure(s)
    ensures (forall step | Enabled(cfg, s', step) :: step.Starts()) <==> Quiet(s')
  {
    RunDoesWork(cfg, s, steps, s');
    RunKeepsInv(cfg, s, steps, s', unadopted);
    if Quiet(s') {
      QuietIsDone(cfg, s');
    }
    if Measure(s') > 0 {
      var step := NoDeadlock(cfg, s', unadopted);
    } else {
      NoWorkIsQuiet(cfg, s', unadopted);
    }
  }

  // ----- queued marks get their rate -----

  predicate Provisioned(cfg: Config, s: State, m: Mark32) {
    && m in s.base && s.base[m] == cfg.perUser
    && m in s.kernel && s.kernel[m] == cfg.perUser
  }

  /** The channel or the worker still has m to provision. */
  predicate InWork(s: State, m: Mark32) {
    m in s.chan || (s.worker.Unrecorded() && s.worker.op.mark == m)
  }

  /** No store call other than the worker's can still change m. */
  predicate Undisturbed(s: State, m: Mark32) {
    forall i | 0 <= i < |s.callers| :: s.callers[i].Unrecorded() ==> s.callers[i].op.mark != m
  }

  lemma WorkerKeepsProvisioning(cfg: Config, s: State, step: Step, m: Mark32, unadopted: set<Mark32>)
    requires WellFormed(cfg, s) && LockIsHeld(s) && StoreAgrees(cfg, s, unadopted)
    requires Enabled(cfg, s, step) && step.Actor().Worker? && step != RunTc(Worker, false)
    requires InWork(s, m) || Provisioned(cfg, s, m)
    ensures var s' := Apply(cfg, s, step);
            InWork(s', m) || Provisioned(cfg, s', m)
  {
    var s' := Apply(cfg, s, step);
    assert s.At(Worker) == s.worker;
    if step.Receive? {
      assert m in s.chan ==> m == s.chan[0] || m in s.chan[1..];
    } else if step.Record? {
      assert s.lock == Some(Worker) && InDoubt(s) == Some(s.worker.op);
    }
  }

  lemma CallerKeepsProvisioning(cfg: Config, s: State, step: Step, m: Mark32)
    requires Enabled(cfg, s, step) && step.Actor().Caller?
    requires Undisturbed(s, m) && (InWork(s, m) || Provisioned(cfg, s, m))
    ensures var s' := Apply(cfg, s, step);
            InWork(s', m) || Provisioned(cfg, s', m)
  {
    var s' := Apply(cfg, s, step);
    assert s'.worker == s.worker && s.chan <= s'.chan;
    assert m in s.chan ==> m in s'.chan;
  }

  lemma StepKeepsProvisioning(cfg: Config, s: State, step: Step, m: Mark32, unadopted: set<Mark32>)
    requires Inv(cfg, s, unadopted) && Enabled(cfg, s, step)
    requires step != RunTc(Worker, false) && (step.Call? ==> step.op.mark != m)
    requires Undisturbed(s, m) && (InWork(s, m) || Provisioned(cfg, s, m))
    ensures var s' := Apply(cfg, s, step);
            Undisturbed(s', m) && (InWork(s', m) || Provisioned(cfg, s', m))
  {
    if step.Actor().Worker? {
      WorkerKeepsProvisioning(cfg, s, step, m, unadopted);
    } else {
      CallerKeepsProvisioning(cfg, s, step, m);
    }
  }

  /**
   A mark in the channel, or with the worker, stays there until it is provisioned, and once provisioned
   it stays so: a second Set of it changes nothing. New webhooks may keep arriving.
   */
  lemma {:induction false} RunKeepsProvisioning(cfg: Config, s: State, steps: seq<Step>, s': State, m: Mark32,
                                                unadopted: set<Mark32>)
    requires cfg.Valid() && Inv(cfg, s, unadopted) && Reaches(cfg, s, steps, s')
    requires NoneFail(steps) && NoneCall(steps, m)
    requires Undisturbed(s, m) && (InWork(s, m) || Provisioned(cfg, s, m))
    ensures Undisturbed(s', m) && (InWork(s', m) || Provisioned(cfg, s', m))
    decreases |steps|
  {
    if steps != [] {
      StepKeepsInv(cfg, s, steps[0], unadopted);
      StepKeepsProvisioning(cfg, s, steps[0], m, unadopted);
      RunKeepsProvisioning(cfg, Apply(cfg, s, steps[0]), steps[1..], s', m, unadopted);
    }
  }

  /** Every mark in the channel or with the worker has the per-user rate, in both places, once the work is drained. */
  lemma QueuedMarksAreProvisioned(cfg: Config, s: State, steps: seq<Step>, s': State, m: Mark32, unadopted: set<Mark32>)
    requires cfg.Valid() && Inv(cfg, s, unadopted) && Reaches(cfg, s, steps, s') && NoneStart(steps)
    requires NoneFail(steps) && forall step | Enabled(cfg, s', step) :: step.Starts()
    requires Undisturbed(s, m) && InWork(s, m)
    ensures Provisioned(cfg, s', m)
  {
    assert NoneCall(steps, m);
    WorkDrains(cfg, s, steps, s', unadopted);
    RunKeepsProvisioning(cfg, s, steps, s', m, unadopted);
  }

  // ----- when a rate set by hand survives -----

  /** Handler i's Get found no rate for m, and it may still queue it. */
  predicate OnItsWay(s: State, i: nat, m: Mark32) {
    i < |s.callers| && (s.callers[i] == Load(m) || s.callers[i] == Send(m))
  }

  /** Provisioning under way can still reach a Set of m. */
  ghost predicate Pending(s: State, m: Mark32) {
    InWork(s, m) || exists i: nat :: OnItsWay(s, i, m)
  }

  ghost predicate Kept(s: State, m: Mark32, rate: Rate) {
    m in s.base && s.base[m] == rate && !Pending(s, m) && Undisturbed(s, m)
  }

  lemma StepKeepsRate(cfg: Config, s: State, step: Step, m: Mark32, rate: Rate)
    requires Kept(s, m, rate) && Enabled(cfg, s, step) && (step.Call? ==> step.op.mark != m)
    ensures Kept(Apply(cfg, s, step), m, rate)
  {
    var s' := Apply(cfg, s, step);
    forall i: nat ensures !OnItsWay(s', i, m) {
      assert !OnItsWay(s, i, m);
    }
    if step.TrySend? {
      assert !OnItsWay(s, step.i, m) && s.callers[step.i].mark != m;
    }
    assert !InWork(s', m);
  }

  lemma {:induction false} RunKeepsRate(cfg: Config, s: State, steps: seq<Step>, s': State, m: Mark32, rate: Rate)
    requires Kept(s, m, rate) && Reaches(cfg, s, steps, s') && NoneCall(steps, m)
    ensures Kept(s', m, rate)
    decreases |steps|
  {
    if steps != [] {
      StepKeepsRate(cfg, s, steps[0], m, rate);
      RunKeepsRate(cfg, Apply(cfg, s, steps[0]), steps[1..], s', m, rate);
    }
  }

  /** Only the lock holder and the worker have run: the handlers are where they were. */
  predicate HandlersStayed(s: State, s': State) {
    |s'.callers| == |s.callers| && forall i | 0 <= i < |s.callers| ::
      s.callers[i].Load? || s.callers[i].Send? || s.callers[i].Drop? ==> s'.callers[i] == s.callers[i]
  }

  /** The next step of whoever holds the lock, or of the worker if no one does. */
  lemma SettlingStep(cfg: Config, s: State, unadopted: set<Mark32>) returns (step: Step)
    requires Inv(cfg, s, unadopted) && !(s.lock.None? && s.worker.Idle? && s.chan == [])
    ensures Enabled(cfg, s, step) && !step.Starts() && step != RunTc(Worker, false)
    ensures HandlersStayed(s, Apply(cfg, s, step))
  {
    assert s.At(Worker) == s.worker;
    var t := if s.lock.Some? then s.lock.value else Worker;
    step := NextOf(t, s.At(t));
  }

  /** Letting only the lock holder and the worker run, with tc succeeding, empties the channel. */
  lemma {:induction false} Settle(cfg: Config, s: State, unadopted: set<Mark32>) returns (steps: seq<Step>, s': State)
    requires cfg.Valid() && Inv(cfg, s, unadopted)
    ensures Reaches(cfg, s, steps, s') && NoneStart(steps) && NoneFail(steps)
    ensures s'.lock == None && s'.worker == Idle && s'.chan == [] && HandlersStayed(s, s')
    decreases Measure(s)
  {
    if s.lock.None? && s.worker.Idle? && s.chan == [] {
      steps, s' := [], s;
    } else {
      var step := SettlingStep(cfg, s, unadopted);
      StepKeepsInv(cfg, s, step, unadopted);
      StepDoesWork(cfg, s, step);
      steps, s' := Settle(cfg, Apply(cfg, s, step), unadopted);
      steps := [step] + steps;
    }
  }

  lemma SettleProvisions(cfg: Config, s: State, m: Mark32, unadopted: set<Mark32>) returns (steps: seq<Step>, s': State)
    requires cfg.Valid() && Inv(cfg, s, unadopted) && Undisturbed(s, m) && InWork(s, m)
    ensures Reaches(cfg, s, steps, s') && NoneStart(steps) && Provisioned(cfg, s', m)
  {
    steps, s' := Settle(cfg, s, unadopted);
    RunKeepsProvisioning(cfg, s, steps, s', m, unadopted);
  }

  /** From any state where provisioning of m is pending there is a run, without any new call, that sets its rate. */
  lemma PendingCanOverwrite(cfg: Config, s: State, m: Mark32, unadopted: set<Mark32>)
    returns (steps: seq<Step>, s': State)
    requires cfg.Valid() && Inv(cfg, s, unadopted) && Undisturbed(s, m) && Pending(s, m)
    ensures Reaches(cfg, s, steps, s') && NoneStart(steps) && Provisioned(cfg, s', m)
  {
    if InWork(s, m) {
      steps, s' := SettleProvisions(cfg, s, m, unadopted);
      return;
    }
    var i: nat :| OnItsWay(s, i, m);
    var steps1, s1 := CanQueue(cfg, s, i, m, unadopted);
    RunKeepsInv(cfg, s, steps1, s1, unadopted);
    RunKeepsQuiet(cfg, s, steps1, s1, m);
    var steps2;
    steps2, s' := SettleProvisions(cfg, s1, m, unadopted);
    Then(cfg, s, steps1, s1, steps2, s');
    steps := steps1 + steps2;
  }

  lemma CanQueue(cfg: Config, s: State, i: nat, m: Mark32, unadopted: set<Mark32>) returns (steps: seq<Step>, s': State)
    requires cfg.Valid() && Inv(cfg, s, unadopted) && OnItsWay(s, i, m)
    ensures Reaches(cfg, s, steps, s') && NoneStart(steps) && m in s'.chan
  {
    var steps1, s1 := Settle(cfg, s, unadopted);
    RunKeepsInv(cfg, s, steps1, s1, unadopted);
    var steps2;
    steps2, s' := ReachSend(cfg, s1, i, m, unadopted);
    Then(cfg, s, steps1, s1, steps2, s');
    steps := steps1 + steps2;
  }

  lemma {:induction false} RunKeepsQuiet(cfg: Config, s: State, steps: seq<Step>, s': State, m: Mark32)
    requires Reaches(cfg, s, steps, s') && NoneStart(steps) && Undisturbed(s, m)
    ensures Undisturbed(s', m)
    decreases |steps|
  {
    if steps != [] {
      RunKeepsQuiet(cfg, Apply(cfg, s, steps[0]), steps[1..], s', m);
    }
  }

  /** With the channel empty and the worker idle, a handler at Load or Send can bring m into the channel. */
  lemma ReachSend(cfg: Config, s: State, i: nat, m: Mark32, unadopted: set<Mark32>)
    returns (steps: seq<Step>, s': State)
    requires cfg.Valid() && Inv(cfg, s, unadopted) && s.chan == [] && s.worker == Idle
    requires OnItsWay(s, i, m)
    ensures Reaches(cfg, s, steps, s') && NoneStart(steps) && m in s'.chan
    decreases if s.callers[i].Send? then 0 else 1, m in s.queued
  {
    if s.callers[i].Send? {
      s' := Apply(cfg, s, TrySend(i));
      steps := [TrySend(i)];
    } else {
      var step, j := LoadOrStore(i), i;
      if m in s.queued {
        j :| HandlerHolds(s, j, m);
        if s.callers[j].Send? {
          steps, s' := ReachSend(cfg, s, j, m, unadopted);
          return;
        }
        step, j := Undo(j), i;
      }
      StepKeepsInv(cfg, s, step, unadopted);
      steps, s' := ReachSend(cfg, Apply(cfg, s, step), j, m, unadopted);
      steps := [step] + steps;
    }
  }

  /**
   A rate set by hand survives everything but another call for that mark exactly when no provisioning
   of the mark was pending at the time it was set.
   */
  lemma HandSetRateSurvivesIff(cfg: Config, s: State, m: Mark32, unadopted: set<Mark32>)
    requires cfg.Valid() && Inv(cfg, s, unadopted) && Undisturbed(s, m)
    requires m in s.base && s.base[m] != cfg.perUser
    ensures (forall steps, s' | Reaches(cfg, s, steps, s') && NoneCall(steps, m) ::
               m in s'.base && s'.base[m] == s.base[m])
       <==> !Pending(s, m)
  {
    if Pending(s, m) {
      var steps, s' := PendingCanOverwrite(cfg, s, m, unadopted);
      assert Reaches(cfg, s, steps, s') && NoneCall(steps, m);
    } else {
      forall steps, s' | Reaches(cfg, s, steps, s') && NoneCall(steps, m)
        ensures m in s'.base && s'.base[m] == s.base[m]
      {
        RunKeepsRate(cfg, s, steps, s', m, s.base[m]);
      }
    }
  }

  /**
   A mark that has a rate can come back into the channel, with no new call for it, exactly when some
   handler's Get found no rate before it was recorded and has not acted on that yet. So Set can run
   twice for a mark; QueuedMarksAreProvisioned and StepKeepsProvisioning show the repeat is harmless.
   */
  lemma RequeuedIff(cfg: Config, s: State, m: Mark32, unadopted: set<Mark32>)
    requires cfg.Valid() && Inv(cfg, s, unadopted) && Undisturbed(s, m)
    requires m in s.base && !InWork(s, m)
    ensures (exists steps, s' :: Reaches(cfg, s, steps, s') && NoneCall(steps, m) && m in s'.chan)
       <==> exists i: nat :: OnItsWay(s, i, m)
  {
    if i: nat :| OnItsWay(s, i, m) {
      var steps, s' := CanQueue(cfg, s, i, m, unadopted);
      assert Reaches(cfg, s, steps, s') && NoneCall(steps, m);
    } else {
      forall steps, s' | Reaches(cfg, s, steps, s') && NoneCall(steps, m) ensures m !in s'.chan {
        RunKeepsRate(cfg, s, steps, s', m, s.base[m]);
      }
    }
  }
}
