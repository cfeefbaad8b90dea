/**
 The code of queueProvision, provisionLoop and the wrapped store, over the fields they share. Between
 any two of its atomic points other goroutines may run; Interfere stands for them, and callers know of
 it only that some run of the protocol by the others happened.
 */
module Service {
  import opened Options
  import opened Marks
  import opened Protocol
  import opened Runs

  datatype Outcome = HasRate | Waiting | Queued | Full

  /** What queueProvision came to, by the state in which it was decided and the one it left. */
  predicate Decided(cfg: Config, outcome: Outcome, mark: Mark32, seen: State, left: State) {
    match outcome
    case HasRate => mark in seen.base && left == seen
    case Waiting => mark in seen.queued && left.queued == seen.queued
    case Queued => |seen.chan| < cfg.capacity && left.chan == seen.chan + [mark] && mark in left.queued
    case Full => |seen.chan| == cfg.capacity && mark !in left.queued
  }

  ghost predicate Evolves(cfg: Config, a: State, b: State) {
    exists steps :: Reaches(cfg, a, steps, b)
  }

  predicate NoneBy(steps: seq<Step>, t: Tid) {
    forall k | 0 <= k < |steps| :: steps[k].Actor() != t
  }

  ghost predicate OthersRan(cfg: Config, a: State, b: State, me: Tid) {
    exists steps :: Reaches(cfg, a, steps, b) && NoneBy(steps, me)
  }

  lemma EvolvesOn(cfg: Config, a: State, b: State, c: State)
    requires Evolves(cfg, a, b) && Evolves(cfg, b, c)
    ensures Evolves(cfg, a, c)
  {
    var steps :| Reaches(cfg, a, steps, b);
    var more :| Reaches(cfg, b, more, c);
    Then(cfg, a, steps, b, more, c);
  }

  lemma OneStep(cfg: Config, a: State, step: Step)
    requires Enabled(cfg, a, step)
    ensures Evolves(cfg, a, Apply(cfg, a, step))
  {
    assert Reaches(cfg, Apply(cfg, a, step), [], Apply(cfg, a, step));
    assert Reaches(cfg, a, [step], Apply(cfg, a, step));
  }

  lemma StepByAnother(cfg: Config, a: State, step: Step, me: Tid)
    requires LockIsHeld(a) && a.Has(me) && Enabled(cfg, a, step) && step.Actor() != me
    ensures var b := Apply(cfg, a, step);
            && |b.callers| == |a.callers| && b.At(me) == a.At(me)
            && (me.Worker? ==> a.chan <= b.chan)
            && (a.lock == Some(me) ==> b.lock == a.lock && b.base == a.base && b.kernel == a.kernel)
  {
  }

  lemma {:induction false} RunByOthers(cfg: Config, a: State, steps: seq<Step>, b: State, me: Tid)
    requires LockIsHeld(a) && a.Has(me)
    requires Reaches(cfg, a, steps, b) && NoneBy(steps, me)
    ensures |b.callers| == |a.callers| && b.At(me) == a.At(me)
    ensures me.Worker? ==> a.chan <= b.chan
    ensures a.lock == Some(me) ==> b.lock == a.lock && b.base == a.base && b.kernel == a.kernel
    decreases |steps|
  {
    if steps != [] {
      var mid := Apply(cfg, a, steps[0]);
      StepByAnother(cfg, a, steps[0], me);
      StepKeepsLock(cfg, a, steps[0]);
      RunByOthers(cfg, mid, steps[1..], b, me);
    }
  }

  /**
   What others cannot do to a goroutine: move it, take marks from the worker's channel, or change the
   record or the kernel while it holds the lock.
   */
  lemma OthersKeepOut(cfg: Config, a: State, b: State, me: Tid)
    requires LockIsHeld(a) && a.Has(me) && OthersRan(cfg, a, b, me)
    ensures Went(cfg, a, b, me) && b.At(me) == a.At(me)
    ensures a.lock == Some(me) ==> b.lock == a.lock && b.base == a.base && b.kernel == a.kernel
  {
    var steps :| Reaches(cfg, a, steps, b) && NoneBy(steps, me);
    RunByOthers(cfg, a, steps, b, me);
  }

  /** What a goroutine knows of any stretch of its own code: a run of the protocol, receiving nothing. */
  ghost predicate Went(cfg: Config, a: State, b: State, me: Tid) {
    Evolves(cfg, a, b) && |b.callers| == |a.callers| && (me.Worker? ==> a.chan <= b.chan)
  }

  lemma WentOn(cfg: Config, a: State, b: State, c: State, me: Tid)
    requires Went(cfg, a, b, me) && Went(cfg, b, c, me)
    ensures Went(cfg, a, c, me)
  {
    EvolvesOn(cfg, a, b, c);
  }

  lemma StandsStill(cfg: Config, s: State, me: Tid)
    ensures Went(cfg, s, s, me)
  {
    assert Reaches(cfg, s, [], s);
  }

  /** Set returned for each mark in turn, and had provisioned it if its tc succeeded. */
  ghost predicate Served(cfg: Config, from: State, marks: seq<Mark32>, dones: seq<State>, tcOk: nat -> bool) {
    && |dones| == |marks|
    && forall k | 0 <= k < |marks| ::
         && Evolves(cfg, from, dones[k]) && dones[k].worker == Flag(marks[k])
         && (tcOk(k) ==> Provisioned(cfg, dones[k], marks[k]))
  }

  /** What was in the channel comes first among the marks received and those still there. */
  lemma InOrder(first: seq<Mark32>, marks: seq<Mark32>, before: seq<Mark32>, after: seq<Mark32>)
    requires first <= marks + before && before != [] && before[1..] <= after
    ensures first <= marks + [before[0]] + after
  {
    assert marks + before == marks + [before[0]] + before[1..];
  }

  /** One more pass of the worker, from before, where it received m, over done, where its Set returned. */
  lemma ServedMore(cfg: Config, from: State, marks: seq<Mark32>, dones: seq<State>, tcOk: nat -> bool,
                   before: State, m: Mark32, done: State, after: State)
    requires Served(cfg, from, marks, dones, tcOk)
    requires Evolves(cfg, from, before) && Evolves(cfg, before, done) && Evolves(cfg, done, after)
    requires done.worker == Flag(m) && (tcOk(|marks|) ==> Provisioned(cfg, done, m))
    ensures Served(cfg, from, marks + [m], dones + [done], tcOk) && Evolves(cfg, from, after)
  {
    EvolvesOn(cfg, from, before, done);
    EvolvesOn(cfg, from, done, after);
  }

  /** The step of the lock's holder that is next, with tc answering as it may. */
  function HolderStep(t: Tid, pc: Pc, tcOk: bool): Step {
    if pc.Tc? then Step.RunTc(t, tcOk) else if pc.Base? then Step.Record(t) else Step.Release(t)
  }

  lemma HolderGoesOn(cfg: Config, s: State, me: Tid, tcOk: bool)
    requires s.Has(me) && s.lock.Some? && s.Has(s.lock.value) && s.lock.value != me && s.At(s.lock.value).Critical()
    ensures var t := s.lock.value;
            var step := HolderStep(t, s.At(t), tcOk);
            && Enabled(cfg, s, step)
            && var s' := Apply(cfg, s, step);
            && |s'.callers| == |s.callers| && s'.chan == s.chan && s'.At(me) == s.At(me)
            && (s'.lock.Some? ==> s'.lock == s.lock && s'.At(t).Critical() && Rank(s'.At(t)) < Rank(s.At(t)))
  {
  }

  class Service {
    const cfg: Config
    ghost const start: State
    ghost const unadopted: set<Mark32>

    var queued: set<Mark32>
    var provisionQueue: seq<Mark32>
    var mu: Option<Tid>
    var base: map<Mark32, Rate>
    var kernel: map<Mark32, nat>

    // Where each goroutine is.
    var worker: Pc
    var callers: seq<Pc>

    function Now(): State
      reads this
    {
      State(queued, provisionQueue, mu, base, kernel, worker, callers)
    }

    /** Every state of the fields is one the protocol can reach from startup. */
    ghost predicate Valid()
      reads this
    {
      cfg.Valid() && Initial(cfg, start, unadopted) && Evolves(cfg, start, Now())
    }

    lemma Invariant()
      requires Valid()
      ensures Inv(cfg, Now(), unadopted)
    {
      var steps :| Reaches(cfg, start, steps, Now());
      InitialInv(cfg, start, unadopted);
      RunKeepsInv(cfg, start, steps, Now(), unadopted);
    }

    /** The fields moved from s by the one step. */
    lemma Stepped(s: State, step: Step)
      requires cfg.Valid() && Initial(cfg, start, unadopted) && Evolves(cfg, start, s)
      requires Enabled(cfg, s, step) && Now() == Apply(cfg, s, step)
      ensures Valid() && Evolves(cfg, s, Now())
    {
      OneStep(cfg, s, step);
      EvolvesOn(cfg, start, s, Now());
    }

    /** The process as run leaves it, with one slot for each goroutine that may call in. */
    constructor (cfg: Config, base: map<Mark32, Rate>, kernel: map<Mark32, nat>, slots: nat)
      requires cfg.Valid()
      requires forall m: Mark32 | m in base :: UserMark(m, cfg.queues) && m in kernel && base[m] == Capped(kernel[m])
      ensures Valid() && Initial(cfg, Now(), unadopted)
      ensures this.cfg == cfg && this.base == base && this.kernel == kernel && |callers| == slots
      ensures unadopted == kernel.Keys - base.Keys
    {
      this.cfg := cfg;
      this.unadopted := kernel.Keys - base.Keys;
      this.start := State({}, [], None, base, kernel, Idle, seq(slots, _ => Idle));
      queued, provisionQueue, mu := {}, [], None;
      this.base, this.kernel := base, kernel;
      worker, callers := Idle, seq(slots, _ => Idle);
      new;
      assert Reaches(cfg, Now(), [], Now());
    }

    /** Any run of the other goroutines; this is all its caller learns of it. */
    method Interfere(ghost me: Tid)
      requires Valid() && Now().Has(me)
      modifies this
      ensures Valid() && OthersRan(cfg, old(Now()), Now(), me)
    {
      assert Reaches(cfg, Now(), [], Now()) && NoneBy([], me);
    }

    /** A point at which others may run, and what stays as it was. */
    method Yield(ghost me: Tid)
      requires Valid() && Now().Has(me)
      modifies this
      ensures Valid() && Went(cfg, old(Now()), Now(), me)
      ensures Now().Has(me) && Now().At(me) == old(Now().At(me))
      ensures old(mu) == Some(me) ==> mu == old(mu) && base == old(base) && kernel == old(kernel)
    {
      Invariant();
      Interfere(me);
      OthersKeepOut(cfg, old(Now()), Now(), me);
    }

    method Goto(t: Tid, pc: Pc)
      requires Now().Has(t)
      modifies this`worker, this`callers
      ensures Now() == old(Now()).Goto(t, pc)
    {
      if t.Worker? {
        worker := pc;
      } else {
        callers := callers[t.id := pc];
      }
    }

    // ----- the store -----

    /** One step of any goroutine. */
    method Advance(step: Step)
      requires Valid() && Enabled(cfg, Now(), step)
      modifies this
      ensures Valid() && Now() == Apply(cfg, old(Now()), step) && Evolves(cfg, old(Now()), Now())
    {
      ghost var before := Now();
      var s := Apply(cfg, Now(), step);
      queued, provisionQueue, mu, base, kernel, worker, callers :=
        s.queued, s.chan, s.lock, s.base, s.kernel, s.worker, s.callers;
      Stepped(before, step);
    }

    /**
     Waiting for the lock: others run for as long as they like, and whoever holds the lock after that gets
     to the end of its Set or Delete, whatever tc answers it.
     */
    method AwaitUnlocked(ghost me: Tid)
      requires Valid() && Now().Has(me) && !Now().At(me).Critical()
      modifies this
      ensures Valid() && mu == None && Went(cfg, old(Now()), Now(), me)
      ensures Now().Has(me) && Now().At(me) == old(Now().At(me))
    {
      Yield(me);
      Invariant();
      while mu.Some?
        invariant Valid() && Now().Has(me) && Now().At(me) == old(Now().At(me))
        invariant mu.Some? ==> Now().Has(mu.value) && mu.value != me && Now().At(mu.value).Critical()
        invariant Went(cfg, old(Now()), Now(), me)
        decreases if mu.Some? then Rank(Now().At(mu.value)) else 0
      {
        ghost var before := Now();
        var tcOk: bool := *;
        AdvanceHolder(me, tcOk);
        WentOn(cfg, old(Now()), before, Now(), me);
      }
    }

    method AdvanceHolder(ghost me: Tid, tcOk: bool)
      requires Valid() && Now().Has(me) && mu.Some?
      requires Now().Has(mu.value) && mu.value != me && Now().At(mu.value).Critical()
      modifies this
      ensures Valid() && Went(cfg, old(Now()), Now(), me)
      ensures Now().Has(me) && Now().At(me) == old(Now().At(me))
      ensures mu.Some? ==> mu == old(mu) && Now().Has(mu.value) && Now().At(mu.value).Critical()
                           && Rank(Now().At(mu.value)) < Rank(old(Now().At(mu.value)))
    {
      HolderGoesOn(cfg, Now(), me, tcOk);
      Advance(HolderStep(mu.value, Now().At(mu.value), tcOk));
    }

    /** mu.Lock. */
    method Acquire(t: Tid)
      requires Valid() && Now().Has(t) && Now().At(t).Lock?
      modifies this
      ensures Valid() && Went(cfg, old(Now()), Now(), t) && mu == Some(t)
      ensures Now().Has(t) && Now().At(t) == Tc(old(Now().At(t)).op)
    {
      AwaitUnlocked(t);
      ghost var s := Now();
      mu := Some(t);
      Goto(t, Tc(Now().At(t).op));
      Stepped(s, Step.Acquire(t));
      WentOn(cfg, old(Now()), s, Now(), t);
    }

    /** SetRate or Remove on the interface. */
    method RunTc(t: Tid, tcOk: bool) returns (ok: bool)
      requires Valid() && Now().Has(t) && Now().At(t).Tc? && mu == Some(t)
      modifies this
      ensures Valid() && Went(cfg, old(Now()), Now(), t) && mu == Some(t) && base == old(base)
      ensures (kernel, ok) == TcEffect(cfg.queues, old(kernel), old(Now().At(t)).op, tcOk)
      ensures Now().Has(t) && Now().At(t) == if ok then Base(old(Now().At(t)).op) else Unlock(old(Now().At(t)).op)
    {
      Yield(t);
      ghost var s := Now();
      var op := Now().At(t).op;
      match op {
        case Set(m, r) =>
          ok := UserMark(m, cfg.queues) && tcOk;
          if ok { kernel := kernel[m := r]; }
        case Delete(m) =>
          ok := !UserMark(m, cfg.queues) || tcOk;
          if UserMark(m, cfg.queues) && tcOk { kernel := kernel - {m}; }
      }
      Goto(t, if ok then Base(op) else Unlock(op));
      Stepped(s, Step.RunTc(t, tcOk));
      WentOn(cfg, old(Now()), s, Now(), t);
    }

    /** base.Set or base.Delete. */
    method Record(t: Tid)
      requires Valid() && Now().Has(t) && Now().At(t).Base? && mu == Some(t)
      modifies this
      ensures Valid() && Went(cfg, old(Now()), Now(), t) && mu == Some(t) && kernel == old(kernel)
      ensures base == BaseEffect(old(base), old(Now().At(t)).op)
      ensures Now().Has(t) && Now().At(t) == Unlock(old(Now().At(t)).op)
    {
      Yield(t);
      ghost var s := Now();
      var op := Now().At(t).op;
      base := if op.Set? then base[op.mark := op.rate] else base - {op.mark};
      Goto(t, Unlock(op));
      Stepped(s, Step.Record(t));
      WentOn(cfg, old(Now()), s, Now(), t);
    }

    /** mu.Unlock. */
    method Release(t: Tid)
      requires Valid() && Now().Has(t) && Now().At(t).Unlock? && mu == Some(t)
      modifies this
      ensures Valid() && Went(cfg, old(Now()), Now(), t)
      ensures mu == None && base == old(base) && kernel == old(kernel)
      ensures Now().Has(t) && Now().At(t) == if t.Worker? then Flag(old(Now().At(t)).op.mark) else Idle
    {
      Yield(t);
      ghost var s := Now();
      mu := None;
      Goto(t, if t.Worker? then Flag(Now().At(t).op.mark) else Idle);
      Stepped(s, Step.Release(t));
      WentOn(cfg, old(Now()), s, Now(), t);
    }

    /** tc first, and the record only once that succeeds; all of it while t holds the lock. */
    method Change(t: Tid, tcOk: bool) returns (ok: bool)
      requires Valid() && Now().Has(t) && Now().At(t).Tc? && mu == Some(t)
      modifies this
      ensures Valid() && Went(cfg, old(Now()), Now(), t) && mu == None
      ensures Now().Has(t) && Now().At(t) == if t.Worker? then Flag(old(Now().At(t)).op.mark) else Idle
      ensures (kernel, ok) == TcEffect(cfg.queues, old(kernel), old(Now().At(t)).op, tcOk)
      ensures base == if ok then BaseEffect(old(base), old(Now().At(t)).op) else old(base)
    {
      ok := RunTc(t, tcOk);
      if ok {
        ghost var s1 := Now();
        Record(t);
        WentOn(cfg, old(Now()), s1, Now(), t);
      }
      ghost var s2 := Now();
      Release(t);
      WentOn(cfg, old(Now()), s2, Now(), t);
    }

    /** store.Set, called by goroutine t; at is the state in which the lock was taken. */
    method Set(t: Tid, mark: Mark32, rate: Rate, tcOk: bool) returns (ok: bool, ghost at: State)
      requires Valid() && Now().Has(t) && Now().At(t) == Lock(Op.Set(mark, rate))
      modifies this
      ensures Valid() && Went(cfg, old(Now()), at, t) && Went(cfg, at, Now(), t)
      ensures at.lock == Some(t) && mu == None
      ensures Now().Has(t) && Now().At(t) == if t.Worker? then Flag(mark) else Idle
      ensures ok <==> UserMark(mark, cfg.queues) && tcOk
      ensures base == if ok then at.base[mark := rate] else at.base
      ensures kernel == if ok then at.kernel[mark := rate] else at.kernel
    {
      Acquire(t);
      at := Now();
      ok := Change(t, tcOk);
    }

    /** store.Delete, called by goroutine t. A value that is not a user mark is left alone. */
    method Delete(t: Tid, mark: Mark32, tcOk: bool) returns (ok: bool, ghost at: State)
      requires Valid() && Now().Has(t) && t.Caller? && Now().At(t) == Lock(Op.Delete(mark))
      modifies this
      ensures Valid() && Went(cfg, old(Now()), at, t) && Went(cfg, at, Now(), t)
      ensures at.lock == Some(t) && mu == None && Now().Has(t) && Now().At(t) == Idle
      ensures ok <==> !UserMark(mark, cfg.queues) || tcOk
      ensures base == if ok then at.base - {mark} else at.base
      ensures kernel == if ok && UserMark(mark, cfg.queues) then at.kernel - {mark} else at.kernel
    {
      Acquire(t);
      at := Now();
      ok := Change(t, tcOk);
    }

    // ----- the webhook side -----

    method Get(i: nat, mark: Mark32) returns (found: bool)
      requires Valid() && i < |callers| && callers[i] == Idle
      requires cfg.perUser > 0 && UserMark(mark, cfg.queues)
      modifies this
      ensures Valid() && Went(cfg, old(Now()), Now(), Caller(i))
      ensures found <==> mark in base
      ensures callers[i] == if found then Idle else Load(mark)
    {
      Yield(Caller(i));
      ghost var s := Now();
      assert s.At(Caller(i)) == callers[i];
      found := mark in base;
      if !found {
        Goto(Caller(i), Load(mark));
      }
      Stepped(s, Step.Get(i, mark));
      WentOn(cfg, old(Now()), s, Now(), Caller(i));
    }

    /** seen is the state in which the flag was looked up. */
    method LoadOrStore(i: nat) returns (loaded: bool, ghost seen: State)
      requires Valid() && i < |callers| && callers[i].Load?
      modifies this
      ensures Valid() && Went(cfg, old(Now()), seen, Caller(i)) && Went(cfg, seen, Now(), Caller(i))
      ensures loaded <==> old(callers)[i].mark in seen.queued
      ensures queued == seen.queued + {old(callers)[i].mark}
      ensures callers[i] == if loaded then Idle else Send(old(callers)[i].mark)
    {
      Yield(Caller(i));
      seen := Now();
      var mark := callers[i].mark;
      assert seen.At(Caller(i)) == callers[i];
      loaded := mark in queued;
      queued := queued + {mark};
      Goto(Caller(i), if loaded then Idle else Send(mark));
      assert loaded ==> queued == seen.queued;
      Stepped(seen, Step.LoadOrStore(i));
    }

    /** seen is the state in which room was looked for. */
    method TrySend(i: nat) returns (sent: bool, ghost seen: State)
      requires Valid() && i < |callers| && callers[i].Send?
      modifies this
      ensures Valid() && Went(cfg, old(Now()), seen, Caller(i)) && Went(cfg, seen, Now(), Caller(i))
      ensures callers[i] == if sent then Idle else Drop(old(callers)[i].mark)
      ensures sent <==> |seen.chan| < cfg.capacity
      ensures old(callers)[i].mark in queued && |provisionQueue| <= cfg.capacity
      ensures provisionQueue == if sent then seen.chan + [old(callers)[i].mark] else seen.chan
    {
      Yield(Caller(i));
      seen := Now();
      var mark := callers[i].mark;
      assert seen.At(Caller(i)) == callers[i];
      Invariant();
      assert HandlerHolds(seen, i, mark);
      sent := |provisionQueue| < cfg.capacity;
      if sent {
        provisionQueue := provisionQueue + [mark];
      }
      Goto(Caller(i), if sent then Idle else Drop(mark));
      Stepped(seen, Step.TrySend(i));
    }

    /** seen is the state in which the flag was cleared. */
    method Undo(i: nat) returns (ghost seen: State)
      requires Valid() && i < |callers| && callers[i].Drop?
      modifies this
      ensures Valid() && Went(cfg, old(Now()), seen, Caller(i)) && Went(cfg, seen, Now(), Caller(i))
      ensures callers[i] == Idle && old(callers)[i].mark in seen.queued
      ensures queued == seen.queued - {old(callers)[i].mark} && provisionQueue == seen.chan
    {
      Yield(Caller(i));
      seen := Now();
      assert seen.At(Caller(i)) == callers[i];
      Invariant();
      assert HandlerHolds(seen, i, callers[i].mark);
      queued := queued - {callers[i].mark};
      Goto(Caller(i), Idle);
      Stepped(seen, Step.Undo(i));
    }

    /**
     queueProvision by handler i. Whatever the others do meanwhile, the mark had a rate when Get looked, or
     a flag someone owned when LoadOrStore looked, or is sent, or the channel was found full and the flag
     is cleared again; seen is the state in which that was decided.
     */
    method QueueProvision(i: nat, mark: Mark32) returns (outcome: Outcome, ghost seen: State)
      requires Valid() && i < |callers| && callers[i] == Idle
      requires cfg.perUser > 0 && UserMark(mark, cfg.queues)
      modifies this
      ensures Valid() && Went(cfg, old(Now()), seen, Caller(i)) && Went(cfg, seen, Now(), Caller(i))
      ensures |callers| == |old(callers)| && callers[i] == Idle
      ensures Decided(cfg, outcome, mark, seen, Now())
    {
      var found := Get(i, mark);
      seen := Now();
      assert Reaches(cfg, seen, [], seen);
      if found {
        return HasRate, seen;
      }
      ghost var s1 := Now();
      var loaded;
      loaded, seen := LoadOrStore(i);
      WentOn(cfg, old(Now()), s1, seen, Caller(i));
      if loaded {
        assert seen.queued + {mark} == seen.queued;
        return Waiting, seen;
      }
      ghost var s2 := Now();
      WentOn(cfg, old(Now()), seen, s2, Caller(i));
      var sent;
      sent, seen := TrySend(i);
      WentOn(cfg, old(Now()), s2, seen, Caller(i));
      if sent {
        return Queued, seen;
      }
      ghost var s3, undone := Now(), seen;
      undone := Undo(i);
      WentOn(cfg, seen, s3, undone, Caller(i));
      WentOn(cfg, seen, undone, Now(), Caller(i));
      return Full, seen;
    }

    // ----- the worker -----

    method Receive() returns (mark: Mark32)
      requires Valid() && worker == Idle && provisionQueue != []
      modifies this
      ensures Valid() && |callers| == |old(callers)| && Evolves(cfg, old(Now()), Now())
      ensures mark == old(provisionQueue)[0] && provisionQueue == old(provisionQueue)[1..]
      ensures worker == Lock(Op.Set(mark, cfg.perUser)) && UserMark(mark, cfg.queues)
    {
      Invariant();
      ghost var s := Now();
      mark := provisionQueue[0];
      provisionQueue := provisionQueue[1..];
      Goto(Worker, Lock(Op.Set(mark, cfg.perUser)));
      Stepped(s, Step.Receive);
    }

    /** seen is the state in which the flag was cleared. */
    method ClearFlag() returns (ghost seen: State)
      requires Valid() && worker.Flag?
      modifies this
      ensures Valid() && Went(cfg, old(Now()), seen, Worker) && Went(cfg, seen, Now(), Worker) && worker == Idle
      ensures queued == seen.queued - {old(worker).mark} && old(worker).mark in seen.queued
      ensures provisionQueue == seen.chan && old(worker).mark !in provisionQueue
    {
      Yield(Worker);
      Invariant();
      seen := Now();
      assert seen.At(Worker) == worker && WorkerHolds(seen, worker.mark);
      queued := queued - {worker.mark};
      Goto(Worker, Idle);
      Stepped(seen, Step.ClearFlag);
    }

    /**
     One pass of provisionLoop: the mark at the head of the channel is set, and only then is its flag
     cleared; done is the state in which Set returned.
     */
    method ProvisionNext(tcOk: bool) returns (mark: Mark32, ghost done: State)
      requires Valid() && worker == Idle && provisionQueue != []
      modifies this
      ensures Valid() && worker == Idle && |callers| == |old(callers)|
      ensures mark == old(provisionQueue)[0] && mark !in queued && mark !in provisionQueue
      ensures old(provisionQueue)[1..] <= provisionQueue
      ensures Evolves(cfg, old(Now()), done) && Evolves(cfg, done, Now()) && done.worker == Flag(mark)
      ensures tcOk ==> Provisioned(cfg, done, mark)
    {
      mark := Receive();
      ghost var s := Now();
      ghost var at, ok;
      ok, at := Set(Worker, mark, cfg.perUser, tcOk);
      EvolvesOn(cfg, s, at, Now());
      EvolvesOn(cfg, old(Now()), s, Now());
      done := Now();
      ghost var seen := ClearFlag();
      EvolvesOn(cfg, done, seen, Now());
    }

    /**
     provisionLoop, for as many rounds as it gets; a round that finds the channel empty goes on waiting.
     marks are the marks received, in order, and dones the states in which their Sets returned: what
     was in the channel comes first, and each mark whose tc succeeded was provisioned when its Set returned.
     */
    method ProvisionLoop(rounds: nat, tcOk: nat -> bool) returns (marks: seq<Mark32>, ghost dones: seq<State>)
      requires Valid() && worker == Idle
      modifies this
      ensures Valid() && worker == Idle && Evolves(cfg, old(Now()), Now())
      ensures old(provisionQueue) <= marks + provisionQueue && |marks| <= rounds
      ensures |marks| >= rounds || |marks| >= |old(provisionQueue)|
      ensures Served(cfg, old(Now()), marks, dones, tcOk)
    {
      assert Reaches(cfg, Now(), [], Now());
      marks, dones := [], [];
      for k := 0 to rounds
        invariant Valid() && worker == Idle && Evolves(cfg, old(Now()), Now())
        invariant old(provisionQueue) <= marks + provisionQueue && |marks| <= k
        invariant |marks| >= k || |marks| >= |old(provisionQueue)|
        invariant Served(cfg, old(Now()), marks, dones, tcOk)
      {
        ghost var s := Now();
        Yield(Worker);
        EvolvesOn(cfg, old(Now()), s, Now());
        if provisionQueue != [] {
          ghost var before, done := Now(), Now();
          var mark;
          mark, done := ProvisionNext(tcOk(|marks|));
          ServedMore(cfg, old(Now()), marks, dones, tcOk, before, mark, done, Now());
          InOrder(old(provisionQueue), marks, before.chan, provisionQueue);
          marks, dones := marks + [mark], dones + [done];
        }
      }
    }
  }
}
