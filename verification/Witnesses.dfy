/**
 Runs from startup, by two webhook or API callers and the worker, that reach the states in which the
 natural claims about provisioning fail.
 */
module Witnesses {
  import opened Options
  import opened Marks
  import opened Protocol
  import opened Runs

  lemma Extend(cfg: Config, s: State, steps: seq<Step>, t: State, step: Step)
    requires Reaches(cfg, s, steps, t) && Enabled(cfg, t, step)
    ensures Reaches(cfg, s, steps + [step], Apply(cfg, t, step))
  {
    assert Reaches(cfg, Apply(cfg, t, step), [], Apply(cfg, t, step));
    assert Reaches(cfg, t, [step], Apply(cfg, t, step));
    Then(cfg, s, steps, t, [step], Apply(cfg, t, step));
  }

  /** Startup with room for two callers, and a user without a rate. */
  ghost predicate Start(cfg: Config, s: State, m: Mark32, unadopted: set<Mark32>) {
    && cfg.Valid() && cfg.perUser > 0 && Initial(cfg, s, unadopted) && |s.callers| >= 2
    && UserMark(m, cfg.queues) && m !in s.base
  }

  /** A Set that waits for the free lock, from taking it to releasing it. */
  lemma Changed(cfg: Config, s: State, steps: seq<Step>, t: State, who: Tid, m: Mark32, rate: Rate)
    returns (more: seq<Step>, u: State)
    requires Reaches(cfg, s, steps, t) && t.Has(who) && t.At(who) == Lock(Set(m, rate)) && t.lock == None
    requires UserMark(m, cfg.queues)
    ensures Reaches(cfg, s, more, u)
    ensures u == t.(base := t.base[m := rate], kernel := t.kernel[m := rate])
                  .Goto(who, if who.Worker? then Flag(m) else Idle)
  {
    var s1 := Apply(cfg, t, Acquire(who));
    Extend(cfg, s, steps, t, Acquire(who));
    var s2 := Apply(cfg, s1, RunTc(who, true));
    more := steps + [Acquire(who)];
    Extend(cfg, s, more, s1, RunTc(who, true));
    more := more + [RunTc(who, true)];
    var s3 := Apply(cfg, s2, Step.Record(who));
    Extend(cfg, s, more, s2, Step.Record(who));
    more := more + [Step.Record(who)];
    u := Apply(cfg, s3, Release(who));
    Extend(cfg, s, more, s3, Release(who));
    more := more + [Release(who)];
  }

  /** A PUT by idle caller i. */
  lemma Called(cfg: Config, s: State, steps: seq<Step>, t: State, i: nat, m: Mark32, rate: Rate)
    returns (more: seq<Step>, u: State)
    requires Reaches(cfg, s, steps, t) && i < |t.callers| && t.callers[i] == Idle && t.lock == None
    requires UserMark(m, cfg.queues) && rate > 0
    ensures Reaches(cfg, s, more, u)
    ensures u == t.(base := t.base[m := rate], kernel := t.kernel[m := rate])
  {
    var call := Call(i, Op.Set(m, rate));
    Extend(cfg, s, steps, t, call);
    more, u := Changed(cfg, s, steps + [call], Apply(cfg, t, call), Caller(i), m, rate);
    assert u.callers == t.callers;
  }

  /** A webhook of idle handler i puts m into the channel. */
  lemma Sent(cfg: Config, s: State, steps: seq<Step>, t: State, i: nat, m: Mark32) returns (more: seq<Step>, u: State)
    requires Reaches(cfg, s, steps, t) && i < |t.callers| && t.callers[i] == Idle
    requires cfg.perUser > 0 && UserMark(m, cfg.queues) && m !in t.base && m !in t.queued && |t.chan| < cfg.capacity
    ensures Reaches(cfg, s, more, u) && u == t.(queued := t.queued + {m}, chan := t.chan + [m])
  {
    var s1 := Apply(cfg, t, Get(i, m));
    Extend(cfg, s, steps, t, Get(i, m));
    var s2 := Apply(cfg, s1, LoadOrStore(i));
    Extend(cfg, s, steps + [Get(i, m)], s1, LoadOrStore(i));
    u := Apply(cfg, s2, TrySend(i));
    more := steps + [Get(i, m)] + [LoadOrStore(i)] + [TrySend(i)];
    Extend(cfg, s, steps + [Get(i, m)] + [LoadOrStore(i)], s2, TrySend(i));
    assert u.callers == t.callers;
  }

  /** The idle worker provisions the mark at the head of the channel. */
  lemma Worked(cfg: Config, s: State, steps: seq<Step>, t: State) returns (more: seq<Step>, u: State)
    requires Reaches(cfg, s, steps, t) && t.worker == Idle && t.lock == None && t.chan != []
    requires UserMark(t.chan[0], cfg.queues)
    ensures Reaches(cfg, s, more, u)
    ensures u == t.(chan := t.chan[1..], queued := t.queued - {t.chan[0]},
                    base := t.base[t.chan[0] := cfg.perUser], kernel := t.kernel[t.chan[0] := cfg.perUser])
  {
    Extend(cfg, s, steps, t, Receive);
    var steps', u' := Changed(cfg, s, steps + [Receive], Apply(cfg, t, Receive), Worker, t.chan[0], cfg.perUser);
    Extend(cfg, s, steps', u', ClearFlag);
    more, u := steps' + [ClearFlag], Apply(cfg, u', ClearFlag);
  }

  /**
   From every startup: a webhook queues m, then a PUT sets m to another rate, and the worker still
   overwrites that, without any further call.
   */
  lemma PutIsOverwritten(cfg: Config, s: State, m: Mark32, rate: Rate, unadopted: set<Mark32>)
    returns (before: seq<Step>, put: State, after: seq<Step>, end: State)
    requires Start(cfg, s, m, unadopted) && 0 < rate && rate != cfg.perUser
    ensures Reaches(cfg, s, before, put) && Undisturbed(put, m) && Pending(put, m)
    ensures m in put.base && put.base[m] == rate
    ensures Reaches(cfg, put, after, end) && NoneStart(after)
    ensures m in end.base && end.base[m] == cfg.perUser
  {
    assert Reaches(cfg, s, [], s);
    var steps, sent := Sent(cfg, s, [], s, 0, m);
    before, put := Called(cfg, s, steps, sent, 1, m, rate);
    InitialInv(cfg, s, unadopted);
    RunKeepsInv(cfg, s, before, put, unadopted);
    after, end := PendingCanOverwrite(cfg, put, m, unadopted);
  }

  /**
   From every startup: a handler finds no rate for m, another webhook gets m provisioned, and then the
   first handler brings m into the channel again, so the worker sets it a second time.
   */
  lemma SetRunsTwice(cfg: Config, s: State, m: Mark32, unadopted: set<Mark32>)
    returns (before: seq<Step>, set_: State, after: seq<Step>, end: State)
    requires Start(cfg, s, m, unadopted)
    ensures Reaches(cfg, s, before, set_) && Provisioned(cfg, set_, m) && !InWork(set_, m) && OnItsWay(set_, 0, m)
    ensures Reaches(cfg, set_, after, end) && NoneStart(after)
    ensures end.worker == Lock(Set(m, cfg.perUser)) && Provisioned(cfg, end, m)
  {
    assert Reaches(cfg, s, [], s);
    var s1 := Apply(cfg, s, Get(0, m));
    Extend(cfg, s, [], s, Get(0, m));
    var steps, s2 := Sent(cfg, s, [] + [Get(0, m)], s1, 1, m);
    before, set_ := Worked(cfg, s, steps, s2);
    var s3 := Apply(cfg, set_, LoadOrStore(0));
    assert Reaches(cfg, set_, [], set_);
    Extend(cfg, set_, [], set_, LoadOrStore(0));
    var s4 := Apply(cfg, s3, TrySend(0));
    Extend(cfg, set_, [] + [LoadOrStore(0)], s3, TrySend(0));
    end := Apply(cfg, s4, Receive);
    after := [] + [LoadOrStore(0)] + [TrySend(0)] + [Receive];
    Extend(cfg, set_, [] + [LoadOrStore(0)] + [TrySend(0)], s4, Receive);
  }

  /** From every startup: with m set and then being deleted, a Get answers true while m has no class. */
  lemma GetWithoutClass(cfg: Config, s: State, m: Mark32, rate: Rate, unadopted: set<Mark32>)
    returns (steps: seq<Step>, t: State)
    requires Start(cfg, s, m, unadopted) && 0 < rate
    ensures Reaches(cfg, s, steps, t) && Enabled(cfg, t, Get(1, m))
    ensures m in t.base && m !in t.kernel && Apply(cfg, t, Get(1, m)) == t
  {
    assert Reaches(cfg, s, [], s);
    var before, s1 := Called(cfg, s, [], s, 0, m, rate);
    var s2 := Apply(cfg, s1, Call(0, Delete(m)));
    Extend(cfg, s, before, s1, Call(0, Delete(m)));
    var s3 := Apply(cfg, s2, Acquire(Caller(0)));
    Extend(cfg, s, before + [Call(0, Delete(m))], s2, Acquire(Caller(0)));
    t := Apply(cfg, s3, RunTc(Caller(0), true));
    steps := before + [Call(0, Delete(m))] + [Acquire(Caller(0))] + [RunTc(Caller(0), true)];
    Extend(cfg, s, before + [Call(0, Delete(m))] + [Acquire(Caller(0))], s3, RunTc(Caller(0), true));
  }

  /** Such startups exist, for every queue count, rate and user mark. */
  lemma StartExists(cfg: Config, m: Mark32)
    requires cfg.Valid() && cfg.perUser > 0 && UserMark(m, cfg.queues)
    ensures Start(cfg, State({}, [], None, map[], map[], Idle, [Idle, Idle]), m, {})
  {
  }
}
