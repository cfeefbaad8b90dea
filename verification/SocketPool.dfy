/**
 The pool of idle netlink sockets under any interleaving of SetMark calls. A call takes a pooled socket
 or opens one, has one exchange on it, and returns it to the pool (or closes it if the pool is full)
 when the exchange succeeded, and closes it when it failed.
 */
module SocketPool {
  import opened Options
  import opened Counting

  const POOL_SIZE := 8

  /** Where one SetMark call is, and with which socket. */
  datatype Call = Out | Holds(sock: nat) | Answered(sock: nat) | Broken(sock: nat)

  /** ever remembers every socket there ever was, so that a new one is new. */
  datatype State = State(pool: seq<nat>, open: set<nat>, ever: set<nat>, unanswered: map<nat, nat>, calls: seq<Call>)

  datatype Step =
    | Get(i: nat)
    | Open(i: nat, sock: nat)
    | Exchange(i: nat, ok: bool, left: nat)
    | Put(i: nat)
    | Discard(i: nat)

  predicate Enabled(s: State, step: Step) {
    step.i < |s.calls| &&
    match step
    case Get(i) => s.calls[i].Out? && s.pool != []
    case Open(i, sock) => s.calls[i].Out? && s.pool == [] && sock !in s.ever
    case Exchange(i, ok, left) => s.calls[i].Holds? && (ok ==> left == 0)
    case Put(i) => s.calls[i].Answered?
    case Discard(i) => s.calls[i].Broken?
  }

  function Apply(s: State, step: Step): State
    requires Enabled(s, step)
  {
    match step
    case Get(i) => s.(pool := s.pool[1..], calls := s.calls[i := Holds(s.pool[0])])
    case Open(i, sock) =>
      s.(open := s.open + {sock}, ever := s.ever + {sock},
         unanswered := s.unanswered[sock := 0], calls := s.calls[i := Holds(sock)])
    case Exchange(i, ok, left) =>
      var sock := s.calls[i].sock;
      s.(unanswered := s.unanswered[sock := left],
         calls := s.calls[i := if ok then Answered(sock) else Broken(sock)])
    case Put(i) =>
      var sock := s.calls[i].sock;
      if |s.pool| < POOL_SIZE then s.(pool := s.pool + [sock], calls := s.calls[i := Out])
      else s.(open := s.open - {sock}, calls := s.calls[i := Out])
    case Discard(i) => s.(open := s.open - {s.calls[i].sock}, calls := s.calls[i := Out])
  }

  predicate HeldBy(s: State, i: nat, sock: nat) {
    i < |s.calls| && !s.calls[i].Out? && s.calls[i].sock == sock
  }

  ghost predicate Held(s: State, sock: nat) {
    exists i: nat :: HeldBy(s, i, sock)
  }

  /** Every open socket is in the pool or held by exactly one call, never both. */
  ghost predicate Owned(s: State) {
    && AllDistinct(s.pool)
    && (forall k :: k in s.open <==> k in s.pool || Held(s, k))
    && (forall k | k in s.pool :: !Held(s, k))
    && (forall i: nat, j: nat, k | HeldBy(s, i, k) && HeldBy(s, j, k) :: i == j)
  }

  /** Every request ever sent on the socket has been answered. */
  predicate NoneLeft(s: State, sock: nat) {
    sock in s.unanswered && s.unanswered[sock] == 0
  }

  /** No socket that may still get late replies is in the pool, or handed out. */
  ghost predicate Clean(s: State) {
    && (forall k | k in s.open :: k in s.unanswered)
    && (forall k | k in s.pool :: NoneLeft(s, k))
    && (forall i: nat | i < |s.calls| && (s.calls[i].Holds? || s.calls[i].Answered?) ::
          NoneLeft(s, s.calls[i].sock))
  }

  ghost predicate Inv(s: State) {
    Owned(s) && Clean(s) && |s.pool| <= POOL_SIZE && s.open <= s.ever
  }

  ghost predicate Initial(s: State) {
    s.pool == [] && s.open == {} && s.ever == {} && forall i | 0 <= i < |s.calls| :: s.calls[i] == Out
  }

  lemma HeldAfter(s: State, s': State, i: nat, call: Call)
    requires i < |s.calls| && s'.calls == s.calls[i := call]
    ensures forall j: nat, k :: HeldBy(s', j, k) <==> if j == i then !call.Out? && call.sock == k else HeldBy(s, j, k)
    ensures forall k :: Held(s', k) <==> (!call.Out? && call.sock == k) || exists j: nat :: j != i && HeldBy(s, j, k)
  {
    forall k | (!call.Out? && call.sock == k) || exists j: nat :: j != i && HeldBy(s, j, k) ensures Held(s', k) {
      if !call.Out? && call.sock == k {
        assert HeldBy(s', i, k);
      } else {
        var j: nat :| j != i && HeldBy(s, j, k);
        assert HeldBy(s', j, k);
      }
    }
  }

  lemma TakingKeepsOwned(s: State, step: Step)
    requires Owned(s) && s.open <= s.ever && Enabled(s, step) && (step.Get? || step.Open?)
    ensures Owned(Apply(s, step))
  {
    var s' := Apply(s, step);
    HeldAfter(s, s', step.i, s'.calls[step.i]);
    assert forall k :: !HeldBy(s, step.i, k);
    if step.Get? {
      assert s.pool == [s.pool[0]] + s'.pool && s.pool[0] in s.pool;
      assert forall k :: k in s.pool <==> k == s.pool[0] || k in s'.pool;
      assert forall k :: Held(s', k) <==> k == s.pool[0] || Held(s, k);
    } else {
      assert step.sock !in s.open;
      assert forall k :: Held(s', k) <==> k == step.sock || Held(s, k);
    }
  }

  lemma GivingKeepsOwned(s: State, step: Step)
    requires Owned(s) && Enabled(s, step) && (step.Put? || step.Discard?)
    ensures Owned(Apply(s, step))
  {
    var s', sock := Apply(s, step), s.calls[step.i].sock;
    HeldAfter(s, s', step.i, Out);
    assert HeldBy(s, step.i, sock) && Held(s, sock) && sock in s.open && sock !in s.pool;
    assert forall k :: Held(s', k) <==> k != sock && Held(s, k);
    assert forall k :: k in s'.pool <==> k in s.pool || (k == sock && s'.open == s.open);
  }

  lemma ExchangeKeepsOwned(s: State, step: Step)
    requires Owned(s) && Enabled(s, step) && step.Exchange?
    ensures Owned(Apply(s, step))
  {
    var s', sock := Apply(s, step), s.calls[step.i].sock;
    assert forall j: nat, k :: HeldBy(s', j, k) <==> HeldBy(s, j, k);
    assert forall k :: Held(s', k) <==> Held(s, k);
  }

  lemma StepKeepsClean(s: State, step: Step)
    requires Inv(s) && Enabled(s, step)
    ensures Clean(Apply(s, step))
  {
    var s' := Apply(s, step);
    forall i: nat | i < |s'.calls| && (s'.calls[i].Holds? || s'.calls[i].Answered?)
      ensures NoneLeft(s', s'.calls[i].sock)
    {
      if i != step.i {
        assert HeldBy(s, i, s.calls[i].sock) && Held(s, s.calls[i].sock);
        assert step.Exchange? ==> HeldBy(s, step.i, s.calls[step.i].sock);
      } else if step.Get? {
        assert s.pool[0] in s.pool;
      }
    }
    if step.Exchange? || step.Put? {
      assert HeldBy(s, step.i, s.calls[step.i].sock) && Held(s, s.calls[step.i].sock);
    }
  }

  lemma StepKeepsInv(s: State, step: Step)
    requires Inv(s) && Enabled(s, step)
    ensures Inv(Apply(s, step))
  {
    StepKeepsClean(s, step);
    match step
    case Get(_) => TakingKeepsOwned(s, step);
    case Open(_, _) => TakingKeepsOwned(s, step);
    case Exchange(_, _, _) => ExchangeKeepsOwned(s, step);
    case Put(_) => GivingKeepsOwned(s, step);
    case Discard(_) => GivingKeepsOwned(s, step);
  }

  predicate Reaches(s: State, steps: seq<Step>, s': State)
    decreases |steps|
  {
    if steps == [] then s' == s
    else Enabled(s, steps[0]) && Reaches(Apply(s, steps[0]), steps[1..], s')
  }

  /** In every reachable state the sockets are owned one to one, and pooled ones are clean. */
  lemma {:induction false} RunKeepsInv(s: State, steps: seq<Step>, s': State)
    requires Inv(s) && Reaches(s, steps, s')
    ensures Inv(s')
    decreases |steps|
  {
    if steps != [] {
      StepKeepsInv(s, steps[0]);
      RunKeepsInv(Apply(s, steps[0]), steps[1..], s');
    }
  }

  lemma InitialInv(s: State)
    requires Initial(s)
    ensures Inv(s)
  {
    assert forall i: nat, k :: !HeldBy(s, i, k);
  }

  /** No step of any run sends on, pools or closes a socket that is not open: none is closed twice. */
  lemma NeverUsedAfterClose(s: State, steps: seq<Step>, s': State, step: Step)
    requires Initial(s) && Reaches(s, steps, s') && Enabled(s', step)
    ensures step.Get? ==> s'.pool[0] in s'.open && NoneLeft(s', s'.pool[0])
    ensures step.Exchange? || step.Put? || step.Discard? ==> s'.calls[step.i].sock in s'.open
    ensures step.Exchange? ==> NoneLeft(s', s'.calls[step.i].sock)
  {
    InitialInv(s);
    RunKeepsInv(s, steps, s');
    if step.Get? {
      assert s'.pool[0] in s'.pool;
    } else if !step.Open? {
      assert HeldBy(s', step.i, s'.calls[step.i].sock);
      assert Held(s', s'.calls[step.i].sock);
    }
  }

  /** How many calls hold a socket. */
  function Busy(calls: seq<Call>): nat {
    if calls == [] then 0
    else
      var n := |calls| - 1;
      Busy(calls[..n]) + if calls[n].Out? then 0 else 1
  }

  function Socks(calls: seq<Call>): set<nat> {
    set i | 0 <= i < |calls| && !calls[i].Out? :: calls[i].sock
  }

  lemma {:induction false} HeldCount(calls: seq<Call>)
    ensures |Socks(calls)| <= Busy(calls)
  {
    if calls == [] {
      assert Socks(calls) == {};
    } else {
      var n := |calls| - 1;
      HeldCount(calls[..n]);
      assert Socks(calls) == Socks(calls[..n]) + if calls[n].Out? then {} else {calls[n].sock};
    }
  }

  /** There are never more sockets open than eight and the calls running; with no call running, at most eight. */
  lemma OpenIsBounded(s: State, steps: seq<Step>, s': State)
    requires Initial(s) && Reaches(s, steps, s')
    ensures |s'.open| <= 8 + Busy(s'.calls)
    ensures (forall i | 0 <= i < |s'.calls| :: s'.calls[i] == Out) ==> |s'.open| <= 8
  {
    InitialInv(s);
    RunKeepsInv(s, steps, s');
    HeldCount(s'.calls);
    DistinctSize(s'.pool);
    forall k | k in s'.open ensures k in Elements(s'.pool) + Socks(s'.calls) {
      if Held(s', k) {
        var i: nat :| HeldBy(s', i, k);
      }
    }
    SubsetSize(s'.open, Elements(s'.pool) + Socks(s'.calls));
    assert |Elements(s'.pool) + Socks(s'.calls)| <= |Elements(s'.pool)| + |Socks(s'.calls)|;
    if forall i | 0 <= i < |s'.calls| :: s'.calls[i] == Out {
      assert Socks(s'.calls) == {};
    }
  }

  // ----- the code -----

  lemma {:induction false} OneMore(s: State, steps: seq<Step>, s': State, step: Step)
    requires Reaches(s, steps, s') && Enabled(s', step)
    ensures Reaches(s, steps + [step], Apply(s', step))
    decreases |steps|
  {
    if steps == [] {
      assert Reaches(Apply(s', step), [], Apply(s', step));
      assert [step][1..] == [];
    } else {
      OneMore(Apply(s, steps[0]), steps[1..], s', step);
      assert (steps + [step])[1..] == steps[1..] + [step];
    }
  }

  predicate NoneBy(steps: seq<Step>, i: nat) {
    forall k | 0 <= k < |steps| :: steps[k].i != i
  }

  /** From a, after the steps so far, others took the steps that are new in the log, and none of call i. */
  ghost predicate OthersRan(a: State, sofar: seq<Step>, b: State, steps: seq<Step>, i: nat) {
    && sofar <= steps
    && Reaches(a, steps[|sofar|..], b) && NoneBy(steps[|sofar|..], i)
  }

  /** The steps of one call. */
  function Own(steps: seq<Step>, i: nat): seq<Step> {
    if steps == [] then []
    else
      var n := |steps| - 1;
      Own(steps[..n], i) + if steps[n].i == i then [steps[n]] else []
  }

  lemma OwnMore(steps: seq<Step>, step: Step, i: nat)
    ensures Own(steps + [step], i) == Own(steps, i) + if step.i == i then [step] else []
  {
    assert (steps + [step])[..|steps|] == steps;
  }

  lemma {:induction false} OwnStays(steps: seq<Step>, more: seq<Step>, i: nat)
    requires NoneBy(more, i)
    ensures Own(steps + more, i) == Own(steps, i)
  {
    if more == [] {
      assert steps + more == steps;
    } else {
      var n := |more| - 1;
      OwnStays(steps, more[..n], i);
      assert steps + more == steps + more[..n] + [more[n]];
      OwnMore(steps + more[..n], more[n], i);
    }
  }

  /**
   One use of a socket by call i: it is taken from the pool or opened, has one exchange, and goes back to
   the pool exactly if that succeeded.
   */
  ghost predicate IsTrip(trip: seq<Step>, i: nat, ok: bool) {
    && |trip| == 3
    && (trip[0] == Get(i) || (trip[0].Open? && trip[0].i == i))
    && trip[1].Exchange? && trip[1].i == i && trip[1].ok == ok
    && trip[2] == if ok then Put(i) else Discard(i)
  }

  /** A socket put back stays open and is in the pool if there is room among the eight, and is closed if not. */
  lemma PutPools(s: State, steps: seq<Step>, s': State, i: nat)
    requires Initial(s) && Reaches(s, steps, s') && Enabled(s', Put(i))
    ensures var after, sock := Apply(s', Put(i)), s'.calls[i].sock;
            if |s'.pool| < 8 then sock in after.open && after.pool == s'.pool + [sock] && after.open == s'.open
            else sock !in after.open && after.pool == s'.pool && after.open == s'.open - {sock}
  {
    NeverUsedAfterClose(s, steps, s', Put(i));
  }

  lemma {:induction false} RunByOthers(a: State, steps: seq<Step>, b: State, i: nat)
    requires Reaches(a, steps, b) && NoneBy(steps, i)
    ensures |b.calls| == |a.calls| && (i < |a.calls| ==> b.calls[i] == a.calls[i])
    decreases |steps|
  {
    if steps != [] {
      assert steps[0].i != i;
      RunByOthers(Apply(a, steps[0]), steps[1..], b, i);
    }
  }

  /** Other calls never take a call's socket from it, nor step for it. */
  lemma OthersKeepOut(a: State, sofar: seq<Step>, b: State, steps: seq<Step>, i: nat)
    requires OthersRan(a, sofar, b, steps, i) && i < |a.calls|
    ensures |b.calls| == |a.calls| && b.calls[i] == a.calls[i]
    ensures Own(steps, i) == Own(sofar, i)
  {
    RunByOthers(a, steps[|sofar|..], b, i);
    OwnStays(sofar, steps[|sofar|..], i);
    assert sofar + steps[|sofar|..] == steps;
  }

  class Sockets {
    ghost const start: State
    var pool: seq<nat>
    var open: set<nat>
    var ever: set<nat>
    ghost var unanswered: map<nat, nat>
    ghost var calls: seq<Call>
    /** Every step so far. */
    ghost var steps: seq<Step>

    ghost function Now(): State
      reads this
    {
      State(pool, open, ever, unanswered, calls)
    }

    /** The fields are as the steps so far leave them. */
    ghost predicate Valid()
      reads this
    {
      Initial(start) && Reaches(start, steps, Now())
    }

    constructor (ghost slots: nat)
      ensures Valid() && steps == [] && |calls| == slots && forall i | 0 <= i < slots :: calls[i] == Out
    {
      start := State([], {}, {}, map[], seq(slots, _ => Out));
      pool, open, ever, unanswered, steps := [], {}, {}, map[], [];
      calls := seq(slots, _ => Out);
    }

    lemma Invariant()
      requires Valid()
      ensures Inv(Now())
    {
      InitialInv(start);
      RunKeepsInv(start, steps, Now());
    }

    lemma Stepped(s: State, sofar: seq<Step>, step: Step)
      requires Initial(start) && Reaches(start, sofar, s)
      requires Enabled(s, step) && Now() == Apply(s, step) && steps == sofar + [step]
      ensures Valid() && Own(steps, step.i) == Own(sofar, step.i) + [step]
    {
      OneMore(start, sofar, s, step);
      OwnMore(sofar, step, step.i);
    }

    /** Any steps of the other calls; this is all call i learns of them. */
    method Interfere(ghost i: nat)
      requires Valid() && i < |calls|
      modifies this
      ensures Valid() && OthersRan(old(Now()), old(steps), Now(), steps, i)
    {
      assert steps[|steps|..] == [];
    }

    /** A point at which other calls may run, and what stays as it was. */
    method Yield(ghost i: nat)
      requires Valid() && i < |calls|
      modifies this
      ensures Valid() && Own(steps, i) == Own(old(steps), i)
      ensures |calls| == |old(calls)| && calls[i] == old(calls)[i]
    {
      Interfere(i);
      OthersKeepOut(old(Now()), old(steps), Now(), steps, i);
    }

    /** getSocket, by call i; opens says whether opening a socket would succeed. */
    method GetSocket(ghost i: nat, opens: bool) returns (sock: Option<nat>)
      requires Valid() && i < |calls| && calls[i] == Out
      modifies this
      ensures Valid()
      ensures sock.None? <==> old(pool) == [] && !opens
      ensures sock.None? ==> Now() == old(Now()) && steps == old(steps)
      ensures sock.Some? ==>
                Own(steps, i) == Own(old(steps), i) + [if old(pool) != [] then Get(i) else Open(i, sock.value)]
      ensures sock.Some? ==> calls == old(calls)[i := Holds(sock.value)]
                             && sock.value in open && NoneLeft(Now(), sock.value)
      ensures sock.Some? && old(pool) != [] ==> Now() == Apply(old(Now()), Get(i))
      ensures sock.Some? && old(pool) == [] ==>
                sock.value !in old(ever) && Now() == Apply(old(Now()), Open(i, sock.value))
    {
      ghost var s, sofar := Now(), steps;
      Invariant();
      if pool != [] {
        sock := Some(pool[0]);
        assert pool[0] in pool;
        pool := pool[1..];
        calls := calls[i := Holds(sock.value)];
        steps := steps + [Get(i)];
        Stepped(s, sofar, Get(i));
      } else if !opens {
        return None;
      } else {
        SomeNumberIsNew(ever);
        var k: nat :| k !in ever;
        sock := Some(k);
        open, ever := open + {k}, ever + {k};
        unanswered := unanswered[k := 0];
        calls := calls[i := Holds(k)];
        steps := steps + [Open(i, k)];
        Stepped(s, sofar, Open(i, k));
      }
    }

    /** An exchange by call i, which leaves so many of its requests unanswered on the socket. */
    method Exchanged(ghost i: nat, sock: nat, ok: bool, ghost left: nat)
      requires Valid() && i < |calls| && calls[i] == Holds(sock) && (ok ==> left == 0)
      modifies this
      ensures Valid() && Now() == Apply(old(Now()), Exchange(i, ok, left))
      ensures Own(steps, i) == Own(old(steps), i) + [Exchange(i, ok, left)]
    {
      ghost var s, sofar := Now(), steps;
      unanswered := unanswered[sock := left];
      calls := calls[i := if ok then Answered(sock) else Broken(sock)];
      steps := steps + [Exchange(i, ok, left)];
      Stepped(s, sofar, Exchange(i, ok, left));
    }

    /** putSocket, by call i after a successful exchange. */
    method PutSocket(ghost i: nat, sock: nat)
      requires Valid() && i < |calls| && calls[i] == Answered(sock)
      modifies this
      ensures Valid() && Now() == Apply(old(Now()), Put(i))
      ensures Own(steps, i) == Own(old(steps), i) + [Put(i)]
    {
      ghost var s, sofar := Now(), steps;
      if |pool| < POOL_SIZE {
        pool := pool + [sock];
      } else {
        open := open - {sock};
      }
      calls := calls[i := Out];
      steps := steps + [Put(i)];
      Stepped(s, sofar, Put(i));
    }

    /** close, by call i after a failed exchange. */
    method Close(ghost i: nat, sock: nat)
      requires Valid() && i < |calls| && calls[i] == Broken(sock)
      modifies this
      ensures Valid() && Now() == Apply(old(Now()), Discard(i))
      ensures Own(steps, i) == Own(old(steps), i) + [Discard(i)]
    {
      ghost var s, sofar := Now(), steps;
      open := open - {sock};
      calls := calls[i := Out];
      steps := steps + [Discard(i)];
      Stepped(s, sofar, Discard(i));
    }
  }
}
