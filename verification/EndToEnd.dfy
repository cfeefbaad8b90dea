/**
 What the parts do together: the tc steps of a run of the protocol, taken on the device, keep its layout
 and its classes as the protocol has them; so the packets of a queued user's connections reach a class
 at the per-user rate.
 */
module EndToEnd {
  import opened Options
  import opened Marks
  import opened Protocol
  import opened Runs
  import opened Steering
  import I = Interface
  import C = Conntrack

  /** One tc command of the store on the device. */
  function Commanded(d: I.Device, queues: nat, op: Op, ok: bool): I.Device {
    if !UserMark(op.mark, queues) || !ok then d
    else
      var next := I.Exec(d, if op.Set? then I.ReplaceClass(op.mark, op.rate) else I.DelClass(op.mark));
      if next.Some? then next.value else d
  }

  /** The device after a run of the protocol from s that began with it as d. */
  function Driven(cfg: Config, d: I.Device, s: State, steps: seq<Step>, s': State): I.Device
    requires Reaches(cfg, s, steps, s')
    decreases |steps|
  {
    if steps == [] then d
    else
      var step := steps[0];
      var next := if step.RunTc? then Commanded(d, cfg.queues, s.At(step.Actor()).op, step.ok) else d;
      Driven(cfg, next, Apply(cfg, s, step), steps[1..], s')
  }

  /** The device has the whole layout, and its user classes are the protocol's kernel. */
  ghost predicate Backs(d: I.Device, cfg: Config, s: State) {
    cfg.Valid() && I.Complete(d, cfg.queues) && I.UserRates(d, cfg.queues) == s.kernel
  }

  lemma SetOnDevice(d: I.Device, queues: nat, m: Mark32, rate: Rate)
    requires QueueCount(queues) && I.Complete(d, queues) && UserMark(m, queues)
    ensures var d' := Commanded(d, queues, Set(m, rate), true);
            d' == d.(classes := d.classes[m := rate]) && I.Complete(d', queues)
            && I.UserRates(d', queues) == I.UserRates(d, queues)[m := rate]
  {
    I.RatesFollow(d, queues, m, rate);
    I.StaysComplete(d, queues, m, rate);
  }

  lemma DeleteOnDevice(d: I.Device, queues: nat, m: Mark32)
    requires QueueCount(queues) && I.Complete(d, queues) && UserMark(m, queues)
    ensures var d' := Commanded(d, queues, Delete(m), true);
            d' == d.(classes := d.classes - {m}) && I.Complete(d', queues)
            && I.UserRates(d', queues) == I.UserRates(d, queues) - {m}
  {
    I.RatesFollow(d, queues, m, 0);
    I.StaysComplete(d, queues, m, 0);
    if m !in d.classes {
      assert d.classes - {m} == d.classes;
    }
  }

  /** The device's user classes change as the protocol's tc step says. */
  lemma CommandIsTc(d: I.Device, queues: nat, op: Op, ok: bool)
    requires QueueCount(queues) && I.Complete(d, queues)
    ensures var d' := Commanded(d, queues, op, ok);
            I.Complete(d', queues) && d'.restore == d.restore
            && I.UserRates(d', queues) == TcEffect(queues, I.UserRates(d, queues), op, ok).0
  {
    if UserMark(op.mark, queues) && ok {
      match op
      case Set(m, rate) => SetOnDevice(d, queues, m, rate);
      case Delete(m) => DeleteOnDevice(d, queues, m);
    }
  }

  lemma CommandBacks(cfg: Config, d: I.Device, s: State, step: Step)
    requires Backs(d, cfg, s) && Enabled(cfg, s, step) && step.RunTc?
    ensures var d' := Commanded(d, cfg.queues, s.At(step.Actor()).op, step.ok);
            Backs(d', cfg, Apply(cfg, s, step)) && d'.restore == d.restore
  {
    CommandIsTc(d, cfg.queues, s.At(step.Actor()).op, step.ok);
  }

  /** Every run keeps the layout complete, the device's user classes those of the kernel, and the nft rule. */
  lemma {:induction false} DrivenBacks(cfg: Config, d: I.Device, s: State, steps: seq<Step>, s': State)
    requires Backs(d, cfg, s) && Reaches(cfg, s, steps, s')
    ensures Backs(Driven(cfg, d, s, steps, s'), cfg, s') && Driven(cfg, d, s, steps, s').restore == d.restore
    decreases |steps|
  {
    if steps != [] {
      var step := steps[0];
      var next := if step.RunTc? then Commanded(d, cfg.queues, s.At(step.Actor()).op, step.ok) else d;
      if step.RunTc? {
        CommandBacks(cfg, d, s, step);
      }
      DrivenBacks(cfg, next, Apply(cfg, s, step), steps[1..], s');
    }
  }

  /**
   A packet of the connection, with whatever mark of its own and on whatever queue, is shaped as class m
   at this rate.
   */
  predicate Shaped(d: I.Device, connMark: Mark32, rate: nat, m: Mark32, own: Mark32, picked: nat) {
    var p := I.PacketMark(d, connMark, own);
    && I.TxQueue(d, p, picked) == m / 0x10000 - 1
    && I.ClassOf(d, p, picked) == Some(m)
    && m in d.classes && d.classes[m] == rate
  }

  lemma ShapedIfProvisioned(cfg: Config, d: I.Device, s: State, m: Mark32, own: Mark32, picked: nat)
    requires Backs(d, cfg, s) && d.restore && UserMark(m, cfg.queues) && Provisioned(cfg, s, m)
    ensures Shaped(d, m, cfg.perUser, m, own, picked)
  {
    assert m in I.UserRates(d, cfg.queues);
    I.UserPacket(d, cfg.queues, m, picked);
  }

  /**
   From any point of the run of a service on a complete device: if a mark is queued, no other store call
   touches it and none of the worker's tc commands fails, then once the work is drained every packet of
   a connection whose conntrack entry carries the mark is sent through the mark's own class, at the
   per-user rate, on the queue the mark names.
   */
  lemma QueuedUserIsShaped(cfg: Config, d: I.Device, s: State, steps: seq<Step>, s': State, m: Mark32,
                           unadopted: set<Mark32>, table: map<C.Tuple, Mark32>, conn: C.Tuple, own: Mark32, picked: nat)
    requires Inv(cfg, s, unadopted) && Backs(d, cfg, s) && d.restore
    requires Reaches(cfg, s, steps, s') && NoneStart(steps) && NoneFail(steps)
    requires forall step | Enabled(cfg, s', step) :: step.Starts()
    requires Undisturbed(s, m) && InWork(s, m)
    requires conn in table && table[conn] == m
    ensures Shaped(Driven(cfg, d, s, steps, s'), table[conn], cfg.perUser, m, own, picked)
  {
    DrivenBacks(cfg, d, s, steps, s');
    QueuedMarksAreProvisioned(cfg, s, steps, s', m, unadopted);
    RunKeepsInv(cfg, s, steps, s', unadopted);
    QueuedIsUser(cfg, s, m);
    ShapedIfProvisioned(cfg, Driven(cfg, d, s, steps, s'), s', m, own, picked);
  }

  lemma QueuedIsUser(cfg: Config, s: State, m: Mark32)
    requires WellFormed(cfg, s) && InWork(s, m)
    ensures UserMark(m, cfg.queues)
  {
  }

  /** On the same device no packet that does not carry a user's mark is ever sent through the user's class. */
  lemma OthersAreNotInIt(cfg: Config, d: I.Device, s: State, steps: seq<Step>, s': State, m: Mark32,
                         connMark: Mark32, own: Mark32, picked: nat)
    requires Backs(d, cfg, s) && Reaches(cfg, s, steps, s') && UserMark(m, cfg.queues)
    requires connMark != m && own != m
    ensures var d' := Driven(cfg, d, s, steps, s');
            I.ClassOf(d', I.PacketMark(d', connMark, own), picked) != Some(m)
  {
    DrivenBacks(cfg, d, s, steps, s');
    var d' := Driven(cfg, d, s, steps, s');
    I.NoOtherPacket(d', cfg.queues, I.PacketMark(d', connMark, own), picked, m);
  }
}
