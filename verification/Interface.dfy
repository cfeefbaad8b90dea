/**
 The network interface as explicit state, the tc commands that change it, and the code that builds the
 layout, installs the steering filters, and creates and removes classes. A command either takes effect
 or fails and changes nothing.
 */
module Interface {
  import opened Options
  import opened Marks
  import opened Counting
  import opened Qdiscs
  import opened Steering
  import Hex
  import Classes
  import P = Protocol

  const STEER_PREF := 49000

  /** The root qdisc: the kernel's own, the mq this package makes, or another tree with its HTBs. */
  datatype Root = DefaultRoot | MqRoot | ForeignRoot(htbs: seq<Qdisc>)

  /** An HTB qdisc on TX queue queue - 1, under mq class 8000:queue. */
  datatype Htb = Htb(handle: nat, queue: nat)

  datatype Placed = Placed(pref: nat, filter: Filter)

  /** restore says whether the nft rule that copies a connection's mark onto its packets is installed. */
  datatype Device = Device(
    txQueues: nat,
    root: Root,
    htbs: seq<Htb>,
    classes: map<Mark32, nat>,
    classifiers: set<nat>,
    clsact: bool,
    filters: seq<Placed>,
    restore: bool)

  datatype Cmd =
    | DelRoot
    | AddMq
    | AddHtb(queue: nat)
    | AddDefault(queue: nat, rate: nat)
    | AddClassifier(queue: nat)
    | AddClsact
    | DelFilters(pref: nat)
    | AddFilter(pref: nat, filter: Filter)
    | ReplaceClass(mark: Mark32, rate: nat)
    | DelClass(mark: Mark32)
    | InstallRestore

  predicate HasHtb(d: Device, handle: nat) {
    exists i :: 0 <= i < |d.htbs| && d.htbs[i].handle == handle
  }

  /** The filters at one priority, in order. */
  function AtPref(filters: seq<Placed>, pref: nat): seq<Filter> {
    if filters == [] then []
    else
      var n := |filters| - 1;
      AtPref(filters[..n], pref) + if filters[n].pref == pref then [filters[n].filter] else []
  }

  /** The filters at every other priority. */
  function Elsewhere(filters: seq<Placed>, pref: nat): seq<Placed> {
    if filters == [] then []
    else
      var n := |filters| - 1;
      Elsewhere(filters[..n], pref) + if filters[n].pref == pref then [] else [filters[n]]
  }

  /** What the kernel does with a command; None if it refuses it. */
  function Exec(d: Device, cmd: Cmd): Option<Device> {
    match cmd
    case DelRoot =>
      if d.root.DefaultRoot? then None
      else Some(d.(root := DefaultRoot, htbs := [], classes := map[], classifiers := {}))
    case AddMq => if d.root.DefaultRoot? then Some(d.(root := MqRoot)) else None
    case AddHtb(q) =>
      if d.root.MqRoot? && 1 <= q <= d.txQueues && !HasHtb(d, q) then Some(d.(htbs := d.htbs + [Htb(q, q)])) else None
    case AddDefault(q, rate) =>
      if HasHtb(d, q) && q < 0x10000 && Join(q, 1) !in d.classes
      then Some(d.(classes := d.classes[Join(q, 1) := rate])) else None
    case AddClassifier(q) =>
      if HasHtb(d, q) && q !in d.classifiers then Some(d.(classifiers := d.classifiers + {q})) else None
    case AddClsact => if d.clsact then None else Some(d.(clsact := true))
    case DelFilters(pref) =>
      if d.clsact && AtPref(d.filters, pref) != [] then Some(d.(filters := Elsewhere(d.filters, pref))) else None
    case AddFilter(pref, f) =>
      if d.clsact
      then Some(d.(filters := d.filters + (if AtPref(d.filters, pref) == [] then [Placed(pref, HEADER)] else [])
                              + [Placed(pref, f)]))
      else None
    case ReplaceClass(m, rate) =>
      if HasHtb(d, m / 0x10000) then Some(d.(classes := d.classes[m := rate])) else None
    case InstallRestore => Some(d.(restore := true))
    case DelClass(m) => if m in d.classes then Some(d.(classes := d.classes - {m})) else None
  }

  predicate ValidDevice(d: Device) {
    && (!d.clsact ==> d.filters == [])
    && (!d.root.MqRoot? ==> d.htbs == [])
    && (d.root.DefaultRoot? ==> d.classes == map[] && d.classifiers == {})
  }

  // ----- the layout -----

  function BuiltHtbs(n: nat): (hs: seq<Htb>)
    ensures |hs| == n && forall i | 0 <= i < n :: hs[i] == Htb(i + 1, i + 1)
  {
    if n == 0 then [] else BuiltHtbs(n - 1) + [Htb(n, n)]
  }

  function Defaults(n: nat, rate: nat): map<Mark32, nat>
    requires n <= MAX_QUEUES
  {
    if n == 0 then map[] else Defaults(n - 1, rate)[Join(n, 1) := rate]
  }

  lemma {:induction false} DefaultsAre(n: nat, rate: nat, q: nat)
    requires n <= MAX_QUEUES && q <= MAX_QUEUES
    ensures Join(q, 1) in Defaults(n, rate) <==> q in UpTo(n)
  {
    if n > 0 {
      DefaultsAre(n - 1, rate, q);
    }
  }

  lemma {:induction false} OnlyDefaults(n: nat, rate: nat)
    requires n <= MAX_QUEUES
    ensures forall m | m in Defaults(n, rate) :: m % 0x10000 == 1
  {
    if n > 0 {
      OnlyDefaults(n - 1, rate);
    }
  }

  /** A device with the mq root, so many HTBs, so many default classes and so many classifiers. */
  function Stage(d: Device, rate: nat, htbs: nat, classes: nat, classifiers: nat): Device
    requires classes <= MAX_QUEUES
  {
    d.(root := MqRoot, htbs := BuiltHtbs(htbs), classes := Defaults(classes, rate), classifiers := UpTo(classifiers))
  }

  /** The device after the first p commands of a build that started from an empty root. */
  function Partial(d: Device, rate: nat, p: nat): Device
    requires p <= 3 * MAX_QUEUES + 1
  {
    if p == 0 then d.(root := DefaultRoot, htbs := [], classes := map[], classifiers := {})
    else
      var q, r := (p - 1) / 3, (p - 1) % 3;
      Stage(d, rate, if r >= 1 then q + 1 else q, if r >= 2 then q + 1 else q, q)
  }

  lemma PartialIsStage(d: Device, rate: nat, q: nat)
    requires 1 <= q <= MAX_QUEUES
    ensures Partial(d, rate, 3 * q - 2) == Stage(d, rate, q - 1, q - 1, q - 1)
    ensures Partial(d, rate, 3 * q - 1) == Stage(d, rate, q, q - 1, q - 1)
    ensures Partial(d, rate, 3 * q) == Stage(d, rate, q, q, q - 1)
    ensures Partial(d, rate, 3 * q + 1) == Stage(d, rate, q, q, q)
  {
  }

  lemma HtbIsThere(d: Device, rate: nat, n: nat, classes: nat, classifiers: nat, q: nat)
    requires classes <= MAX_QUEUES
    ensures HasHtb(Stage(d, rate, n, classes, classifiers), q) <==> 1 <= q <= n
  {
    var now := Stage(d, rate, n, classes, classifiers);
    if 1 <= q <= n {
      assert now.htbs[q - 1].handle == q;
    }
  }

  /** The root can be added exactly once it is the kernel's own, and then the build starts. */
  lemma MqStep(d: Device, rate: nat)
    requires ValidDevice(d)
    ensures d.root.DefaultRoot? ==> Exec(d, DelRoot) == None && d == Partial(d, rate, 0)
    ensures !d.root.DefaultRoot? ==> Exec(d, DelRoot) == Some(Partial(d, rate, 0)) && Exec(d, AddMq) == None
    ensures Exec(Partial(d, rate, 0), AddMq) == Some(Stage(d, rate, 0, 0, 0))
    ensures Stage(d, rate, 0, 0, 0) == Partial(d, rate, 1)
  {
  }

  /** Deleting them leaves steering ready to be built afresh. */
  lemma ClearStep(d: Device)
    requires d.clsact
    ensures AtPref(d.filters, STEER_PREF) == [] ==> SteeringBuilt(d, d, 0)
    ensures AtPref(d.filters, STEER_PREF) != [] ==>
              Exec(d, DelFilters(STEER_PREF)).Some? && SteeringBuilt(d, Exec(d, DelFilters(STEER_PREF)).value, 0)
  {
    ElsewhereIsElsewhere(d.filters, STEER_PREF);
  }

  lemma HtbStep(d: Device, rate: nat, q: nat)
    requires 1 <= q <= MAX_QUEUES
    ensures Exec(Stage(d, rate, q - 1, q - 1, q - 1), AddHtb(q))
         == if q <= d.txQueues then Some(Stage(d, rate, q, q - 1, q - 1)) else None
  {
    HtbIsThere(d, rate, q - 1, q - 1, q - 1, q);
  }

  lemma DefaultStep(d: Device, rate: nat, q: nat)
    requires 1 <= q <= MAX_QUEUES
    ensures Exec(Stage(d, rate, q, q - 1, q - 1), AddDefault(q, rate)) == Some(Stage(d, rate, q, q, q - 1))
  {
    HtbIsThere(d, rate, q, q - 1, q - 1, q);
    DefaultsAre(q - 1, rate, q);
  }

  lemma ClassifierStep(d: Device, rate: nat, q: nat)
    requires 1 <= q <= MAX_QUEUES
    ensures Exec(Stage(d, rate, q, q, q - 1), AddClassifier(q)) == Some(Stage(d, rate, q, q, q))
  {
    HtbIsThere(d, rate, q, q, q - 1, q);
  }

  // ----- packets -----

  /** The HTB on TX queue queue - 1. */
  function HtbOn(htbs: seq<Htb>, queue: int): Option<Htb> {
    if htbs == [] then None
    else if htbs[0].queue == queue then Some(htbs[0])
    else HtbOn(htbs[1..], queue)
  }

  /** The TX queue a packet takes: the one it is steered to, or else the one the kernel picks. */
  function TxQueue(d: Device, m: Mark32, picked: nat): int {
    var steered := Steered(AtPref(d.filters, STEER_PREF), m);
    if steered.Some? then steered.value else picked
  }

  /**
   The class a packet lands in: at an HTB with the classifier, the one numbered like its mark if the
   mark's major is the HTB's handle and the class exists, else the HTB's default; None on a queue that
   is not shaped.
   */
  function ClassOf(d: Device, m: Mark32, picked: nat): Option<nat> {
    var htb := HtbOn(d.htbs, TxQueue(d, m, picked) + 1);
    if htb.None? then None
    else
      var h := htb.value.handle;
      if h in d.classifiers && m / 0x10000 == h && m in d.classes then Some(m) else Some(h * 0x10000 + 1)
  }

  /** Everything the layout needs is there. */
  ghost predicate Complete(d: Device, queues: nat)
    requires queues <= MAX_QUEUES
  {
    && d.root.MqRoot? && d.htbs == BuiltHtbs(queues)
    && (forall q | q in UpTo(queues) :: q in d.classifiers && Join(q, 1) in d.classes)
    && AreWanted(AtPref(d.filters, STEER_PREF), queues)
  }

  lemma {:induction false} HtbOnBuilt(htbs: seq<Htb>, from: nat, queue: int)
    requires forall i | 0 <= i < |htbs| :: htbs[i] == Htb(from + i, from + i)
    ensures HtbOn(htbs, queue) == if from <= queue < from + |htbs| then Some(Htb(queue, queue)) else None
  {
    if htbs != [] {
      HtbOnBuilt(htbs[1..], from + 1, queue);
    }
  }

  /** The mark of a packet on its way out, by its connection's mark and the one it had. */
  function PacketMark(d: Device, connMark: Mark32, own: Mark32): Mark32 {
    if d.restore && connMark != 0 then connMark else own
  }

  /** With the rule, packets of marked connections carry its mark; all others, and all without it, keep their own. */
  lemma PacketMarkIs(d: Device, connMark: Mark32, own: Mark32)
    ensures PacketMark(d, 0, own) == own
    ensures !d.restore ==> PacketMark(d, connMark, own) == own
    ensures d.restore && connMark > 0 ==> PacketMark(d, connMark, own) == connMark
  {
  }

  /** A packet of a connection without a mark is classed by its own mark, if any, whether or not the rule is there. */
  lemma UnmarkedConnection(d: Device, queues: nat, own: Mark32, picked: nat)
    requires QueueCount(queues) && Complete(d, queues)
    ensures TxQueue(d, PacketMark(d, 0, own), picked) == TxQueue(d.(restore := false), own, picked)
    ensures ClassOf(d, PacketMark(d, 0, own), picked) == ClassOf(d.(restore := false), own, picked)
  {
  }

  lemma SteersTo(d: Device, queues: nat, m: Mark32, picked: nat)
    requires QueueCount(queues) && AreWanted(AtPref(d.filters, STEER_PREF), queues)
    ensures TxQueue(d, m, picked) == if 1 <= Field(m) <= queues then Field(m) - 1 else picked
  {
    WantedSteer(AtPref(d.filters, STEER_PREF), queues, m);
  }

  /** Where any packet goes on a complete layout, by its queue field and the kernel's own choice of queue. */
  lemma AnyPacket(d: Device, queues: nat, m: Mark32, picked: nat)
    requires QueueCount(queues) && Complete(d, queues)
    ensures var t := if 1 <= Field(m) <= queues then Field(m) - 1 else picked;
            TxQueue(d, m, picked) == t
            && ClassOf(d, m, picked) == if t >= queues then None
                                        else if m / 0x10000 == t + 1 && m in d.classes then Some(m)
                                        else Some(Join(t + 1, 1))
  {
    SteersTo(d, queues, m, picked);
    var t := TxQueue(d, m, picked);
    HtbOnBuilt(d.htbs, 1, t + 1);
    if t < queues {
      assert t + 1 in UpTo(queues);
    }
  }

  /**
   On a complete layout, whatever queue the kernel would have picked: a user's packet takes the TX queue
   its mark names, and there the user's class if it exists and that queue's default class otherwise.
   */
  lemma UserPacket(d: Device, queues: nat, m: Mark32, picked: nat)
    requires QueueCount(queues) && Complete(d, queues) && UserMark(m, queues)
    ensures TxQueue(d, m, picked) == Split(m, queues).major - 1
    ensures ClassOf(d, m, picked) == Some(if m in d.classes then m else Join(Split(m, queues).major, 1))
    ensures multiset(AtPref(d.filters, STEER_PREF))[SteerFilter(Split(m, queues).major)] == 1
    ensures forall f | f in AtPref(d.filters, STEER_PREF) && Hits(f, m) :: f == SteerFilter(Split(m, queues).major)
  {
    assert Field(m) == m / 0x10000;
    AnyPacket(d, queues, m, picked);
    WantedSteer(AtPref(d.filters, STEER_PREF), queues, m);
  }

  /** An unmarked packet stays on the queue the kernel picked, and if that queue is shaped takes its default class. */
  lemma UnmarkedPacket(d: Device, queues: nat, picked: nat)
    requires QueueCount(queues) && Complete(d, queues)
    ensures TxQueue(d, 0, picked) == picked
    ensures ClassOf(d, 0, picked) == if picked < queues then Some(Join(picked + 1, 1)) else None
  {
    assert Field(0) == 0;
    AnyPacket(d, queues, 0, picked);
  }

  /** No packet, whatever its mark, lands in a user's class other than the one its mark names. */
  lemma NoOtherPacket(d: Device, queues: nat, m: Mark32, picked: nat, class_: Mark32)
    requires QueueCount(queues) && Complete(d, queues) && UserMark(class_, queues)
    ensures ClassOf(d, m, picked) == Some(class_) <==> m == class_ && m in d.classes
  {
    AnyPacket(d, queues, m, picked);
  }

  // ----- what a listing shows of the layout -----

  /** The HTB entries a listing of the device shows. */
  function ShownHtbs(d: Device): seq<Qdisc> {
    match d.root
    case ForeignRoot(htbs) => Htbs(htbs)
    case _ => seq(|d.htbs|, i requires 0 <= i < |d.htbs| =>
                    Qdisc("htb", HtbHandle(d.htbs[i].handle), MqClass(d.htbs[i].queue), false))
  }

  /** A listing in whatever order, with whatever else in it that is neither an HTB nor the mq root. */
  ghost predicate Lists(qdiscs: seq<Qdisc>, d: Device) {
    && (HasRoot(qdiscs) <==> d.root.MqRoot?)
    && multiset(Htbs(qdiscs)) == multiset(ShownHtbs(d))
  }

  /** Every device has a listing. */
  lemma ListingExists(d: Device) returns (qdiscs: seq<Qdisc>)
    ensures Lists(qdiscs, d)
  {
    var shown, root := ShownHtbs(d), Qdisc("mq", MQ_HANDLE, "", true);
    ShownAreHtbs(d);
    HtbsOfHtbs(shown);
    qdiscs := shown;
    if d.root.MqRoot? {
      qdiscs := shown + [root];
      assert qdiscs[..|shown|] == shown && IsRoot(root) && root in qdiscs;
    } else {
      assert forall q | q in shown :: !IsRoot(q);
    }
  }

  lemma ShownAreHtbs(d: Device)
    ensures forall i | 0 <= i < |ShownHtbs(d)| :: IsHtb(ShownHtbs(d)[i])
  {
    if d.root.ForeignRoot? {
      forall i | 0 <= i < |ShownHtbs(d)| ensures IsHtb(ShownHtbs(d)[i]) {
        HtbIff(d.root.htbs, ShownHtbs(d)[i]);
      }
    }
  }

  lemma SameSize<T>(xs: seq<T>, ys: seq<T>)
    requires multiset(xs) == multiset(ys)
    ensures |xs| == |ys| && forall x :: x in xs <==> x in ys
  {
    assert |multiset(xs)| == |xs| && |multiset(ys)| == |ys|;
    forall x ensures x in xs <==> x in ys {
      assert x in multiset(xs) <==> x in multiset(ys);
    }
  }

  /**
   Stopped after its first p commands, a build for any number of queues is accepted for exactly one count:
   that of the HTBs it got to add.
   */
  lemma PartialAccepted(d: Device, rate: nat, p: nat, qdiscs: seq<Qdisc>, queues: nat)
    requires p <= 3 * MAX_QUEUES + 1 && queues <= MAX_QUEUES
    requires Lists(qdiscs, Partial(d, rate, p))
    ensures Accepted(qdiscs, queues) <==> p >= 1 && |Partial(d, rate, p).htbs| == queues
  {
    SameSize(Htbs(qdiscs), ShownHtbs(Partial(d, rate, p)));
    forall q | q in qdiscs && IsHtb(q)
      ensures Major(q).Some? && 1 <= Major(q).value <= |Partial(d, rate, p).htbs| && q.parent == MqClass(Major(q).value)
    {
      PartialShows(d, rate, p, qdiscs, q);
    }
  }

  lemma PartialShows(d: Device, rate: nat, p: nat, qdiscs: seq<Qdisc>, q: Qdisc)
    requires p <= 3 * MAX_QUEUES + 1 && Lists(qdiscs, Partial(d, rate, p)) && q in qdiscs && IsHtb(q)
    ensures Major(q).Some? && 1 <= Major(q).value <= |Partial(d, rate, p).htbs| && q.parent == MqClass(Major(q).value)
  {
    SameSize(Htbs(qdiscs), ShownHtbs(Partial(d, rate, p)));
    HtbIff(qdiscs, q);
    BuiltShows(Partial(d, rate, p), |Partial(d, rate, p).htbs|, q);
  }

  lemma BuiltShows(d: Device, n: nat, q: Qdisc)
    requires !d.root.ForeignRoot? && d.htbs == BuiltHtbs(n) && n <= MAX_QUEUES + 1 && q in ShownHtbs(d)
    ensures Major(q).Some? && 1 <= Major(q).value <= n && q.parent == MqClass(Major(q).value)
  {
    var i :| 0 <= i < n && ShownHtbs(d)[i] == q;
    HandleReadsBack(i + 1, q);
  }

  lemma DoneIsComplete(d: Device, rate: nat, queues: nat)
    requires QueueCount(queues) && AreWanted(AtPref(d.filters, STEER_PREF), queues)
    ensures Complete(Stage(d, rate, queues, queues, queues), queues)
  {
    forall q | q in UpTo(queues) ensures Join(q, 1) in Defaults(queues, rate) {
      DefaultsAre(queues, rate, q);
    }
  }

  lemma UnfinishedIsNotComplete(d: Device, rate: nat, p: nat, queues: nat)
    requires QueueCount(queues) && p <= 3 * queues
    ensures !Complete(Partial(d, rate, p), queues)
  {
    assert queues in UpTo(queues) && queues !in Partial(d, rate, p).classifiers;
  }

  /**
   Of all prefixes of a build, those that end before the last queue's HTB is added are rejected on the
   next start, and all later ones accepted; so exactly the two that lack only that queue's default class
   or classifier are taken for a finished layout without being one.
   */
  lemma UnfinishedAcceptedIff(d: Device, rate: nat, p: nat, qdiscs: seq<Qdisc>, queues: nat)
    requires QueueCount(queues) && p <= 3 * queues + 1 && Lists(qdiscs, Partial(d, rate, p))
    requires AreWanted(AtPref(d.filters, STEER_PREF), queues)
    ensures Accepted(qdiscs, queues) <==> p >= 3 * queues - 1
    ensures Accepted(qdiscs, queues) && !Complete(Partial(d, rate, p), queues)
       <==> p == 3 * queues - 1 || p == 3 * queues
  {
    PartialAccepted(d, rate, p, qdiscs, queues);
    if p == 3 * queues + 1 {
      DoneIsComplete(d, rate, queues);
    } else {
      UnfinishedIsNotComplete(d, rate, p, queues);
    }
  }

  // ----- steering filters on the device -----

  lemma OneMore(filters: seq<Placed>, f: Placed, pref: nat)
    ensures AtPref(filters + [f], pref) == AtPref(filters, pref) + if f.pref == pref then [f.filter] else []
    ensures Elsewhere(filters + [f], pref) == Elsewhere(filters, pref) + if f.pref == pref then [] else [f]
  {
    assert (filters + [f])[..|filters|] == filters;
  }

  lemma {:induction false} ElsewhereIsElsewhere(filters: seq<Placed>, pref: nat)
    ensures AtPref(Elsewhere(filters, pref), pref) == []
    ensures Elsewhere(Elsewhere(filters, pref), pref) == Elsewhere(filters, pref)
  {
    if filters != [] {
      var n := |filters| - 1;
      ElsewhereIsElsewhere(filters[..n], pref);
      if filters[n].pref == pref {
        assert Elsewhere(filters, pref) == Elsewhere(filters[..n], pref);
      } else {
        OneMore(Elsewhere(filters[..n], pref), filters[n], pref);
      }
    }
  }

  /** The device with just the first q steering filters of a fresh set. */
  ghost predicate SteeringBuilt(was: Device, d: Device, q: nat)
    requires q <= MAX_QUEUES
  {
    && d.clsact && d == was.(clsact := true, filters := d.filters)
    && Elsewhere(d.filters, STEER_PREF) == Elsewhere(was.filters, STEER_PREF)
    && AtPref(d.filters, STEER_PREF) == if q == 0 then [] else [HEADER] + Wanted(q)
  }

  /** The kernel puts its own header entry before the first filter. */
  lemma FirstSteering(was: Device, d: Device)
    requires SteeringBuilt(was, d, 0)
    ensures var d' := Exec(d, AddFilter(STEER_PREF, SteerFilter(1)));
            d'.Some? && SteeringBuilt(was, d'.value, 1)
  {
    var f, h := Placed(STEER_PREF, SteerFilter(1)), Placed(STEER_PREF, HEADER);
    OneMore(d.filters, h, STEER_PREF);
    OneMore(d.filters + [h], f, STEER_PREF);
    assert Wanted(1) == [SteerFilter(1)];
  }

  lemma NextSteering(was: Device, d: Device, q: nat)
    requires 0 < q < MAX_QUEUES && SteeringBuilt(was, d, q)
    ensures var d' := Exec(d, AddFilter(STEER_PREF, SteerFilter(q + 1)));
            d'.Some? && SteeringBuilt(was, d'.value, q + 1)
  {
    AddedFilter(d, SteerFilter(q + 1));
    WantedMore(q);
  }

  lemma AddedFilter(d: Device, f: Filter)
    requires d.clsact && AtPref(d.filters, STEER_PREF) != []
    ensures var filters := d.filters + [Placed(STEER_PREF, f)];
            && Exec(d, AddFilter(STEER_PREF, f)) == Some(d.(filters := filters))
            && AtPref(filters, STEER_PREF) == AtPref(d.filters, STEER_PREF) + [f]
            && Elsewhere(filters, STEER_PREF) == Elsewhere(d.filters, STEER_PREF)
  {
    OneMore(d.filters, Placed(STEER_PREF, f), STEER_PREF);
    assert d.filters + [] == d.filters;
    assert Elsewhere(d.filters, STEER_PREF) + [] == Elsewhere(d.filters, STEER_PREF);
  }

  lemma WantedMore(q: nat)
    requires q < MAX_QUEUES
    ensures [HEADER] + Wanted(q) + [SteerFilter(q + 1)] == [HEADER] + Wanted(q + 1)
  {
    assert Wanted(q + 1) == Wanted(q) + [SteerFilter(q + 1)];
  }

  lemma SteeringStep(was: Device, d: Device, q: nat)
    requires q < MAX_QUEUES && SteeringBuilt(was, d, q)
    ensures var d' := Exec(d, AddFilter(STEER_PREF, SteerFilter(q + 1)));
            d'.Some? && SteeringBuilt(was, d'.value, q + 1)
  {
    if q == 0 {
      FirstSteering(was, d);
    } else {
      NextSteering(was, d, q);
    }
  }

  /** Which of the commands of a setup fail: build and steer by the place of the command in its part. */
  datatype Faults = Faults(del: bool, build: nat -> bool, show: bool, steer: nat -> bool, nft: bool)

  /** The device has the TX queues, and no command of the build fails (deleting the kernel's own root may). */
  ghost predicate CanBuild(d: Device, queues: nat, faults: Faults) {
    (!faults.del || d.root.DefaultRoot?) && queues <= d.txQueues && forall k :: !faults.build(k)
  }

  ghost predicate CanSteer(faults: Faults) {
    !faults.show && !faults.nft && forall k :: !faults.steer(k)
  }

  /** Nothing but the steering filters, their clsact and the nft rule changed. */
  predicate OnlySteering(was: Device, d: Device) {
    d == was.(clsact := d.clsact, filters := d.filters, restore := d.restore)
  }

  /**
   A mark's class id is the handle of the HTB it hangs off, which is the parent the tc command names, and
   then the minor; the kernel has that class under the HTB of the mark's queue.
   */
  lemma ClassHangsOff(d: Device, queues: nat, m: Mark32, rate: nat)
    requires QueueCount(queues) && Classes.ClassIdFor(m, queues).Some?
    ensures var c := Classes.ClassIdFor(m, queues).value;
            && c.id == HtbHandle(c.major) + Hex.Print(m % 0x10000) && 1 <= c.major <= queues
            && Join(c.major, m % 0x10000) == m
            && (Exec(d, ReplaceClass(m, rate)).Some? <==> HasHtb(d, c.major))
            && (Complete(d, queues) && m in d.classes ==>
                  HtbOn(d.htbs, TxQueue(d, m, 0) + 1) == Some(Htb(c.major, c.major)))
  {
    var c := Classes.ClassIdFor(m, queues).value;
    assert c.id == Hex.Print(c.major) + ":" + Hex.Print(m % 0x10000);
    if Complete(d, queues) {
      UserPacket(d, queues, m, 0);
      HtbOnBuilt(d.htbs, 1, c.major);
    }
  }

  /** The kernel as the provisioning protocol sees it: the user classes and their rates. */
  function UserRates(d: Device, queues: nat): map<Mark32, nat> {
    map m | m in d.classes && UserMark(m, queues) :: d.classes[m]
  }

  lemma RatesFollow(d: Device, queues: nat, m: Mark32, rate: nat)
    requires UserMark(m, queues)
    ensures UserRates(d.(classes := d.classes[m := rate]), queues) == UserRates(d, queues)[m := rate]
    ensures UserRates(d.(classes := d.classes - {m}), queues) == UserRates(d, queues) - {m}
  {
    var more := UserRates(d.(classes := d.classes[m := rate]), queues);
    var less := UserRates(d.(classes := d.classes - {m}), queues);
    assert forall k | k in more :: more[k] == UserRates(d, queues)[m := rate][k];
    assert forall k | k in less :: less[k] == UserRates(d, queues)[k];
  }

  lemma StaysComplete(d: Device, queues: nat, m: Mark32, rate: nat)
    requires QueueCount(queues) && Complete(d, queues) && UserMark(m, queues)
    ensures Complete(d.(classes := d.classes[m := rate]), queues)
    ensures Complete(d.(classes := d.classes - {m}), queues)
    ensures HasHtb(d, m / 0x10000)
  {
    assert forall q | q in UpTo(queues) :: Join(q, 1) != m;
    assert d.htbs[m / 0x10000 - 1].handle == m / 0x10000;
  }

  class Interface {
    const queues: nat
    var dev: Device

    ghost predicate Valid()
      reads this
    {
      QueueCount(queues) && ValidDevice(dev)
    }

    constructor (queues: nat, dev: Device)
      requires QueueCount(queues) && ValidDevice(dev)
      ensures Valid() && this.queues == queues && this.dev == dev
    {
      this.queues, this.dev := queues, dev;
    }

    /** Runs one command, which may also fail for a reason of its own. */
    method Run(cmd: Cmd, fails: bool) returns (ok: bool)
      modifies this`dev
      ensures ok <==> !fails && Exec(old(dev), cmd).Some?
      ensures dev == if ok then Exec(old(dev), cmd).value else old(dev)
    {
      var next := Exec(dev, cmd);
      ok := !fails && next.Some?;
      if ok {
        dev := next.value;
      }
    }

    /**
     buildLayout. done commands took effect after the root was emptied, and it stopped at the first one
     that did not.
     */
    method BuildLayout(rate: nat, faults: Faults) returns (ok: bool, ghost done: nat)
      requires Valid()
      modifies this`dev
      ensures done <= 3 * queues + 1
      ensures dev == Partial(old(dev), rate, done) || (done == 0 && dev == old(dev) && faults.del)
      ensures ok <==> done == 3 * queues + 1
      ensures ok ==> dev == Stage(old(dev), rate, queues, queues, queues)
      ensures CanBuild(old(dev), queues, faults) ==> ok
    {
      ghost var was := dev;
      done := 0;
      ok := BuildRoot(rate, faults.del, faults.build(0));
      if !ok {
        return;
      }
      ok, done := BuildQueues(rate, faults.build, was);
    }

    /** The loop over the queues. */
    method BuildQueues(rate: nat, fails: nat -> bool, ghost was: Device) returns (ok: bool, ghost done: nat)
      requires QueueCount(queues) && dev == Stage(was, rate, 0, 0, 0)
      modifies this`dev
      ensures 1 <= done <= 3 * queues + 1 && dev == Partial(was, rate, done)
      ensures ok <==> done == 3 * queues + 1
      ensures ok ==> dev == Stage(was, rate, queues, queues, queues)
      ensures queues <= was.txQueues && (forall k :: !fails(k)) ==> ok
    {
      done, ok := 1, true;
      for q := 1 to queues + 1
        invariant done == 3 * q - 2 && ok
        invariant dev == Partial(was, rate, done) && dev == Stage(was, rate, q - 1, q - 1, q - 1)
      {
        ok, done := BuildQueue(q, rate, fails, was);
        if !ok {
          return;
        }
      }
    }

    /** Whatever root there is goes, and the mq root comes. */
    method BuildRoot(rate: nat, delFails: bool, fails: bool) returns (ok: bool)
      requires Valid()
      modifies this`dev
      ensures ok ==> dev == Stage(old(dev), rate, 0, 0, 0)
      ensures !ok ==> dev == Partial(old(dev), rate, 0) || (dev == old(dev) && delFails)
      ensures (!delFails || old(dev).root.DefaultRoot?) && !fails ==> ok
    {
      MqStep(dev, rate);
      var gone := Run(DelRoot, delFails);
      ok := Run(AddMq, fails);
    }

    /** The body of the loop: one queue's HTB, default class and classifier. */
    method BuildQueue(q: nat, rate: nat, fails: nat -> bool, ghost was: Device) returns (ok: bool, ghost done: nat)
      requires 1 <= q <= MAX_QUEUES && dev == Stage(was, rate, q - 1, q - 1, q - 1)
      modifies this`dev
      ensures 3 * q - 2 <= done <= 3 * q + 1 && dev == Partial(was, rate, done)
      ensures ok <==> done == 3 * q + 1
      ensures ok ==> dev == Stage(was, rate, q, q, q)
      ensures q <= was.txQueues && (forall k :: !fails(k)) ==> ok
    {
      done := 3 * q - 2;
      HtbStep(was, rate, q);
      PartialIsStage(was, rate, q);
      ok := Run(AddHtb(q), fails(3 * q - 2));
      if ok {
        assert dev == Stage(was, rate, q, q - 1, q - 1);
        done := 3 * q - 1;
        DefaultStep(was, rate, q);
        ok := Run(AddDefault(q, rate), fails(3 * q - 1));
        if ok {
          assert dev == Stage(was, rate, q, q, q - 1);
          done := 3 * q;
          ClassifierStep(was, rate, q);
          ok := Run(AddClassifier(q), fails(3 * q));
          if ok {
            done := 3 * q + 1;
          }
        }
      }
    }

    /**
     ensureSteering. Success leaves exactly the wanted filters at this priority; whatever happens, nothing
     else on the device changes, and filters that are already as wanted are not touched.
     */
    method EnsureSteering(showFails: bool, fails: nat -> bool) returns (ok: bool)
      requires Valid()
      modifies this`dev
      ensures Valid()
      ensures ok ==> dev.clsact && AreWanted(AtPref(dev.filters, 49000), queues)
      ensures dev == old(dev).(clsact := dev.clsact, filters := dev.filters)
      ensures Elsewhere(dev.filters, STEER_PREF) == Elsewhere(old(dev).filters, STEER_PREF)
      ensures old(dev).clsact && AreWanted(AtPref(old(dev).filters, STEER_PREF), queues) ==> dev == old(dev)
      ensures !showFails && (forall k :: !fails(k)) ==> ok
    {
      if showFails {
        return false;
      }
      if !dev.clsact {
        ok := Run(AddClsact, fails(0));
        if !ok {
          return;
        }
      } else {
        var matches;
        ok, matches := ClearSteering(fails);
        if !ok || matches {
          return;
        }
      }
      ok := AddSteering(old(dev), fails);
    }

    /** The part of ensureSteering for a device with clsact: filters that are not as wanted are deleted. */
    method ClearSteering(fails: nat -> bool) returns (ok: bool, matches: bool)
      requires Valid() && dev.clsact
      modifies this`dev
      ensures Valid()
      ensures matches ==> ok && AreWanted(AtPref(dev.filters, STEER_PREF), queues)
      ensures matches || !ok ==> dev == old(dev)
      ensures ok && !matches ==> SteeringBuilt(old(dev), dev, 0)
      ensures AreWanted(AtPref(old(dev).filters, STEER_PREF), queues) && ok ==> matches
      ensures !fails(0) && !fails(1) ==> ok
    {
      var filters := AtPref(dev.filters, STEER_PREF);
      if fails(0) {
        return false, false;
      }
      matches := SteeringMatches(filters, queues);
      ok := true;
      ClearStep(dev);
      if !matches && |filters| > 0 {
        ok := Run(DelFilters(STEER_PREF), fails(1));
      }
    }

    method AddSteering(ghost was: Device, fails: nat -> bool) returns (ok: bool)
      requires Valid() && SteeringBuilt(was, dev, 0)
      modifies this`dev
      ensures Valid()
      ensures ok ==> AreWanted(AtPref(dev.filters, STEER_PREF), queues)
      ensures exists q :: 0 <= q <= queues && SteeringBuilt(was, dev, q)
      ensures (forall k :: !fails(k)) ==> ok
    {
      for q := 0 to queues
        invariant SteeringBuilt(was, dev, q) && Valid()
      {
        SteeringStep(was, dev, q);
        ok := Run(AddFilter(STEER_PREF, SteerFilter(q + 1)), fails(2 + q));
        if !ok {
          return;
        }
      }
      BuiltIsWanted(AtPref(dev.filters, STEER_PREF), queues);
      return true;
    }

    /**
     EnsureRoot. On failure the device is where the failing command left it: at some prefix of the build
     with steering untouched, or built (or as it was, with a layout) with only steering changed.
     */
    method EnsureRoot(layoutExists: bool, rate: nat, faults: Faults) returns (ok: bool, ghost done: nat)
      requires Valid()
      modifies this`dev
      ensures Valid()
      ensures ok ==> dev.restore && dev.clsact && AreWanted(AtPref(dev.filters, STEER_PREF), queues)
      ensures ok && !layoutExists ==> Complete(dev, queues) && dev.classes == Defaults(queues, rate)
      ensures !ok ==> dev.restore == old(dev).restore
      ensures layoutExists ==> OnlySteering(old(dev), dev)
      ensures !layoutExists ==>
                done <= 3 * queues + 1
                && (OnlySteering(Partial(old(dev), rate, done), dev) || (done == 0 && faults.del && dev == old(dev)))
                && (done < 3 * queues + 1 ==> !ok && dev.clsact == old(dev).clsact && dev.filters == old(dev).filters)
      ensures Elsewhere(dev.filters, STEER_PREF) == Elsewhere(old(dev).filters, STEER_PREF)
      ensures (layoutExists || CanBuild(old(dev), queues, faults)) && CanSteer(faults) ==> ok
    {
      done := 0;
      if !layoutExists {
        ok, done := BuildLayout(rate, faults);
        assert ValidDevice(dev);
        if !ok {
          return;
        }
      }
      ok := Finish(faults);
      if ok && !layoutExists {
        DoneIsComplete(dev, rate, queues);
        assert Stage(dev, rate, queues, queues, queues) == dev;
      }
    }

    /** The part of EnsureRoot that does not depend on whether there was a layout. */
    method Finish(faults: Faults) returns (ok: bool)
      requires Valid()
      modifies this`dev
      ensures Valid() && OnlySteering(old(dev), dev)
      ensures ok ==> dev.restore && dev.clsact && AreWanted(AtPref(dev.filters, STEER_PREF), queues)
      ensures !ok ==> dev.restore == old(dev).restore
      ensures Elsewhere(dev.filters, STEER_PREF) == Elsewhere(old(dev).filters, STEER_PREF)
      ensures CanSteer(faults) ==> ok
    {
      ok := EnsureSteering(faults.show, faults.steer);
      if ok {
        ok := Run(InstallRestore, faults.nft);
      }
    }

    /**
     setupShaper. listing is what the qdiscs are listed as, None if that fails; an accepted layout is kept,
     with every class it has, and anything else is rebuilt.
     */
    method Setup(listing: Option<seq<Qdisc>>, rate: nat, faults: Faults) returns (ok: bool)
      requires Valid() && (listing.Some? ==> Lists(listing.value, dev))
      modifies this`dev
      ensures Valid()
      ensures listing.None? ==> !ok && dev == old(dev)
      ensures ok ==> dev.restore && AreWanted(AtPref(dev.filters, STEER_PREF), queues)
      ensures ok && !Accepted(listing.value, queues) ==> Complete(dev, queues) && dev.classes == Defaults(queues, rate)
      ensures listing.Some? && Accepted(listing.value, queues) ==> OnlySteering(old(dev), dev)
      ensures listing.Some? && CanSteer(faults) ==>
                (Accepted(listing.value, queues) || CanBuild(old(dev), queues, faults)) ==> ok
    {
      if listing.None? {
        return false;
      }
      var layoutExists := LayoutMatches(listing.value, queues);
      ghost var done;
      ok, done := EnsureRoot(layoutExists, rate, faults);
    }

    /**
     SetRate: only a user mark can get a class, and everyone else's stays as it is. On a complete layout
     this is the tc step of the protocol's Set.
     */
    method SetRate(m: Mark32, rate: P.Rate, fails: bool) returns (ok: bool)
      requires Valid()
      modifies this`dev
      ensures ok ==> UserMark(m, queues) && dev == old(dev).(classes := old(dev).classes[m := rate])
      ensures !ok ==> dev == old(dev)
      ensures Complete(old(dev), queues) ==>
                Complete(dev, queues)
                && (UserRates(dev, queues), ok)
                   == P.TcEffect(queues, UserRates(old(dev), queues), P.Set(m, rate), !fails)
    {
      if !UserMark(m, queues) {
        return false;
      }
      RatesFollow(dev, queues, m, rate);
      if Complete(dev, queues) {
        StaysComplete(dev, queues, m, rate);
      }
      ok := Run(ReplaceClass(m, rate), fails);
    }

    /**
     Remove. gone says tc found no such class, which counts as removed; a value that is no user mark,
     such as a default class, is left alone. This is the tc step of the protocol's Delete.
     */
    method Remove(m: Mark32, fails: bool) returns (ok: bool)
      requires Valid()
      modifies this`dev
      ensures dev == if ok && UserMark(m, queues) then old(dev).(classes := old(dev).classes - {m}) else old(dev)
      ensures (UserRates(dev, queues), ok) == P.TcEffect(queues, UserRates(old(dev), queues), P.Delete(m), !fails)
      ensures Complete(old(dev), queues) ==> Complete(dev, queues)
    {
      if !UserMark(m, queues) {
        return true;
      }
      RatesFollow(dev, queues, m, 0);
      if Complete(dev, queues) {
        StaysComplete(dev, queues, m, 0);
      }
      ok := Run(DelClass(m), fails);
      if !ok && !fails {
        assert dev.classes - {m} == dev.classes;
        ok := true;
      }
    }
  }
}
