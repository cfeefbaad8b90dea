/**
 What run hands over to the protocol: the checked per-user rate, and a store that has adopted the
 classes an earlier process left on the device.
 */
module Startup {
  import opened Options
  import opened Marks
  import opened Classes
  import opened Protocol
  import opened Runs
  import opened Service
  import opened Qdiscs
  import opened Steering
  import I = Interface

  const BYTES_PER_MBIT := 125_000
  const QUEUE_SIZE := 16384

  type Uint64 = n: nat | n < 0x1_0000_0000_0000_0000

  /** The per-user rate in bytes per second; None when it would not fit the store's 32 bits. */
  function PerUserRate(mbit: Uint64): (rate: Option<Rate>)
    ensures rate.Some? <==> mbit * BYTES_PER_MBIT <= MAX_RATE
    ensures rate.Some? ==> rate.value == mbit * BYTES_PER_MBIT && rate.value < MAX_RATE
  {
    if mbit > MAX_RATE / BYTES_PER_MBIT then None
    else Some(mbit * BYTES_PER_MBIT % 0x1_0000_0000_0000_0000)
  }

  ghost predicate ShowsMark(listing: seq<DeviceClass>, m: Mark32) {
    exists c :: c in listing && c.Htb? && c.major < 0x10000 && c.minor < 0x10000 && Join(c.major, c.minor) == m
  }

  /** The rate in bytes is the one asked for in bits: 8 bits a byte, a million bits a megabit. */
  lemma RateIsInBytes(mbit: Uint64)
    ensures PerUserRate(mbit).Some? <==> mbit <= 34_359
    ensures PerUserRate(mbit).Some? ==> 8 * PerUserRate(mbit).value == mbit * 1_000_000
  {
  }

  /** A class listing of the device: every class it has, once, with its rate, in whatever order. */
  ghost predicate ListsClasses(listing: seq<DeviceClass>, d: I.Device) {
    && DistinctIds(listing)
    && (forall c | c in listing :: ValidClass(c))
    && (forall c | c in listing && c.Htb? ::
          Join(c.major, c.minor) in d.classes && d.classes[Join(c.major, c.minor)] == c.rate)
    && (forall m {:trigger ShowsMark(listing, m)} | m in d.classes :: ShowsMark(listing, m))
  }

  /** The kernel has every class the listing shows, at a rate whose capped form is the one shown. */
  lemma ListedIsInKernel(listing: seq<DeviceClass>, d: I.Device, queues: nat, c: Class)
    requires QueueCount(queues) && ListsClasses(listing, d) && c in UserClasses(listing, queues)
    ensures var kernel := I.UserRates(d, queues);
            c.mark in kernel && c.rate == Capped(kernel[c.mark])
  {
    var i := FromSomeClass(listing, queues, c);
    assert listing[i] in listing;
  }

  lemma {:induction false} IsListed(listing: seq<DeviceClass>, queues: nat, c: DeviceClass)
    requires forall d | d in listing :: ValidClass(d)
    requires c in listing && UserClass(c, queues).Some?
    ensures UserClass(c, queues).value in UserClasses(listing, queues)
  {
    var n := |listing| - 1;
    if listing[n] != c {
      IsListed(listing[..n], queues, c);
    }
  }

  /** Every user class of the kernel is listed. */
  lemma KernelIsListed(listing: seq<DeviceClass>, d: I.Device, queues: nat, m: Mark32) returns (c: Class)
    requires QueueCount(queues) && ListsClasses(listing, d) && m in I.UserRates(d, queues)
    ensures c in UserClasses(listing, queues) && c.mark == m
  {
    assert ShowsMark(listing, m);
    var shown :| shown in listing && shown.Htb? && Join(shown.major, shown.minor) == m;
    IsListed(listing, queues, shown);
    c := UserClass(shown, queues).value;
  }

  /** A listed class the store takes over: any at all, or only those at the per-user rate if there is one. */
  predicate Adoptable(c: Class, mbit: nat, perUser: nat) {
    mbit == 0 || c.rate == perUser
  }

  method Adopt(classes: seq<Class>, mbit: nat, perUser: Rate) returns (base: map<Mark32, Rate>)
    requires forall c | c in classes :: c.rate <= MAX_RATE
    ensures forall c | c in classes && Adoptable(c, mbit, perUser) :: c.mark in base
    ensures forall m: Mark32 | m in base ::
              exists c :: c in classes && c.mark == m && c.rate == base[m] && Adoptable(c, mbit, perUser)
  {
    base := map[];
    for i := 0 to |classes|
      invariant forall j | 0 <= j < i && Adoptable(classes[j], mbit, perUser) :: classes[j].mark in base
      invariant forall m: Mark32 | m in base ::
                  exists j :: 0 <= j < i && classes[j].mark == m && classes[j].rate == base[m]
                              && Adoptable(classes[j], mbit, perUser)
    {
      var c := classes[i];
      if mbit == 0 || c.rate == perUser {
        base := base[c.mark := c.rate];
      }
    }
    forall m: Mark32 | m in base
      ensures exists c :: c in classes && c.mark == m && c.rate == base[m] && Adoptable(c, mbit, perUser)
    {
      var j :| 0 <= j < |classes| && classes[j].mark == m && classes[j].rate == base[m]
               && Adoptable(classes[j], mbit, perUser);
      assert classes[j] in classes;
    }
  }

  /** What the store records after adoption, by the kernel's own rates. */
  predicate Adopted(base: map<Mark32, Rate>, kernel: map<Mark32, nat>, mbit: nat, perUser: nat) {
    forall m: Mark32 ::
      && (m in base <==> m in kernel && (mbit == 0 || kernel[m] == perUser))
      && (m in base ==> base[m] == Capped(kernel[m]))
  }

  /**
   A class is adopted by what the listing shows of it exactly when it would be by its true rate: the
   cap never makes another rate look like the per-user one.
   */
  lemma AdoptedByTrueRate(listing: seq<DeviceClass>, d: I.Device, queues: nat, mbit: Uint64, base: map<Mark32, Rate>)
    requires QueueCount(queues) && ListsClasses(listing, d) && PerUserRate(mbit).Some?
    requires forall c | c in UserClasses(listing, queues) && Adoptable(c, mbit, PerUserRate(mbit).value) ::
               c.mark in base
    requires forall m: Mark32 | m in base ::
               exists c :: c in UserClasses(listing, queues) && c.mark == m && c.rate == base[m]
                           && Adoptable(c, mbit, PerUserRate(mbit).value)
    ensures Adopted(base, I.UserRates(d, queues), mbit, PerUserRate(mbit).value)
  {
    var kernel, perUser := I.UserRates(d, queues), PerUserRate(mbit).value;
    forall m: Mark32
      ensures m in base <==> m in kernel && (mbit == 0 || kernel[m] == perUser)
      ensures m in base ==> base[m] == Capped(kernel[m])
    {
      if m in base {
        var c :| c in UserClasses(listing, queues) && c.mark == m && c.rate == base[m] && Adoptable(c, mbit, perUser);
        ListedIsInKernel(listing, d, queues, c);
      }
      if m in kernel && (mbit == 0 || kernel[m] == perUser) {
        var c := KernelIsListed(listing, d, queues, m);
        ListedIsInKernel(listing, d, queues, c);
        assert Adoptable(c, mbit, perUser);
      }
    }
  }

  /** A freshly built layout has no user's class. */
  lemma FreshHasNoUsers(d: I.Device, queues: nat, rate: nat)
    requires QueueCount(queues) && d.classes == I.Defaults(queues, rate)
    ensures I.UserRates(d, queues) == map[]
  {
    I.OnlyDefaults(queues, rate);
  }

  /** What the store should know at the start of device d, and the protocol that then begins. */
  ghost predicate Begins(service: Service, d: I.Device, mbit: Uint64, slots: nat)
    reads service
  {
    && service.Valid() && Initial(service.cfg, service.Now(), service.unadopted)
    && service.cfg.capacity == 16384 && service.cfg.perUser == mbit * 125_000
    && service.kernel == I.UserRates(d, service.cfg.queues)
    && Adopted(service.base, service.kernel, mbit, service.cfg.perUser)
    && service.unadopted == service.kernel.Keys - service.base.Keys
    && |service.callers| == slots
  }

  /** The store, over the classes found on the device. */
  method AdoptAll(listing: seq<DeviceClass>, d: I.Device, queues: nat, mbit: Uint64, slots: nat)
    returns (service: Service)
    requires QueueCount(queues) && ListsClasses(listing, d) && PerUserRate(mbit).Some?
    ensures fresh(service) && service.cfg.queues == queues && Begins(service, d, mbit, slots)
  {
    var perUser := PerUserRate(mbit).value;
    var classes := ParseClasses(ShowAll(listing), queues);
    ParsedListing(listing, queues);
    var kernel := I.UserRates(d, queues);
    forall c | c in classes ensures c.rate <= MAX_RATE {
      ListedIsInKernel(listing, d, queues, c);
    }
    var base := Adopt(classes, mbit, perUser);
    AdoptedByTrueRate(listing, d, queues, mbit, base);
    service := new Service(Config(queues, QUEUE_SIZE, perUser), base, kernel, slots);
  }

  /**
   run, up to the store: from a device in any state to a layout that is set up and a service over the
   classes found on it; null when run refuses its settings or a command fails. qdiscs is what the qdiscs
   are listed as, and classes(d) what the classes of device d are, each None if listing fails.
   */
  method Start(dev: I.Device, txQueues: nat, mbit: Uint64, rate: nat, qdiscs: Option<seq<Qdisc>>,
               classes: I.Device -> Option<seq<DeviceClass>>, faults: I.Faults, slots: nat)
    returns (iface: I.Interface?, service: Service?)
    requires I.ValidDevice(dev) && (qdiscs.Some? ==> I.Lists(qdiscs.value, dev))
    requires forall d | classes(d).Some? :: ListsClasses(classes(d).value, d)
    ensures service != null ==>
              && 1 <= txQueues && mbit * 125_000 <= 0xffff_ffff && qdiscs.Some?
              && iface != null && fresh(iface) && fresh(service)
              && iface.Valid() && iface.queues == service.cfg.queues == Smaller(txQueues, 255)
              && iface.dev.restore && AreWanted(I.AtPref(iface.dev.filters, I.STEER_PREF), iface.queues)
              && Begins(service, iface.dev, mbit, slots)
    ensures service != null && !Accepted(qdiscs.value, iface.queues) ==>
              I.Complete(iface.dev, iface.queues) && service.kernel == map[]
    ensures service != null && Accepted(qdiscs.value, iface.queues) ==> I.OnlySteering(dev, iface.dev)
    ensures (1 <= txQueues && mbit * 125_000 <= 0xffff_ffff && qdiscs.Some? && (forall d :: classes(d).Some?)
             && I.CanBuild(dev, Smaller(txQueues, MAX_QUEUES), faults) && I.CanSteer(faults)) ==>
              service != null
  {
    if txQueues < 1 {
      return null, null;
    }
    var queues := Smaller(txQueues, MAX_QUEUES);
    iface := new I.Interface(queues, dev);
    var ok := iface.Setup(qdiscs, rate, faults);
    if !ok {
      return iface, null;
    }
    var perUser := PerUserRate(mbit);
    if perUser.None? {
      return iface, null;
    }
    var listing := classes(iface.dev);
    if listing.None? {
      return iface, null;
    }
    service := AdoptAll(listing.value, iface.dev, queues, mbit, slots);
    if !Accepted(qdiscs.value, queues) {
      FreshHasNoUsers(iface.dev, queues, rate);
    }
  }
}
