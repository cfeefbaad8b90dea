/** Class ids and class listings: how a mark is written for tc, and how listed classes become marks again. */
module Classes {
  import opened Options
  import opened Marks
  import Hex

  const MAX_UINT32 := 0xffff_ffff

  /** One entry of a class listing. */
  datatype TcClass = TcClass(kind: string, handle: string, rate: nat, bytes: nat)

  datatype Class = Class(mark: Mark32, rate: nat, bytes: nat)

  datatype ClassId = ClassId(id: string, major: nat)

  /** major:minor in hex; None when m is no user mark for this many queues. */
  function ClassIdFor(m: Mark32, queues: nat): Option<ClassId> {
    var parts := Split(m, queues);
    if parts.ok then Some(ClassId(Hex.Print(parts.major) + ":" + Hex.Print(parts.minor), parts.major)) else None
  }

  /** The index of the first colon, or |s|. */
  function Colon(s: string): (k: nat)
    ensures k <= |s| && ':' !in s[..k] && (k < |s| ==> s[k] == ':')
  {
    if s == [] || s[0] == ':' then 0
    else
      var k := Colon(s[1..]);
      assert s[..k + 1] == [s[0]] + s[1..][..k];
      k + 1
  }

  function Smaller(a: nat, b: nat): nat {
    if a <= b then a else b
  }

  /** The user class one listing entry stands for, if it does. */
  function Parsed(c: TcClass, queues: nat): Option<Class> {
    if c.kind != "htb" then None
    else
      var k := Colon(c.handle);
      if k == |c.handle| then None
      else
        var major := Hex.ParseUint(c.handle[..k], 0x10000);
        var minor := Hex.ParseUint(c.handle[k + 1..], 0x10000);
        if major.None? || minor.None? then None
        else
          var m := Join(major.value, minor.value);
          if !Split(m, queues).ok then None
          else Some(Class(m, Smaller(c.rate, MAX_UINT32), c.bytes))
  }

  /** The user classes of a listing, in order. */
  function AllParsed(raw: seq<TcClass>, queues: nat): seq<Class> {
    if raw == [] then []
    else
      var n := |raw| - 1;
      AllParsed(raw[..n], queues) + if Parsed(raw[n], queues).Some? then [Parsed(raw[n], queues).value] else []
  }

  method ParseClasses(raw: seq<TcClass>, queues: nat) returns (classes: seq<Class>)
    ensures classes == AllParsed(raw, queues)
  {
    classes := [];
    assert raw[..0] == [];
    for i := 0 to |raw|
      invariant classes == AllParsed(raw[..i], queues)
    {
      var c := raw[i];
      assert raw[..i + 1][..i] == raw[..i];
      if c.kind != "htb" {
        continue;
      }
      var k := Colon(c.handle);
      if k == |c.handle| {
        continue;
      }
      var major := Hex.ParseUint(c.handle[..k], 0x10000);
      var minor := Hex.ParseUint(c.handle[k + 1..], 0x10000);
      if major.None? || minor.None? {
        continue;
      }
      var m := Join(major.value, minor.value);
      if !Split(m, queues).ok {
        continue;
      }
      classes := classes + [Class(m, Smaller(c.rate, MAX_UINT32), c.bytes)];
    }
    assert raw[..|raw|] == raw;
  }

  // ----- what a device lists -----

  /** A class on the device: an HTB class numbered major:minor, or one of another qdisc's. */
  datatype DeviceClass =
    | Htb(major: nat, minor: nat, rate: nat, bytes: nat)
    | Other(kind: string, handle: string)

  predicate ValidClass(c: DeviceClass) {
    match c
    case Htb(major, minor, _, _) => major < 0x10000 && minor < 0x10000
    case Other(kind, _) => kind != "htb"
  }

  function Shown(c: DeviceClass): TcClass {
    match c
    case Htb(major, minor, rate, bytes) => TcClass("htb", Hex.Print(major) + ":" + Hex.Print(minor), rate, bytes)
    case Other(kind, handle) => TcClass(kind, handle, 0, 0)
  }

  function ShowAll(device: seq<DeviceClass>): seq<TcClass> {
    seq(|device|, i requires 0 <= i < |device| => Shown(device[i]))
  }

  /** A user's class for this queue count, and what the collector and the store should learn of it. */
  function UserClass(c: DeviceClass, queues: nat): Option<Class>
    requires ValidClass(c)
  {
    match c
    case Htb(major, minor, rate, bytes) =>
      if 1 <= major <= queues && minor >= MIN_MINOR
      then Some(Class(major * 0x10000 + minor, Smaller(rate, MAX_UINT32), bytes)) else None
    case Other(_, _) => None
  }

  function UserClasses(device: seq<DeviceClass>, queues: nat): seq<Class>
    requires forall c | c in device :: ValidClass(c)
  {
    if device == [] then []
    else
      var n := |device| - 1;
      UserClasses(device[..n], queues) +
      if UserClass(device[n], queues).Some? then [UserClass(device[n], queues).value] else []
  }

  lemma {:induction false} ColonAfter(a: string, b: string)
    requires ':' !in a
    ensures Colon(a + ":" + b) == |a|
  {
    if a != [] {
      ColonAfter(a[1..], b);
      assert (a + ":" + b)[1..] == a[1..] + ":" + b;
    }
  }

  lemma ColonOfShown(major: nat, minor: nat)
    ensures var s := Hex.Print(major) + ":" + Hex.Print(minor);
            Colon(s) == |Hex.Print(major)| && s[..Colon(s)] == Hex.Print(major)
            && s[Colon(s) + 1..] == Hex.Print(minor)
  {
    Hex.PrintEval(major);
    ColonAfter(Hex.Print(major), Hex.Print(minor));
  }

  lemma ParsedShown(c: DeviceClass, queues: nat)
    requires ValidClass(c)
    ensures Parsed(Shown(c), queues) == UserClass(c, queues)
  {
    if c.Htb? {
      ColonOfShown(c.major, c.minor);
      Hex.ParsePrint(c.major, 0x10000);
      Hex.ParsePrint(c.minor, 0x10000);
      SplitJoin(c.major, c.minor, Join(c.major, c.minor), queues);
    }
  }

  /**
   Parsing a device's listing yields exactly its user classes for this queue count, in order, with rates
   capped at 32 bits; default classes, other queues' and other qdiscs' classes are dropped.
   */
  lemma {:induction false} ParsedListing(device: seq<DeviceClass>, queues: nat)
    requires forall c | c in device :: ValidClass(c)
    ensures AllParsed(ShowAll(device), queues) == UserClasses(device, queues)
  {
    if device != [] {
      var n := |device| - 1;
      ParsedListing(device[..n], queues);
      ParsedShown(device[n], queues);
      assert ShowAll(device)[..n] == ShowAll(device[..n]);
    }
  }

  predicate DistinctMarks(classes: seq<Class>) {
    forall i, j | 0 <= i < j < |classes| :: classes[i].mark != classes[j].mark
  }

  /** No two HTB classes of the device share a number. */
  predicate DistinctIds(device: seq<DeviceClass>) {
    forall i, j | 0 <= i < j < |device| && device[i].Htb? && device[j].Htb? ::
      device[i].major != device[j].major || device[i].minor != device[j].minor
  }

  lemma {:induction false} FromSomeClass(device: seq<DeviceClass>, queues: nat, c: Class) returns (i: nat)
    requires forall d | d in device :: ValidClass(d)
    requires c in UserClasses(device, queues)
    ensures i < |device| && UserClass(device[i], queues) == Some(c)
  {
    var n := |device| - 1;
    if UserClass(device[n], queues) == Some(c) {
      i := n;
    } else {
      i := FromSomeClass(device[..n], queues, c);
    }
  }

  /** Class numbers are unique on a device, so a listing never names a mark twice. */
  lemma {:induction false} ListingIsDistinct(device: seq<DeviceClass>, queues: nat)
    requires forall d | d in device :: ValidClass(d)
    requires DistinctIds(device)
    ensures DistinctMarks(UserClasses(device, queues))
  {
    if device != [] {
      var n := |device| - 1;
      var front := UserClasses(device[..n], queues);
      ListingIsDistinct(device[..n], queues);
      if UserClass(device[n], queues).Some? {
        forall c | c in front ensures c.mark != UserClass(device[n], queues).value.mark {
          var i := FromSomeClass(device[..n], queues, c);
          var d, e := device[..n][i], device[n];
          assert d == device[i] && d in device && e in device;
          assert d.major != e.major || d.minor != e.minor;
        }
      }
    }
  }

  /** A mark's class id, listed and read back, gives the mark; and a value that has none is no user mark. */
  lemma ClassIdRoundTrip(m: Mark32, queues: nat, rate: nat, bytes: nat)
    ensures ClassIdFor(m, queues).Some? <==> UserMark(m, queues)
    ensures ClassIdFor(m, queues).Some? ==>
              Parsed(TcClass("htb", ClassIdFor(m, queues).value.id, rate, bytes), queues)
              == Some(Class(m, if rate <= 0xffff_ffff then rate else 0xffff_ffff, bytes))
  {
    if UserMark(m, queues) {
      ParsedShown(Htb(m / 0x10000, m % 0x10000, rate, bytes), queues);
    }
  }

  lemma ClassIdsAreDistinct(m: Mark32, n: Mark32, queues: nat)
    requires ClassIdFor(m, queues).Some? && ClassIdFor(n, queues).Some?
    requires ClassIdFor(m, queues).value.id == ClassIdFor(n, queues).value.id
    ensures m == n
  {
    ClassIdRoundTrip(m, queues, 0, 0);
    ClassIdRoundTrip(n, queues, 0, 0);
  }
}
