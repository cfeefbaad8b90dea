/**
 Recognising the layout: layoutMatches counts HTB entries of a qdisc listing, and by pigeonhole that
 amounts to finding exactly the qdiscs the builder makes.
 */
module Qdiscs {
  import opened Options
  import opened Marks
  import opened Counting
  import Hex

  const MQ_HANDLE := "8000:"

  /** One entry of a qdisc listing. */
  datatype Qdisc = Qdisc(kind: string, handle: string, parent: string, root: bool)

  function HtbHandle(major: nat): string {
    Hex.Print(major) + ":"
  }

  function MqClass(major: nat): string {
    MQ_HANDLE + Hex.Print(major)
  }

  function TrimColon(s: string): string {
    if s != [] && s[|s| - 1] == ':' then s[..|s| - 1] else s
  }

  /** The number an entry's handle reads as. */
  function Major(q: Qdisc): Option<nat> {
    Hex.ParseUint(TrimColon(q.handle), 0x1_0000_0000)
  }

  predicate IsRoot(q: Qdisc) {
    q.root && q.kind == "mq" && q.handle == MQ_HANDLE
  }

  predicate IsHtb(q: Qdisc) {
    q.kind == "htb"
  }

  /** An HTB numbered 1..queues that hangs off the mq class of its number. */
  predicate InPlace(q: Qdisc, queues: nat) {
    && Major(q).Some? && 1 <= Major(q).value <= queues
    && q.parent == MqClass(Major(q).value)
  }

  predicate HasRoot(qdiscs: seq<Qdisc>) {
    exists q :: q in qdiscs && IsRoot(q)
  }

  function Htbs(qdiscs: seq<Qdisc>): seq<Qdisc> {
    if qdiscs == [] then []
    else
      var n := |qdiscs| - 1;
      Htbs(qdiscs[..n]) + if IsHtb(qdiscs[n]) then [qdiscs[n]] else []
  }

  lemma {:induction false} HtbIff(qdiscs: seq<Qdisc>, q: Qdisc)
    ensures q in Htbs(qdiscs) <==> q in qdiscs && IsHtb(q)
  {
    if qdiscs != [] {
      var n := |qdiscs| - 1;
      HtbIff(qdiscs[..n], q);
      assert qdiscs == qdiscs[..n] + [qdiscs[n]];
    }
  }

  lemma {:induction false} HtbsOfHtbs(qdiscs: seq<Qdisc>)
    requires forall i | 0 <= i < |qdiscs| :: IsHtb(qdiscs[i])
    ensures Htbs(qdiscs) == qdiscs
  {
    if qdiscs != [] {
      var n := |qdiscs| - 1;
      HtbsOfHtbs(qdiscs[..n]);
      assert qdiscs == qdiscs[..n] + [qdiscs[n]];
    }
  }

  // ----- what a match means -----

  /** Handles are shown as tc prints them. */
  ghost predicate Canonical(qdiscs: seq<Qdisc>) {
    forall q | q in qdiscs && IsHtb(q) :: exists n: nat :: n < 0x1_0000_0000 && q.handle == HtbHandle(n)
  }

  ghost predicate DistinctHandles(qdiscs: seq<Qdisc>) {
    forall i, j | 0 <= i < j < |Htbs(qdiscs)| :: Htbs(qdiscs)[i].handle != Htbs(qdiscs)[j].handle
  }

  /** Queue major's HTB as the builder makes it. */
  predicate IsBuiltHtb(q: Qdisc, major: nat) {
    IsHtb(q) && q.handle == HtbHandle(major) && q.parent == MqClass(major)
  }

  ghost predicate ShowsHtb(qdiscs: seq<Qdisc>, major: nat) {
    exists q :: q in qdiscs && IsBuiltHtb(q, major)
  }

  ghost predicate BuiltHtb(q: Qdisc, queues: nat) {
    exists major :: major in UpTo(queues) && IsBuiltHtb(q, major)
  }

  /** The listing shows the mq root, and as HTBs those of queues 1..queues and no other. */
  ghost predicate IsLayout(qdiscs: seq<Qdisc>, queues: nat) {
    && HasRoot(qdiscs)
    && (forall q | q in qdiscs && IsHtb(q) :: BuiltHtb(q, queues))
    && (forall major | major in UpTo(queues) :: ShowsHtb(qdiscs, major))
  }

  /** What layoutMatches decides by. */
  ghost predicate Accepted(qdiscs: seq<Qdisc>, queues: nat) {
    HasRoot(qdiscs) && |Htbs(qdiscs)| == queues && forall q | q in qdiscs && IsHtb(q) :: InPlace(q, queues)
  }

  /** The class an HTB hangs off is named by the root's handle 8000: and the HTB's own number in hex. */
  lemma MqClassIs(major: nat)
    requires major < 0x10000
    ensures |MqClass(major)| > 5 && MqClass(major)[..5] == "8000:"
    ensures Hex.ParseUint(MqClass(major)[5..], 0x10000) == Some(major)
    ensures forall q :: IsRoot(q) ==> q.handle == "8000:"
  {
    Hex.PrintEval(major);
    Hex.ParsePrint(major, 0x10000);
    assert MqClass(major)[5..] == Hex.Print(major);
  }

  lemma HandleReadsBack(n: nat, q: Qdisc)
    requires n < 0x1_0000_0000 && q.handle == HtbHandle(n)
    ensures Major(q) == Some(n)
  {
    Hex.ParsePrint(n, 0x1_0000_0000);
    assert TrimColon(HtbHandle(n)) == Hex.Print(n);
  }

  /** An HTB is in place exactly when it is one the builder makes, and then its number is the builder's. */
  lemma InPlaceIff(qdiscs: seq<Qdisc>, q: Qdisc, queues: nat)
    requires Canonical(qdiscs) && q in qdiscs && IsHtb(q) && queues <= MAX_QUEUES
    ensures Major(q).Some? && q.handle == HtbHandle(Major(q).value)
    ensures forall major | major in UpTo(queues) && IsBuiltHtb(q, major) :: Major(q) == Some(major)
    ensures InPlace(q, queues) <==> BuiltHtb(q, queues)
  {
    var n: nat :| n < 0x1_0000_0000 && q.handle == HtbHandle(n);
    HandleReadsBack(n, q);
    forall major | major in UpTo(queues) && IsBuiltHtb(q, major) ensures Major(q) == Some(major) {
      HandleReadsBack(major, q);
    }
    if InPlace(q, queues) {
      assert n in UpTo(queues) && IsBuiltHtb(q, n);
    }
  }

  /** The numbers of the HTBs, in listing order. */
  ghost function Majors(hs: seq<Qdisc>): seq<nat>
    requires forall q | q in hs :: Major(q).Some?
  {
    seq(|hs|, i requires 0 <= i < |hs| => Major(hs[i]).value)
  }

  lemma MajorsShow(hs: seq<Qdisc>, major: nat)
    requires forall q | q in hs :: Major(q).Some?
    ensures major in Majors(hs) <==> exists q :: q in hs && Major(q) == Some(major)
  {
    if q :| q in hs && Major(q) == Some(major) {
      var i :| 0 <= i < |hs| && hs[i] == q;
      assert Majors(hs)[i] == major;
    }
  }

  /** What a list of HTBs that are all in place looks like. */
  ghost predicate AllBuilt(hs: seq<Qdisc>, queues: nat) {
    forall q | q in hs :: Major(q).Some? && Major(q).value in UpTo(queues) && IsBuiltHtb(q, Major(q).value)
  }

  lemma CountOfBuilt(hs: seq<Qdisc>, queues: nat)
    requires AllBuilt(hs, queues) && forall i, j | 0 <= i < j < |hs| :: hs[i].handle != hs[j].handle
    ensures |hs| == queues <==> forall major | major in UpTo(queues) :: exists q :: q in hs && Major(q) == Some(major)
  {
    var majors := Majors(hs);
    forall i, j | 0 <= i < j < |majors| ensures majors[i] != majors[j] {
      assert hs[i] in hs && hs[j] in hs && hs[i].handle != hs[j].handle;
    }
    forall k | k in majors ensures k in UpTo(queues) {
      MajorsShow(hs, k);
    }
    Pigeonhole(majors, UpTo(queues));
    UpToSize(queues);
    forall major | major in UpTo(queues) ensures major in majors <==> exists q :: q in hs && Major(q) == Some(major) {
      MajorsShow(hs, major);
    }
  }

  /** The HTBs all being in place, there are queues of them exactly when none is missing. */
  lemma CountedIff(qdiscs: seq<Qdisc>, queues: nat)
    requires queues <= MAX_QUEUES && Canonical(qdiscs) && DistinctHandles(qdiscs)
    requires forall q | q in qdiscs && IsHtb(q) :: InPlace(q, queues)
    ensures |Htbs(qdiscs)| == queues <==> forall major | major in UpTo(queues) :: ShowsHtb(qdiscs, major)
  {
    var hs := Htbs(qdiscs);
    forall q | q in hs
      ensures Major(q).Some? && Major(q).value in UpTo(queues) && IsBuiltHtb(q, Major(q).value)
      ensures forall major | major in UpTo(queues) && IsBuiltHtb(q, major) :: Major(q) == Some(major)
    {
      HtbIff(qdiscs, q);
      InPlaceIff(qdiscs, q, queues);
    }
    CountOfBuilt(hs, queues);
    forall major | major in UpTo(queues)
      ensures ShowsHtb(qdiscs, major) <==> exists q :: q in hs && Major(q) == Some(major)
    {
      if q :| q in hs && Major(q) == Some(major) {
        HtbIff(qdiscs, q);
        assert q in qdiscs && IsBuiltHtb(q, major);
      }
      if q :| q in qdiscs && IsBuiltHtb(q, major) {
        HtbIff(qdiscs, q);
        assert q in hs && Major(q) == Some(major);
      }
    }
  }

  /**
   For listings with distinct, canonically printed handles, matching is the same as showing exactly the
   mq root and, as HTBs, those of queues 1..queues on their own mq classes.
   */
  lemma MatchesIff(qdiscs: seq<Qdisc>, queues: nat)
    requires queues <= MAX_QUEUES && Canonical(qdiscs) && DistinctHandles(qdiscs)
    ensures Accepted(qdiscs, queues) <==> IsLayout(qdiscs, queues)
  {
    forall q | q in qdiscs && IsHtb(q)
      ensures InPlace(q, queues) <==> BuiltHtb(q, queues)
    {
      InPlaceIff(qdiscs, q, queues);
    }
    if forall q | q in qdiscs && IsHtb(q) :: InPlace(q, queues) {
      CountedIff(qdiscs, queues);
    }
  }

  /** A listing of the layout is of built HTBs only, so its handles are as tc prints them. */
  lemma LayoutIsCanonical(qdiscs: seq<Qdisc>, queues: nat)
    requires queues <= MAX_QUEUES && IsLayout(qdiscs, queues)
    ensures Canonical(qdiscs)
  {
    forall q | q in qdiscs && IsHtb(q) ensures exists n: nat :: n < 0x1_0000_0000 && q.handle == HtbHandle(n) {
      var major :| major in UpTo(queues) && IsBuiltHtb(q, major);
    }
  }

  /** With none missing, a repeated handle makes the count too large. */
  lemma RepeatedIsRejected(qdiscs: seq<Qdisc>, queues: nat, i: nat, j: nat)
    requires queues <= MAX_QUEUES && IsLayout(qdiscs, queues)
    requires i < j < |Htbs(qdiscs)| && Htbs(qdiscs)[i].handle == Htbs(qdiscs)[j].handle
    ensures |Htbs(qdiscs)| > queues
  {
    var hs := Htbs(qdiscs);
    LayoutIsCanonical(qdiscs, queues);
    forall q | q in hs ensures Major(q).Some? {
      HtbIff(qdiscs, q);
      InPlaceIff(qdiscs, q, queues);
    }
    forall major | major in UpTo(queues) ensures major in Elements(Majors(hs)) {
      var q :| q in qdiscs && IsBuiltHtb(q, major);
      InPlaceIff(qdiscs, q, queues);
      HtbIff(qdiscs, q);
      MajorsShow(hs, major);
    }
    assert Majors(hs)[i] == Majors(hs)[j];
    RepeatedIsFewer(Majors(hs), i, j);
    SubsetSize(UpTo(queues), Elements(Majors(hs)));
    UpToSize(queues);
  }

  /**
   Whatever the listing: an accepted one shows the layout exactly when its handles are canonical and
   distinct, and one that shows the layout is accepted exactly when they are distinct.
   */
  lemma CountingIsRightIff(qdiscs: seq<Qdisc>, queues: nat)
    requires queues <= MAX_QUEUES
    ensures Accepted(qdiscs, queues) ==>
              (IsLayout(qdiscs, queues) <==> Canonical(qdiscs) && DistinctHandles(qdiscs))
    ensures IsLayout(qdiscs, queues) ==> (Accepted(qdiscs, queues) <==> DistinctHandles(qdiscs))
  {
    if Canonical(qdiscs) && DistinctHandles(qdiscs) {
      MatchesIff(qdiscs, queues);
    }
    if IsLayout(qdiscs, queues) {
      LayoutIsCanonical(qdiscs, queues);
      if i, j :| 0 <= i < j < |Htbs(qdiscs)| && Htbs(qdiscs)[i].handle == Htbs(qdiscs)[j].handle {
        RepeatedIsRejected(qdiscs, queues, i, j);
      }
    }
  }

  /** layoutMatches. */
  method LayoutMatches(qdiscs: seq<Qdisc>, queues: nat) returns (ok: bool)
    ensures ok <==> Accepted(qdiscs, queues)
    ensures queues <= MAX_QUEUES && Canonical(qdiscs) && DistinctHandles(qdiscs) ==> (ok <==> IsLayout(qdiscs, queues))
  {
    if queues <= MAX_QUEUES && Canonical(qdiscs) && DistinctHandles(qdiscs) {
      MatchesIff(qdiscs, queues);
    }
    var rootOK, htbs := false, 0;
    assert qdiscs[..0] == [];
    for i := 0 to |qdiscs|
      invariant rootOK <==> HasRoot(qdiscs[..i])
      invariant htbs == |Htbs(qdiscs[..i])|
      invariant forall q | q in qdiscs[..i] && IsHtb(q) :: InPlace(q, queues)
    {
      var q := qdiscs[i];
      assert qdiscs[..i + 1] == qdiscs[..i] + [q] && qdiscs[..i + 1][..i] == qdiscs[..i];
      if IsRoot(q) {
        rootOK := true;
        assert q in qdiscs[..i + 1];
      } else if q.kind == "htb" {
        if !InPlace(q, queues) {
          assert q in qdiscs && IsHtb(q);
          return false;
        }
        htbs := htbs + 1;
      }
    }
    assert qdiscs[..|qdiscs|] == qdiscs;
    return rootOK && htbs == queues;
  }

  /** An accepted listing without an HTB for queue 2: queue 1's is there twice, once in a form tc never prints. */
  lemma CanonicalIsNeeded()
    ensures var root := Qdisc("mq", MQ_HANDLE, "", true);
            var qdiscs := [root, Qdisc("htb", "1:", MqClass(1), false), Qdisc("htb", "01:", MqClass(1), false)];
            DistinctHandles(qdiscs) && Accepted(qdiscs, 2) && !IsLayout(qdiscs, 2)
  {
    var root := Qdisc("mq", MQ_HANDLE, "", true);
    var a, b := Qdisc("htb", "1:", MqClass(1), false), Qdisc("htb", "01:", MqClass(1), false);
    ReadsAsOne(a);
    ReadsAsOne(b);
    TwiceIsAccepted(root, a, b);
  }

  /** Two entries that read as queue 1's HTB count as two. */
  lemma TwiceIsAccepted(root: Qdisc, a: Qdisc, b: Qdisc)
    requires IsRoot(root) && IsHtb(a) && IsHtb(b) && a.handle != b.handle
    requires Major(a) == Major(b) == Some(1) && a.parent == b.parent == MqClass(1)
    ensures DistinctHandles([root, a, b]) && Accepted([root, a, b], 2) && !IsLayout([root, a, b], 2)
  {
    var qdiscs := [root, a, b];
    TwoHtbs(root, a, b);
    assert root in qdiscs;
    NotSecond(a);
    NotSecond(b);
    assert 2 in UpTo(2) && !ShowsHtb(qdiscs, 2);
  }

  lemma NotSecond(q: Qdisc)
    requires Major(q) == Some(1)
    ensures !IsBuiltHtb(q, 2)
  {
    if IsBuiltHtb(q, 2) {
      HandleReadsBack(2, q);
    }
  }

  lemma TwoHtbs(root: Qdisc, a: Qdisc, b: Qdisc)
    requires !IsHtb(root) && IsHtb(a) && IsHtb(b)
    ensures Htbs([root, a, b]) == [a, b]
  {
    var all := [root, a, b];
    assert all[..2] == [root, a] && [root, a][..1] == [root] && [root][..0] == [];
    assert Htbs([root]) == [];
    assert Htbs([root, a]) == [a];
  }

  lemma ReadsAsOne(q: Qdisc)
    requires q.handle == "1:" || q.handle == "01:"
    ensures Major(q) == Some(1)
  {
    assert TrimColon("1:") == "1" && TrimColon("01:") == "01";
    assert "1"[..0] == "" && "0"[..0] == "" && "01"[..1] == "0";
    assert Hex.Eval("") == Some(0);
    assert Hex.Eval("0") == Some(0);
    assert Hex.Eval("1") == Some(1) && Hex.Eval("01") == Some(1);
  }
}
