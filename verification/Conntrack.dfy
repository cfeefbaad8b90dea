/**
 Marking connections in the conntrack table. An address is Go's net.IP, a byte string of any length; a
 request names one exact tuple, and the kernel either sets that entry's mark or answers with an errno
 and changes nothing.
 */
module Conntrack {
  import opened Options
  import opened Marks
  import opened Counting
  import X = Exchange
  import P = SocketPool

  type IP = seq<bv8>

  const ZERO4: IP := [0, 0, 0, 0]
  const MAPPED_PREFIX: IP := [0, 0, 0, 0, 0, 0, 0, 0, 0, 0, 0xff, 0xff]
  const ZERO16: IP := [0, 0, 0, 0, 0, 0, 0, 0, 0, 0, 0, 0, 0, 0, 0, 0]
  /** The errnos the kernel answers with; 0 is success. */
  type KernelErrno = e: nat | e <= MAX_ERRNO

  const MAX_ERRNO := 4095
  const ENOENT: KernelErrno := 2

  datatype Family = V4 | V6
  datatype FamilyIP = FamilyIP(family: Family, ip: IP)

  /** The original tuple of a TCP connection, with addresses of the family's own length. */
  datatype Tuple = Tuple(src: IP, srcPort: nat, dst: IP, dstPort: nat)

  function To4(ip: IP): Option<IP> {
    if |ip| == 4 then Some(ip)
    else if |ip| == 16 && ip[..12] == MAPPED_PREFIX then Some(ip[12..])
    else None
  }

  function IpFamilyOf(ip: IP): Option<FamilyIP> {
    if To4(ip).Some? then Some(FamilyIP(V4, To4(ip).value))
    else if |ip| == 16 then Some(FamilyIP(V6, ip))
    else None
  }

  predicate IsUnspecified(ip: IP) {
    ip == ZERO4 || ip == MAPPED_PREFIX + ZERO4 || ip == ZERO16
  }

  /** The ten zero bytes and two 0xff bytes of an IPv4-mapped address. */
  predicate HasMappedPrefix(ip: IP) {
    |ip| == 16 && (forall k | 0 <= k < 10 :: ip[k] == 0) && ip[10] == 0xff && ip[11] == 0xff
  }

  /**
   An address by its length and bytes: four bytes are IPv4, sixteen are IPv6 with the address itself unless
   they map an IPv4 address, which is then their last four; any other length is refused.
   */
  lemma FamilyIs(ip: IP)
    ensures |ip| == 4 ==> IpFamilyOf(ip) == Some(FamilyIP(V4, ip))
    ensures |ip| == 16 && HasMappedPrefix(ip) ==> IpFamilyOf(ip) == Some(FamilyIP(V4, ip[12..]))
    ensures |ip| == 16 && !HasMappedPrefix(ip) ==> IpFamilyOf(ip) == Some(FamilyIP(V6, ip))
    ensures IpFamilyOf(ip) == None <==> |ip| != 4 && |ip| != 16
  {
    PrefixIff(ip);
  }

  lemma PrefixIff(ip: IP)
    ensures HasMappedPrefix(ip) <==> |ip| == 16 && ip[..12] == MAPPED_PREFIX
  {
    if |ip| == 16 {
      assert forall k | 0 <= k < 12 :: ip[..12][k] == ip[k];
      if HasMappedPrefix(ip) {
        assert ip[..12] == MAPPED_PREFIX;
      } else if ip[..12] == MAPPED_PREFIX {
        assert forall k | 0 <= k < 10 :: MAPPED_PREFIX[k] == 0;
      }
    }
  }

  predicate AllZero(ip: IP) {
    forall k | 0 <= k < |ip| :: ip[k] == 0
  }

  /** The unspecified addresses are 0.0.0.0, its mapped form and ::, and no other. */
  lemma UnspecifiedIff(ip: IP)
    ensures IsUnspecified(ip) <==>
              (|ip| == 4 && AllZero(ip)) || (|ip| == 16 && AllZero(ip)) || (HasMappedPrefix(ip) && AllZero(ip[12..]))
  {
    var mapped := MAPPED_PREFIX + ZERO4;
    assert |mapped| == 16 && HasMappedPrefix(mapped) && mapped[12..] == ZERO4;
    assert AllZero(ZERO4) && AllZero(ZERO16);
    if |ip| == 4 && AllZero(ip) {
      assert ip == ZERO4;
    }
    if |ip| == 16 && AllZero(ip) {
      assert ip == ZERO16;
    }
    if HasMappedPrefix(ip) && AllZero(ip[12..]) {
      assert forall k | 12 <= k < 16 :: ip[k] == ip[12..][k - 12];
      assert ip == mapped;
    }
  }

  /** The addresses of one family, in the form the kernel expects. */
  function OfFamily(local: seq<IP>, family: Family): seq<IP> {
    if local == [] then []
    else
      var n := |local| - 1;
      var f := IpFamilyOf(local[n]);
      OfFamily(local[..n], family) + if f.Some? && f.value.family == family then [f.value.ip] else []
  }

  /** The destinations one call looks up. */
  function Candidates(dst: IP, family: Family, local: seq<IP>): seq<IP> {
    if IsUnspecified(dst) then OfFamily(local, family) else OfFamily([dst], family)
  }

  method CandidateDsts(dst: IP, family: Family, local: seq<IP>) returns (dsts: seq<IP>)
    ensures dsts == Candidates(dst, family, local)
  {
    if !IsUnspecified(dst) {
      var f := IpFamilyOf(dst);
      assert [dst][..0] == [];
      assert OfFamily([dst][..0], family) == [];
      if f.Some? && f.value.family == family {
        return [f.value.ip];
      }
      return [];
    }
    dsts := [];
    assert local[..0] == [];
    for i := 0 to |local|
      invariant dsts == OfFamily(local[..i], family)
    {
      var f := IpFamilyOf(local[i]);
      assert local[..i + 1][..i] == local[..i];
      if f.Some? && f.value.family == family {
        dsts := dsts + [f.value.ip];
      }
    }
    assert local[..|local|] == local;
  }

  // ----- the kernel's side -----

  /** What the kernel answers to one update; trouble is any reason of its own to refuse it. */
  function Answer(table: map<Tuple, Mark32>, t: Tuple, trouble: KernelErrno): KernelErrno {
    if trouble != 0 then trouble else if t in table then 0 else ENOENT
  }

  function Update(table: map<Tuple, Mark32>, t: Tuple, mark: Mark32, trouble: KernelErrno): map<Tuple, Mark32> {
    if Answer(table, t, trouble) == 0 then table[t := mark] else table
  }

  /** A batch is applied one request after another. */
  function Batch(table: map<Tuple, Mark32>, ts: seq<Tuple>, mark: Mark32, troubles: nat -> KernelErrno):
    map<Tuple, Mark32>
  {
    if ts == [] then table
    else
      var n := |ts| - 1;
      Update(Batch(table, ts[..n], mark, troubles), ts[n], mark, troubles(n))
  }

  /** The table with the mark set on every entry in keys, and nothing added or removed. */
  function Marked(table: map<Tuple, Mark32>, keys: set<Tuple>, mark: Mark32): map<Tuple, Mark32> {
    map t | t in table :: if t in keys then mark else table[t]
  }

  /** The tuples of a batch the kernel has no trouble with. */
  function Untroubled(ts: seq<Tuple>, troubles: nat -> KernelErrno): set<Tuple> {
    set i: nat | i < |ts| && troubles(i) == 0 :: ts[i]
  }

  lemma {:induction false} BatchMarks(table: map<Tuple, Mark32>, ts: seq<Tuple>, mark: Mark32,
                                      troubles: nat -> KernelErrno)
    ensures Batch(table, ts, mark, troubles) == Marked(table, Untroubled(ts, troubles), mark)
  {
    if ts != [] {
      var n := |ts| - 1;
      BatchMarks(table, ts[..n], mark, troubles);
      UntroubledMore(ts, troubles);
    }
  }

  lemma UntroubledMore(ts: seq<Tuple>, troubles: nat -> KernelErrno)
    requires ts != []
    ensures var n := |ts| - 1;
            Untroubled(ts, troubles) == Untroubled(ts[..n], troubles) + if troubles(n) == 0 then {ts[n]} else {}
  {
    var n := |ts| - 1;
    forall i: nat | i < n ensures ts[..n][i] == ts[i] {}
    forall t | t in Untroubled(ts[..n], troubles) ensures t in Untroubled(ts, troubles) {
      var i: nat :| i < n && troubles(i) == 0 && ts[..n][i] == t;
      assert ts[i] == t;
    }
    forall t | t in Untroubled(ts, troubles) && !(troubles(n) == 0 && t == ts[n])
      ensures t in Untroubled(ts[..n], troubles)
    {
      var i: nat :| i < |ts| && troubles(i) == 0 && ts[i] == t;
      assert i != n && ts[..n][i] == t;
    }
  }

  /** What the kernel answers to each request of a batch; marking never changes which entries exist. */
  function Answers(table: map<Tuple, Mark32>, ts: seq<Tuple>, troubles: nat -> KernelErrno): seq<KernelErrno> {
    seq<KernelErrno>(|ts|, i requires 0 <= i < |ts| => Answer(table, ts[i], troubles(i)))
  }

  /** Every valid reply in the stream to one of these requests carries the kernel's answer to it, negated. */
  ghost predicate Truthful(reqs: seq<nat>, stream: seq<X.Datagram>, answers: seq<KernelErrno>)
    requires |answers| == |reqs|
  {
    forall m, i | m in X.Flat(stream) && 0 <= i < |reqs| && X.Answers(m, reqs[i]) :: m.code + answers[i] == 0
  }

  /** Whatever the kernel answers, the replies read back carry it. */
  ghost predicate Faithful(reqs: seq<nat>, replies: seq<KernelErrno> -> seq<X.Datagram>) {
    forall answers: seq<KernelErrno> | |answers| == |reqs| :: Truthful(reqs, replies(answers), answers)
  }

  lemma {:induction false} PrefixIsIn(stream: seq<X.Datagram>, n: nat)
    requires n <= |stream|
    ensures forall m | m in X.Flat(stream[..n]) :: m in X.Flat(stream)
    decreases |stream|
  {
    if n < |stream| {
      var k := |stream| - 1;
      PrefixIsIn(stream[..k], n);
      assert stream[..k][..n] == stream[..n];
    } else {
      assert stream[..n] == stream;
    }
  }

  lemma {:induction false} FirstIsSome(msgs: seq<X.Msg>, seqNo: nat) returns (m: X.Msg)
    requires X.FirstAnswer(msgs, seqNo).Some?
    ensures m in msgs && X.Answers(m, seqNo) && X.FirstAnswer(msgs, seqNo) == Some(X.Answer(m.code))
  {
    if X.Answers(msgs[0], seqNo) {
      m := msgs[0];
    } else {
      m := FirstIsSome(msgs[1..], seqNo);
    }
  }

  /** The results of a successful exchange are the kernel's answers. */
  lemma ResultsAreAnswers(reqs: seq<nat>, stream: seq<X.Datagram>, read: nat, results: seq<X.Errno>,
                          answers: seq<KernelErrno>)
    requires |answers| == |reqs| && Truthful(reqs, stream, answers) && X.IsResult(reqs, stream, read, results)
    ensures results == answers
  {
    PrefixIsIn(stream, read);
    forall i | 0 <= i < |reqs| ensures results[i] == answers[i] {
      var m := FirstIsSome(X.Flat(stream[..read]), reqs[i]);
    }
  }

  // ----- SetMark -----

  datatype Outcome =
    | Done(count: nat)
    | UnsupportedProtocol
    | InvalidSource
    | NoLocalAddresses
    | NoSocket
    | ExchangeFailed
    | KernelError(errno: X.Errno)
    | NoEntry

  function TuplesOf(src: IP, srcPort: nat, dsts: seq<IP>, dstPort: nat): seq<Tuple> {
    seq(|dsts|, i requires 0 <= i < |dsts| => Tuple(src, srcPort, dsts[i], dstPort))
  }

  /** Counts the marked entries, stopping at the first answer that is neither success nor a miss. */
  function Verdict(answers: seq<X.Errno>, marked: nat): Outcome {
    if answers == [] then if marked == 0 then NoEntry else Done(marked)
    else if answers[0] == 0 then Verdict(answers[1..], marked + 1)
    else if answers[0] != ENOENT then KernelError(answers[0])
    else Verdict(answers[1..], marked)
  }

  predicate NoErrors(answers: seq<X.Errno>) {
    forall k | 0 <= k < |answers| :: answers[k] == 0 || answers[k] == ENOENT
  }

  predicate SomeSuccess(answers: seq<X.Errno>) {
    exists k :: 0 <= k < |answers| && answers[k] == 0
  }

  /** Success is no error and something marked, and a miss is no error and nothing marked. */
  lemma {:induction false} VerdictIs(answers: seq<X.Errno>, marked: nat)
    ensures Verdict(answers, marked).Done? <==> NoErrors(answers) && (marked > 0 || SomeSuccess(answers))
    ensures Verdict(answers, marked) == NoEntry <==> NoErrors(answers) && marked == 0 && !SomeSuccess(answers)
    ensures Verdict(answers, marked).KernelError? <==> !NoErrors(answers)
    ensures Verdict(answers, marked) != NoSocket && Verdict(answers, marked) != ExchangeFailed
  {
    if answers != [] {
      var rest := answers[1..];
      VerdictIs(rest, if answers[0] == 0 then marked + 1 else marked);
      assert NoErrors(answers) <==> NoErrors(rest) && (answers[0] == 0 || answers[0] == ENOENT) by {
        assert forall k | 0 <= k < |rest| :: rest[k] == answers[k + 1];
        assert NoErrors(rest) ==> forall k | 1 <= k < |answers| :: answers[k] == rest[k - 1];
      }
      if k :| 0 <= k < |answers| && answers[k] == 0 {
        assert k > 0 ==> rest[k - 1] == 0;
      }
      if k :| 0 <= k < |rest| && rest[k] == 0 {
        assert answers[k + 1] == 0;
      }
    }
  }

  /** Barring answers other than a miss, a call succeeds exactly when one of its tuples has an entry. */
  lemma SucceedsIff(table: map<Tuple, Mark32>, ts: seq<Tuple>, troubles: nat -> KernelErrno)
    requires forall i: nat | i < |ts| :: troubles(i) == 0 || troubles(i) == ENOENT
    ensures Verdict(Answers(table, ts, troubles), 0).Done? <==> exists t :: t in table && t in Untroubled(ts, troubles)
    ensures !Verdict(Answers(table, ts, troubles), 0).KernelError?
  {
    var answers := Answers(table, ts, troubles);
    VerdictIs(answers, 0);
    if i :| 0 <= i < |answers| && answers[i] == 0 {
      assert ts[i] in Untroubled(ts, troubles) && ts[i] in table;
    }
    if t :| t in table && t in Untroubled(ts, troubles) {
      var i: nat :| i < |ts| && troubles(i) == 0 && ts[i] == t;
      assert answers[i] == 0;
    }
  }

  /** The tuples a call looks up, by source and destination; None when the source is no address. */
  function Requests(src: IP, srcPort: nat, dst: IP, dstPort: nat, local: seq<IP>): Option<seq<Tuple>> {
    var f := IpFamilyOf(src);
    if f.None? then None
    else Some(TuplesOf(f.value.ip, srcPort, Candidates(dst, f.value.family, local), dstPort))
  }

  /** A successful call leaves the mark on at least one of its tuples. */
  lemma DoneMarks(table: map<Tuple, Mark32>, ts: seq<Tuple>, mark: Mark32, troubles: nat -> KernelErrno)
    returns (t: Tuple)
    requires Verdict(Answers(table, ts, troubles), 0).Done?
    ensures t in ts && t in table && Marked(table, Untroubled(ts, troubles), mark)[t] == mark
  {
    var answers := Answers(table, ts, troubles);
    VerdictIs(answers, 0);
    var k :| 0 <= k < |answers| && answers[k] == 0;
    t := ts[k];
    assert t in Untroubled(ts, troubles);
  }

  // ----- the history of the table -----

  /** A change of the table by call who, or by anyone else under a number no call has. */
  datatype Change = Change(who: nat, before: map<Tuple, Mark32>, after: map<Tuple, Mark32>)

  /** The changes of one call. */
  function By(log: seq<Change>, i: nat): seq<Change> {
    if log == [] then []
    else
      var n := |log| - 1;
      By(log[..n], i) + if log[n].who == i then [log[n]] else []
  }

  ghost predicate Linked(log: seq<Change>, k: int)
    requires 0 < k < |log|
  {
    log[k - 1].after == log[k].before
  }

  /** The log is all that happened to the table. */
  ghost predicate IsHistory(start: map<Tuple, Mark32>, log: seq<Change>, table: map<Tuple, Mark32>) {
    && (forall k {:trigger Linked(log, k)} | 0 < k < |log| :: Linked(log, k))
    && (log != [] ==> log[0].before == start)
    && table == if log == [] then start else log[|log| - 1].after
  }

  /**
   A call from and to specified addresses looks up exactly the one tuple of the two, if both are IPv4 or
   both are IPv6, and none at all otherwise.
   */
  lemma LooksUpOne(src: IP, srcPort: nat, dst: IP, dstPort: nat, local: seq<IP>)
    requires |src| == 4 || |src| == 16
    requires !IsUnspecified(dst)
    ensures var ts := Requests(src, srcPort, dst, dstPort, local);
            && (|src| == |dst| == 16 && !HasMappedPrefix(src) && !HasMappedPrefix(dst) ==>
                  ts == Some([Tuple(src, srcPort, dst, dstPort)]))
            && (|src| == |dst| == 4 ==> ts == Some([Tuple(src, srcPort, dst, dstPort)]))
            && (|src| == 4 && |dst| == 16 && !HasMappedPrefix(dst) ==> ts == Some([]))
            && (|src| == 16 && !HasMappedPrefix(src) && |dst| == 4 ==> ts == Some([]))
            && (|dst| != 4 && |dst| != 16 ==> ts == Some([]))
  {
    FamilyIs(src);
    FamilyIs(dst);
    var f := IpFamilyOf(src).value;
    OneCandidate(dst, f.family, local);
    assert TuplesOf(f.ip, srcPort, [], dstPort) == [];
    assert TuplesOf(f.ip, srcPort, [dst], dstPort) == [Tuple(f.ip, srcPort, dst, dstPort)];
  }

  lemma OneCandidate(dst: IP, family: Family, local: seq<IP>)
    requires !IsUnspecified(dst)
    ensures Candidates(dst, family, local)
         == if IpFamilyOf(dst).Some? && IpFamilyOf(dst).value.family == family then [IpFamilyOf(dst).value.ip] else []
  {
    assert [dst][..0] == [];
    assert OfFamily([dst][..0], family) == [];
  }

  /** A call to an unspecified address looks up the tuples of exactly the local addresses in the source's family. */
  lemma LooksUpLocal(src: IP, srcPort: nat, dst: IP, dstPort: nat, local: seq<IP>, t: Tuple)
    requires IpFamilyOf(src).Some? && IsUnspecified(dst)
    ensures var f, ts := IpFamilyOf(src).value, Requests(src, srcPort, dst, dstPort, Known(Some(local)));
            ts.Some? && (t in ts.value <==> exists a :: a in local && InFamily(a, f.family)
                                                       && t == Tuple(f.ip, srcPort, IpFamilyOf(a).value.ip, dstPort))
  {
    var f := IpFamilyOf(src).value;
    var dsts := Candidates(dst, f.family, local);
    var ts := TuplesOf(f.ip, srcPort, dsts, dstPort);
    OfFamilyIs(local, f.family);
    if t in ts {
      var k :| 0 <= k < |ts| && ts[k] == t;
      assert dsts[k] in dsts;
    }
    if a :| a in local && InFamily(a, f.family) && t == Tuple(f.ip, srcPort, IpFamilyOf(a).value.ip, dstPort) {
      assert IpFamilyOf(a).value.ip in dsts;
      var k :| 0 <= k < |dsts| && dsts[k] == IpFamilyOf(a).value.ip;
      assert ts[k] == t;
    }
  }

  /** One reply to each request, in order. */
  function PlainMsgs(reqs: seq<nat>, answers: seq<KernelErrno>): seq<X.Msg>
    requires |answers| == |reqs|
  {
    seq(|reqs|, i requires 0 <= i < |reqs| => X.Msg(reqs[i], X.NLMSG_ERROR, 4, -(answers[i] as int)))
  }

  /** The replies of a kernel that answers so in one datagram. */
  function PlainReplies(reqs: seq<nat>): seq<KernelErrno> -> seq<X.Datagram> {
    (answers: seq<KernelErrno>) => if |answers| != |reqs| then [] else [X.Msgs(PlainMsgs(reqs, answers))]
  }

  lemma FlatOfOne(msgs: seq<X.Msg>)
    ensures X.Flat([X.Msgs(msgs)]) == msgs
  {
    assert [X.Msgs(msgs)][..0] == [];
    assert X.Flat([]) + msgs == msgs;
  }

  lemma PlainIsTruthful(reqs: seq<nat>, answers: seq<KernelErrno>)
    requires AllDistinct(reqs) && |answers| == |reqs|
    ensures Truthful(reqs, PlainReplies(reqs)(answers), answers)
  {
    var msgs := PlainMsgs(reqs, answers);
    FlatOfOne(msgs);
    forall m, i | m in msgs && 0 <= i < |reqs| && X.Answers(m, reqs[i]) ensures m.code + answers[i] == 0 {
      var k :| 0 <= k < |msgs| && msgs[k] == m;
      assert k == i;
    }
  }

  lemma PlainIsRead(reqs: seq<nat>, answers: seq<KernelErrno>)
    requires |answers| == |reqs|
    ensures !X.HasNoResult(reqs, PlainReplies(reqs)(answers))
  {
    var msgs, stream := PlainMsgs(reqs, answers), PlainReplies(reqs)(answers);
    FlatOfOne(msgs);
    assert stream[..1] == stream;
    forall i | 0 <= i < |reqs| ensures X.FirstAnswer(msgs, reqs[i]).Some? {
      X.SomeAnswer(msgs, reqs[i], msgs[i]);
    }
    assert X.NoFailure(stream[..1]) && X.AllAnswered(reqs, X.Flat(stream[..1]));
  }

  /** Such a kernel's replies are faithful, and the exchange reads them all. */
  lemma PlainRepliesWork(reqs: seq<nat>)
    requires AllDistinct(reqs)
    ensures Faithful(reqs, PlainReplies(reqs))
    ensures forall answers: seq<KernelErrno> | |answers| == |reqs| ::
              !X.HasNoResult(reqs, PlainReplies(reqs)(answers))
  {
    forall answers: seq<KernelErrno> | |answers| == |reqs|
      ensures Truthful(reqs, PlainReplies(reqs)(answers), answers)
      ensures !X.HasNoResult(reqs, PlainReplies(reqs)(answers))
    {
      PlainIsTruthful(reqs, answers);
      PlainIsRead(reqs, answers);
    }
  }

  function Numbered(n: nat, numbers: nat -> nat): seq<nat> {
    seq(n, i requires 0 <= i < n => numbers(i))
  }

  /** The log went on, and this is what call i did to the table meanwhile. */
  ghost predicate Grew(log: seq<Change>, log': seq<Change>, i: nat, change: Option<Change>) {
    log <= log' && By(log', i) == By(log, i) + if change.Some? then [change.value] else []
  }

  lemma HistoryGoesOn(start: map<Tuple, Mark32>, log: seq<Change>, table: map<Tuple, Mark32>, change: Change)
    requires IsHistory(start, log, table) && change.before == table
    ensures IsHistory(start, log + [change], change.after)
  {
    forall k | 0 < k < |log| + 1 ensures Linked(log + [change], k) {
      assert k < |log| ==> Linked(log, k);
    }
  }

  lemma GrewByOne(log: seq<Change>, change: Change)
    ensures Grew(log, log + [change], change.who, Some(change))
  {
    assert (log + [change])[..|log|] == log;
  }

  /** What a call did is in the log. */
  lemma LastIsIn(log: seq<Change>, log': seq<Change>, i: nat, change: Change)
    requires Grew(log, log', i, Some(change))
    ensures change in log'
  {
    assert change == By(log', i)[|By(log, i)|];
    OwnAreIn(log', i);
  }

  lemma {:induction false} OwnAreIn(log: seq<Change>, i: nat)
    ensures forall c | c in By(log, i) :: c in log
  {
    if log != [] {
      OwnAreIn(log[..|log| - 1], i);
    }
  }

  lemma GrewOn(log: seq<Change>, log': seq<Change>, log'': seq<Change>, i: nat, change: Option<Change>)
    requires (Grew(log, log', i, None) && Grew(log', log'', i, change))
          || (Grew(log, log', i, change) && Grew(log', log'', i, None))
    ensures Grew(log, log'', i, change)
  {
  }

  /** The address list as far as it was read. */
  function Known(local: Option<seq<IP>>): seq<IP> {
    if local.Some? then local.value else []
  }

  /** The outcome of a batch that was sent, by the kernel's answers and what was read back of them. */
  ghost function OutcomeOf(reqs: seq<nat>, replies: seq<KernelErrno> -> seq<X.Datagram>, answers: seq<KernelErrno>):
    Outcome
  {
    if AllDistinct(reqs) && !X.HasNoResult(reqs, replies(answers)) then Verdict(answers, 0) else ExchangeFailed
  }

  /** What a batch on a socket comes to, and what it does to the table. */
  ghost predicate Delivered(i: nat, ts: seq<Tuple>, mark: Mark32, reqs: seq<nat>, sendFails: bool,
                            replies: seq<KernelErrno> -> seq<X.Datagram>, troubles: nat -> KernelErrno,
                            outcome: Outcome, change: Option<Change>) {
    if sendFails then outcome == ExchangeFailed && change == None
    else
      && change.Some? && change.value.who == i
      && change.value.after == Marked(change.value.before, Untroubled(ts, troubles), mark)
      && outcome == OutcomeOf(reqs, replies, Answers(change.value.before, ts, troubles))
  }

  /** What is left of a call's use of its socket once it holds one. */
  ghost predicate UsedOn(sofar: seq<P.Step>, steps: seq<P.Step>, i: nat, ok: bool) {
    exists left :: P.Own(steps, i) == P.Own(sofar, i) + [P.Exchange(i, ok, left), if ok then P.Put(i) else P.Discard(i)]
  }

  /** A call that sent, or failed to, used one socket once, and put it back exactly if the exchange succeeded. */
  ghost predicate Used(sofar: seq<P.Step>, steps: seq<P.Step>, i: nat, outcome: Outcome, change: Option<Change>) {
    if change.Some? || outcome == ExchangeFailed then
      exists trip :: P.Own(steps, i) == P.Own(sofar, i) + trip && P.IsTrip(trip, i, outcome != ExchangeFailed)
    else P.Own(steps, i) == P.Own(sofar, i)
  }

  lemma WholeTrip(sofar: seq<P.Step>, mid: seq<P.Step>, steps: seq<P.Step>, i: nat, first: P.Step,
                  outcome: Outcome, change: Option<Change>)
    requires P.Own(mid, i) == P.Own(sofar, i) + [first] && UsedOn(mid, steps, i, outcome != ExchangeFailed)
    requires first == P.Get(i) || (first.Open? && first.i == i)
    requires change.Some? || outcome == ExchangeFailed
    ensures Used(sofar, steps, i, outcome, change)
  {
    var ok := outcome != ExchangeFailed;
    var left :| P.Own(steps, i) == P.Own(mid, i) + [P.Exchange(i, ok, left), if ok then P.Put(i) else P.Discard(i)];
    var trip := [first, P.Exchange(i, ok, left), if ok then P.Put(i) else P.Discard(i)];
    assert P.Own(steps, i) == P.Own(sofar, i) + trip && P.IsTrip(trip, i, ok);
  }

  class Marker {
    const sockets: P.Sockets
    ghost const start: map<Tuple, Mark32>
    /** The kernel's conntrack table, and everything that happened to it. */
    var table: map<Tuple, Mark32>
    ghost var log: seq<Change>

    ghost predicate Valid()
      reads this, sockets
    {
      sockets.Valid() && IsHistory(start, log, table)
    }

    ghost predicate Idle(i: nat)
      reads sockets
    {
      i < |sockets.calls| && sockets.calls[i] == P.Out
    }

    constructor (sockets: P.Sockets, table: map<Tuple, Mark32>)
      requires sockets.Valid()
      ensures Valid() && this.sockets == sockets && this.table == table && log == []
    {
      this.sockets, this.table, this.start, this.log := sockets, table, table, [];
    }

    /** Other calls run and connections come and go; this is all call i learns of it. */
    method Interfere(ghost i: nat)
      requires Valid() && i < |sockets.calls|
      modifies this, sockets
      ensures Valid() && P.OthersRan(old(sockets.Now()), old(sockets.steps), sockets.Now(), sockets.steps, i)
      ensures Grew(old(log), log, i, None)
    {
      sockets.Interfere(i);
    }

    /** A point at which others may run, and what stays as it was. */
    method Yield(ghost i: nat)
      requires Valid() && i < |sockets.calls|
      modifies this, sockets
      ensures Valid() && |sockets.calls| == |old(sockets.calls)| && sockets.calls[i] == old(sockets.calls)[i]
      ensures P.Own(sockets.steps, i) == P.Own(old(sockets.steps), i)
      ensures Grew(old(log), log, i, None)
    {
      Interfere(i);
      P.OthersKeepOut(old(sockets.Now()), old(sockets.steps), sockets.Now(), sockets.steps, i);
    }

    /**
     SetMark, as call i of those that may be running. local is the address list (None if it cannot be
     read), opens whether a socket could be opened, numbers(k) the sequence number of request k, replies
     what is read back when the kernel answers so, and troubles(k) any reason of the kernel's own to
     refuse request k. change is what the call did to the table, None if nothing was sent.
     */
    method SetMark(ghost i: nat, proto: string, src: IP, srcPort: nat, dst: IP, dstPort: nat, mark: Mark32,
                   local: Option<seq<IP>>, opens: bool, numbers: nat -> nat, sendFails: bool,
                   replies: seq<KernelErrno> -> seq<X.Datagram>, troubles: nat -> KernelErrno)
      returns (outcome: Outcome, ghost change: Option<Change>)
      requires Valid() && Idle(i)
      requires var ts := Requests(src, srcPort, dst, dstPort, Known(local));
               ts.Some? ==> Faithful(Numbered(|ts.value|, numbers), replies)
      modifies this, sockets
      ensures Valid() && |sockets.calls| == |old(sockets.calls)| && Idle(i)
      ensures Grew(old(log), log, i, change)
      ensures Used(old(sockets.steps), sockets.steps, i, outcome, change)
      ensures proto != "tcp" ==> outcome == UnsupportedProtocol && change == None
      ensures proto == "tcp" && IpFamilyOf(src).None? ==> outcome == InvalidSource && change == None
      ensures proto == "tcp" && IpFamilyOf(src).Some? ==>
                var ts := Requests(src, srcPort, dst, dstPort, Known(local)).value;
                if IsUnspecified(dst) && local.None? then outcome == NoLocalAddresses && change == None
                else if ts == [] then outcome == NoEntry && change == None
                else if old(sockets.pool) == [] && !opens then outcome == NoSocket && change == None
                else Delivered(i, ts, mark, Numbered(|ts|, numbers), sendFails, replies, troubles, outcome, change)
    {
      change := None;
      if proto != "tcp" {
        return UnsupportedProtocol, None;
      }
      var f := IpFamilyOf(src);
      if f.None? {
        return InvalidSource, None;
      }
      if IsUnspecified(dst) && local.None? {
        return NoLocalAddresses, None;
      }
      var dsts := CandidateDsts(dst, f.value.family, Known(local));
      var ts := TuplesOf(f.value.ip, srcPort, dsts, dstPort);
      if |ts| == 0 {
        return NoEntry, None;
      }
      outcome, change := Send(i, ts, mark, opens, Numbered(|ts|, numbers), sendFails, replies, troubles);
    }

    /** The batch of one call: on one socket, which goes back to the pool or is closed. */
    method Send(ghost i: nat, ts: seq<Tuple>, mark: Mark32, opens: bool, reqs: seq<nat>, sendFails: bool,
                replies: seq<KernelErrno> -> seq<X.Datagram>, troubles: nat -> KernelErrno)
      returns (outcome: Outcome, ghost change: Option<Change>)
      requires Valid() && Idle(i)
      requires |reqs| == |ts| && Faithful(reqs, replies)
      modifies this, sockets
      ensures Valid() && |sockets.calls| == |old(sockets.calls)| && Idle(i)
      ensures Grew(old(log), log, i, change)
      ensures Used(old(sockets.steps), sockets.steps, i, outcome, change)
      ensures if old(sockets.pool) == [] && !opens then outcome == NoSocket && change == None
              else Delivered(i, ts, mark, reqs, sendFails, replies, troubles, outcome, change)
    {
      ghost var first;
      var sock;
      sock, first := Obtain(i, opens);
      if sock.None? {
        return NoSocket, None;
      }
      ghost var log0, mid := log, sockets.steps;
      outcome, change := SendOn(i, sock.value, ts, mark, reqs, sendFails, replies, troubles);
      GrewOn(old(log), log0, log, i, change);
      WholeTrip(old(sockets.steps), mid, sockets.steps, i, first, outcome, change);
    }

    /** getSocket, after which others may run. */
    method Obtain(ghost i: nat, opens: bool) returns (sock: Option<nat>, ghost first: P.Step)
      requires Valid() && Idle(i)
      modifies this, sockets
      ensures Valid() && |sockets.calls| == |old(sockets.calls)| && Grew(old(log), log, i, None)
      ensures sock.None? <==> old(sockets.pool) == [] && !opens
      ensures sock.None? ==> Idle(i) && P.Own(sockets.steps, i) == P.Own(old(sockets.steps), i)
      ensures sock.Some? ==>
                && sockets.calls[i] == P.Holds(sock.value)
                && (first == P.Get(i) || (first.Open? && first.i == i))
                && P.Own(sockets.steps, i) == P.Own(old(sockets.steps), i) + [first]
    {
      sock := sockets.GetSocket(i, opens);
      first := if old(sockets.pool) != [] || sock.None? then P.Get(i) else P.Open(i, sock.value);
      if sock.Some? {
        Yield(i);
      }
    }

    /** The batch on the socket this call holds. */
    method SendOn(ghost i: nat, sock: nat, ts: seq<Tuple>, mark: Mark32, reqs: seq<nat>, sendFails: bool,
                  replies: seq<KernelErrno> -> seq<X.Datagram>, troubles: nat -> KernelErrno)
      returns (outcome: Outcome, ghost change: Option<Change>)
      requires Valid() && i < |sockets.calls| && sockets.calls[i] == P.Holds(sock)
      requires |reqs| == |ts| && Faithful(reqs, replies)
      modifies this, sockets
      ensures Valid() && |sockets.calls| == |old(sockets.calls)| && Idle(i)
      ensures Grew(old(log), log, i, change)
      ensures UsedOn(old(sockets.steps), sockets.steps, i, outcome != ExchangeFailed)
      ensures Delivered(i, ts, mark, reqs, sendFails, replies, troubles, outcome, change)
    {
      ghost var left;
      var results;
      results, left, change := Trade(i, ts, mark, reqs, sendFails, replies, troubles);
      ghost var log1 := log;
      Return(i, sock, results.Some?, left);
      GrewOn(old(log), log1, log, i, change);
      if results.None? {
        return ExchangeFailed, change;
      }
      outcome := Tally(results.value);
      VerdictIs(results.value, 0);
    }

    /**
     The exchange, with the kernel applying the batch as it is sent; left counts the requests not
     answered when it ended.
     */
    method Trade(ghost i: nat, ts: seq<Tuple>, mark: Mark32, reqs: seq<nat>, sendFails: bool,
                 replies: seq<KernelErrno> -> seq<X.Datagram>, troubles: nat -> KernelErrno)
      returns (results: Option<seq<X.Errno>>, ghost left: nat, ghost change: Option<Change>)
      requires Valid() && |reqs| == |ts| && Faithful(reqs, replies)
      modifies this
      ensures Valid() && Grew(old(log), log, i, change)
      ensures change == if sendFails then None
                        else Some(Change(i, old(table), Marked(old(table), Untroubled(ts, troubles), mark)))
      ensures results.Some? <==> !sendFails && AllDistinct(reqs)
                                 && !X.HasNoResult(reqs, replies(Answers(old(table), ts, troubles)))
      ensures results.Some? ==> left == 0 && results.value == Answers(old(table), ts, troubles)
    {
      var answers := Answers(table, ts, troubles);
      change := None;
      if !sendFails {
        BatchMarks(table, ts, mark, troubles);
        ghost var before := table;
        table := Batch(table, ts, mark, troubles);
        change := Some(Change(i, before, table));
        GrewByOne(log, change.value);
        HistoryGoesOn(start, log, before, change.value);
        log := log + [change.value];
      }
      var read;
      results, read := X.Exchange(reqs, sendFails, replies(answers));
      left := if sendFails then 0 else X.Unanswered(reqs, X.Flat(replies(answers)[..read]));
      if results.Some? {
        X.ResultLeavesNone(reqs, replies(answers), read, results.value);
        ResultsAreAnswers(reqs, replies(answers), read, results.value, answers);
      }
    }

    /** The socket goes back to the pool after a successful exchange, and is closed after a failed one. */
    method Return(ghost i: nat, sock: nat, ok: bool, ghost left: nat)
      requires Valid() && i < |sockets.calls| && sockets.calls[i] == P.Holds(sock) && (ok ==> left == 0)
      modifies this, sockets
      ensures Valid() && |sockets.calls| == |old(sockets.calls)| && Idle(i)
      ensures Grew(old(log), log, i, None) && UsedOn(old(sockets.steps), sockets.steps, i, ok)
    {
      sockets.Exchanged(i, sock, ok, left);
      Yield(i);
      if ok {
        sockets.PutSocket(i, sock);
      } else {
        sockets.Close(i, sock);
      }
    }

    /** The loop over the results. */
    method Tally(results: seq<X.Errno>) returns (outcome: Outcome)
      ensures outcome == Verdict(results, 0)
    {
      var marked := 0;
      for k := 0 to |results|
        invariant Verdict(results, 0) == Verdict(results[k..], marked)
      {
        assert results[k..][1..] == results[k + 1..];
        if results[k] == 0 {
          marked := marked + 1;
        } else if results[k] != ENOENT {
          return KernelError(results[k]);
        }
      }
      return if marked == 0 then NoEntry else Done(marked);
    }
  }

  // ----- wildcards and mapped addresses -----

  predicate InFamily(ip: IP, family: Family) {
    IpFamilyOf(ip).Some? && IpFamilyOf(ip).value.family == family
  }

  lemma {:induction false} OfFamilyIs(local: seq<IP>, family: Family)
    ensures forall d :: d in OfFamily(local, family) <==>
                        exists a :: a in local && InFamily(a, family) && IpFamilyOf(a).value.ip == d
  {
    if local != [] {
      var n := |local| - 1;
      OfFamilyIs(local[..n], family);
      assert local == local[..n] + [local[n]];
    }
  }

  /** The kernel's trouble with each request of a batch, when it has it with the tuple. */
  function TroubleAt(ts: seq<Tuple>, trouble: Tuple -> KernelErrno): nat -> KernelErrno {
    (k: nat) => if k < |ts| then trouble(ts[k]) else 0
  }

  /** The table after one call whose batch is sent. */
  function Called(table: map<Tuple, Mark32>, call: Call, dst: IP, trouble: Tuple -> KernelErrno): map<Tuple, Mark32>
    requires IpFamilyOf(call.src).Some?
  {
    var ts := Requests(call.src, call.srcPort, dst, call.dstPort, call.local).value;
    Marked(table, Untroubled(ts, TroubleAt(ts, trouble)), call.mark)
  }

  /** What a call is given besides its destination. */
  datatype Call = Call(src: IP, srcPort: nat, dstPort: nat, local: seq<IP>, mark: Mark32)

  /** The table after one call per destination. */
  function OneByOne(table: map<Tuple, Mark32>, call: Call, dsts: seq<IP>, trouble: Tuple -> KernelErrno):
    map<Tuple, Mark32>
    requires IpFamilyOf(call.src).Some?
  {
    if dsts == [] then table
    else
      var n := |dsts| - 1;
      Called(OneByOne(table, call, dsts[..n], trouble), call, dsts[n], trouble)
  }

  /** The tuples a call marks: those it looks up and the kernel has no trouble with. */
  ghost function Targets(call: Call, dst: IP, trouble: Tuple -> KernelErrno): set<Tuple>
    requires IpFamilyOf(call.src).Some?
  {
    var f := IpFamilyOf(call.src).value;
    set d | d in Candidates(dst, f.family, call.local) && trouble(Tuple(f.ip, call.srcPort, d, call.dstPort)) == 0 ::
      Tuple(f.ip, call.srcPort, d, call.dstPort)
  }

  lemma CalledMarks(table: map<Tuple, Mark32>, call: Call, dst: IP, trouble: Tuple -> KernelErrno)
    requires IpFamilyOf(call.src).Some?
    ensures Called(table, call, dst, trouble) == Marked(table, Targets(call, dst, trouble), call.mark)
  {
    var f := IpFamilyOf(call.src).value;
    var dsts := Candidates(dst, f.family, call.local);
    var ts := TuplesOf(f.ip, call.srcPort, dsts, call.dstPort);
    forall t ensures t in Untroubled(ts, TroubleAt(ts, trouble)) <==> t in Targets(call, dst, trouble) {
      if t in Targets(call, dst, trouble) {
        var k :| 0 <= k < |dsts| && dsts[k] == t.dst;
        assert ts[k] == t;
      }
    }
  }

  /** The tuples that calls for each of these destinations mark between them. */
  ghost function AllTargets(call: Call, dsts: seq<IP>, trouble: Tuple -> KernelErrno): set<Tuple>
    requires IpFamilyOf(call.src).Some?
  {
    set a, t | a in dsts && t in Targets(call, a, trouble) :: t
  }

  lemma MarkedTwice(table: map<Tuple, Mark32>, a: set<Tuple>, b: set<Tuple>, mark: Mark32)
    ensures Marked(Marked(table, a, mark), b, mark) == Marked(table, a + b, mark)
  {
  }

  lemma {:induction false} OneByOneMarks(table: map<Tuple, Mark32>, call: Call, dsts: seq<IP>,
                                         trouble: Tuple -> KernelErrno)
    requires IpFamilyOf(call.src).Some?
    ensures OneByOne(table, call, dsts, trouble) == Marked(table, AllTargets(call, dsts, trouble), call.mark)
  {
    if dsts != [] {
      var n := |dsts| - 1;
      var front := OneByOne(table, call, dsts[..n], trouble);
      OneByOneMarks(table, call, dsts[..n], trouble);
      CalledMarks(front, call, dsts[n], trouble);
      MarkedTwice(table, AllTargets(call, dsts[..n], trouble), Targets(call, dsts[n], trouble), call.mark);
      assert dsts == dsts[..n] + [dsts[n]];
      assert AllTargets(call, dsts, trouble)
          == AllTargets(call, dsts[..n], trouble) + Targets(call, dsts[n], trouble);
    }
  }

  /**
   A call with an unspecified destination leaves the table as one call for each local address in the
   source's family would, even if one of those is itself unspecified, and whichever tuples the kernel
   refuses.
   */
  lemma WildcardIsEachAddress(table: map<Tuple, Mark32>, call: Call, dst: IP, mine: seq<IP>,
                              trouble: Tuple -> KernelErrno)
    requires IpFamilyOf(call.src).Some? && IsUnspecified(dst)
    requires forall a :: a in mine <==> a in call.local && InFamily(a, IpFamilyOf(call.src).value.family)
    ensures Called(table, call, dst, trouble) == OneByOne(table, call, mine, trouble)
  {
    CalledMarks(table, call, dst, trouble);
    OneByOneMarks(table, call, mine, trouble);
    var family := IpFamilyOf(call.src).value.family;
    OfFamilyIs(call.local, family);
    forall t ensures t in Targets(call, dst, trouble) <==> t in AllTargets(call, mine, trouble) {
      if t in Targets(call, dst, trouble) {
        var a :| a in call.local && InFamily(a, family) && IpFamilyOf(a).value.ip == t.dst;
        OfFamilyIs([a], family);
        assert a in mine && t in Targets(call, a, trouble);
      }
      if t in AllTargets(call, mine, trouble) {
        var a :| a in mine && t in Targets(call, a, trouble);
        OfFamilyIs([a], family);
      }
    }
  }

  /** The 16-byte form of an IPv4 address stands for the same address, as source, destination and wildcard. */
  lemma MappedIsIPv4(ip: IP, family: Family, local: seq<IP>)
    requires |ip| == 4
    ensures var mapped := MAPPED_PREFIX + ip;
            IpFamilyOf(mapped) == IpFamilyOf(ip) == Some(FamilyIP(V4, ip))
            && (IsUnspecified(mapped) <==> IsUnspecified(ip))
            && Candidates(mapped, family, local) == Candidates(ip, family, local)
  {
    var mapped := MAPPED_PREFIX + ip;
    assert mapped[..12] == MAPPED_PREFIX && mapped[12..] == ip;
    assert (MAPPED_PREFIX + ZERO4)[12..] == ZERO4;
    assert ZERO16[10] != mapped[10];
    assert [mapped][..0] == [ip][..0];
  }
}
