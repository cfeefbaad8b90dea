/**
 The webhook handler's decisions, in order: which events to ignore, the user's mark, queueing it for
 provisioning, the cache of recently marked connections, and marking. Other handlers, the worker and
 everyone else may run between any two of these.
 */
module Webhook {
  import opened Options
  import opened Marks
  import opened Counting
  import C = Conntrack
  import P = Protocol
  import Pool = SocketPool
  import R = RecentMarks
  import S = Service
  import U = Users
  import X = Exchange

  datatype Event =
    Event(email: Option<string>, network: Option<string>, source: Option<string>, inboundLocal: Option<string>)

  datatype Status = NoContent | BadRequest | InternalError

  /** What the handler did with an event. */
  datatype Action = Ignored | Skipped(conn: R.Conn) | MarkedConn(conn: R.Conn) | FailedToMark(conn: R.Conn)

  /** An IPv4-mapped address as the IPv4 address it stands for. */
  function Unmap(addr: C.IP): C.IP {
    if |addr| == 16 && addr[..12] == C.MAPPED_PREFIX then addr[12..] else addr
  }

  /** parseAddrPort, over the library's parser. */
  function ParseAddrPort(parse: string -> Option<R.AddrPort>, s: string): Option<R.AddrPort> {
    var ap := parse(s);
    if ap.None? then None else Some(R.AddrPort(Unmap(ap.value.addr), ap.value.port))
  }

  /** The same address always gives the same key, and to the marker the key means the same address. */
  lemma KeyIsCanonical(addr: C.IP, ip: C.IP)
    requires |ip| == 4
    ensures Unmap(C.MAPPED_PREFIX + ip) == Unmap(ip) == ip
    ensures C.IpFamilyOf(Unmap(addr)) == C.IpFamilyOf(addr)
  {
    assert (C.MAPPED_PREFIX + ip)[..12] == C.MAPPED_PREFIX && (C.MAPPED_PREFIX + ip)[12..] == ip;
  }

  /** The connection and user an event is about; None for an event the handler ignores. */
  function Subject(ev: Event, parse: string -> Option<R.AddrPort>): Option<(R.AddrPort, R.AddrPort, string)> {
    if ev.network.Some? && ev.network.value != "" && ev.network.value != "tcp" then None
    else if ev.email.None? || ev.source.None? || ev.inboundLocal.None? then None
    else
      var src, dst := ParseAddrPort(parse, ev.source.value), ParseAddrPort(parse, ev.inboundLocal.value);
      if src.None? || dst.None? || ev.email.value == "" then None
      else Some((src.value, dst.value, ev.email.value))
  }

  /** The address a parsed one stands for: the last four bytes of an IPv4-mapped one, else itself; same port. */
  predicate StandsFor(ap: R.AddrPort, parsed: R.AddrPort) {
    && ap.port == parsed.port
    && ap.addr == if C.HasMappedPrefix(parsed.addr) then parsed.addr[12..] else parsed.addr
  }

  /**
   An event is handled exactly if its network is missing, empty or tcp, and its email, source and
   inboundLocal are there, the email not empty and both addresses parsed; the connection then goes from
   the source to inboundLocal.
   */
  lemma SubjectIs(ev: Event, parse: string -> Option<R.AddrPort>)
    ensures Subject(ev, parse).Some? <==>
              && (ev.network == None || ev.network == Some("") || ev.network == Some("tcp"))
              && ev.email.Some? && ev.email != Some("") && ev.source.Some? && ev.inboundLocal.Some?
              && parse(ev.source.value).Some? && parse(ev.inboundLocal.value).Some?
    ensures Subject(ev, parse).Some? ==>
              var (src, dst, email) := Subject(ev, parse).value;
              && email == ev.email.value
              && StandsFor(src, parse(ev.source.value).value) && StandsFor(dst, parse(ev.inboundLocal.value).value)
  {
    if ev.source.Some? && parse(ev.source.value).Some? {
      UnmapIs(parse(ev.source.value).value.addr);
    }
    if ev.inboundLocal.Some? && parse(ev.inboundLocal.value).Some? {
      UnmapIs(parse(ev.inboundLocal.value).value.addr);
    }
  }

  lemma UnmapIs(addr: C.IP)
    ensures Unmap(addr) == if C.HasMappedPrefix(addr) then addr[12..] else addr
  {
    C.PrefixIff(addr);
  }

  /** What the marker is given besides the connection, and what the kernel and its sockets will do. */
  datatype Kernel = Kernel(
    local: Option<seq<C.IP>>, opens: bool, numbers: nat -> nat, sendFails: bool,
    replies: seq<C.KernelErrno> -> seq<X.Datagram>, troubles: nat -> C.KernelErrno)

  function RequestsFor(conn: R.Conn, local: Option<seq<C.IP>>): Option<seq<C.Tuple>> {
    C.Requests(conn.src.addr, conn.src.port, conn.dst.addr, conn.dst.port, C.Known(local))
  }

  ghost predicate Replies(conn: R.Conn, kernel: Kernel) {
    var ts := RequestsFor(conn, kernel.local);
    ts.Some? ==> C.Faithful(C.Numbered(|ts.value|, kernel.numbers), kernel.replies)
  }

  /** A tuple of the connection: any destination will do if the event's is unspecified. */
  predicate IsTupleOf(t: C.Tuple, conn: R.Conn) {
    && C.IpFamilyOf(conn.src.addr).Some? && t.src == C.IpFamilyOf(conn.src.addr).value.ip
    && t.srcPort == conn.src.port && t.dstPort == conn.dst.port
    && (!C.IsUnspecified(conn.dst.addr) ==>
          C.IpFamilyOf(conn.dst.addr).Some? && t.dst == C.IpFamilyOf(conn.dst.addr).value.ip)
  }

  lemma RequestsAreOf(conn: R.Conn, local: Option<seq<C.IP>>, t: C.Tuple)
    requires RequestsFor(conn, local).Some? && t in RequestsFor(conn, local).value
    ensures IsTupleOf(t, conn)
  {
    var family := C.IpFamilyOf(conn.src.addr).value.family;
    C.OfFamilyIs([conn.dst.addr], family);
    assert t.dst in C.Candidates(conn.dst.addr, family, C.Known(local));
  }

  /** After this change an entry of the connection carries its mark. */
  ghost predicate Carries(change: C.Change, conn: R.Conn) {
    exists t :: IsTupleOf(t, conn) && t in change.after && change.after[t] == conn.mark
  }

  /** The change adds and removes no entry, and only puts this mark on entries of this connection. */
  ghost predicate OnlyMarks(change: C.Change, conn: R.Conn) {
    && change.after.Keys == change.before.Keys
    && forall t | t in change.after && change.after[t] != change.before[t] ::
         IsTupleOf(t, conn) && change.after[t] == conn.mark
  }

  lemma WhatSetMarkDid(conn: R.Conn, kernel: Kernel, outcome: C.Outcome, change: C.Change)
    requires RequestsFor(conn, kernel.local).Some?
    requires C.Delivered(change.who, RequestsFor(conn, kernel.local).value, conn.mark,
                         C.Numbered(|RequestsFor(conn, kernel.local).value|, kernel.numbers), false,
                         kernel.replies, kernel.troubles, outcome, Some(change))
    ensures OnlyMarks(change, conn) && (outcome.Done? ==> Carries(change, conn))
  {
    var ts := RequestsFor(conn, kernel.local).value;
    forall t | t in C.Untroubled(ts, kernel.troubles) ensures IsTupleOf(t, conn) {
      RequestsAreOf(conn, kernel.local, t);
    }
    if outcome.Done? {
      var t := C.DoneMarks(change.before, ts, conn.mark, kernel.troubles);
      RequestsAreOf(conn, kernel.local, t);
      assert t in change.after && change.after[t] == conn.mark;
    }
  }

  /** What SetMark answers and does for a connection, case by case; noSocket says whether none was to be had. */
  ghost predicate MarkerDid(i: nat, conn: R.Conn, kernel: Kernel, noSocket: bool,
                            result: C.Outcome, change: Option<C.Change>) {
    var ts := RequestsFor(conn, kernel.local);
    if ts.None? then result == C.InvalidSource && change == None
    else if C.IsUnspecified(conn.dst.addr) && kernel.local.None? then result == C.NoLocalAddresses && change == None
    else if ts.value == [] then result == C.NoEntry && change == None
    else if noSocket then result == C.NoSocket && change == None
    else C.Delivered(i, ts.value, conn.mark, C.Numbered(|ts.value|, kernel.numbers), kernel.sendFails,
                     kernel.replies, kernel.troubles, result, change)
  }

  /** SetMark was called for the connection, with this result; without a socket only if none could be opened. */
  ghost predicate WasCalled(i: nat, conn: R.Conn, kernel: Kernel, noSocket: bool,
                            result: C.Outcome, change: Option<C.Change>) {
    && MarkerDid(i, conn, kernel, noSocket, result, change) && (noSocket ==> !kernel.opens)
    && (change.Some? ==> OnlyMarks(change.value, conn))
    && (result.Done? ==> change.Some? && Carries(change.value, conn))
  }

  /** Tuple k of the batch names t, and the kernel has no reason of its own to refuse it. */
  predicate Accepts(ts: seq<C.Tuple>, troubles: nat -> C.KernelErrno, t: C.Tuple, k: nat) {
    k < |ts| && ts[k] == t && troubles(k) == 0
  }

  /** Before anything fails, the stream has a valid reply to each request. */
  ghost predicate AllRead(reqs: seq<nat>, stream: seq<X.Datagram>) {
    exists n :: 0 <= n <= |stream| && X.NoFailure(stream[..n]) && X.AllAnswered(reqs, X.Flat(stream[..n]))
  }

  /** The mark comes onto the existing entries of exactly the tuples the kernel accepts; nothing else changes. */
  ghost predicate MarksExactly(ts: seq<C.Tuple>, troubles: nat -> C.KernelErrno, mark: Mark32, change: C.Change) {
    && change.after.Keys == change.before.Keys
    && forall t | t in change.before ::
         change.after[t] == if exists k :: Accepts(ts, troubles, t, k) then mark else change.before[t]
  }

  /** Every reply is read, none is an error other than a miss (errno 2), and some accepted tuple has an entry. */
  ghost predicate Succeeds(ts: seq<C.Tuple>, kernel: Kernel, table: map<C.Tuple, Mark32>) {
    && RepliesRead(ts, kernel, table)
    && (forall k: nat | k < |ts| :: kernel.troubles(k) == 0 || kernel.troubles(k) == 2)
    && exists t, k :: t in table && Accepts(ts, kernel.troubles, t, k)
  }

  ghost predicate RepliesRead(ts: seq<C.Tuple>, kernel: Kernel, table: map<C.Tuple, Mark32>) {
    var reqs := C.Numbered(|ts|, kernel.numbers);
    AllDistinct(reqs) && AllRead(reqs, kernel.replies(C.Answers(table, ts, kernel.troubles)))
  }

  /** The source is an address, local ones are known if needed, a tuple is looked up, and it can be sent. */
  predicate CanSend(conn: R.Conn, kernel: Kernel) {
    && (|conn.src.addr| == 4 || |conn.src.addr| == 16)
    && (C.IsUnspecified(conn.dst.addr) ==> kernel.local.Some?)
    && RequestsFor(conn, kernel.local) != Some([])
    && !kernel.sendFails
  }

  /** What a SetMark that can send does to the table, and when it succeeds. */
  lemma CallMarks(i: nat, conn: R.Conn, kernel: Kernel, noSocket: bool, result: C.Outcome, change: Option<C.Change>)
    requires WasCalled(i, conn, kernel, noSocket, result, change) && CanSend(conn, kernel) && !noSocket
    ensures RequestsFor(conn, kernel.local).Some? && change.Some?
    ensures var ts := RequestsFor(conn, kernel.local).value;
            && MarksExactly(ts, kernel.troubles, conn.mark, change.value)
            && (result == C.ExchangeFailed <==> !RepliesRead(ts, kernel, change.value.before))
            && (result.Done? <==> Succeeds(ts, kernel, change.value.before))
  {
    C.FamilyIs(conn.src.addr);
    var ts, before := RequestsFor(conn, kernel.local).value, change.value.before;
    forall t ensures t in C.Untroubled(ts, kernel.troubles) <==> exists k :: Accepts(ts, kernel.troubles, t, k) {
      if k: nat :| Accepts(ts, kernel.troubles, t, k) {
        assert ts[k] in C.Untroubled(ts, kernel.troubles);
      }
      if t in C.Untroubled(ts, kernel.troubles) {
        var k: nat :| k < |ts| && kernel.troubles(k) == 0 && ts[k] == t;
        assert Accepts(ts, kernel.troubles, t, k);
      }
    }
    BatchSucceedsIff(before, ts, kernel.troubles);
    var reqs, stream := C.Numbered(|ts|, kernel.numbers), kernel.replies(C.Answers(before, ts, kernel.troubles));
    assert X.HasNoResult(reqs, stream) <==> !AllRead(reqs, stream);
    C.VerdictIs(C.Answers(before, ts, kernel.troubles), 0);
  }

  lemma BatchSucceedsIff(table: map<C.Tuple, Mark32>, ts: seq<C.Tuple>, troubles: nat -> C.KernelErrno)
    ensures C.Verdict(C.Answers(table, ts, troubles), 0).Done? <==>
              && (forall k: nat | k < |ts| :: troubles(k) == 0 || troubles(k) == 2)
              && exists t, k :: t in table && Accepts(ts, troubles, t, k)
  {
    var answers := C.Answers(table, ts, troubles);
    C.VerdictIs(answers, 0);
    forall k: nat | k < |ts|
      ensures answers[k] == if troubles(k) != 0 then troubles(k) else if ts[k] in table then 0 else 2
    {
      assert answers[k] == C.Answer(table, ts[k], troubles(k));
    }
    if k :| 0 <= k < |answers| && answers[k] == 0 {
      assert ts[k] in table && Accepts(ts, troubles, ts[k], k);
    }
    if t, k: nat :| t in table && Accepts(ts, troubles, t, k) {
      assert answers[k] == 0;
    }
  }

  /** The other cases: no address, no list of local ones, no tuple, no socket, or no send; nothing is changed. */
  lemma CallFails(i: nat, conn: R.Conn, kernel: Kernel, noSocket: bool, result: C.Outcome, change: Option<C.Change>)
    requires WasCalled(i, conn, kernel, noSocket, result, change)
    ensures |conn.src.addr| != 4 && |conn.src.addr| != 16 <==> result == C.InvalidSource
    ensures result == C.NoLocalAddresses ==> C.IsUnspecified(conn.dst.addr) && kernel.local.None?
    ensures result == C.NoSocket ==> noSocket && !kernel.opens
    ensures change.None? ==> result == C.InvalidSource || result == C.NoLocalAddresses || result == C.NoEntry
                             || result == C.NoSocket || (result == C.ExchangeFailed && kernel.sendFails)
    ensures change.None? && result == C.NoEntry ==> RequestsFor(conn, kernel.local) == Some([])
  {
    C.FamilyIs(conn.src.addr);
    if RequestsFor(conn, kernel.local).Some? && change.Some? {
      C.VerdictIs(C.Answers(change.value.before, RequestsFor(conn, kernel.local).value, kernel.troubles), 0);
    }
  }

  /** A successful SetMark of handler who. */
  datatype Marking = Marking(who: nat, conn: R.Conn, change: C.Change)

  /** The connections handler i marked. */
  function By(done: seq<Marking>, i: nat): seq<R.Conn> {
    if done == [] then []
    else
      var n := |done| - 1;
      By(done[..n], i) + if done[n].who == i then [done[n].conn] else []
  }

  lemma ByMore(done: seq<Marking>, m: Marking, i: nat)
    ensures By(done + [m], i) == By(done, i) + if m.who == i then [m.conn] else []
  {
    assert (done + [m])[..|done|] == done;
  }

  ghost predicate WasMarked(conn: R.Conn, done: seq<Marking>) {
    exists k :: 0 <= k < |done| && done[k].conn == conn
  }

  /** Every connection the cache was ever told of had been marked. */
  ghost predicate Logged(adds: seq<R.Added>, done: seq<Marking>) {
    forall j {:trigger WasMarked(adds[j].conn, done)} | 0 <= j < |adds| :: WasMarked(adds[j].conn, done)
  }

  /** The marking is in the table's history, and put the mark on an entry of its connection. */
  ghost predicate IsReal(m: Marking, log: seq<C.Change>) {
    m.change in log && Carries(m.change, m.conn)
  }

  ghost predicate Happened(done: seq<Marking>, log: seq<C.Change>) {
    forall k {:trigger IsReal(done[k], log)} | 0 <= k < |done| :: IsReal(done[k], log)
  }

  lemma LoggedMore(adds: seq<R.Added>, done: seq<Marking>, add: R.Added)
    requires Logged(adds, done) && WasMarked(add.conn, done)
    ensures Logged(adds + [add], done)
  {
    forall j | 0 <= j < |adds| + 1 ensures WasMarked((adds + [add])[j].conn, done) {
      assert j < |adds| ==> WasMarked(adds[j].conn, done);
    }
  }

  /** Markings and changes only ever add to what happened. */
  lemma StillLogged(adds: seq<R.Added>, done: seq<Marking>, done': seq<Marking>)
    requires Logged(adds, done) && done <= done'
    ensures Logged(adds, done')
  {
    forall j | 0 <= j < |adds| ensures WasMarked(adds[j].conn, done') {
      assert WasMarked(adds[j].conn, done);
      var k :| 0 <= k < |done| && done[k].conn == adds[j].conn;
      assert done'[k] == done[k];
    }
  }

  lemma StillHappened(done: seq<Marking>, log: seq<C.Change>, log': seq<C.Change>)
    requires Happened(done, log) && log <= log'
    ensures Happened(done, log')
  {
    forall k | 0 <= k < |done| ensures IsReal(done[k], log') {
      assert IsReal(done[k], log);
    }
  }

  lemma HappenedMore(done: seq<Marking>, m: Marking, log: seq<C.Change>)
    requires Happened(done, log) && IsReal(m, log)
    ensures Happened(done + [m], log)
  {
    forall k | 0 <= k < |done| + 1 ensures IsReal((done + [m])[k], log) {
      assert k < |done| ==> IsReal(done[k], log);
    }
  }

  /** What handlers other than i added to the cache, or handler i itself. */
  ghost predicate AddedBy(adders: seq<nat>, adders': seq<nat>, adds: seq<R.Added>, i: nat, mine: Option<R.Added>) {
    && adders <= adders' && |adds| == |adders'|
    && (forall j | |adders| <= j < |adders'| && adders'[j] == i :: mine == Some(adds[j]))
    && (mine.Some? ==> exists j :: |adders| <= j < |adders'| && adders'[j] == i && adds[j] == mine.value)
  }

  lemma {:induction false} MarkedBy(done: seq<Marking>, i: nat, conn: R.Conn) returns (k: nat)
    requires conn in By(done, i)
    ensures k < |done| && done[k].who == i && done[k].conn == conn
  {
    k := |done| - 1;
    if !(done[k].who == i && done[k].conn == conn) {
      k := MarkedBy(done[..k], i, conn);
    }
  }

  lemma AddedOn(a: seq<nat>, b: seq<nat>, c: seq<nat>, adds: seq<R.Added>, adds': seq<R.Added>, i: nat,
                first: Option<R.Added>, second: Option<R.Added>)
    requires AddedBy(a, b, adds, i, first) && AddedBy(b, c, adds', i, second) && adds <= adds'
    requires first.None? || second.None?
    ensures AddedBy(a, c, adds', i, if first.Some? then first else second)
  {
  }

  lemma AddedOne(adders: seq<nat>, adds: seq<R.Added>, add: R.Added, i: nat)
    requires |adders| == |adds|
    ensures AddedBy(adders, adders + [i], adds + [add], i, Some(add))
  {
    assert (adders + [i])[|adders|] == i && (adds + [add])[|adders|] == add;
  }

  /** What the handlers share, as far as it records who did what. */
  datatype Snap = Snap(
    done: seq<Marking>, adders: seq<nat>, adds: seq<R.Added>, events: seq<U.Event>, log: seq<C.Change>, store: P.State)

  /** What one handler did itself: the connections it marked, what it told the cache, what it did to the table. */
  datatype Own = Own(marked: seq<R.Conn>, added: Option<R.Added>, change: Option<C.Change>)

  const Nothing := Own([], None, None)

  /** A stretch of handler i's code, in which it did this much itself and the others whatever they did. */
  ghost predicate Ran(cfg: P.Config, a: Snap, b: Snap, i: nat, own: Own) {
    && S.Went(cfg, a.store, b.store, P.Caller(i)) && a.events <= b.events && a.adds <= b.adds
    && By(b.done, i) == By(a.done, i) + own.marked
    && AddedBy(a.adders, b.adders, b.adds, i, own.added)
    && C.Grew(a.log, b.log, i, own.change)
  }

  /** Others ran first. */
  lemma RanAfter(cfg: P.Config, a: Snap, b: Snap, c: Snap, i: nat, own: Own)
    requires Ran(cfg, a, b, i, Nothing) && Ran(cfg, b, c, i, own)
    ensures Ran(cfg, a, c, i, own)
  {
    S.WentOn(cfg, a.store, b.store, c.store, P.Caller(i));
    AddedOn(a.adders, b.adders, c.adders, b.adds, c.adds, i, None, own.added);
    C.GrewOn(a.log, b.log, c.log, i, own.change);
    assert By(a.done, i) + [] + own.marked == By(a.done, i) + own.marked;
  }

  /** A successful SetMark, and then the cache was told. */
  lemma RanBoth(cfg: P.Config, a: Snap, b: Snap, c: Snap, i: nat, marked: seq<R.Conn>, add: R.Added,
                change: Option<C.Change>)
    requires Ran(cfg, a, b, i, Own(marked, None, change)) && Ran(cfg, b, c, i, Own([], Some(add), None))
    ensures Ran(cfg, a, c, i, Own(marked, Some(add), change))
  {
    S.WentOn(cfg, a.store, b.store, c.store, P.Caller(i));
    AddedOn(a.adders, b.adders, c.adders, b.adds, c.adds, i, None, Some(add));
    C.GrewOn(a.log, b.log, c.log, i, change);
    assert By(a.done, i) + marked + [] == By(a.done, i) + marked;
  }

  lemma RememberedRan(cfg: P.Config, a: Snap, b: Snap, i: nat, add: R.Added)
    requires |a.adders| == |a.adds| && b == a.(adders := a.adders + [i], adds := a.adds + [add])
    ensures Ran(cfg, a, b, i, Own([], Some(add), None))
  {
    S.StandsStill(cfg, a.store, P.Caller(i));
    AddedOne(a.adders, a.adds, add, i);
  }

  /** The log of markings after a SetMark of handler i with this result. */
  function Noted(done: seq<Marking>, i: nat, conn: R.Conn, result: C.Outcome, change: Option<C.Change>): seq<Marking> {
    if result.Done? && change.Some? then done + [Marking(i, conn, change.value)] else done
  }

  lemma MarkedRan(cfg: P.Config, a: Snap, b: Snap, i: nat, conn: R.Conn, result: C.Outcome, change: Option<C.Change>)
    requires b == a.(done := Noted(a.done, i, conn, result, change), log := b.log)
    requires |a.adders| == |a.adds| && C.Grew(a.log, b.log, i, change) && (result.Done? ==> change.Some?)
    ensures Ran(cfg, a, b, i, Own(if result.Done? then [conn] else [], None, change))
  {
    S.StandsStill(cfg, a.store, P.Caller(i));
    if result.Done? {
      ByMore(a.done, Marking(i, conn, change.value), i);
    }
  }

  /** What handler i did itself, by the action it ended with. */
  function OwnOf(action: Action, addedAt: int, change: Option<C.Change>): Own {
    match action
    case MarkedConn(conn) => Own([conn], Some(R.Added(conn, addedAt)), change)
    case FailedToMark(_) => Own([], None, change)
    case _ => Nothing
  }

  lemma StandsStill(cfg: P.Config, a: Snap, i: nat)
    requires |a.adders| == |a.adds|
    ensures Ran(cfg, a, a, i, Nothing)
  {
    S.StandsStill(cfg, a.store, P.Caller(i));
  }

  lemma SeenStays(n: nat, events: seq<U.Event>, events': seq<U.Event>, event: U.Event)
    requires n <= |events| && events <= events' && event in events[n..]
    ensures event in events'[n..]
  {
    var k :| n <= k < |events| && events[k] == event;
    assert events'[k] == event;
  }

  /** What the cache answered, by what it had been told when it was asked. */
  ghost predicate CacheSaid(found: bool, seen: seq<R.Added>, conn: R.Conn, now: int, ttl: int) {
    && (found ==> R.AddedWithin(seen, conn, now, ttl))
    && (R.NotBefore(seen, now) ==> (found <==> R.LastAddedWithin(seen, conn, now, ttl)))
  }

  /**
   How one webhook went: what queueProvision came to (None if rates are not provisioned), in which state
   it was decided and which state it left; what the cache had been told when it was asked; what SetMark
   answered and did to the table (None if it was skipped).
   */
  datatype Trace = Trace(
    outcome: Option<S.Outcome>, decided: P.State, left: P.State, seen: seq<R.Added>,
    result: Option<C.Outcome>, change: Option<C.Change>, noSocket: bool)

  ghost predicate Queued(cfg: P.Config, a: P.State, b: P.State, i: nat, m: Mark32, trace: Trace) {
    trace.outcome.Some? ==>
      && S.Went(cfg, a, trace.decided, P.Caller(i)) && S.Went(cfg, trace.decided, trace.left, P.Caller(i))
      && S.Went(cfg, trace.left, b, P.Caller(i))
      && S.Decided(cfg, trace.outcome.value, m, trace.decided, trace.left)
  }

  lemma QueuedBefore(cfg: P.Config, a: P.State, b: P.State, c: P.State, i: nat, m: Mark32, trace: Trace, trace': Trace)
    requires Queued(cfg, a, b, i, m, trace) && S.Went(cfg, b, c, P.Caller(i))
    requires trace'.outcome == trace.outcome && trace'.decided == trace.decided && trace'.left == trace.left
    ensures Queued(cfg, a, c, i, m, trace')
  {
    if trace.outcome.Some? {
      S.WentOn(cfg, trace.left, b, c, P.Caller(i));
    }
  }

  lemma QueuedAfter(cfg: P.Config, a: P.State, b: P.State, c: P.State, i: nat, m: Mark32, trace: Trace)
    requires S.Went(cfg, a, b, P.Caller(i)) && Queued(cfg, b, c, i, m, trace)
    ensures Queued(cfg, a, c, i, m, trace)
  {
    if trace.outcome.Some? {
      S.WentOn(cfg, a, b, trace.decided, P.Caller(i));
    }
  }

  /** The connection is skipped if the cache says so; else SetMark is called, and decides what is done. */
  ghost predicate Checked(adds: seq<R.Added>, adds': seq<R.Added>, i: nat, conn: R.Conn, kernel: Kernel, action: Action,
                          checkedAt: int, ttl: int, trace: Trace) {
    && !action.Ignored? && action.conn == conn
    && adds <= trace.seen <= adds' && CacheSaid(action.Skipped?, trace.seen, conn, checkedAt, ttl)
    && (action.Skipped? ==> trace.result.None? && trace.change.None?)
    && (!action.Skipped? ==>
          && trace.result.Some? && WasCalled(i, conn, kernel, trace.noSocket, trace.result.value, trace.change)
          && (action.MarkedConn? <==> trace.result.value.Done?))
  }

  /**
   What that comes to for a webhook the cache does not stop: with a socket to be had and everything sent,
   the connection's entries get the mark, and the action is MarkedConn exactly if the call succeeds.
   */
  lemma NewIsMarked(adds: seq<R.Added>, adds': seq<R.Added>, i: nat, conn: R.Conn, kernel: Kernel, action: Action,
                    checkedAt: int, ttl: int, trace: Trace)
    requires Checked(adds, adds', i, conn, kernel, action, checkedAt, ttl, trace)
    requires !action.Skipped? && CanSend(conn, kernel) && kernel.opens
    ensures RequestsFor(conn, kernel.local).Some? && trace.change.Some?
    ensures var ts := RequestsFor(conn, kernel.local).value;
            && MarksExactly(ts, kernel.troubles, conn.mark, trace.change.value)
            && (action.MarkedConn? <==> Succeeds(ts, kernel, trace.change.value.before))
            && forall t | t in ts :: IsTupleOf(t, conn)
  {
    CallMarks(i, conn, kernel, trace.noSocket, trace.result.value, trace.change);
    forall t | t in RequestsFor(conn, kernel.local).value ensures IsTupleOf(t, conn) {
      RequestsAreOf(conn, kernel.local, t);
    }
  }

  class Handler {
    const users: U.Users
    const recent: R.RecentMarks
    const service: S.Service
    const marker: C.Marker
    /** Whether rates are provisioned at all. */
    const provisions: bool
    const parse: string -> Option<R.AddrPort>
    /** All successful SetMarks, in order, and who told the cache of each of its adds. */
    ghost var done: seq<Marking>
    ghost var adders: seq<nat>

    ghost predicate Valid()
      reads this, users, recent, service, marker, marker.sockets
    {
      && users.Valid() && recent.Valid() && service.Valid() && marker.Valid()
      && service.cfg.queues == users.queues && (provisions ==> service.cfg.perUser > 0)
      && |adders| == |recent.adds| && Logged(recent.adds, done) && Happened(done, marker.log)
    }

    /** Handler i is not in the middle of anything. */
    ghost predicate Free(i: nat)
      reads this, service, marker, marker.sockets
    {
      i < |service.callers| && service.callers[i] == P.Idle && marker.Idle(i)
    }

    /** Every connection in the cache was marked by an earlier successful SetMark with this same mark. */
    lemma CachedWasMarked(c: R.Conn)
      requires Valid() && c in recent.marked
      ensures exists k :: 0 <= k < |done| && done[k].conn == c
                          && done[k].change in marker.log && Carries(done[k].change, c)
    {
      var j :| R.LastAdd(recent.adds, c, j) && recent.adds[j].at == recent.marked[c];
      assert WasMarked(recent.adds[j].conn, done);
      var k :| 0 <= k < |done| && done[k].conn == recent.adds[j].conn;
      assert IsReal(done[k], marker.log);
    }

    constructor (users: U.Users, recent: R.RecentMarks, service: S.Service, marker: C.Marker,
                 provisions: bool, parse: string -> Option<R.AddrPort>)
      requires users.Valid() && recent.Valid() && recent.adds == [] && service.Valid() && marker.Valid()
      requires service.cfg.queues == users.queues && (provisions ==> service.cfg.perUser > 0)
      ensures Valid() && this.users == users && this.recent == recent && this.service == service
      ensures this.marker == marker && this.provisions == provisions && this.parse == parse && done == []
    {
      this.users, this.recent, this.service, this.marker := users, recent, service, marker;
      this.provisions, this.parse, done, adders := provisions, parse, [], [];
    }

    ghost function Now(): Snap
      reads this, users, recent, service, marker
    {
      Snap(done, adders, recent.adds, users.events, marker.log, service.Now())
    }

    /** Anyone else runs: other handlers see users, mark and cache connections; others use the store. */
    method Interfere(ghost i: nat)
      requires Valid() && Free(i)
      modifies this`done, this`adders, users, recent, service, marker, marker.sockets
      ensures Valid() && old(users.events) <= users.events && old(recent.adds) <= recent.adds
      ensures By(done, i) == By(old(done), i) && AddedBy(old(adders), adders, recent.adds, i, None)
      ensures S.OthersRan(service.cfg, old(service.Now()), service.Now(), P.Caller(i))
      ensures Pool.OthersRan(old(marker.sockets.Now()), old(marker.sockets.steps),
                             marker.sockets.Now(), marker.sockets.steps, i)
      ensures C.Grew(old(marker.log), marker.log, i, None)
    {
      service.Interfere(P.Caller(i));
      marker.Interfere(i);
      StillHappened(done, old(marker.log), marker.log);
    }

    /** A point at which others may run, and what stays as it was. */
    method Yield(ghost i: nat)
      requires Valid() && Free(i)
      modifies this`done, this`adders, users, recent, service, marker, marker.sockets
      ensures Valid() && Free(i) && Ran(service.cfg, old(Now()), Now(), i, Nothing)
    {
      service.Invariant();
      Interfere(i);
      S.OthersKeepOut(service.cfg, old(service.Now()), service.Now(), P.Caller(i));
      Pool.OthersKeepOut(old(marker.sockets.Now()), old(marker.sockets.steps),
                         marker.sockets.Now(), marker.sockets.steps, i);
      assert service.callers[i] == service.Now().At(P.Caller(i));
      assert marker.sockets.calls[i] == marker.sockets.Now().calls[i];
    }

    /** The user is seen: users.Mark. */
    method See(ghost i: nat, email: string, seenAt: int) returns (mark: Mark32)
      requires Valid() && Free(i)
      modifies this`done, this`adders, users, recent, service, marker, marker.sockets
      ensures Valid() && Free(i) && Ran(service.cfg, old(Now()), Now(), i, Nothing)
      ensures email == "" ==> mark == 0
      ensures email != "" ==> mark == For(users.hash(email), users.queues) && UserMark(mark, users.queues)
                              && U.Seen(email, seenAt) in users.events[|old(users.events)|..]
    {
      Yield(i);
      mark := users.Mark(email, seenAt);
      if email != "" {
        assert users.events[|users.events| - 1] == U.Seen(email, seenAt);
      }
    }

    /** queueProvision; it was decided in the state decided, and left the state left. */
    method Queue(i: nat, mark: Mark32) returns (outcome: S.Outcome, ghost decided: P.State, ghost left: P.State)
      requires Valid() && Free(i) && provisions && UserMark(mark, users.queues)
      modifies this`done, this`adders, users, recent, service, marker, marker.sockets
      ensures Valid() && Free(i) && Ran(service.cfg, old(Now()), Now(), i, Nothing)
      ensures S.Went(service.cfg, old(service.Now()), decided, P.Caller(i))
      ensures S.Went(service.cfg, decided, left, P.Caller(i)) && left == service.Now()
      ensures S.Decided(service.cfg, outcome, mark, decided, left)
    {
      Yield(i);
      ghost var before := service.Now();
      outcome, decided := service.QueueProvision(i, mark);
      left := service.Now();
      S.WentOn(service.cfg, old(service.Now()), before, decided, P.Caller(i));
      S.WentOn(service.cfg, old(service.Now()), decided, left, P.Caller(i));
    }

    /** The cache is told of a connection handler i marked. */
    method Remember(ghost i: nat, conn: R.Conn, addedAt: int)
      requires Valid() && conn in By(done, i)
      modifies this`adders, recent
      ensures Valid()
      ensures Now() == old(Now()).(adders := old(adders) + [i], adds := old(recent.adds) + [R.Added(conn, addedAt)])
    {
      ghost var k := MarkedBy(done, i, conn);
      LoggedMore(recent.adds, done, R.Added(conn, addedAt));
      recent.Add(conn, addedAt);
      adders := adders + [i];
    }

    /** SetMark on the connection, and what it does to the table. */
    method CallMarker(ghost i: nat, conn: R.Conn, kernel: Kernel)
      returns (result: C.Outcome, ghost change: Option<C.Change>, ghost noSocket: bool)
      requires marker.Valid() && marker.Idle(i) && Replies(conn, kernel)
      modifies marker, marker.sockets
      ensures marker.Valid() && marker.Idle(i)
      ensures C.Grew(old(marker.log), marker.log, i, change)
      ensures change.Some? ==> change.value in marker.log
      ensures WasCalled(i, conn, kernel, noSocket, result, change)
    {
      noSocket := marker.sockets.pool == [] && !kernel.opens;
      result, change := marker.SetMark(i, "tcp", conn.src.addr, conn.src.port, conn.dst.addr, conn.dst.port, conn.mark,
        kernel.local, kernel.opens, kernel.numbers, kernel.sendFails, kernel.replies, kernel.troubles);
      if change.Some? {
        WhatSetMarkDid(conn, kernel, result, change.value);
        C.LastIsIn(old(marker.log), marker.log, i, change.value);
      }
    }

    /** SetMark; a success is noted. */
    method CallAndNote(ghost i: nat, conn: R.Conn, kernel: Kernel)
      returns (result: C.Outcome, ghost change: Option<C.Change>, ghost noSocket: bool)
      requires Valid() && marker.Idle(i) && Replies(conn, kernel)
      modifies this`done, marker, marker.sockets
      ensures Valid() && marker.Idle(i)
      ensures Now() == old(Now()).(done := Noted(old(done), i, conn, result, change), log := marker.log)
      ensures C.Grew(old(marker.log), marker.log, i, change)
      ensures WasCalled(i, conn, kernel, noSocket, result, change)
    {
      result, change, noSocket := CallMarker(i, conn, kernel);
      StillHappened(done, old(marker.log), marker.log);
      if result.Done? {
        HappenedMore(done, Marking(i, conn, change.value), marker.log);
        StillLogged(recent.adds, done, done + [Marking(i, conn, change.value)]);
        done := done + [Marking(i, conn, change.value)];
      }
    }

    /** SetMark, as a stretch of handler i's code. */
    method Mark(ghost i: nat, conn: R.Conn, kernel: Kernel)
      returns (result: C.Outcome, ghost change: Option<C.Change>, ghost noSocket: bool)
      requires Valid() && Free(i) && Replies(conn, kernel)
      modifies this`done, marker, marker.sockets
      ensures Valid() && Free(i)
      ensures Ran(service.cfg, old(Now()), Now(), i, Own(if result.Done? then [conn] else [], None, change))
      ensures WasCalled(i, conn, kernel, noSocket, result, change)
    {
      result, change, noSocket := CallAndNote(i, conn, kernel);
      MarkedRan(service.cfg, old(Now()), Now(), i, conn, result, change);
    }

    /** The cache is told, a while after SetMark succeeded. */
    method RememberLater(ghost i: nat, conn: R.Conn, addedAt: int)
      requires Valid() && Free(i) && conn in By(done, i)
      modifies this`done, this`adders, users, recent, service, marker, marker.sockets
      ensures Valid() && Free(i)
      ensures Ran(service.cfg, old(Now()), Now(), i, Own([], Some(R.Added(conn, addedAt)), None))
    {
      Yield(i);
      ghost var s1 := Now();
      Remember(i, conn, addedAt);
      RememberedRan(service.cfg, s1, Now(), i, R.Added(conn, addedAt));
      RanAfter(service.cfg, old(Now()), s1, Now(), i, Own([], Some(R.Added(conn, addedAt)), None));
    }

    /** A connection the cache does not hold is marked, and remembered only if that succeeds. */
    method MarkNew(ghost i: nat, conn: R.Conn, kernel: Kernel, addedAt: int)
      returns (action: Action, result: C.Outcome, ghost change: Option<C.Change>, ghost noSocket: bool)
      requires Valid() && Free(i) && Replies(conn, kernel)
      modifies this`done, this`adders, users, recent, service, marker, marker.sockets
      ensures Valid() && Free(i) && Ran(service.cfg, old(Now()), Now(), i, OwnOf(action, addedAt, change))
      ensures action == if result.Done? then MarkedConn(conn) else FailedToMark(conn)
      ensures WasCalled(i, conn, kernel, noSocket, result, change)
    {
      ghost var s0 := Now();
      result, change, noSocket := Mark(i, conn, kernel);
      if !result.Done? {
        return FailedToMark(conn), result, change, noSocket;
      }
      Finish(i, conn, addedAt, s0, change);
      action := MarkedConn(conn);
    }

    /** After a successful SetMark that began in s0. */
    method Finish(ghost i: nat, conn: R.Conn, addedAt: int, ghost s0: Snap, ghost change: Option<C.Change>)
      requires Valid() && Free(i) && Ran(service.cfg, s0, Now(), i, Own([conn], None, change))
      modifies this`done, this`adders, users, recent, service, marker, marker.sockets
      ensures Valid() && Free(i)
      ensures Ran(service.cfg, s0, Now(), i, Own([conn], Some(R.Added(conn, addedAt)), change))
    {
      ghost var s1 := Now();
      assert conn == By(done, i)[|By(s0.done, i)|];
      RememberLater(i, conn, addedAt);
      RanBoth(service.cfg, s0, s1, Now(), i, [conn], R.Added(conn, addedAt), change);
    }

    /** The last part: skip what the cache holds, else mark, and remember only what was marked. */
    method MarkOnce(ghost i: nat, conn: R.Conn, kernel: Kernel, checkedAt: int, addedAt: int)
      returns (action: Action, ghost result: Option<C.Outcome>, ghost change: Option<C.Change>, ghost noSocket: bool)
      requires Valid() && Free(i) && Replies(conn, kernel)
      modifies this`done, this`adders, users, recent, service, marker, marker.sockets
      ensures Valid() && Free(i) && Ran(service.cfg, old(Now()), Now(), i, OwnOf(action, addedAt, change))
      ensures !action.Ignored? && action.conn == conn
      ensures CacheSaid(action.Skipped?, old(recent.adds), conn, checkedAt, recent.ttl)
      ensures action.Skipped? ==> result == None && change == None
      ensures !action.Skipped? ==>
                && result.Some? && WasCalled(i, conn, kernel, noSocket, result.value, change)
                && (action.MarkedConn? <==> result.value.Done?)
    {
      StandsStill(service.cfg, Now(), i);
      var found := recent.Contains(conn, checkedAt);
      if found {
        return Skipped(conn), None, None, false;
      }
      var outcome;
      action, outcome, change, noSocket := MarkLater(i, conn, kernel, addedAt);
      result := Some(outcome);
    }

    method MarkLater(ghost i: nat, conn: R.Conn, kernel: Kernel, addedAt: int)
      returns (action: Action, result: C.Outcome, ghost change: Option<C.Change>, ghost noSocket: bool)
      requires Valid() && Free(i) && Replies(conn, kernel)
      modifies this`done, this`adders, users, recent, service, marker, marker.sockets
      ensures Valid() && Free(i) && Ran(service.cfg, old(Now()), Now(), i, OwnOf(action, addedAt, change))
      ensures action == if result.Done? then MarkedConn(conn) else FailedToMark(conn)
      ensures WasCalled(i, conn, kernel, noSocket, result, change)
    {
      Yield(i);
      ghost var s1 := Now();
      action, result, change, noSocket := MarkNew(i, conn, kernel, addedAt);
      RanAfter(service.cfg, old(Now()), s1, Now(), i, OwnOf(action, addedAt, change));
    }

    method Check(ghost i: nat, conn: R.Conn, kernel: Kernel, checkedAt: int, addedAt: int)
      returns (action: Action, ghost trace: Trace)
      requires Valid() && Free(i) && Replies(conn, kernel)
      modifies this`done, this`adders, users, recent, service, marker, marker.sockets
      ensures Valid() && Free(i) && Ran(service.cfg, old(Now()), Now(), i, OwnOf(action, addedAt, trace.change))
      ensures Checked(old(recent.adds), recent.adds, i, conn, kernel, action, checkedAt, recent.ttl, trace)
    {
      Yield(i);
      ghost var s1, result, change, noSocket := Now(), None, None, false;
      action, result, change, noSocket := MarkOnce(i, conn, kernel, checkedAt, addedAt);
      trace := Trace(None, s1.store, s1.store, s1.adds, result, change, noSocket);
      RanAfter(service.cfg, old(Now()), s1, Now(), i, OwnOf(action, addedAt, change));
    }

    /** queueProvision, if rates are provisioned. */
    method QueueIf(i: nat, mark: Mark32) returns (ghost trace: Trace)
      requires Valid() && Free(i) && UserMark(mark, users.queues)
      modifies this`done, this`adders, users, recent, service, marker, marker.sockets
      ensures Valid() && Free(i) && Ran(service.cfg, old(Now()), Now(), i, Nothing)
      ensures Queued(service.cfg, old(service.Now()), service.Now(), i, mark, trace)
      ensures trace.outcome.Some? <==> provisions
    {
      trace := Trace(None, service.Now(), service.Now(), [], None, None, false);
      if provisions {
        var outcome;
        ghost var decided, left;
        outcome, decided, left := Queue(i, mark);
        S.StandsStill(service.cfg, left, P.Caller(i));
        trace := trace.(outcome := Some(outcome), decided := decided, left := left);
      } else {
        StandsStill(service.cfg, Now(), i);
      }
    }

    /**
     The handler once the connection is known: the mark is queued if rates are provisioned, and then the
     connection is marked unless the cache holds it.
     */
    method Handle(i: nat, conn: R.Conn, kernel: Kernel, checkedAt: int, addedAt: int)
      returns (action: Action, ghost trace: Trace)
      requires Valid() && Free(i) && Replies(conn, kernel) && UserMark(conn.mark, users.queues)
      modifies this`done, this`adders, users, recent, service, marker, marker.sockets
      ensures Valid() && Free(i) && Ran(service.cfg, old(Now()), Now(), i, OwnOf(action, addedAt, trace.change))
      ensures Queued(service.cfg, old(service.Now()), service.Now(), i, conn.mark, trace)
      ensures trace.outcome.Some? <==> provisions
      ensures Checked(old(recent.adds), recent.adds, i, conn, kernel, action, checkedAt, recent.ttl, trace)
    {
      ghost var queueing := QueueIf(i, conn.mark);
      ghost var s1 := Now();
      action, trace := Check(i, conn, kernel, checkedAt, addedAt);
      trace := trace.(outcome := queueing.outcome, decided := queueing.decided, left := queueing.left);
      QueuedBefore(service.cfg, old(service.Now()), s1.store, service.Now(), i, conn.mark, queueing, trace);
      RanAfter(service.cfg, old(Now()), s1, Now(), i, OwnOf(action, addedAt, trace.change));
    }

    /** The handler once the addresses are read; an empty email has no mark. */
    method Serve(i: nat, src: R.AddrPort, dst: R.AddrPort, email: string, kernel: Kernel,
                 seenAt: int, checkedAt: int, addedAt: int)
      returns (action: Action, ghost trace: Trace)
      requires Valid() && Free(i)
      requires email != "" ==> Replies(R.Conn(src, dst, For(users.hash(email), users.queues)), kernel)
      modifies this`done, this`adders, users, recent, service, marker, marker.sockets
      ensures Valid() && Free(i) && Ran(service.cfg, old(Now()), Now(), i, OwnOf(action, addedAt, trace.change))
      ensures action.Ignored? <==> email == ""
      ensures email != "" ==>
                var conn := R.Conn(src, dst, For(users.hash(email), users.queues));
                && Queued(service.cfg, old(service.Now()), service.Now(), i, conn.mark, trace)
                && Checked(old(recent.adds), recent.adds, i, conn, kernel, action, checkedAt, recent.ttl, trace)
                && (trace.outcome.Some? <==> provisions)
                && U.Seen(email, seenAt) in users.events[|old(users.events)|..]
    {
      var mark := See(i, email, seenAt);
      if mark == 0 {
        return Ignored, Trace(None, service.Now(), service.Now(), [], None, None, false);
      }
      ghost var s1 := Now();
      action, trace := Handle(i, R.Conn(src, dst, mark), kernel, checkedAt, addedAt);
      QueuedAfter(service.cfg, old(service.Now()), s1.store, service.Now(), i, mark, trace);
      RanAfter(service.cfg, old(Now()), s1, Now(), i, OwnOf(action, addedAt, trace.change));
      SeenStays(|old(users.events)|, s1.events, users.events, U.Seen(email, seenAt));
    }

    /**
     ServeHTTP, as webhook goroutine i. body is None when it is not JSON; seenAt, checkedAt and addedAt are
     the clock readings. Others may run at any point between.
     */
    method ServeHTTP(i: nat, body: Option<Event>, kernel: Kernel, seenAt: int, checkedAt: int, addedAt: int)
      returns (status: Status, action: Action, ghost trace: Trace)
      requires Valid() && Free(i)
      requires body.Some? && Subject(body.value, parse).Some? ==>
                 var (src, dst, email) := Subject(body.value, parse).value;
                 Replies(R.Conn(src, dst, For(users.hash(email), users.queues)), kernel)
      modifies this`done, this`adders, users, recent, service, marker, marker.sockets
      ensures Valid() && Free(i) && Ran(service.cfg, old(Now()), Now(), i, OwnOf(action, addedAt, trace.change))
      ensures action.Ignored? <==> body.None? || Subject(body.value, parse).None?
      ensures status == if body.None? then BadRequest else if action.FailedToMark? then InternalError else NoContent
      ensures !action.Ignored? ==>
                var (src, dst, email) := Subject(body.value, parse).value;
                var conn := R.Conn(src, dst, For(users.hash(email), users.queues));
                && Queued(service.cfg, old(service.Now()), service.Now(), i, conn.mark, trace)
                && Checked(old(recent.adds), recent.adds, i, conn, kernel, action, checkedAt, recent.ttl, trace)
                && (trace.outcome.Some? <==> provisions)
                && U.Seen(email, seenAt) in users.events[|old(users.events)|..]
    {
      trace := Trace(None, service.Now(), service.Now(), [], None, None, false);
      StandsStill(service.cfg, Now(), i);
      if body.None? {
        return BadRequest, Ignored, trace;
      }
      var ev := body.value;
      if ev.network.Some? && ev.network.value != "" && ev.network.value != "tcp" {
        return NoContent, Ignored, trace;
      }
      if ev.email.None? || ev.source.None? || ev.inboundLocal.None? {
        return NoContent, Ignored, trace;
      }
      var src := ParseAddrPort(parse, ev.source.value);
      if src.None? {
        return NoContent, Ignored, trace;
      }
      var dst := ParseAddrPort(parse, ev.inboundLocal.value);
      if dst.None? {
        return NoContent, Ignored, trace;
      }
      action, trace := Serve(i, src.value, dst.value, ev.email.value, kernel, seenAt, checkedAt, addedAt);
      status := if action.FailedToMark? then InternalError else NoContent;
    }
  }
}
