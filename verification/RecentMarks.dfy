/**
 The cache of recently marked connections: a map that is swept at most once per ttl, which answers as
 if it kept every add ever made. The clock is read before the lock is taken, so the readings need not
 come in lock order; the history is in lock order.
 */
module RecentMarks {
  import opened Options
  import opened Marks
  import opened Counting

  datatype AddrPort = AddrPort(addr: seq<bv8>, port: nat)
  datatype Conn = Conn(src: AddrPort, dst: AddrPort, mark: Mark32)
  datatype Added = Added(conn: Conn, at: int)

  /** The add of c made last, if any. */
  predicate LastAdd(adds: seq<Added>, c: Conn, j: int) {
    && 0 <= j < |adds| && adds[j].conn == c
    && forall i | j < i < |adds| :: adds[i].conn != c
  }

  /** Some add of c is less than ttl old. */
  ghost predicate AddedWithin(adds: seq<Added>, c: Conn, now: int, ttl: int) {
    exists j :: 0 <= j < |adds| && adds[j].conn == c && now - adds[j].at < ttl
  }

  ghost predicate LastAddedWithin(adds: seq<Added>, c: Conn, now: int, ttl: int) {
    exists j :: LastAdd(adds, c, j) && now - adds[j].at < ttl
  }

  predicate NotBefore(adds: seq<Added>, now: int) {
    forall j | 0 <= j < |adds| :: adds[j].at <= now
  }

  /** The clock readings came in lock order. */
  predicate InOrder(adds: seq<Added>) {
    forall i, j | 0 <= i < j < |adds| :: adds[i].at <= adds[j].at
  }

  /** Added j was ttl old by some later clock reading. */
  ghost predicate Expired(adds: seq<Added>, j: int, ttl: int)
    requires 0 <= j < |adds|
  {
    exists i :: 0 <= i < |adds| && adds[i].at - adds[j].at >= ttl
  }

  /** Every remembered time is that of the connection's last add, and what is missing has expired. */
  ghost predicate Remembers(marked: map<Conn, int>, adds: seq<Added>, ttl: int) {
    && (forall c | c in marked :: exists j :: LastAdd(adds, c, j) && adds[j].at == marked[c])
    && (forall c, j | LastAdd(adds, c, j) :: c in marked || Expired(adds, j, ttl))
  }

  /** What the sweep of add keeps. */
  function Swept(marked: map<Conn, int>, now: int, ttl: int): map<Conn, int> {
    map c | c in marked && now - marked[c] < ttl :: marked[c]
  }

  lemma {:induction false} HasLastAdd(adds: seq<Added>, c: Conn, i: int) returns (j: int)
    requires 0 <= i < |adds| && adds[i].conn == c
    ensures i <= j && LastAdd(adds, c, j)
    decreases |adds| - i
  {
    j := i;
    if k :| i < k < |adds| && adds[k].conn == c {
      j := HasLastAdd(adds, c, k);
    }
  }

  lemma LastAddAfter(adds: seq<Added>, add: Added, c: Conn, j: int)
    ensures LastAdd(adds + [add], c, j) <==> if c == add.conn then j == |adds| else LastAdd(adds, c, j)
  {
    var after := adds + [add];
    assert after[|adds|] == add;
    if LastAdd(after, c, j) && c != add.conn {
      forall i | j < i < |adds| ensures adds[i].conn != c { assert after[i] == adds[i]; }
    }
  }

  lemma ExpiredAfter(adds: seq<Added>, add: Added, j: int, ttl: int)
    requires 0 <= j < |adds| && (Expired(adds, j, ttl) || add.at - adds[j].at >= ttl)
    ensures Expired(adds + [add], j, ttl)
  {
    var after := adds + [add];
    if i :| 0 <= i < |adds| && adds[i].at - adds[j].at >= ttl {
      assert after[i].at - after[j].at >= ttl;
    } else {
      assert after[|adds|].at - after[j].at >= ttl;
    }
  }

  lemma AddRemembers(marked: map<Conn, int>, adds: seq<Added>, ttl: int, add: Added)
    requires Remembers(marked, adds, ttl)
    ensures Remembers(marked[add.conn := add.at], adds + [add], ttl)
    ensures Remembers(Swept(marked[add.conn := add.at], add.at, ttl), adds + [add], ttl)
  {
    var after, next := adds + [add], marked[add.conn := add.at];
    forall c | c in next ensures exists j :: LastAdd(after, c, j) && after[j].at == next[c] {
      var j := |adds|;
      if c != add.conn {
        j :| LastAdd(adds, c, j) && adds[j].at == marked[c];
      }
      LastAddAfter(adds, add, c, j);
      assert after[j].at == next[c];
    }
    forall c, j | LastAdd(after, c, j)
      ensures c in next || Expired(after, j, ttl)
      ensures c in Swept(next, add.at, ttl) || Expired(after, j, ttl)
    {
      LastAddAfter(adds, add, c, j);
      if c == add.conn {
        if c !in Swept(next, add.at, ttl) { assert after[j].at - after[j].at >= ttl; }
      } else if c !in Swept(next, add.at, ttl) {
        if c in marked {
          var k :| LastAdd(adds, c, k) && adds[k].at == marked[c];
          assert k == j;
        }
        ExpiredAfter(adds, add, j, ttl);
      }
    }
  }

  /** A connection found in the cache was added less than ttl ago, in whatever order the clocks were read. */
  lemma FoundMeansAdded(marked: map<Conn, int>, adds: seq<Added>, ttl: int, c: Conn, now: int)
    requires Remembers(marked, adds, ttl)
    ensures c in marked && now - marked[c] < ttl ==>
              LastAddedWithin(adds, c, now, ttl) && AddedWithin(adds, c, now, ttl)
  {
  }

  /**
   As long as now is not before any clock reading so far, the cache answers exactly whether the last add
   of c, in lock order, is less than ttl old: the sweeps cannot be noticed.
   */
  lemma SweepIsInvisible(marked: map<Conn, int>, adds: seq<Added>, ttl: int, c: Conn, now: int)
    requires Remembers(marked, adds, ttl) && NotBefore(adds, now)
    ensures c in marked && now - marked[c] < ttl <==> LastAddedWithin(adds, c, now, ttl)
  {
    if j :| LastAdd(adds, c, j) && now - adds[j].at < ttl {
      assert !Expired(adds, j, ttl);
      var k :| LastAdd(adds, c, k) && adds[k].at == marked[c];
      assert k == j;
    }
  }

  /** With clock readings in lock order the cache answers exactly whether c was added less than ttl ago. */
  lemma ExactInOrder(marked: map<Conn, int>, adds: seq<Added>, ttl: int, c: Conn, now: int)
    requires Remembers(marked, adds, ttl) && InOrder(adds) && NotBefore(adds, now)
    ensures c in marked && now - marked[c] < ttl <==> AddedWithin(adds, c, now, ttl)
  {
    SweepIsInvisible(marked, adds, ttl, c, now);
    if i :| 0 <= i < |adds| && adds[i].conn == c && now - adds[i].at < ttl {
      var j := HasLastAdd(adds, c, i);
      assert adds[i].at <= adds[j].at;
    }
  }

  lemma {:induction false} NewestReading(adds: seq<Added>, least: int) returns (now: int)
    ensures NotBefore(adds, now) && now >= least
    ensures now == least || exists j :: 0 <= j < |adds| && adds[j].at == now
  {
    now := least;
    if adds != [] {
      var n := |adds| - 1;
      now := NewestReading(adds[..n], least);
      assert forall j | 0 <= j < n :: adds[..n][j] == adds[j];
      if now < adds[n].at {
        now := adds[n].at;
      }
    }
  }

  /** An add that some other goroutine overtook: a later add of the connection has an older reading. */
  predicate Overtaken(adds: seq<Added>, i: int) {
    0 <= i < |adds| && exists j :: i < j < |adds| && LastAdd(adds, adds[i].conn, j) && adds[i].at > adds[j].at
  }

  /**
   Whatever the order of the readings: from now on the cache is exact about every connection exactly when
   every overtaken add had expired by the newest reading.
   */
  lemma ExactIff(marked: map<Conn, int>, adds: seq<Added>, ttl: int)
    requires Remembers(marked, adds, ttl)
    ensures (forall c, now | NotBefore(adds, now) ::
               (c in marked && now - marked[c] < ttl <==> AddedWithin(adds, c, now, ttl)))
       <==> forall i | Overtaken(adds, i) :: Expired(adds, i, ttl)
  {
    if i :| Overtaken(adds, i) && !Expired(adds, i, ttl) {
      MissesOvertaken(marked, adds, ttl, i);
    } else {
      forall c, now | NotBefore(adds, now)
        ensures c in marked && now - marked[c] < ttl <==> AddedWithin(adds, c, now, ttl)
      {
        SweepIsInvisible(marked, adds, ttl, c, now);
        if i :| 0 <= i < |adds| && adds[i].conn == c && now - adds[i].at < ttl {
          assert !Expired(adds, i, ttl);
          var j := HasLastAdd(adds, c, i);
          assert i < j ==> adds[i].at <= adds[j].at;
        }
      }
    }
  }

  /** At the first moment the last add has expired, an overtaken one need not have. */
  lemma MissesOvertaken(marked: map<Conn, int>, adds: seq<Added>, ttl: int, i: int)
    requires Remembers(marked, adds, ttl) && Overtaken(adds, i) && !Expired(adds, i, ttl)
    ensures exists c, now :: NotBefore(adds, now) && AddedWithin(adds, c, now, ttl)
                             && !(c in marked && now - marked[c] < ttl)
  {
    var c := adds[i].conn;
    var j :| i < j < |adds| && LastAdd(adds, c, j) && adds[i].at > adds[j].at;
    var now := NewestReading(adds, adds[j].at + ttl);
    assert AddedWithin(adds, c, now, ttl);
    SweepIsInvisible(marked, adds, ttl, c, now);
    assert forall k | LastAdd(adds, c, k) :: k == j;
  }

  /** The connections added in the last 2 * ttl. */
  ghost function RecentConns(adds: seq<Added>, now: int, ttl: int): set<Conn> {
    set j | 0 <= j < |adds| && now - adds[j].at < 2 * ttl :: adds[j].conn
  }

  /** The last sweep was at some add's reading, and left nothing that was ttl old then. */
  ghost predicate SweptAt(marked: map<Conn, int>, adds: seq<Added>, ttl: int, sweep: Option<int>) {
    && (sweep.None? ==> marked == map[])
    && (sweep.Some? ==> exists j :: 0 <= j < |adds| && adds[j].at == sweep.value)
    && (sweep.Some? && InOrder(adds) ==> forall c | c in marked :: sweep.value - marked[c] < ttl)
  }

  lemma AddKeepsSweptAt(marked: map<Conn, int>, adds: seq<Added>, ttl: int, sweep: Option<int>, add: Added)
    requires SweptAt(marked, adds, ttl, sweep)
    ensures var next := marked[add.conn := add.at];
            if sweep.None? || add.at - sweep.value >= ttl
            then SweptAt(Swept(next, add.at, ttl), adds + [add], ttl, Some(add.at))
            else SweptAt(next, adds + [add], ttl, sweep)
  {
    var after := adds + [add];
    assert after[|adds|].at == add.at;
    if sweep.Some? {
      var j :| 0 <= j < |adds| && adds[j].at == sweep.value;
      assert after[j].at == sweep.value;
      assert InOrder(after) ==> after[j].at <= after[|adds|].at;
    }
    if InOrder(after) {
      assert forall i | 0 <= i < |adds| :: after[i] == adds[i];
      assert InOrder(adds);
    }
  }

  /** Between sweeps nothing gets to be 2 * ttl old, so the cache is no larger than what was added since. */
  lemma CacheIsSmall(marked: map<Conn, int>, adds: seq<Added>, ttl: int, sweep: int, now: int)
    requires Remembers(marked, adds, ttl) && SweptAt(marked, adds, ttl, Some(sweep)) && InOrder(adds)
    requires now - sweep < ttl
    ensures forall c | c in marked :: now - marked[c] < 2 * ttl
    ensures marked.Keys <= RecentConns(adds, now, ttl) && |marked| <= |RecentConns(adds, now, ttl)|
  {
    forall c | c in marked ensures c in RecentConns(adds, now, ttl) {
      var j :| LastAdd(adds, c, j) && adds[j].at == marked[c];
    }
    SubsetSize(marked.Keys, RecentConns(adds, now, ttl));
  }

  class RecentMarks {
    const ttl: int
    var marked: map<Conn, int>
    /** None stands for the zero time, longer ago than any duration. */
    var lastSweep: Option<int>
    /** Every add so far, in lock order. */
    ghost var adds: seq<Added>

    ghost predicate Valid()
      reads this
    {
      && Remembers(marked, adds, ttl) && SweptAt(marked, adds, ttl, lastSweep)
      && (ttl == 0 ==> lastSweep == None && marked == map[])
    }

    constructor (ttl: int)
      ensures Valid() && this.ttl == ttl && adds == []
    {
      this.ttl := ttl;
      marked, lastSweep, adds := map[], None, [];
    }

    /** contains, with the clock read at now. */
    method Contains(c: Conn, now: int) returns (found: bool)
      requires Valid()
      ensures found ==> AddedWithin(adds, c, now, ttl)
      ensures NotBefore(adds, now) ==> (found <==> LastAddedWithin(adds, c, now, ttl))
      ensures NotBefore(adds, now) && InOrder(adds) ==> (found <==> AddedWithin(adds, c, now, ttl))
      ensures found <==> c in marked && now - marked[c] < ttl
    {
      FoundMeansAdded(marked, adds, ttl, c, now);
      if NotBefore(adds, now) {
        SweepIsInvisible(marked, adds, ttl, c, now);
        if InOrder(adds) {
          ExactInOrder(marked, adds, ttl, c, now);
        }
      }
      if ttl == 0 {
        return false;
      }
      return c in marked && now - marked[c] < ttl;
    }

    /** The loop of add: expired entries go. */
    method Sweep(now: int)
      modifies this`marked
      ensures marked == Swept(old(marked), now, ttl)
    {
      var todo := marked.Keys;
      while todo != {}
        invariant todo <= marked.Keys
        invariant forall c | c in marked :: c in old(marked) && marked[c] == old(marked)[c]
        invariant forall c | c in old(marked) && c !in todo :: c in marked <==> now - old(marked)[c] < ttl
        invariant forall c | c in todo :: c in marked
        decreases |todo|
      {
        var c :| c in todo;
        todo := todo - {c};
        if now - marked[c] >= ttl {
          marked := marked - {c};
        }
      }
    }

    /** add, with the clock read at now. */
    method Add(c: Conn, now: int)
      requires Valid()
      modifies this
      ensures Valid() && adds == old(adds) + [Added(c, now)]
      ensures forall k | k in marked && k != c :: k in old(marked) && marked[k] == old(marked)[k]
      ensures lastSweep != old(lastSweep) ==>
                lastSweep == Some(now) && (old(lastSweep).Some? ==> now - old(lastSweep).value >= ttl)
      ensures ttl > 0 && InOrder(adds) ==>
                (forall k | k in marked :: now - marked[k] < 2 * ttl)
                && |marked| <= |RecentConns(adds, now, ttl)|
    {
      ghost var add := Added(c, now);
      if ttl == 0 {
        NothingIsFine(adds + [add]);
        adds := adds + [add];
        return;
      }
      AddRemembers(marked, adds, ttl, add);
      AddKeepsSweptAt(marked, adds, ttl, lastSweep, add);
      adds := adds + [add];
      marked := marked[c := now];
      if lastSweep.None? || now - lastSweep.value >= ttl {
        Sweep(now);
        lastSweep := Some(now);
      }
      if ttl > 0 && InOrder(adds) {
        CacheIsSmall(marked, adds, ttl, lastSweep.value, now);
      }
    }
  }

  /** With a zero ttl every add has expired as it is made. */
  lemma NothingIsFine(adds: seq<Added>)
    ensures Remembers(map[], adds, 0) && SweptAt(map[], adds, 0, None)
  {
    forall c, j | LastAdd(adds, c, j) ensures Expired(adds, j, 0) {
      assert adds[j].at - adds[j].at >= 0;
    }
  }
}
