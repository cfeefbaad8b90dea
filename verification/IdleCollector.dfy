/**
 The idle collector: a map with one entry per class, pruned on every look, that decides exactly as if
 it remembered every look ever taken. tc never lists a class twice, so the marks of one listing are
 distinct (see Classes.ListingIsDistinct); times are in any one unit.
 */
module IdleCollector {
  import opened Options
  import opened Marks
  import opened Classes

  datatype ClassSeen = ClassSeen(bytes: nat, since: int)

  /** A successful look: what was listed, when, which deletions were tried and which of them succeeded. */
  datatype Look = Look(bytes: map<Mark32, nat>, now: int, tried: set<Mark32>, deleted: set<Mark32>)

  function Listed(classes: seq<Class>): map<Mark32, nat>
    ensures forall m :: m in Listed(classes) <==> exists i :: 0 <= i < |classes| && classes[i].mark == m
  {
    if classes == [] then map[]
    else
      var c := classes[|classes| - 1];
      Listed(classes[..|classes| - 1])[c.mark := c.bytes]
  }

  /** In looks k, k+1, ... m was listed with this byte count and not deleted. */
  predicate Steady(looks: seq<Look>, m: Mark32, bytes: nat, k: int) {
    0 <= k <= |looks| && forall j | k <= j < |looks| ::
      m in looks[j].bytes && looks[j].bytes[m] == bytes && m !in looks[j].deleted
  }

  /** k is the first look of the longest unbroken suffix showing m with this byte count. */
  predicate StreakStart(looks: seq<Look>, m: Mark32, bytes: nat, k: int) {
    && 0 <= k < |looks| && Steady(looks, m, bytes, k)
    && (k == 0 || !Steady(looks, m, bytes, k - 1))
  }

  /** m has shown this byte count, undeleted, in every look for at least idle before now. */
  ghost predicate Idle(looks: seq<Look>, m: Mark32, bytes: nat, now: int, idle: int) {
    exists k :: StreakStart(looks, m, bytes, k) && now - looks[k].now >= idle
  }

  /** The entry for m that the history of looks calls for. */
  ghost predicate EntryFor(looks: seq<Look>, m: Mark32, e: ClassSeen) {
    && looks != []
    && m in looks[|looks| - 1].bytes && e.bytes == looks[|looks| - 1].bytes[m]
    && exists k :: StreakStart(looks, m, e.bytes, k) && e.since == looks[k].now
  }

  /** The map holds one entry for each class of the last look that was not deleted in it, and no other. */
  ghost predicate Remembers(seen: map<Mark32, ClassSeen>, looks: seq<Look>) {
    && (forall m: Mark32 :: m in seen <==>
          looks != [] && m in looks[|looks| - 1].bytes && m !in looks[|looks| - 1].deleted)
    && (forall m: Mark32 | m in seen :: EntryFor(looks, m, seen[m]))
  }

  /** Every look tried to delete exactly the classes that were idle by the looks before it. */
  ghost predicate TriedTheIdle(looks: seq<Look>, idle: int) {
    forall j {:trigger LookIsRight(looks[..j], looks[j], idle)} | 0 <= j < |looks| ::
      LookIsRight(looks[..j], looks[j], idle)
  }

  ghost predicate LookIsRight(before: seq<Look>, look: Look, idle: int) {
    && look.deleted <= look.tried
    && forall m: Mark32 :: m in look.tried <==> m in look.bytes && Idle(before, m, look.bytes[m], look.now, idle)
  }

  lemma {:induction false} ListedAt(classes: seq<Class>, i: nat)
    requires DistinctMarks(classes) && i < |classes|
    ensures Listed(classes)[classes[i].mark] == classes[i].bytes
  {
    if i < |classes| - 1 {
      ListedAt(classes[..|classes| - 1], i);
      assert classes[..|classes| - 1][i] == classes[i];
    }
  }

  lemma StreakIsUnique(looks: seq<Look>, m: Mark32, bytes: nat, j: int, k: int)
    requires StreakStart(looks, m, bytes, j) && StreakStart(looks, m, bytes, k)
    ensures j == k
  {
    if j < k {
      assert Steady(looks, m, bytes, k - 1);
    } else if k < j {
      assert Steady(looks, m, bytes, j - 1);
    }
  }

  /** A class shown with the same count as last time goes on with its streak; any other starts one. */
  lemma StreakAfter(looks: seq<Look>, look: Look, m: Mark32)
    requires m in look.bytes && m !in look.deleted
    ensures forall k :: StreakStart(looks, m, look.bytes[m], k)
              ==> StreakStart(looks + [look], m, look.bytes[m], k)
    ensures (forall k :: !StreakStart(looks, m, look.bytes[m], k))
              ==> StreakStart(looks + [look], m, look.bytes[m], |looks|)
  {
    var b, after := look.bytes[m], looks + [look];
    forall k | 0 <= k <= |looks| ensures Steady(after, m, b, k) <==> Steady(looks, m, b, k) {
      assert forall j | k <= j < |looks| :: after[j] == looks[j];
      if Steady(after, m, b, k) {
        forall j | k <= j < |looks|
          ensures m in looks[j].bytes && looks[j].bytes[m] == b && m !in looks[j].deleted
        {
          assert after[j] == looks[j];
        }
      }
    }
    if forall k :: !StreakStart(looks, m, b, k) {
      if |looks| > 0 && Steady(looks, m, b, |looks| - 1) {
        var k := EarliestSteady(looks, m, b, |looks| - 1);
      }
    }
  }

  lemma {:induction false} EarliestSteady(looks: seq<Look>, m: Mark32, bytes: nat, k: int) returns (j: int)
    requires 0 <= k < |looks| && Steady(looks, m, bytes, k)
    ensures 0 <= j <= k && StreakStart(looks, m, bytes, j)
    decreases k
  {
    j := k;
    if k > 0 && Steady(looks, m, bytes, k - 1) {
      j := EarliestSteady(looks, m, bytes, k - 1);
    }
  }

  /** With an entry, a class is idle exactly when its count is unchanged and its entry is old enough. */
  lemma IdleByEntry(seen: map<Mark32, ClassSeen>, looks: seq<Look>, m: Mark32, bytes: nat, now: int, idle: int)
    requires Remembers(seen, looks)
    ensures Idle(looks, m, bytes, now, idle)
       <==> m in seen && seen[m].bytes == bytes && now - seen[m].since >= idle
    ensures (exists k :: StreakStart(looks, m, bytes, k)) <==> m in seen && seen[m].bytes == bytes
  {
    if m in seen {
      assert EntryFor(looks, m, seen[m]);
      var j :| StreakStart(looks, m, seen[m].bytes, j) && seen[m].since == looks[j].now;
      forall k | StreakStart(looks, m, bytes, k) ensures seen[m].bytes == bytes && k == j {
        assert seen[m].bytes == bytes;
        StreakIsUnique(looks, m, bytes, j, k);
      }
    }
  }

  /** What the code tests before it tries to delete m. */
  predicate Due(seen: map<Mark32, ClassSeen>, m: Mark32, bytes: nat, now: int, idle: int) {
    m in seen && seen[m].bytes == bytes && now - seen[m].since >= idle
  }

  /** What the look leaves for m: nothing if it was deleted, else the old entry or a new one. */
  predicate Settled(before: map<Mark32, ClassSeen>, seen: map<Mark32, ClassSeen>, m: Mark32, bytes: nat, now: int,
                    deleted: bool) {
    if deleted then m !in seen
    else m in seen && seen[m] ==
         if m in before && before[m].bytes == bytes then before[m] else ClassSeen(bytes, now)
  }

  lemma LookIsRecorded(before: map<Mark32, ClassSeen>, looks: seq<Look>, look: Look, idle: int, seen: map<Mark32,
                       ClassSeen>)
    requires Remembers(before, looks) && TriedTheIdle(looks, idle)
    requires look.deleted <= look.tried <= look.bytes.Keys && seen.Keys <= look.bytes.Keys
    requires forall m: Mark32 | m in look.bytes :: m in look.tried <==> Due(before, m, look.bytes[m], look.now, idle)
    requires forall m: Mark32 | m in look.bytes :: Settled(before, seen, m, look.bytes[m], look.now, m in look.deleted)
    ensures Remembers(seen, looks + [look]) && TriedTheIdle(looks + [look], idle)
  {
    var after := looks + [look];
    forall m: Mark32 | m in seen ensures EntryFor(after, m, seen[m]) {
      StreakAfter(looks, look, m);
      IdleByEntry(before, looks, m, look.bytes[m], look.now, idle);
      if m in before && before[m].bytes == look.bytes[m] {
        var k :| StreakStart(looks, m, before[m].bytes, k) && before[m].since == looks[k].now;
        assert StreakStart(after, m, look.bytes[m], k) && after[k] == looks[k];
      } else {
        assert StreakStart(after, m, look.bytes[m], |looks|);
      }
    }
    forall m: Mark32
      ensures m in look.tried <==> m in look.bytes && Idle(looks, m, look.bytes[m], look.now, idle)
    {
      if m in look.bytes {
        IdleByEntry(before, looks, m, look.bytes[m], look.now, idle);
      }
    }
    forall j | 0 <= j < |after| ensures LookIsRight(after[..j], after[j], idle) {
      assert after[..j] == looks[..j];
      assert j == |looks| ==> looks[..j] == looks;
    }
  }

  class IdleCollector {
    const idle: int
    var seen: map<Mark32, ClassSeen>
    /** Every successful look so far. */
    ghost var looks: seq<Look>

    ghost predicate Valid()
      reads this
    {
      Remembers(seen, looks) && TriedTheIdle(looks, idle)
    }

    constructor (idle: int)
      ensures Valid() && this.idle == idle && looks == []
    {
      this.idle := idle;
      seen, looks := map[], [];
    }

    /** What the loop of Collect does with one class. */
    method Visit(cl: Class, now: int, deleteOk: bool) returns (tried: bool)
      modifies this`seen
      ensures tried <==> Due(old(seen), cl.mark, cl.bytes, now, idle)
      ensures Settled(old(seen), seen, cl.mark, cl.bytes, now, tried && deleteOk)
      ensures seen - {cl.mark} == old(seen) - {cl.mark}
    {
      tried := false;
      if cl.mark !in seen || seen[cl.mark].bytes != cl.bytes {
        seen := seen[cl.mark := ClassSeen(cl.bytes, now)];
        return;
      }
      if now - seen[cl.mark].since < idle {
        return;
      }
      tried := true;
      if !deleteOk {
        return;
      }
      seen := seen - {cl.mark};
    }

    /** The entries of classes no longer listed go. */
    method Prune(present: set<Mark32>)
      modifies this`seen
      ensures seen == map m | m in old(seen) && m in present :: old(seen)[m]
    {
      var stale := seen.Keys - present;
      while stale != {}
        invariant seen.Keys == (old(seen).Keys * present) + stale && stale !! present
        invariant forall m: Mark32 | m in seen :: m in old(seen) && seen[m] == old(seen)[m]
        decreases |stale|
      {
        var m :| m in stale;
        seen := seen - {m};
        stale := stale - {m};
      }
    }

    /** The loop over the listed classes. */
    method VisitAll(classes: seq<Class>, now: int, deletable: set<Mark32>)
      returns (present: set<Mark32>, tried: set<Mark32>)
      requires DistinctMarks(classes)
      modifies this`seen
      ensures present == Listed(classes).Keys && tried <= present
      ensures seen - present == old(seen) - present
      ensures forall m: Mark32 | m in present :: m in tried <==> Due(old(seen), m, Listed(classes)[m], now, idle)
      ensures forall m: Mark32 | m in present ::
                Settled(old(seen), seen, m, Listed(classes)[m], now, m in tried && m in deletable)
    {
      present, tried := {}, {};
      ghost var before := seen;
      ghost var bytes := map[];
      assert classes[..0] == [];
      for i := 0 to |classes|
        invariant bytes == Listed(classes[..i]) && present == bytes.Keys && tried <= present
        invariant seen - present == before - present
        invariant forall m: Mark32 | m in present :: m in tried <==> Due(before, m, bytes[m], now, idle)
        invariant forall m: Mark32 | m in present ::
                    Settled(before, seen, m, bytes[m], now, m in tried && m in deletable)
      {
        var cl := classes[i];
        ghost var seen0 := seen;
        assert classes[..i + 1][..i] == classes[..i];
        assert cl.mark !in present;
        SameOutside(before, seen, present, cl.mark);
        assert present + {cl.mark} - {cl.mark} == present;
        present, bytes := present + {cl.mark}, bytes[cl.mark := cl.bytes];
        var try := Visit(cl, now, cl.mark in deletable);
        if try {
          tried := tried + {cl.mark};
        }
        SameBeyond(before, seen0, seen, present, cl.mark);
      }
      assert classes[..|classes|] == classes;
    }

    /**
     One look. listing is what the lister answers, deletable the marks the deleter would not fail on. A
     failed listing changes nothing; a class whose deletion fails keeps its entry.
     */
    method Collect(listing: Option<seq<Class>>, now: int, deletable: set<Mark32>) returns (tried: set<Mark32>)
      requires Valid()
      requires listing.Some? ==> DistinctMarks(listing.value)
      modifies this
      ensures Valid()
      ensures listing.None? ==> tried == {} && looks == old(looks) && seen == old(seen)
      ensures listing.Some? ==> looks == old(looks) + [Look(Listed(listing.value), now, tried, tried * deletable)]
    {
      tried := {};
      if listing.None? {
        return;
      }
      var present;
      present, tried := VisitAll(listing.value, now, deletable);
      ghost var visited := seen;
      Prune(present);
      ghost var look := Look(Listed(listing.value), now, tried, tried * deletable);
      assert forall m: Mark32 | m in present :: (m in seen <==> m in visited) && (m in seen ==> seen[m] == visited[m]);
      LookIsRecorded(old(seen), looks, look, idle, seen);
      looks := looks + [look];
    }
  }

  lemma SameOutside(a: map<Mark32, ClassSeen>, b: map<Mark32, ClassSeen>, s: set<Mark32>, m: Mark32)
    requires a - s == b - s && m !in s
    ensures m in a <==> m in b
    ensures m in a ==> a[m] == b[m]
  {
    assert m in a - s <==> m in a;
    assert m in b - s <==> m in b;
    assert m in a ==> (a - s)[m] == a[m];
  }

  lemma SameBeyond(a: map<Mark32, ClassSeen>, b: map<Mark32, ClassSeen>, c: map<Mark32, ClassSeen>,
                   s: set<Mark32>, m: Mark32)
    requires m in s && a - (s - {m}) == b - (s - {m}) && b - {m} == c - {m}
    ensures a - s == c - s
    ensures forall k | k != m :: (k in b <==> k in c) && (k in b ==> b[k] == c[k])
  {
    forall k | k != m ensures (k in b <==> k in c) && (k in b ==> b[k] == c[k]) {
      SameOutside(b, c, {m}, k);
    }
    forall k | k !in s ensures (k in a <==> k in b) && (k in a ==> a[k] == b[k]) {
      SameOutside(a, b, s - {m}, k);
    }
  }
}
