/**
 The clsact egress filters that steer a marked packet to its TX queue, and the check that decides
 whether the filters found are the ones wanted. A filter is what its listing shows: kind, mark and mask
 as parsed numbers (None where they do not parse as 32-bit), and actions.
 */
module Steering {
  import opened Options
  import opened Marks
  import opened Counting

  datatype Fw = Fw(mark: Option<Mark32>, mask: Option<Mark32>)
  datatype Action = Action(kind: string, queueMapping: Option<int>)
  datatype FilterOptions = FilterOptions(fw: Option<Fw>, actions: seq<Action>)
  /** An entry without options is the classifier's own header. */
  datatype Filter = Filter(kind: string, options: Option<FilterOptions>)

  const HEADER := Filter("fw", None)

  /** The filter added for TX queue q - 1. */
  function SteerFilter(q: nat): Filter
    requires q <= MAX_QUEUES
  {
    Filter("fw", Some(FilterOptions(Some(Fw(Some(Join(q, 0)), Some(QUEUE_MASK))), [Action("skbedit", Some(q - 1))])))
  }

  /** The filters ensureSteering adds, in its order. */
  function Wanted(queues: nat): (fs: seq<Filter>)
    requires queues <= MAX_QUEUES
    ensures |fs| == queues && forall i | 0 <= i < queues :: fs[i] == SteerFilter(i + 1)
  {
    if queues == 0 then [] else Wanted(queues - 1) + [SteerFilter(queues)]
  }

  function Entries(filters: seq<Filter>): seq<Filter> {
    if filters == [] then []
    else
      var n := |filters| - 1;
      Entries(filters[..n]) + if filters[n].options.Some? then [filters[n]] else []
  }

  /** What the check reads off one entry: the queue field it steers, if all of it is as wanted. */
  function SteersField(f: Filter, queues: nat): Option<nat>
    requires f.options.Some?
  {
    if f.kind != "fw" || f.options.value.fw.None? || |f.options.value.actions| != 1 then None
    else
      var fw, a := f.options.value.fw.value, f.options.value.actions[0];
      if fw.mark.None? || fw.mask.None? || fw.mask.value != QUEUE_MASK || !Within(fw.mark.value, QUEUE_MASK)
         || a.kind != "skbedit" || a.queueMapping.None? then None
      else
        var q := fw.mark.value / 0x10000;
        if q < 1 || q > queues || a.queueMapping.value != q - 1 then None else Some(q)
  }

  /** An entry reads as field q exactly when it is the filter wanted for q. */
  lemma SteersFieldIff(f: Filter, queues: nat, q: nat)
    requires f.options.Some? && queues <= MAX_QUEUES
    ensures SteersField(f, queues) == Some(q) <==> 1 <= q <= queues && f == SteerFilter(q)
  {
    if f.options.value.fw.Some? && f.options.value.fw.value.mark.Some? {
      WithinIff(f.options.value.fw.value.mark.value);
    }
    if SteersField(f, queues) == Some(q) {
      var a := f.options.value.actions;
      assert a == [a[0]];
    }
  }

  /** The entries other than headers are the wanted filters in some order. */
  ghost predicate AreWanted(filters: seq<Filter>, queues: nat)
    requires queues <= MAX_QUEUES
  {
    multiset(Entries(filters)) == multiset(Wanted(queues))
  }

  lemma WantedIsDistinct(queues: nat)
    requires queues <= MAX_QUEUES
    ensures AllDistinct(Wanted(queues))
  {
    var w := Wanted(queues);
    forall i, j | 0 <= i < j < |w| ensures w[i] != w[j] {
      assert w[i] == SteerFilter(i + 1) && w[j] == SteerFilter(j + 1);
    }
  }

  lemma FieldOf(queues: nat, f: Filter) returns (q: nat)
    requires queues <= MAX_QUEUES && f in Wanted(queues)
    ensures 1 <= q <= queues && f == SteerFilter(q)
  {
    var i :| 0 <= i < queues && Wanted(queues)[i] == f;
    q := i + 1;
  }

  lemma FieldIsWanted(queues: nat, q: nat)
    requires 1 <= q <= queues <= MAX_QUEUES
    ensures SteerFilter(q) in Wanted(queues)
  {
    assert Wanted(queues)[q - 1] == SteerFilter(q);
  }

  lemma {:induction false} EntryIff(filters: seq<Filter>, f: Filter)
    ensures f in Entries(filters) <==> f in filters && f.options.Some?
  {
    if filters != [] {
      var n := |filters| - 1;
      EntryIff(filters[..n], f);
      assert filters == filters[..n] + [filters[n]];
    }
  }

  /** Entries that are all wanted and all different are in some order all the wanted ones iff there are enough. */
  lemma EnoughIff(filters: seq<Filter>, queues: nat)
    requires queues <= MAX_QUEUES && AllDistinct(Entries(filters))
    requires forall f | f in Entries(filters) :: f in Wanted(queues)
    ensures |Entries(filters)| == queues <==> AreWanted(filters, queues)
  {
    var es, w := Entries(filters), Wanted(queues);
    WantedIsDistinct(queues);
    Pigeonhole(es, Elements(w));
    DistinctSize(w);
    SameUpToOrder(es, w);
  }

  /** The fields seen are those of the entries so far, which are all wanted and all different. */
  ghost predicate SeenIs(seen: set<nat>, es: seq<Filter>, queues: nat)
    requires queues <= MAX_QUEUES
  {
    && |seen| == |es| && AllDistinct(es)
    && (forall q | q in seen :: q in UpTo(queues) && SteerFilter(q) in es)
    && (forall f | f in es :: exists q :: q in seen && f == SteerFilter(q))
  }

  lemma SeenMore(seen: set<nat>, es: seq<Filter>, queues: nat, q: nat)
    requires queues <= MAX_QUEUES && SeenIs(seen, es, queues) && q in UpTo(queues) && q !in seen
    ensures SeenIs(seen + {q}, es + [SteerFilter(q)], queues)
  {
    var more, f := es + [SteerFilter(q)], SteerFilter(q);
    if f in es {
      var k :| k in seen && f == SteerFilter(k);
      SteersFieldIff(f, queues, k);
      SteersFieldIff(f, queues, q);
      assert false;
    }
    forall k | k in seen + {q} ensures k in UpTo(queues) && SteerFilter(k) in more {
      assert k == q ==> more[|es|] == f;
    }
  }

  /** steeringMatches accepts a listing exactly when, headers aside, it is some ordering of the wanted filters. */
  method SteeringMatches(filters: seq<Filter>, queues: nat) returns (ok: bool)
    requires queues <= MAX_QUEUES
    ensures ok <==> AreWanted(filters, queues)
  {
    var seen: set<nat> := {};
    assert filters[..0] == [];
    for i := 0 to |filters|
      invariant SeenIs(seen, Entries(filters[..i]), queues)
    {
      var f := filters[i];
      ghost var before := Entries(filters[..i]);
      assert filters[..i + 1][..i] == filters[..i];
      if f.options.None? {
        continue;
      }
      var q := SteersField(f, queues);
      EntryIff(filters, f);
      if q.None? {
        NotWanted(filters, f, queues);
        return false;
      }
      SteersFieldIff(f, queues, q.value);
      assert q.value in UpTo(queues);
      if q.value in seen {
        Repeated(filters, i, queues);
        return false;
      }
      SeenMore(seen, before, queues, q.value);
      seen := seen + {q.value};
    }
    assert filters[..|filters|] == filters;
    forall f | f in Entries(filters) ensures f in Wanted(queues) {
      var q :| q in seen && f == SteerFilter(q);
      FieldIsWanted(queues, q);
    }
    EnoughIff(filters, queues);
    return |seen| == queues;
  }

  lemma NotWanted(filters: seq<Filter>, f: Filter, queues: nat)
    requires queues <= MAX_QUEUES && f in Entries(filters) && f.options.Some? && SteersField(f, queues).None?
    ensures !AreWanted(filters, queues)
  {
    if AreWanted(filters, queues) {
      WantedIsDistinct(queues);
      SameUpToOrder(Entries(filters), Wanted(queues));
      var q := FieldOf(queues, f);
      SteersFieldIff(f, queues, q);
    }
  }

  lemma {:induction false} EntriesPrefix(filters: seq<Filter>, i: nat)
    requires i <= |filters|
    ensures Entries(filters[..i]) <= Entries(filters)
    decreases |filters|
  {
    if i < |filters| {
      var n := |filters| - 1;
      EntriesPrefix(filters[..n], i);
      assert filters[..n][..i] == filters[..i];
    } else {
      assert filters[..i] == filters;
    }
  }

  lemma Repeated(filters: seq<Filter>, i: nat, queues: nat)
    requires queues <= MAX_QUEUES && i < |filters| && filters[i].options.Some?
    requires filters[i] in Entries(filters[..i])
    ensures !AreWanted(filters, queues)
  {
    var before := Entries(filters[..i]);
    assert filters[..i + 1][..i] == filters[..i];
    EntriesPrefix(filters, i + 1);
    var k :| 0 <= k < |before| && before[k] == filters[i];
    assert Entries(filters)[k] == Entries(filters)[|before|];
    WantedIsDistinct(queues);
    SameUpToOrder(Entries(filters), Wanted(queues));
  }

  // ----- where packets go -----

  /** The kernel's match: whether the bits of the packet's mark under the filter's mask are the filter's mark. */
  predicate Hits(f: Filter, m: Mark32) {
    && f.options.Some? && f.options.value.fw.Some?
    && var fw := f.options.value.fw.value;
    && fw.mark.Some? && fw.mask.Some?
    && IsAnd(fw.mark.value, m, fw.mask.value)
  }

  /** The TX queue the first matching filter picks, if any matches. */
  function Steered(filters: seq<Filter>, m: Mark32): Option<int> {
    if filters == [] then None
    else if Hits(filters[0], m) then
      if filters[0].options.value.actions == [] then None else filters[0].options.value.actions[0].queueMapping
    else Steered(filters[1..], m)
  }

  /** The queue field of a mark. */
  function Field(m: Mark32): nat {
    (m / 0x10000) % 0x100
  }

  lemma HitsIff(q: nat, m: Mark32)
    requires q <= MAX_QUEUES
    ensures Hits(SteerFilter(q), m) <==> q == Field(m)
  {
    MaskedIs(Join(q, 0), m);
  }

  lemma {:induction false} FirstHit(filters: seq<Filter>, m: Mark32, f: Filter)
    requires f in filters && Hits(f, m) && forall g | g in filters && Hits(g, m) :: g == f
    requires f.options.value.actions != []
    ensures Steered(filters, m) == f.options.value.actions[0].queueMapping
  {
    if !Hits(filters[0], m) {
      FirstHit(filters[1..], m, f);
    }
  }

  lemma {:induction false} NoHit(filters: seq<Filter>, m: Mark32)
    requires forall g | g in filters :: !Hits(g, m)
    ensures Steered(filters, m) == None
  {
    if filters != [] {
      NoHit(filters[1..], m);
    }
  }

  /**
   Any accepted listing steers every 32-bit mark by its queue field: to TX queue field - 1 for the fields
   1..queues, through exactly one filter, and nowhere for any other.
   */
  lemma WantedSteer(filters: seq<Filter>, queues: nat, m: Mark32)
    requires queues <= MAX_QUEUES && AreWanted(filters, queues)
    ensures Steered(filters, m) == if 1 <= Field(m) <= queues then Some(Field(m) - 1) else None
    ensures forall f | f in filters && Hits(f, m) :: 1 <= Field(m) <= queues && f == SteerFilter(Field(m))
    ensures 1 <= Field(m) <= queues ==> multiset(filters)[SteerFilter(Field(m))] == 1
  {
    var q := Field(m);
    WantedIsDistinct(queues);
    SameUpToOrder(Entries(filters), Wanted(queues));
    forall f | f in filters && Hits(f, m) ensures 1 <= q <= queues && f == SteerFilter(q) {
      EntryIff(filters, f);
      var k := FieldOf(queues, f);
      HitsIff(k, m);
    }
    if 1 <= q <= queues {
      FieldIsWanted(queues, q);
      EntryIff(filters, SteerFilter(q));
      HitsIff(q, m);
      FirstHit(filters, m, SteerFilter(q));
      EntriesCount(filters, SteerFilter(q));
      CountOf(Entries(filters), SteerFilter(q));
    } else {
      NoHit(filters, m);
    }
  }

  lemma {:induction false} EntriesCount(filters: seq<Filter>, f: Filter)
    requires f.options.Some?
    ensures multiset(filters)[f] == multiset(Entries(filters))[f]
  {
    if filters != [] {
      var n := |filters| - 1;
      EntriesCount(filters[..n], f);
      assert filters == filters[..n] + [filters[n]];
    }
  }

  /** Accepted listings steer like the freshly built one. */
  lemma AcceptedSteersLikeBuilt(filters: seq<Filter>, queues: nat, m: Mark32)
    requires queues <= MAX_QUEUES && AreWanted(filters, queues)
    ensures Steered(filters, m) == Steered(Wanted(queues), m)
  {
    WantedSteer(filters, queues, m);
    BuiltIsWanted(Wanted(queues), queues);
    WantedSteer(Wanted(queues), queues, m);
  }

  lemma {:induction false} EntriesOfEntries(filters: seq<Filter>)
    requires forall i | 0 <= i < |filters| :: filters[i].options.Some?
    ensures Entries(filters) == filters
  {
    if filters != [] {
      var n := |filters| - 1;
      EntriesOfEntries(filters[..n]);
      assert filters == filters[..n] + [filters[n]];
    }
  }

  lemma BuiltIsWanted(filters: seq<Filter>, queues: nat)
    requires queues <= MAX_QUEUES && (filters == Wanted(queues) || filters == [HEADER] + Wanted(queues))
    ensures AreWanted(filters, queues)
  {
    EntriesOfEntries(Wanted(queues));
    HeaderIsSkipped(Wanted(queues));
  }

  lemma {:induction false} HeaderIsSkipped(filters: seq<Filter>)
    ensures Entries([HEADER] + filters) == Entries(filters)
  {
    var all := [HEADER] + filters;
    if filters == [] {
      assert all[..0] == [];
    } else {
      var n := |filters| - 1;
      HeaderIsSkipped(filters[..n]);
      assert all[..n + 1] == [HEADER] + filters[..n];
    }
  }
}
