/**
 What the collector's decisions mean for the traffic of a class. The class's true byte counter is a
 function of time that never decreases; a look reads it at one moment and the clock a little later.
 */
module IdleTiming {
  import opened Marks
  import opened IdleCollector

  const MINUTE := 60_000_000_000

  /** How often run takes a look, in nanoseconds. */
  function GcInterval(idle: nat): nat {
    var quarter := if idle / 4 < 10 * MINUTE then idle / 4 else 10 * MINUTE;
    if quarter > MINUTE then quarter else MINUTE
  }

  ghost predicate NeverDecreases(sent: int -> nat) {
    forall t, u | t <= u :: sent(t) <= sent(u)
  }

  /** listedAt[j] is when look j listed the classes; it read the clock at most delay later. */
  ghost predicate Timed(looks: seq<Look>, listedAt: seq<int>, delay: nat) {
    && |listedAt| == |looks|
    && (forall j | 0 <= j < |looks| :: listedAt[j] <= looks[j].now <= listedAt[j] + delay)
    && (forall i, j | 0 <= i < j < |looks| :: looks[i].now <= listedAt[j])
  }

  /** One class: looks born..died - 1 list it, with the bytes its counter had sent by then. */
  ghost predicate Observed(looks: seq<Look>, m: Mark32, sent: int -> nat, listedAt: seq<int>, delay: nat,
                           born: nat, died: nat) {
    && NeverDecreases(sent) && Timed(looks, listedAt, delay)
    && born < died <= |looks|
    && forall j | born <= j < died :: m in looks[j].bytes && looks[j].bytes[m] == sent(listedAt[j])
  }

  /**
   Look born is the first to list this class: none was taken before, or the one before listed no class of
   m, deleted it, or shows by its count that it listed another.
   */
  predicate IsNew(looks: seq<Look>, m: Mark32, born: nat)
    requires born < |looks| && m in looks[born].bytes
  {
    born > 0 ==>
      var last := looks[born - 1];
      m !in last.bytes || m in last.deleted || last.bytes[m] != looks[born].bytes[m]
  }

  /** A streak of a class does not reach back into the life of an earlier class of the same mark. */
  lemma StreakIsWithinLife(looks: seq<Look>, m: Mark32, born: nat, n: nat, k: nat)
    requires born <= n < |looks| && m in looks[born].bytes && IsNew(looks, m, born)
    requires m in looks[n].bytes && StreakStart(looks[..n], m, looks[n].bytes[m], k)
    ensures born <= k
  {
    assert forall i | 0 <= i < n :: looks[..n][i] == looks[i];
  }

  /** A class tried for deletion sent nothing for at least idle, less the time that look took, before it was listed. */
  lemma TriedMeansSilent(looks: seq<Look>, m: Mark32, sent: int -> nat, listedAt: seq<int>, delay: nat,
                         born: nat, died: nat, idle: nat, n: nat)
    requires TriedTheIdle(looks, idle) && Observed(looks, m, sent, listedAt, delay, born, died)
    requires IsNew(looks, m, born) && born <= n < died && m in looks[n].tried
    ensures forall t | looks[n].now - idle <= t <= listedAt[n] :: sent(t) == sent(listedAt[n])
    ensures looks[n].now - idle <= listedAt[n] - idle + delay
  {
    assert LookIsRight(looks[..n], looks[n], idle);
    var k :| StreakStart(looks[..n], m, looks[n].bytes[m], k) && looks[n].now - looks[..n][k].now >= idle;
    StreakIsWithinLife(looks, m, born, n, k);
    assert looks[..n][k] == looks[k];
    forall t | looks[n].now - idle <= t <= listedAt[n] ensures sent(t) == sent(listedAt[n]) {
      assert sent(listedAt[k]) <= sent(t) <= sent(listedAt[n]);
    }
  }

  /** Look n tries to delete the class that looks born..died - 1 list. */
  ghost predicate TriedAt(looks: seq<Look>, m: Mark32, sent: int -> nat, listedAt: seq<int>, delay: nat,
                          born: nat, died: nat, idle: nat, n: nat) {
    && TriedTheIdle(looks, idle) && Observed(looks, m, sent, listedAt, delay, born, died)
    && IsNew(looks, m, born) && born <= n < died && m in looks[n].tried
  }

  /** In every history of looks this quick, a class tried for deletion was silent for the whole idle period. */
  ghost predicate AlwaysSilent(idle: nat, delay: nat) {
    forall looks, m, sent, listedAt, born, died, n | TriedAt(looks, m, sent, listedAt, delay, born, died, idle, n) ::
      sent(listedAt[n] - idle) == sent(listedAt[n])
  }

  /** A full idle period of silence before the listing is guaranteed exactly when listing takes no time. */
  lemma SilentForIdleIff(idle: nat, delay: nat)
    requires 0 < idle
    ensures AlwaysSilent(idle, delay) <==> delay == 0
  {
    if delay == 0 {
      forall looks, m, sent, listedAt, born, died, n | TriedAt(looks, m, sent, listedAt, delay, born, died, idle, n)
        ensures sent(listedAt[n] - idle) == sent(listedAt[n])
      {
        TriedMeansSilent(looks, m, sent, listedAt, delay, born, died, idle, n);
      }
    } else {
      SlowListing(idle, delay);
    }
  }

  /** A class that sent at time 0, listed then and again one tick short of idle later, by a look that ends on time. */
  lemma SlowListing(idle: nat, delay: nat)
    requires 0 < idle && 0 < delay
    ensures !AlwaysSilent(idle, delay)
  {
    var m: Mark32 := 0x1_0002;
    var sent := (t: int) => if t < 0 then 0 else 1 as nat;
    var first, second := Look(map[m := 1], 0, {}, {}), Look(map[m := 1], idle, {m}, {});
    var looks, listedAt := [first, second], [0, idle - 1];
    assert looks[..0] == [] && looks[..1] == [first];
    assert StreakStart([first], m, 1, 0);
    assert forall m': Mark32, b: nat :: Idle([first], m', b, idle, idle) ==> m' in first.bytes;
    assert LookIsRight([first], second, idle);
    assert TriedTheIdle(looks, idle);
    assert Observed(looks, m, sent, listedAt, delay, 0, 2);
    assert TriedAt(looks, m, sent, listedAt, delay, 0, 2, idle, 1);
    assert sent(listedAt[1] - idle) != sent(listedAt[1]);
  }

  /** The first look, from j on, to read the clock at or after t. */
  lemma {:induction false} FirstLookAfter(looks: seq<Look>, t: int, j: nat) returns (n: nat)
    requires j < |looks| && looks[|looks| - 1].now >= t
    ensures j <= n < |looks| && looks[n].now >= t && forall i | j <= i < n :: looks[i].now < t
    decreases |looks| - j
  {
    n := j;
    if looks[j].now < t {
      n := FirstLookAfter(looks, t, j + 1);
    }
  }

  /** Consecutive looks are at most gap apart. */
  ghost predicate GapsAtMost(looks: seq<Look>, gap: nat) {
    forall i, j | 0 <= i < j < |looks| && j == i + 1 :: looks[j].now - looks[i].now <= gap
  }

  lemma GapBefore(looks: seq<Look>, gap: nat, n: nat)
    requires GapsAtMost(looks, gap)
    requires 0 < n < |looks|
    ensures looks[n].now <= looks[n - 1].now + gap
  {
    var i := n - 1;
    assert looks[n].now - looks[i].now <= gap;
  }

  /** A class showing one count, undeleted, from look a until idle later at look n is tried there. */
  lemma SteadyIsTried(looks: seq<Look>, m: Mark32, bytes: nat, a: nat, n: nat, idle: int)
    requires TriedTheIdle(looks, idle) && a < n < |looks| && looks[n].now - looks[a].now >= idle
    requires forall i | 0 <= i < a :: looks[i].now <= looks[a].now
    requires forall j | a <= j < n :: m in looks[j].bytes && looks[j].bytes[m] == bytes && m !in looks[j].deleted
    requires m in looks[n].bytes && looks[n].bytes[m] == bytes
    ensures m in looks[n].tried
  {
    assert forall j | 0 <= j < n :: looks[..n][j] == looks[j];
    assert Steady(looks[..n], m, bytes, a);
    var k := EarliestSteady(looks[..n], m, bytes, a);
    assert Idle(looks[..n], m, bytes, looks[n].now, idle);
    assert LookIsRight(looks[..n], looks[n], idle);
  }

  /** The first look of a class's life that surely listed it after the stop comes within gap of it. */
  lemma SoonAfter(looks: seq<Look>, gap: nat, born: nat, from: int) returns (a: nat)
    requires born < |looks| && GapsAtMost(looks, gap)
    requires looks[born].now <= from + gap && looks[|looks| - 1].now >= from
    ensures born <= a < |looks| && from <= looks[a].now <= from + gap
  {
    a := FirstLookAfter(looks, from, born);
    if a > born {
      GapBefore(looks, gap, a);
    }
  }

  /** After a look that surely listed it after the stop, a class shows what it had sent by the stop. */
  lemma SteadyAfterStop(looks: seq<Look>, m: Mark32, sent: int -> nat, listedAt: seq<int>, delay: nat,
                        born: nat, died: nat, stop: int, a: nat, j: nat)
    requires Observed(looks, m, sent, listedAt, delay, born, died)
    requires forall t | stop <= t :: sent(t) == sent(stop)
    requires born <= a <= j < died && stop + delay <= looks[a].now
    ensures m in looks[j].bytes && looks[j].bytes[m] == sent(stop)
  {
    assert a < j ==> looks[a].now <= listedAt[j];
  }

  lemma InOrder(looks: seq<Look>, listedAt: seq<int>, delay: nat, i: nat, j: nat)
    requires Timed(looks, listedAt, delay) && i <= j < |looks|
    ensures looks[i].now <= looks[j].now
  {
    assert i < j ==> looks[i].now <= listedAt[j];
  }

  /** A class that goes on showing one count is tried once it has for idle, if it was not deleted sooner. */
  lemma TriedOrDeleted(looks: seq<Look>, m: Mark32, bytes: nat, a: nat, n: nat, idle: nat) returns (j: nat)
    requires TriedTheIdle(looks, idle) && a < n < |looks| && looks[n].now - looks[a].now >= idle
    requires forall i | 0 <= i < a :: looks[i].now <= looks[a].now
    requires forall k | a <= k <= n :: m in looks[k].bytes && looks[k].bytes[m] == bytes
    ensures a <= j <= n && m in looks[j].tried
  {
    if k: nat :| a <= k < n && m in looks[k].deleted {
      j := k;
      DeletedIsTried(looks, m, idle, j);
    } else {
      j := n;
      SteadyIsTried(looks, m, bytes, a, n, idle);
    }
  }

  lemma DeletedIsTried(looks: seq<Look>, m: Mark32, idle: int, j: nat)
    requires TriedTheIdle(looks, idle) && j < |looks| && m in looks[j].deleted
    ensures m in looks[j].tried
  {
    assert LookIsRight(looks[..j], looks[j], idle);
  }

  /** The life of the class ends with the history, or with a deletion at or after the stop. */
  predicate EndsByDeletion(looks: seq<Look>, m: Mark32, died: nat, stop: int)
    requires 0 < died <= |looks|
  {
    died < |looks| ==> m in looks[died - 1].deleted && stop <= looks[died - 1].now
  }

  /** A class still listed idle after look a is tried by then. */
  lemma TriedBySteady(looks: seq<Look>, m: Mark32, sent: int -> nat, listedAt: seq<int>, delay: nat,
                      born: nat, died: nat, idle: nat, stop: int, a: nat, n: nat) returns (j: nat)
    requires TriedTheIdle(looks, idle) && Observed(looks, m, sent, listedAt, delay, born, died)
    requires forall t | stop <= t :: sent(t) == sent(stop)
    requires born <= a < n < died && looks[n].now - looks[a].now >= idle && stop + delay <= looks[a].now
    ensures born <= j < died && m in looks[j].tried && stop <= looks[j].now <= looks[n].now
  {
    forall i | 0 <= i < a ensures looks[i].now <= looks[a].now {
      InOrder(looks, listedAt, delay, i, a);
    }
    forall k | a <= k <= n ensures m in looks[k].bytes && looks[k].bytes[m] == sent(stop) {
      SteadyAfterStop(looks, m, sent, listedAt, delay, born, died, stop, a, k);
    }
    j := TriedOrDeleted(looks, m, sent(stop), a, n, idle);
    InOrder(looks, listedAt, delay, a, j);
    InOrder(looks, listedAt, delay, j, n);
  }

  /** Look a surely listed after the stop, look n is the first one idle later; both come in time. */
  lemma LooksInTime(looks: seq<Look>, delay: nat, born: nat, idle: nat, gap: nat, stop: int) returns (a: nat, n: nat)
    requires born < |looks| && 0 < idle && GapsAtMost(looks, gap)
    requires looks[born].now <= stop + gap + delay && looks[|looks| - 1].now >= stop + idle + gap + delay
    ensures born <= a < n < |looks| && looks[n].now - looks[a].now >= idle
    ensures stop + delay <= looks[a].now && looks[n].now <= stop + idle + 2 * gap + delay
  {
    a := SoonAfter(looks, gap, born, stop + delay);
    n := FirstLookAfter(looks, looks[a].now + idle, a);
    GapBefore(looks, gap, n);
  }

  /**
   A class whose counter stops at time stop is tried for deletion by stop + idle + 2 * gap, plus the time
   one look takes, if looks are at most gap apart. It is listed for as long as it lives, which only a
   successful deletion ends, and its first listing is no later than looks this close make it.
   */
  lemma TriedInTime(looks: seq<Look>, m: Mark32, sent: int -> nat, listedAt: seq<int>, delay: nat,
                    born: nat, died: nat, idle: nat, gap: nat, stop: int) returns (j: nat)
    requires TriedTheIdle(looks, idle) && Observed(looks, m, sent, listedAt, delay, born, died) && 0 < idle
    requires forall t | stop <= t :: sent(t) == sent(stop)
    requires GapsAtMost(looks, gap) && looks[born].now <= stop + gap + delay
    requires looks[|looks| - 1].now >= stop + idle + gap + delay
    requires EndsByDeletion(looks, m, died, stop)
    ensures born <= j < died && m in looks[j].tried
    ensures stop <= looks[j].now <= stop + idle + 2 * gap + delay
  {
    var a, n := LooksInTime(looks, delay, born, idle, gap, stop);
    if n < died {
      j := TriedBySteady(looks, m, sent, listedAt, delay, born, died, idle, stop, a, n);
    } else {
      j := died - 1;
      DeletedIsTried(looks, m, idle, j);
      InOrder(looks, listedAt, delay, j, n);
    }
  }

  /** Every tick gets a look, which reads the clock at most delay after it. */
  ghost predicate OnTicks(looks: seq<Look>, ticks: seq<int>, interval: nat, delay: nat) {
    && |ticks| == |looks|
    && (forall j | 0 <= j < |looks| :: ticks[j] <= looks[j].now <= ticks[j] + delay)
    && (forall i, j | 0 <= i < j < |looks| && j == i + 1 :: ticks[j] == ticks[i] + interval)
  }

  /** Looks are one to ten minutes apart: a quarter of idle if that lies between, and else the nearer end. */
  lemma TicksAreApart(looks: seq<Look>, ticks: seq<int>, idle: nat, delay: nat, i: nat)
    requires OnTicks(looks, ticks, GcInterval(idle), delay) && i + 1 < |looks|
    ensures 60_000_000_000 <= ticks[i + 1] - ticks[i] <= 600_000_000_000
    ensures 240_000_000_000 <= idle <= 2_400_000_000_000 ==> ticks[i + 1] - ticks[i] == idle / 4
    ensures idle >= 2_400_000_000_000 ==> ticks[i + 1] - ticks[i] == 600_000_000_000
    ensures idle < 240_000_000_000 ==> ticks[i + 1] - ticks[i] == 60_000_000_000
  {
    var k := i + 1;
    assert ticks[k] == ticks[i] + GcInterval(idle);
  }

  /**
   With looks as run schedules them, a class is tried no later than its idle period after it stopped
   sending, plus two minutes if idle is under four minutes, and else plus half of idle or twenty minutes,
   whichever is less, and three times what a look may take.
   */
  lemma ScheduledInTime(looks: seq<Look>, m: Mark32, sent: int -> nat, listedAt: seq<int>, delay: nat,
                        born: nat, died: nat, idle: nat, ticks: seq<int>, stop: int) returns (j: nat)
    requires TriedTheIdle(looks, idle) && Observed(looks, m, sent, listedAt, delay, born, died)
    requires forall t | stop <= t :: sent(t) == sent(stop)
    requires 0 < idle && OnTicks(looks, ticks, GcInterval(idle), delay)
    requires looks[born].now <= stop + GcInterval(idle) + 2 * delay
    requires looks[|looks| - 1].now >= stop + idle + GcInterval(idle) + 2 * delay
    requires EndsByDeletion(looks, m, died, stop)
    ensures born <= j < died && m in looks[j].tried
    ensures stop <= looks[j].now
    ensures idle < 240_000_000_000 ==> looks[j].now <= stop + idle + 120_000_000_000 + 3 * delay
    ensures idle >= 240_000_000_000 ==> looks[j].now <= stop + idle + idle / 2 + 3 * delay
    ensures looks[j].now <= stop + idle + 1_200_000_000_000 + 3 * delay
  {
    forall i, k | 0 <= i < k < |looks| && k == i + 1
      ensures looks[k].now - looks[i].now <= GcInterval(idle) + delay
    {
      assert ticks[k] == ticks[i] + GcInterval(idle);
    }
    j := TriedInTime(looks, m, sent, listedAt, delay, born, died, idle, GcInterval(idle) + delay, stop);
  }
}
