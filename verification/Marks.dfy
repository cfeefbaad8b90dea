/**
 A user's packet mark: how it is computed from the hash of their email, and how it is taken apart
 again. A mark is major * 0x10000 + minor; the major names a TX queue (queue index + 1) and its
 HTB qdisc, the minor names the user's class inside it.

 The hash itself is Go's library: a sum is any 64-bit number.
 */
module Marks {
  const MIN_MINOR := 2
  const MAX_QUEUES := 255
  const MINORS_PER_QUEUE := 0x10000 - MIN_MINOR
  const QUEUE_MASK := 0xff_0000
  const SUMS := 0x1_0000_0000_0000_0000

  type Mark32 = m: nat | m < 0x1_0000_0000
  type Sum64 = s: nat | s < SUMS

  /** The queue counts a device can be run with. */
  predicate QueueCount(queues: nat) {
    1 <= queues <= MAX_QUEUES
  }

  /** On 16-bit halves, which is all any caller passes, shift-and-or is this sum. */
  function Join(major: nat, minor: nat): Mark32
    requires major < 0x10000 && minor < 0x10000
  {
    major * 0x10000 + minor
  }

  datatype Parts = Parts(major: nat, minor: nat, ok: bool)

  function Split(m: Mark32, queues: nat): Parts {
    var major, minor := m / 0x10000, m % 0x10000;
    Parts(major, minor, 1 <= major <= queues && minor >= MIN_MINOR)
  }

  /** The values a user's mark can take with this many queues. */
  predicate UserMark(m: Mark32, queues: nat) {
    Split(m, queues).ok
  }

  function For(sum: nat, queues: nat): Mark32
    requires QueueCount(queues)
  {
    Join(sum % queues + 1, MIN_MINOR + (sum / queues) % MINORS_PER_QUEUE)
  }

  /** Bit i of a number. */
  predicate Bit(a: nat, i: nat) {
    if i == 0 then a % 2 == 1 else Bit(a / 2, i - 1)
  }

  /** Whether v is a & b, on 32 bits. */
  predicate IsAnd(v: Mark32, a: Mark32, b: Mark32) {
    forall i {:trigger Bit(v, i)} | 0 <= i < 32 :: Bit(v, i) <==> Bit(a, i) && Bit(b, i)
  }

  /** Whether v &^ mask is 0. */
  predicate Within(v: Mark32, mask: Mark32) {
    forall i {:trigger Bit(v, i)} | 0 <= i < 32 && Bit(v, i) :: Bit(mask, i)
  }

  /** The residue modulo queues * MINORS_PER_QUEUE of every sum whose mark is m. */
  function Residue(m: Mark32, queues: nat): nat
    requires UserMark(m, queues)
  {
    (m / 0x10000 - 1) + queues * (m % 0x10000 - MIN_MINOR)
  }

  ghost function HasMark(m: Mark32, queues: nat): nat -> bool
    requires QueueCount(queues)
  {
    (s: nat) => For(s, queues) == m
  }

  ghost function GoesToQueue(major: nat, queues: nat): nat -> bool
    requires QueueCount(queues)
  {
    (s: nat) => Split(For(s, queues), queues).major == major
  }

  /** How many of the numbers below n satisfy p. */
  ghost function Count(n: nat, p: nat -> bool): nat {
    if n == 0 then 0 else Count(n - 1, p) + if p(n - 1) then 1 else 0
  }

  /** The user marks of queue q - 1 are its 65534 minors 2 to 0xffff. */
  lemma UserMarkIff(m: Mark32, queues: nat)
    ensures UserMark(m, queues) <==> exists q :: 1 <= q <= queues && q * 0x10000 + 2 <= m <= q * 0x10000 + 0xffff
    ensures 0xffff - 2 + 1 == MINORS_PER_QUEUE == 65534
  {
    if UserMark(m, queues) {
      var q := m / 0x10000;
      assert q * 0x10000 + 2 <= m <= q * 0x10000 + 0xffff;
    }
  }

  /** The mark of a sum, in numbers. */
  lemma ForIs(sum: nat, queues: nat)
    requires 1 <= queues <= 255
    ensures For(sum, queues) / 0x10000 == sum % queues + 1
    ensures For(sum, queues) % 0x10000 == 2 + (sum / queues) % 65534
  {
  }

  // ----- masks -----

  function Pow2(n: nat): nat {
    if n == 0 then 1 else 2 * Pow2(n - 1)
  }

  lemma PowersAre()
    ensures Pow2(8) == 0x100 && Pow2(16) == 0x10000 && Pow2(32) == 0x1_0000_0000
  {
    FourMore(4);
    FourMore(8);
    FourMore(12);
    FourMore(16);
    FourMore(20);
    FourMore(24);
    FourMore(28);
  }

  lemma FourMore(n: nat)
    ensures Pow2(n + 4) == 0x10 * Pow2(n)
  {
    assert Pow2(n + 2) == 4 * Pow2(n);
  }

  lemma {:induction false} NoBits(i: nat)
    ensures !Bit(0, i)
  {
    if i > 0 {
      NoBits(i - 1);
    }
  }

  lemma {:induction false} OnesBit(n: nat, i: nat)
    ensures Pow2(n) > 0 && (Bit(Pow2(n) - 1, i) <==> i < n)
  {
    if n == 0 {
      NoBits(i);
    } else if i > 0 {
      OnesBit(n - 1, i - 1);
      assert (Pow2(n) - 1) / 2 == Pow2(n - 1) - 1;
    } else {
      OnesBit(n - 1, 0);
    }
  }

  /** The bits of a number whose low n bits are those of low and whose others are those of high. */
  lemma {:induction false} BitOfParts(high: nat, low: nat, n: nat, i: nat)
    requires low < Pow2(n)
    ensures Bit(high * Pow2(n) + low, i) <==> if i < n then Bit(low, i) else Bit(high, i - n)
  {
    if n > 0 {
      var v, half := high * Pow2(n) + low, high * Pow2(n - 1);
      assert v == 2 * half + low;
      if i > 0 {
        assert v / 2 == half + low / 2;
        BitOfParts(high, low / 2, n - 1, i - 1);
      }
    }
  }

  /** On 16-bit halves the sum is major << 16 | minor. */
  lemma JoinBits(major: nat, minor: nat, i: nat)
    requires major < 0x10000 && minor < 0x10000
    ensures Bit(Join(major, minor), i) <==> if i < 16 then Bit(minor, i) else Bit(major, i - 16)
  {
    PowersAre();
    BitOfParts(major, minor, 16, i);
  }

  lemma {:induction false} SameBits(a: nat, b: nat, n: nat)
    requires a < Pow2(n) && b < Pow2(n)
    requires forall i: nat | i < n :: Bit(a, i) <==> Bit(b, i)
    ensures a == b
  {
    if n > 0 {
      forall i: nat | i < n - 1 ensures Bit(a / 2, i) <==> Bit(b / 2, i) {
        assert Bit(a, i + 1) <==> Bit(b, i + 1);
      }
      SameBits(a / 2, b / 2, n - 1);
      assert Bit(a, 0) <==> Bit(b, 0);
    }
  }

  /** The bits of 0xff_0000 are 16 to 23. */
  lemma MaskBit(i: nat)
    ensures Bit(QUEUE_MASK, i) <==> 16 <= i < 24
  {
    PowersAre();
    NoBits(i);
    BitOfParts(0xff, 0, 16, i);
    if i >= 16 {
      OnesBit(8, i - 16);
    }
  }

  /** The bits of a queue field in its place are those of the mark there, and no others. */
  lemma FieldBit(m: nat, i: nat)
    ensures Bit((m / 0x10000) % 0x100 * 0x10000, i) <==> Bit(m, i) && 16 <= i < 24
  {
    PowersAre();
    var above := m / 0x10000;
    BitOfParts(above, m % 0x10000, 16, i);
    BitOfParts(above % 0x100, 0, 16, i);
    NoBits(i);
    if i >= 16 {
      BitOfParts(above / 0x100, above % 0x100, 8, i - 16);
      BitOfParts(0, above % 0x100, 8, i - 16);
      if i >= 24 {
        NoBits(i - 24);
      }
    }
  }

  /** What the steering filters' mask keeps of a mark: the eight bits above the minor, in their place. */
  lemma MaskedIs(v: Mark32, m: Mark32)
    ensures IsAnd(v, m, QUEUE_MASK) <==> v == (m / 0x10000) % 0x100 * 0x10000
  {
    var w: Mark32 := (m / 0x10000) % 0x100 * 0x10000;
    forall i: nat | i < 32 ensures Bit(w, i) <==> Bit(m, i) && Bit(QUEUE_MASK, i) {
      FieldBit(m, i);
      MaskBit(i);
    }
    if IsAnd(v, m, QUEUE_MASK) {
      PowersAre();
      forall i: nat | i < 32 ensures Bit(v, i) <==> Bit(w, i) {
        assert Bit(v, i) <==> Bit(m, i) && Bit(QUEUE_MASK, i);
      }
      SameBits(v, w, 32);
    }
  }

  /** No bit of a value lies outside the mask exactly when the value is a queue field, in its place. */
  lemma WithinIff(v: Mark32)
    ensures Within(v, QUEUE_MASK) <==> v / 0x10000 < 0x100 && v % 0x10000 == 0
  {
    MaskedIs(v, v);
    WithinIsAnd(v, QUEUE_MASK);
  }

  lemma WithinIsAnd(v: Mark32, mask: Mark32)
    ensures Within(v, mask) <==> IsAnd(v, v, mask)
  {
  }

  /** Join and Split are inverse on 16-bit halves, in both orders. */
  lemma SplitJoin(major: nat, minor: nat, m: Mark32, queues: nat)
    requires major < 0x10000 && minor < 0x10000
    ensures Split(Join(major, minor), queues)
         == Parts(major, minor, 1 <= major <= queues && minor >= MIN_MINOR)
    ensures Join(Split(m, queues).major, Split(m, queues).minor) == m
  {
  }

  /** Two divisions in a row, by a and then by b, put together as one by a * b. */
  lemma Recombine(s: nat, a: nat, b: nat, d: nat, m: nat, q: nat, c: nat)
    requires s == a * d + m && m < a && d == b * q + c && c < b
    ensures a * b > 0 && s == (a * b) * q + (m + a * c) && m + a * c < a * b
  {
    calc {
      a * d;
      a * (b * q + c);
      a * (b * q) + a * c;
      (a * b) * q + a * c;
    }
    calc {
      a * b;
      a * (c + (b - c));
      a * c + a * (b - c);
    }
    MultipleIsAtLeast(a, b - c);
  }

  lemma ModOfProduct(s: nat, a: nat, b: nat)
    requires a > 0 && b > 0
    ensures a * b > 0
    ensures s % (a * b) == s % a + a * ((s / a) % b)
  {
    var d, m := s / a, s % a;
    var q, c := d / b, d % b;
    Recombine(s, a, b, d, m, q, c);
    DivisionIsUnique(s, a * b, q, m + a * c);
  }

  lemma MultipleIsAtLeast(d: nat, k: nat)
    requires k >= 1
    ensures d * k >= d
  {
    assert d * k == d * (k - 1) + d;
  }

  lemma DivisionIsUnique(s: nat, d: nat, q: nat, r: nat)
    requires d > 0 && r < d && s == d * q + r
    ensures s / d == q && s % d == r
  {
    var q', r' := s / d, s % d;
    assert s == d * q' + r' && 0 <= r' < d;
    if q > q' {
      assert d * q == d * q' + d * (q - q');
      MultipleIsAtLeast(d, q - q');
    } else if q < q' {
      assert d * q' == d * q + d * (q' - q);
      MultipleIsAtLeast(d, q' - q);
    }
  }

  /** The mark of a sum is the mark its residue stands for, and is accepted by Split. */
  lemma ForIsResidue(sum: nat, queues: nat)
    requires QueueCount(queues)
    ensures UserMark(For(sum, queues), queues)
    ensures Residue(For(sum, queues), queues) == sum % (queues * MINORS_PER_QUEUE)
  {
    var q, c := sum % queues, (sum / queues) % MINORS_PER_QUEUE;
    SplitJoin(q + 1, MIN_MINOR + c, For(sum, queues), queues);
    assert Residue(For(sum, queues), queues) == q + queues * c;
    ModOfProduct(sum, queues, MINORS_PER_QUEUE);
  }

  /** Every mark Split accepts is the mark of its residue, and that residue is in range. */
  lemma ResidueIsOnto(m: Mark32, queues: nat)
    requires QueueCount(queues) && UserMark(m, queues)
    ensures Residue(m, queues) < queues * MINORS_PER_QUEUE <= SUMS
    ensures For(Residue(m, queues), queues) == m
  {
    MixedRadix(m / 0x10000 - 1, m % 0x10000 - MIN_MINOR, queues);
  }

  lemma MixedRadix(q: nat, c: nat, queues: nat)
    requires q < queues <= MAX_QUEUES && c < MINORS_PER_QUEUE
    ensures q + queues * c < queues * MINORS_PER_QUEUE
    ensures (q + queues * c) % queues == q && (q + queues * c) / queues == c
  {
    assert queues * MINORS_PER_QUEUE == queues * c + queues * (MINORS_PER_QUEUE - c);
    MultipleIsAtLeast(queues, MINORS_PER_QUEUE - c);
    DivisionIsUnique(q + queues * c, queues, c, q);
  }

  lemma DivisionStep(n: nat, k: nat)
    requires n > 0 && k > 0
    ensures var q, r := (n - 1) / k, (n - 1) % k;
            if r + 1 < k then n / k == q && n % k == r + 1 else n / k == q + 1 && n % k == 0
  {
    var q, r := (n - 1) / k, (n - 1) % k;
    assert n - 1 == k * q + r;
    if r + 1 < k {
      DivisionIsUnique(n, k, q, r + 1);
    } else {
      assert k * (q + 1) == k * q + k;
      DivisionIsUnique(n, k, q + 1, 0);
    }
  }

  /** Two emails share a mark exactly when their hash sums agree modulo queues * 65534. */
  lemma SameMarkIff(s: Sum64, t: Sum64, queues: nat)
    requires QueueCount(queues)
    ensures For(s, queues) == For(t, queues)
       <==> s % (queues * MINORS_PER_QUEUE) == t % (queues * MINORS_PER_QUEUE)
  {
    ForIsResidue(s, queues);
    ForIsResidue(t, queues);
    ResidueIsOnto(For(s, queues), queues);
    ResidueIsOnto(For(t, queues), queues);
  }

  /** The residues below queues * 65534 and the marks Split accepts are in one-to-one correspondence. */
  lemma ResiduesAndMarksBijection(queues: nat)
    requires QueueCount(queues)
    ensures forall r: nat | r < queues * MINORS_PER_QUEUE ::
              UserMark(For(r, queues), queues) && Residue(For(r, queues), queues) == r
    ensures forall m: Mark32 | UserMark(m, queues) ::
              Residue(m, queues) < queues * MINORS_PER_QUEUE && For(Residue(m, queues), queues) == m
  {
    forall r: nat | r < queues * MINORS_PER_QUEUE
      ensures UserMark(For(r, queues), queues) && Residue(For(r, queues), queues) == r
    {
      ForIsResidue(r, queues);
      DivisionIsUnique(r, queues * MINORS_PER_QUEUE, 0, r);
    }
    forall m: Mark32 | UserMark(m, queues)
      ensures Residue(m, queues) < queues * MINORS_PER_QUEUE && For(Residue(m, queues), queues) == m
    {
      ResidueIsOnto(m, queues);
    }
  }

  lemma {:induction false} CountOfResidue(n: nat, k: nat, r: nat, p: nat -> bool)
    requires r < k
    requires forall s: nat | s < n :: p(s) <==> s % k == r
    ensures Count(n, p) == n / k + if r < n % k then 1 else 0
  {
    if n == 0 {
      DivisionIsUnique(0, k, 0, 0);
    } else {
      CountOfResidue(n - 1, k, r, p);
      DivisionStep(n, k);
    }
  }

  /** Over all 64-bit sums, any two marks are the mark of equally many sums, give or take one. */
  lemma MarksAreEven(m1: Mark32, m2: Mark32, queues: nat)
    requires QueueCount(queues) && UserMark(m1, queues) && UserMark(m2, queues)
    ensures -1 <= Count(SUMS, HasMark(m1, queues)) - Count(SUMS, HasMark(m2, queues)) <= 1
  {
    CountOfMark(m1, queues);
    CountOfMark(m2, queues);
  }

  lemma CountOfMark(m: Mark32, queues: nat)
    requires QueueCount(queues) && UserMark(m, queues)
    ensures var k := queues * MINORS_PER_QUEUE;
            Count(SUMS, HasMark(m, queues)) == SUMS / k + if Residue(m, queues) < SUMS % k then 1 else 0
    ensures SUMS == 0x1_0000_0000_0000_0000
  {
    var k := queues * MINORS_PER_QUEUE;
    ResidueIsOnto(m, queues);
    forall s: nat | s < SUMS ensures For(s, queues) == m <==> s % k == Residue(m, queues) {
      ForIsResidue(s, queues);
      ForIsResidue(Residue(m, queues), queues);
      if s % k == Residue(m, queues) {
        SameMarkIff(s, Residue(m, queues), queues);
      }
    }
    CountOfResidue(SUMS, k, Residue(m, queues), HasMark(m, queues));
  }

  /** Over all 64-bit sums, any two TX queues get equally many sums, give or take one. */
  lemma QueuesAreEven(q1: nat, q2: nat, queues: nat)
    requires QueueCount(queues) && 1 <= q1 <= queues && 1 <= q2 <= queues
    ensures -1 <= Count(SUMS, GoesToQueue(q1, queues))
                - Count(SUMS, GoesToQueue(q2, queues)) <= 1
  {
    CountOfResidue(SUMS, queues, q1 - 1, GoesToQueue(q1, queues));
    CountOfResidue(SUMS, queues, q2 - 1, GoesToQueue(q2, queues));
  }
}
