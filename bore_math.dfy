/** Pure integer and fixed-point logic of the BORE burst-penalty engine
    (kernel/sched/bore.c): the 8-bit fixed-point log2, the burst-to-penalty
    transfer function, the asymmetric smoothing, the priority clamp and the
    chained multiply-shift used to rescale a deadline.  Machine widths are
    explicit: additions and subtractions that can wrap go through AddU32,
    AddU64, SubU64 and AddS64, products and shifts are reduced with `%`. */
module BoreMath {

  const TWO_31: nat := 0x8000_0000
  const TWO_32: nat := 0x1_0000_0000
  const TWO_63: nat := 0x8000_0000_0000_0000
  const TWO_64: nat := 0x1_0000_0000_0000_0000

  type u8 = x: nat | x < 0x100
  type u32 = x: nat | x < 0x1_0000_0000
  type u64 = x: nat | x < 0x1_0000_0000_0000_0000

  /** MAX_BURST_PENALTY = (40U << 8) - 1 */
  const MAX_BURST_PENALTY: nat := 40 * 256 - 1
  /** BURST_CACHE_STOP_COUNT */
  const BURST_CACHE_STOP_COUNT: nat := 63
  /** MAX_RT_PRIO of the host kernel: static priorities 100..139 are the nice levels */
  const MAX_RT_PRIO: int := 100
  /** maxval_prio */
  const MAXVAL_PRIO: int := 39
  /** Largest value of Log2p1 on a u64: (64 << 8) | 255 */
  const LOG2P1_MAX: nat := 64 * 256 + 255

  /** A penalty as the burst context keeps it: a u32 bounded by MAX_BURST_PENALTY. */
  predicate IsPenalty(x: nat) { x <= MAX_BURST_PENALTY }

  /** The process-wide tunables (sched_bore, sched_burst_*), plus the
      build-time BORE_BC_TIMESTAMP_SHIFT, whose value is defined outside
      bore.c. */
  datatype Tunables = Tunables(
    bore: u8,
    inheritType: u8,
    smoothness: u8,
    penaltyOffset: u8,
    penaltyScale: u32,
    cacheLifetime: u32,
    timestampShift: nat)
  {
    /** `1U << smoothness` must be defined, and `penalty * penalty_scale`
        must not leave u32 for any penalty the log can produce. */
    predicate Valid() {
      smoothness < 32 && penaltyScale * LOG2P1_MAX < TWO_32 && timestampShift < 64
    }
  }

  /** The initial values of the tunables (bore.c lines 11-16). */
  function DefaultTunables(timestampShift: nat): (t: Tunables)
    requires timestampShift < 64
    ensures t.Valid()
  {
    Tunables(1, 2, 1, 24, 1536, 75000000, timestampShift)
  }

  /** The externally supplied sched_prio_to_weight and sched_prio_to_wmult tables. */
  datatype PrioTables = PrioTables(weight: seq<nat>, wmult: seq<nat>)
  {
    /** What the nice-level tables satisfy (KernelTablesValid): 40 positive
        u32 entries, weights non-increasing with the priority index, and the
        weight one index below a wmult entry times that entry is at most
        2^32.  weight[i] * wmult[i] itself may exceed 2^32 (by 24 at index 2),
        since wmult[i] is 2^32 / weight[i] rounded to nearest. */
    predicate Valid() {
      && |weight| == 40 && |wmult| == 40
      && (forall i :: 0 <= i < 40 ==> 0 < weight[i] < TWO_32 && 0 < wmult[i] < TWO_32)
      && (forall i :: 1 <= i < 40 ==> NextProduct(i) <= TWO_32)
      && (forall i, j :: 0 <= i <= j < 40 ==> weight[j] <= weight[i])
    }

    /** weight[i] * wmult[i - 1]: a weight against the inverse weight one
        priority index better. */
    function NextProduct(i: nat): nat
      requires 1 <= i <= |wmult| && i < |weight|
    {
      weight[i] * wmult[i - 1]
    }
  }

  /** sched_prio_to_weight of the mainline kernel (kernel/sched/core.c),
      indexed by nice + 20. */
  function KernelWeight(i: int): nat
    requires 0 <= i < 40
  {
    match i
    case 0 => 88761 case 1 => 71755 case 2 => 56483 case 3 => 46273 case 4 => 36291
    case 5 => 29154 case 6 => 23254 case 7 => 18705 case 8 => 14949 case 9 => 11916
    case 10 => 9548 case 11 => 7620 case 12 => 6100 case 13 => 4904 case 14 => 3906
    case 15 => 3121 case 16 => 2501 case 17 => 1991 case 18 => 1586 case 19 => 1277
    case 20 => 1024 case 21 => 820 case 22 => 655 case 23 => 526 case 24 => 423
    case 25 => 335 case 26 => 272 case 27 => 215 case 28 => 172 case 29 => 137
    case 30 => 110 case 31 => 87 case 32 => 70 case 33 => 56 case 34 => 45
    case 35 => 36 case 36 => 29 case 37 => 23 case 38 => 18 case _ => 15
  }

  /** sched_prio_to_wmult of the mainline kernel: 2^32 / weight, rounded. */
  function KernelWmult(i: int): nat
    requires 0 <= i < 40
  {
    match i
    case 0 => 48388 case 1 => 59856 case 2 => 76040 case 3 => 92818 case 4 => 118348
    case 5 => 147320 case 6 => 184698 case 7 => 229616 case 8 => 287308 case 9 => 360437
    case 10 => 449829 case 11 => 563644 case 12 => 704093 case 13 => 875809 case 14 => 1099582
    case 15 => 1376151 case 16 => 1717300 case 17 => 2157191 case 18 => 2708050 case 19 => 3363326
    case 20 => 4194304 case 21 => 5237765 case 22 => 6557202 case 23 => 8165337 case 24 => 10153587
    case 25 => 12820798 case 26 => 15790321 case 27 => 19976592 case 28 => 24970740 case 29 => 31350126
    case 30 => 39045157 case 31 => 49367440 case 32 => 61356676 case 33 => 76695844 case 34 => 95443717
    case 35 => 119304647 case 36 => 148102320 case 37 => 186737708 case 38 => 238609294 case _ => 286331153
  }

  /** The two kernel tables as a PrioTables value. */
  function KernelTables(): PrioTables {
    PrioTables(seq(40, i requires 0 <= i < 40 => KernelWeight(i)),
               seq(40, i requires 0 <= i < 40 => KernelWmult(i)))
  }

  /** Adjacent non-increase gives non-increase between any two indices. */
  lemma {:induction false} NonIncreasingFrom(w: seq<nat>, i: nat, j: nat)
    requires forall k :: 1 <= k < |w| ==> w[k] <= w[k - 1]
    requires i <= j < |w|
    ensures w[j] <= w[i]
    decreases j - i
  {
    if i < j {
      NonIncreasingFrom(w, i, j - 1);
    }
  }

  /** One index of the kernel's tables: positive u32 entries, a weight no
      larger than the one before it, and the adjacent product within 2^32. */
  lemma KernelEntry(k: int)
    requires 0 <= k < 40
    ensures 0 < KernelWeight(k) < TWO_32 && 0 < KernelWmult(k) < TWO_32
    ensures 1 <= k ==> KernelWeight(k) <= KernelWeight(k - 1)
    ensures 1 <= k ==> KernelWeight(k) * KernelWmult(k - 1) <= TWO_32
  {
    if k == 0 { }
    else if k == 1 { }
    else if k == 2 { }
    else if k == 3 { }
    else if k == 4 { }
    else if k == 5 { }
    else if k == 6 { }
    else if k == 7 { }
    else if k == 8 { }
    else if k == 9 { }
    else if k == 10 { }
    else if k == 11 { }
    else if k == 12 { }
    else if k == 13 { }
    else if k == 14 { }
    else if k == 15 { }
    else if k == 16 { }
    else if k == 17 { }
    else if k == 18 { }
    else if k == 19 { }
    else if k == 20 { }
    else if k == 21 { }
    else if k == 22 { }
    else if k == 23 { }
    else if k == 24 { }
    else if k == 25 { }
    else if k == 26 { }
    else if k == 27 { }
    else if k == 28 { }
    else if k == 29 { }
    else if k == 30 { }
    else if k == 31 { }
    else if k == 32 { }
    else if k == 33 { }
    else if k == 34 { }
    else if k == 35 { }
    else if k == 36 { }
    else if k == 37 { }
    else if k == 38 { }
  }

  /** The kernel's own tables meet every condition the rescale and reweight
      contracts rely on. */
  lemma KernelTablesValid()
    ensures KernelTables().Valid()
  {
    var T := KernelTables();
    forall k | 0 <= k < 40
      ensures 0 < T.weight[k] < TWO_32 && 0 < T.wmult[k] < TWO_32
      ensures 1 <= k ==> T.weight[k] <= T.weight[k - 1] && T.NextProduct(k) <= TWO_32
    {
      KernelEntry(k);
      if 1 <= k {
        assert T.NextProduct(k) == KernelWeight(k) * KernelWmult(k - 1);
      }
    }
    forall i, j | 0 <= i <= j < 40
      ensures T.weight[j] <= T.weight[i]
    {
      NonIncreasingFrom(T.weight, i, j);
    }
  }

  // ---------------------------------------------------------------------
  // Powers of two and small arithmetic facts
  // ---------------------------------------------------------------------

  function Pow2(n: nat): (r: nat)
    ensures r >= 1
  {
    if n == 0 then 1 else 2 * Pow2(n - 1)
  }

  lemma {:induction false} Pow2Add(a: nat, b: nat)
    ensures Pow2(a + b) == Pow2(a) * Pow2(b)
  {
    if a > 0 {
      Pow2Add(a - 1, b);
    }
  }

  lemma {:induction false} Pow2Monotone(a: nat, b: nat)
    ensures a <= b ==> Pow2(a) <= Pow2(b)
  {
    if a < b {
      Pow2Monotone(a, b - 1);
    }
  }

  lemma Pow2Of8()
    ensures Pow2(8) == 256
  {
  }

  lemma Pow2Of16()
    ensures Pow2(16) == 0x1_0000
  {
    Pow2Add(8, 8);
  }

  lemma Pow2Of32()
    ensures Pow2(32) == TWO_32
  {
    Pow2Add(16, 16);
    Pow2Of16();
  }

  lemma Pow2Of56()
    ensures Pow2(56) == 0x100_0000_0000_0000
  {
    Pow2Add(32, 24);
    Pow2Add(16, 8);
    Pow2Of16();
    Pow2Of32();
  }

  lemma Pow2Of63()
    ensures Pow2(63) == TWO_63
  {
    Pow2Add(56, 7);
    Pow2Of56();
  }

  lemma Pow2Of64()
    ensures Pow2(64) == TWO_64
  {
    Pow2Add(32, 32);
    Pow2Of32();
  }

  lemma MulAssoc(a: int, b: int, c: int)
    ensures (a * b) * c == a * (b * c)
  {
  }

  lemma MulDistr(a: int, b: int, c: int)
    ensures (a + b) * c == a * c + b * c
  {
  }

  lemma MulMono(a: int, b: int, c: nat)
    ensures a <= b ==> a * c <= b * c
  {
  }

  lemma DivUnique(x: nat, d: nat, q: nat, m: nat)
    requires d > 0 && m < d && x == q * d + m
    ensures x / d == q && x % d == m
  {
    var q0, m0 := x / d, x % d;
    assert x == q0 * d + m0;
    assert (q + 1) * d == q * d + d;
    assert (q0 + 1) * d == q0 * d + d;
    MulMono(q + 1, q0, d);
    MulMono(q0 + 1, q, d);
  }

  lemma DivMonotone(a: nat, b: nat, d: nat)
    requires a <= b && d > 0
    ensures a / d <= b / d
  {
    var qa, qb := a / d, b / d;
    assert a == qa * d + a % d;
    assert b == qb * d + b % d;
    assert (qb + 1) * d == qb * d + d;
    MulMono(qb + 1, qa, d);
  }

  lemma MulDivBound(y: nat, d: nat, x: nat)
    requires d > 0 && y * d <= x
    ensures y <= x / d
  {
    var q := x / d;
    assert x == q * d + x % d;
    assert (q + 1) * d == q * d + d;
    MulMono(q + 1, y, d);
  }

  lemma DivCancel(a: nat, b: nat, k: nat)
    requires b > 0 && k > 0
    ensures (a * k) / (b * k) == a / b
  {
    var q, m := a / b, a % b;
    assert a == q * b + m;
    assert a * k == q * (b * k) + m * k;
    MulMono(m + 1, b, k);
    assert (m + 1) * k == m * k + k;
    DivUnique(a * k, b * k, q, m * k);
  }

  lemma DivMulLe(x: nat, d: nat)
    requires d > 0
    ensures (x / d) * d <= x
  {
    assert x == (x / d) * d + x % d;
  }

  lemma DivAtMost(x: nat, d: nat)
    requires d > 0
    ensures 0 <= x / d <= x
  {
    DivMulLe(x, d);
    MulMono(1, d, x / d);
  }

  lemma DivMulDiv(a: nat, b: nat, c: nat, d: nat)
    requires b > 0 && d > 0
    ensures ((a / b) * c) / d <= (a * c) / (b * d)
  {
    var q := a / b;
    var y := (q * c) / d;
    assert y * d <= q * c by { DivMulLe(q * c, d); }
    assert q * b <= a by { DivMulLe(a, b); }
    assert y * (b * d) <= a * c by {
      MulMono(y * d, q * c, b);
      MulMono(q * b, a, c);
      MulAssoc(y, d, b);
      MulAssoc(q, c, b);
      MulAssoc(q, b, c);
      assert b * d == d * b;
      assert c * b == b * c;
    }
    MulDivBound(y, b * d, a * c);
  }

  lemma FractionBelow(r: nat, p: nat)
    requires r < p
    ensures 0 <= r * 256 / p < 256
  {
    var q := r * 256 / p;
    assert r * 256 == q * p + (r * 256) % p;
    MulMono(256, q, p);
    MulMono(r, p, 256);
  }

  // ---------------------------------------------------------------------
  // fls64 and the 8-bit fixed-point log2 (bore.c lines 24-35)
  // ---------------------------------------------------------------------

  /** fls64: the 1-based position of the most significant set bit, 0 for 0. */
  function Fls64(v: u64): (r: nat)
    ensures r <= 64
    ensures v == 0 <==> r == 0
    ensures v > 0 ==> Pow2(r - 1) <= v < Pow2(r)
  {
    if v == 0 then 0
    else
      var r := 1 + Fls64(v / 2);
      Pow2Below(r - 1, v);
      r
  }

  /** A power of two at most a u64 value has exponent below 64. */
  lemma Pow2Below(k: nat, v: u64)
    requires Pow2(k) <= v
    ensures k < 64
  {
    Pow2Monotone(64, k);
    Pow2Of64();
  }

  lemma FlsUnique(v: u64, k: nat)
    requires k >= 1 && Pow2(k - 1) <= v < Pow2(k)
    ensures Fls64(v) == k
  {
    var e := Fls64(v);
    Pow2Monotone(e, k - 1);
    Pow2Monotone(k, e - 1);
  }

  lemma {:induction false} FlsMonotone(v: u64, w: u64)
    requires v <= w
    ensures Fls64(v) <= Fls64(w)
  {
    if v > 0 {
      FlsMonotone(v / 2, w / 2);
    }
  }

  /** `x << k` on a u64: the bits shifted out of the top are lost. */
  function Shl64(x: u64, k: nat): u64 {
    (x * Pow2(k)) % TWO_64
  }

  /** log2p1_u64_u32fp(v, 8): `(fls64(v) << 8) | mantissa`, the mantissa being
      `(u32)(v << (64 - exponent) << 1 >> (64 - 8))`.  The mantissa is below
      256 and `exponent << 8` has its low 8 bits clear, so the `|` is a sum. */
  function Log2p1(v: u64): (r: u32)
    ensures v == 0 <==> r == 0
    ensures v > 0 ==> Fls64(v) * 256 <= r < Fls64(v) * 256 + 256
  {
    if v == 0 then 0
    else
      var exponent := Fls64(v);
      var shifted := Shl64(Shl64(v, 64 - exponent), 1);
      TopByte(shifted);
      var mantissa := shifted / Pow2(64 - 8);
      exponent * 256 + mantissa
  }

  /** `x >> 56` of a u64 is a byte. */
  lemma TopByte(x: u64)
    ensures 0 <= x / Pow2(56) < 256
  {
    Pow2Of56();
  }

  /** The first 8 binary digits of the fraction r / p, for r < p. */
  function Fraction8(r: nat, p: nat): (f: nat)
    requires r < p
    ensures f < 256
  {
    FractionBelow(r, p);
    r * 256 / p
  }

  /** The 8 bits just below the top set bit of v, as a number in 0..255:
      floor((v - 2^(e-1)) * 256 / 2^(e-1)) for e = fls64(v). */
  function Mantissa8(v: u64): (m: nat)
    requires v > 0
    ensures m < 256
  {
    var p := Pow2(Fls64(v) - 1);
    Fraction8(v - p, p)
  }

  /** Scaling both sides of a quotient by k changes nothing. */
  lemma ScaledQuotient(r: nat, x: nat, y: nat, k: nat)
    requires y > 0 && k > 0
    ensures (r * (x * k)) / (y * k) == (r * x) / y
  {
    MulAssoc(r, x, k);
    DivCancel(r * x, y, k);
  }

  /** The bits below the top one, aligned at bit 63, then shifted down by 56,
      are floor(r * 256 / 2^(e-1)). */
  lemma AlignedFraction(r: nat, e: nat)
    requires 1 <= e <= 64
    ensures (r * Pow2(65 - e)) / Pow2(56) == (r * 256) / Pow2(e - 1)
  {
    Pow2Of8();
    if e <= 57 {
      Pow2Add(8, 57 - e);
      Pow2Add(e - 1, 57 - e);
      ScaledQuotient(r, 256, Pow2(e - 1), Pow2(57 - e));
    } else {
      Pow2Add(65 - e, e - 57);
      Pow2Add(56, e - 57);
      ScaledQuotient(r, Pow2(65 - e), Pow2(56), Pow2(e - 57));
    }
  }

  /** A u64 value with bit 63 set, doubled in a u64, loses that bit. */
  lemma DoubleDropsTop(x: nat, rest: nat)
    requires x == TWO_63 + rest && rest < TWO_63
    ensures (((x % TWO_64) * 2) % TWO_64) == rest * 2
  {
    DivUnique(x, TWO_64, 0, x);
    DivUnique(x * 2, TWO_64, 1, rest * 2);
  }

  lemma MulStrictMono(r: nat, p: nat, k: nat)
    requires r < p
    ensures r * k + k <= p * k
  {
    MulMono(r + 1, p, k);
  }

  /** The shift pair of log2p1 in terms of p = 2^(e-1), k = 2^(64-e) and
      k2 = 2^(65-e), for v = p + r with r < p. */
  lemma TopAligned(v: nat, r: nat, p: nat, k: nat, k2: nat)
    requires v == p + r && r < p && p * k == TWO_63 && k2 == 2 * k
    ensures (((v * k) % TWO_64) * 2) % TWO_64 == r * k2
  {
    assert v * k == TWO_63 + r * k by {
      MulDistr(p, r, k);
    }
    assert r * k < TWO_63 by {
      MulStrictMono(r, p, k);
    }
    DoubleDropsTop(v * k, r * k);
    MulAssoc(r, 2, k);
  }

  /** `v << (64 - e) << 1` keeps exactly the bits r of v below its top set
      bit 2^(e-1), moved up to the top of the word. */
  lemma BelowTopAligned(v: u64, e: nat, r: nat)
    requires v > 0 && e == Fls64(v) && r == v - Pow2(e - 1)
    ensures Shl64(Shl64(v, 64 - e), 1) == r * Pow2(65 - e)
  {
    var p, k := Pow2(e - 1), Pow2(64 - e);
    assert p * k == TWO_63 by {
      Pow2Add(e - 1, 64 - e);
      Pow2Of63();
    }
    assert Pow2(1) == 2;
    TopAligned(v, r, p, k, Pow2(65 - e));
  }

  /** log2p1 is fls64 in the integer part and the next 8 bits of v in the
      fraction. */
  lemma Log2p1Value(v: u64)
    requires v > 0
    ensures Log2p1(v) == Fls64(v) * 256 + Mantissa8(v)
  {
    var e := Fls64(v);
    var p := Pow2(e - 1);
    MantissaIs(v, p);
    ShiftedMantissa(v, e, p);
  }

  /** The mantissa byte extracted by the shifts is the fraction (v - p) / p. */
  lemma ShiftedMantissa(v: u64, e: nat, p: nat)
    requires v > 0 && e == Fls64(v) && p == Pow2(e - 1) && p <= v < 2 * p
    ensures Shl64(Shl64(v, 64 - e), 1) / Pow2(56) == Fraction8(v - p, p)
  {
    BelowTopAligned(v, e, v - p);
    AlignedFraction(v - p, e);
  }

  lemma Log2p1Bound(v: u64)
    ensures Log2p1(v) <= LOG2P1_MAX
    ensures v > 0 ==> Fls64(v) * 256 <= Log2p1(v) < Fls64(v) * 256 + 256
  {
    if v > 0 {
      Log2p1Value(v);
    }
  }

  /** log2p1 is monotone non-decreasing. */
  lemma Log2p1Monotone(v: u64, w: u64)
    requires v <= w
    ensures Log2p1(v) <= Log2p1(w)
  {
    if v > 0 {
      FlsMonotone(v, w);
      Log2p1Bound(v);
      Log2p1Bound(w);
      if Fls64(v) == Fls64(w) {
        MantissaMonotone(v, w);
        Log2p1Value(v);
        Log2p1Value(w);
      }
    }
  }

  lemma MantissaMonotone(v: u64, w: u64)
    requires 0 < v <= w && Fls64(v) == Fls64(w)
    ensures Mantissa8(v) <= Mantissa8(w)
  {
    var p := Pow2(Fls64(v) - 1);
    MantissaIs(v, p);
    MantissaIs(w, p);
    MantissaOrder(v, w, p);
  }

  /** The top set bit of v is p = 2^(fls64(v) - 1), and the mantissa is
      the fraction (v - p) / p. */
  lemma MantissaIs(v: u64, p: nat)
    requires v > 0 && p == Pow2(Fls64(v) - 1)
    ensures p <= v < 2 * p && Mantissa8(v) == Fraction8(v - p, p)
  {
  }

  lemma MantissaOrder(v: nat, w: nat, p: nat)
    requires p <= v <= w < 2 * p
    ensures Fraction8(v - p, p) <= Fraction8(w - p, p)
  {
    Fraction8Monotone(v - p, w - p, p);
  }

  lemma Fraction8Monotone(r: nat, q: nat, p: nat)
    requires r <= q < p
    ensures Fraction8(r, p) <= Fraction8(q, p)
  {
    DivMonotone(r * 256, q * 256, p);
  }

  // ---------------------------------------------------------------------
  // Machine-width conversions
  // ---------------------------------------------------------------------

  /** A value reduced to u32, as an unsigned C operation or a `(u32)` cast does. */
  function U32(x: int): u32 { x % TWO_32 }

  /** u32 addition `a + b`, wrapping past 2^32 - 1. */
  function AddU32(a: u32, b: u32): u32 {
    if a + b < TWO_32 then a + b else a + b - TWO_32
  }

  /** The wrapping u32 addition is addition modulo 2^32. */
  lemma AddU32IsMod(a: u32, b: u32)
    ensures AddU32(a, b) == U32(a + b)
  {
    if a + b < TWO_32 {
      ModUnique(a + b, TWO_32, 0, a + b);
    } else {
      ModUnique(a + b, TWO_32, 1, a + b - TWO_32);
    }
  }

  /** `(s32)` of a u32 bit pattern. */
  function S32(x: u32): int { if x < TWO_31 then x else x - TWO_32 }

  /** A value reduced to u64. */
  function U64(x: int): u64 { x % TWO_64 }

  /** u64 addition `a + b`, wrapping past 2^64 - 1. */
  function AddU64(a: u64, b: u64): u64 {
    if a + b < TWO_64 then a + b else a + b - TWO_64
  }

  /** u64 subtraction `a - b`, wrapping below 0. */
  function SubU64(a: u64, b: u64): u64 {
    if b <= a then a - b else a - b + TWO_64
  }

  /** `a + v` for a u64 `a` and an s64 `v`: C converts v to u64, so the sum
      wraps modulo 2^64 in either direction. */
  function AddS64(a: u64, v: int): u64
    requires -v <= TWO_63 && v < TWO_63
  {
    if a + v < 0 then a + v + TWO_64
    else if a + v < TWO_64 then a + v
    else a + v - TWO_64
  }

  /** `-v` on an s64: only -2^63 has no negation and stays itself. */
  function NegS64(v: int): int
    requires -v <= TWO_63 && v < TWO_63
  {
    if -v == TWO_63 then v else -v
  }

  /** `(s64)` of a u64 bit pattern. */
  function S64(x: u64): int { if x < TWO_63 then x else x - TWO_64 }

  /** Adding an s64 to a u64 and taking the s64 distance back gives it
      unchanged. */
  lemma AddS64Distance(a: u64, v: int)
    requires -v <= TWO_63 && v < TWO_63
    ensures S64(SubU64(AddS64(a, v), a)) == v
  {
  }

  /** Euclidean division is determined by quotient and remainder, also for
      a negative dividend. */
  lemma ModUnique(x: int, d: nat, q: int, m: nat)
    requires d > 0 && m < d && x == q * d + m
    ensures x / d == q && x % d == m
  {
    var q0, m0 := x / d, x % d;
    assert x == q0 * d + m0;
    assert (q + 1) * d == q * d + d;
    assert (q0 + 1) * d == q0 * d + d;
    MulMono(q + 1, q0, d);
    MulMono(q0 + 1, q, d);
  }

  lemma SmallU32(x: int)
    requires 0 <= x < TWO_32
    ensures U32(x) == x
  {
    ModUnique(x, TWO_32, 0, x);
  }

  lemma SmallU64(x: int)
    requires 0 <= x < TWO_64
    ensures U64(x) == x
  {
    ModUnique(x, TWO_64, 0, x);
  }

  /** Reducing to u32 before or after an addition gives the same u32. */
  lemma U32AddMod(a: int, b: int)
    ensures U32(U32(a) + b) == U32(a + b)
  {
    var q := a / TWO_32;
    assert a == q * TWO_32 + U32(a);
    var s := a + b;
    var sq := s / TWO_32;
    assert s == sq * TWO_32 + U32(s);
    assert U32(a) + b == (sq - q) * TWO_32 + U32(s) by {
      MulDistr(sq, -q, TWO_32);
    }
    ModUnique(U32(a) + b, TWO_32, sq - q, U32(s));
  }

  // ---------------------------------------------------------------------
  // calc_burst_penalty (bore.c lines 37-47)
  // ---------------------------------------------------------------------

  /** calc_burst_penalty: the fixed-point log of the burst time above the
      tolerance `penalty_offset << 8`, scaled by `penalty_scale >> 10` and
      saturated at MAX_BURST_PENALTY. */
  function CalcBurstPenalty(t: Tunables, burstTime: u64): (r: u32)
    ensures r <= MAX_BURST_PENALTY
    ensures Log2p1(burstTime) <= t.penaltyOffset * 256 ==> r == 0
  {
    PenaltyOfGreed(t, Log2p1(burstTime))
  }

  /** The arithmetic of calc_burst_penalty once `greed` is computed:
      `greed - tolerance` is a u32 subtraction reinterpreted as s32, and
      `penalty * penalty_scale` a u32 product, exactly as in C. */
  function PenaltyOfGreed(t: Tunables, greed: u32): (r: u32)
    ensures r <= MAX_BURST_PENALTY
    ensures greed <= t.penaltyOffset * 256 ==> r == 0
  {
    var tolerance := t.penaltyOffset * 256;
    var diff := S32(U32(greed - tolerance));
    NoExcess(greed, tolerance);
    var penalty := if diff > 0 then diff else 0;
    var scaled := U32(penalty * t.penaltyScale) / 1024;
    if MAX_BURST_PENALTY < scaled then MAX_BURST_PENALTY else scaled
  }

  /** The u32 difference of two small values, read as s32, is their
      mathematical difference. */
  lemma SignedDifference(a: nat, b: nat)
    requires a < TWO_31 && b < TWO_31
    ensures S32(U32(a - b)) == a - b
  {
    if a < b {
      ModUnique(a - b, TWO_32, -1, a - b + TWO_32);
    } else {
      ModUnique(a - b, TWO_32, 0, a - b);
    }
  }

  /** A value at most a small tolerance leaves no excess over it. */
  lemma NoExcess(a: nat, b: nat)
    requires b < TWO_31
    ensures a <= b ==> S32(U32(a - b)) <= 0
  {
    if a <= b {
      SignedDifference(a, b);
    }
  }

  /** The penalty without machine arithmetic: max(0, greed - tolerance),
      times the scale, over 1024, at most MAX_BURST_PENALTY.  It agrees
      with the C computation whenever the tunables are valid. */
  lemma PenaltyOfGreedExact(t: Tunables, greed: u32)
    requires t.Valid() && greed <= LOG2P1_MAX
    ensures var excess := greed - t.penaltyOffset * 256;
      var scaled := (if excess > 0 then excess else 0) * t.penaltyScale / 1024;
      PenaltyOfGreed(t, greed) == if MAX_BURST_PENALTY < scaled then MAX_BURST_PENALTY else scaled
  {
    var tolerance := t.penaltyOffset * 256;
    var excess := greed - tolerance;
    SignedDifference(greed, tolerance);
    var penalty: nat := if excess > 0 then excess else 0;
    assert penalty * t.penaltyScale < TWO_32 by {
      MulMono(penalty, LOG2P1_MAX, t.penaltyScale);
    }
    SmallU32(penalty * t.penaltyScale);
  }

  lemma CalcBurstPenaltyExact(t: Tunables, burstTime: u64)
    requires t.Valid()
    ensures var excess := Log2p1(burstTime) - t.penaltyOffset * 256;
      var scaled := (if excess > 0 then excess else 0) * t.penaltyScale / 1024;
      CalcBurstPenalty(t, burstTime) == if MAX_BURST_PENALTY < scaled then MAX_BURST_PENALTY else scaled
  {
    Log2p1Bound(burstTime);
    PenaltyOfGreedExact(t, Log2p1(burstTime));
  }

  lemma PenaltyOfGreedMonotone(t: Tunables, g1: u32, g2: u32)
    requires t.Valid() && g1 <= g2 <= LOG2P1_MAX
    ensures PenaltyOfGreed(t, g1) <= PenaltyOfGreed(t, g2)
  {
    PenaltyOfGreedExact(t, g1);
    PenaltyOfGreedExact(t, g2);
    var e1 := g1 - t.penaltyOffset * 256;
    var e2 := g2 - t.penaltyOffset * 256;
    var p1: nat := if e1 > 0 then e1 else 0;
    var p2: nat := if e2 > 0 then e2 else 0;
    MulMono(p1, p2, t.penaltyScale);
    DivMonotone(p1 * t.penaltyScale, p2 * t.penaltyScale, 1024);
  }

  /** calc_burst_penalty is monotone non-decreasing in the burst time. */
  lemma CalcBurstPenaltyMonotone(t: Tunables, b1: u64, b2: u64)
    requires t.Valid() && b1 <= b2
    ensures CalcBurstPenalty(t, b1) <= CalcBurstPenalty(t, b2)
  {
    Log2p1Monotone(b1, b2);
    Log2p1Bound(b2);
    PenaltyOfGreedMonotone(t, Log2p1(b1), Log2p1(b2));
  }

  /** No penalty while the burst time is below 2^(penalty_offset - 1): fls64
      is 1-based, so a burst in [2^(offset-1), 2^offset) may already be
      penalised. */
  lemma CalcBurstPenaltyZeroBelow(t: Tunables, burstTime: u64)
    requires t.penaltyOffset >= 1 && burstTime < Pow2(t.penaltyOffset - 1)
    ensures CalcBurstPenalty(t, burstTime) == 0
  {
    if burstTime > 0 {
      var e := Fls64(burstTime);
      assert e < t.penaltyOffset by {
        Pow2Monotone(t.penaltyOffset - 1, e - 1);
      }
      Log2p1Bound(burstTime);
      assert Log2p1(burstTime) < e * 256 + 256 <= t.penaltyOffset * 256;
    }
  }

  /** With the default tunables (offset 24, scale 1536), 2^23 still gives no
      penalty but 3 * 2^22, below 2^24, already gives 192. */
  lemma DefaultPenaltyThreshold(timestampShift: nat)
    requires timestampShift < 64
    ensures CalcBurstPenalty(DefaultTunables(timestampShift), 0x80_0000) == 0
    ensures CalcBurstPenalty(DefaultTunables(timestampShift), 0xC0_0000) == 192
  {
    var t := DefaultTunables(timestampShift);
    Pow2Add(22, 1);
    Pow2Add(22, 2);
    Pow2Of22();
    FlsUnique(0x80_0000, 24);
    FlsUnique(0xC0_0000, 24);
    Log2p1Value(0x80_0000);
    Log2p1Value(0xC0_0000);
    DivUnique(0x40_0000 * 256, 0x80_0000, 128, 0);
    CalcBurstPenaltyExact(t, 0x80_0000);
    CalcBurstPenaltyExact(t, 0xC0_0000);
  }

  // ---------------------------------------------------------------------
  // binary_smooth (bore.c lines 59-71)
  // ---------------------------------------------------------------------

  /** binary_smooth: a drop is taken at once; a rise moves from old towards
      new by ceil((new - old) / 2^smoothness).  The characterisation of the
      rise holds whenever `increment + divisor - 1` cannot wrap. */
  function BinarySmooth(t: Tunables, newValue: u32, oldValue: u32): (r: u32)
    requires t.smoothness < 32
    ensures newValue <= oldValue ==> r == newValue
    ensures oldValue < newValue < TWO_31 ==>
      && oldValue < r <= newValue
      && (r - oldValue) * Pow2(t.smoothness) >= newValue - oldValue
      && (r - oldValue - 1) * Pow2(t.smoothness) < newValue - oldValue
  {
    if newValue <= oldValue then newValue
    else
      var increment := newValue - oldValue;
      var shift := t.smoothness;
      var divisor := Pow2(shift);
      Pow2Monotone(shift, 31);
      Pow2Of31();
      var rounded := AddU32(increment, divisor - 1);
      DivAtMost(rounded, divisor);
      var r := AddU32(oldValue, rounded / divisor);
      SmoothRise(newValue, oldValue, divisor);
      r
  }

  lemma SmoothRise(newValue: nat, oldValue: nat, divisor: nat)
    requires oldValue < newValue && 0 < divisor <= TWO_31
    ensures newValue < TWO_31 ==>
      var r := AddU32(oldValue, AddU32(newValue - oldValue, divisor - 1) / divisor);
      && oldValue < r <= newValue
      && (r - oldValue) * divisor >= newValue - oldValue
      && (r - oldValue - 1) * divisor < newValue - oldValue
  {
    if newValue < TWO_31 {
      var inc := newValue - oldValue;
      var x := inc + divisor - 1;
      var q, m := x / divisor, x % divisor;
      assert x == q * divisor + m;
      assert (q - 1) * divisor == q * divisor - divisor;
      MulMono(q, 0, divisor);
      MulMono(1, q, divisor);
      MulMono(inc + 1, q, divisor);
      assert (inc + 1) * divisor == inc * divisor + divisor;
      MulMono(1, divisor, inc);
      assert q <= inc;
    }
  }

  /** 100 smoothed towards 250 with smoothness 1 becomes 175. */
  lemma BinarySmoothExample(t: Tunables)
    requires t.smoothness == 1
    ensures BinarySmooth(t, 250, 100) == 175
  {
    Pow2Of8();
  }

  /** At the top of the u32 range the rounding add wraps: with smoothness 1,
      smoothing 0 towards 2^32 - 1 stays at 0 instead of rising. */
  lemma BinarySmoothTopWraps(t: Tunables)
    requires t.smoothness == 1
    ensures BinarySmooth(t, 0xFFFF_FFFF, 0) == 0
  {
    Pow2Of8();
  }

  // ---------------------------------------------------------------------
  // effective_prio_bore (bore.c lines 95-103)
  // ---------------------------------------------------------------------

  /** The priority offset the burst context derives from its penalty: the
      integer part of the 8-bit fixed-point penalty. */
  function Score(penalty: u32): nat { penalty / 256 }

  function Clamp(x: int, lo: int, hi: int): (r: int)
    requires lo <= hi
    ensures lo <= r <= hi
    ensures lo <= x <= hi ==> r == x
  {
    if x < lo then lo else if x > hi then hi else x
  }

  /** effective_prio_bore: the nice level (static_prio - MAX_RT_PRIO), plus
      the score when BORE is enabled, clamped to 0..39. */
  function EffectivePrio(t: Tunables, staticPrio: int, penalty: u32): (r: u8)
    ensures r <= 39
    ensures t.bore == 0 ==> r == Clamp(staticPrio - MAX_RT_PRIO, 0, MAXVAL_PRIO)
    ensures t.bore != 0 && 0 <= staticPrio - MAX_RT_PRIO + Score(penalty) <= 39 ==>
      r == staticPrio - MAX_RT_PRIO + Score(penalty)
  {
    var prio := staticPrio - MAX_RT_PRIO;
    var prio' := if t.bore != 0 then prio + Score(penalty) else prio;
    Clamp(prio', 0, MAXVAL_PRIO)
  }

  /** A larger penalty never gives a better (numerically smaller) priority. */
  lemma EffectivePrioMonotone(t: Tunables, staticPrio: int, p1: u32, p2: u32)
    requires p1 <= p2
    ensures EffectivePrio(t, staticPrio, p1) <= EffectivePrio(t, staticPrio, p2)
  {
    DivMonotone(p1, p2, 256);
  }

  /** A zero penalty leaves the nice level as it is. */
  lemma EffectivePrioZeroPenalty(t: Tunables, staticPrio: int)
    ensures EffectivePrio(t, staticPrio, 0) == Clamp(staticPrio - MAX_RT_PRIO, 0, MAXVAL_PRIO)
  {
  }

  // ---------------------------------------------------------------------
  // rescale_slice and the deadline rescale (bore.c lines 49-57, 157-175)
  // ---------------------------------------------------------------------

  /** mul_u64_u32_shr: the full product shifted right, truncated to u64. */
  function MulU64U32Shr(a: u64, mul: u32, shift: nat): u64 {
    U64(a * mul / Pow2(shift))
  }

  /** rescale_slice: delta * weight[old] >> 10, then * wmult[new] >> 22.
      When the priority improves (old index > new index) the slice never
      gets longer, since then weight[old] * wmult[new] <= 2^32.  At equal
      indices it may grow slightly (RescaleSliceSamePrioGrows). */
  function RescaleSlice(tables: PrioTables, delta: u64, oldPrio: nat, newPrio: nat): (r: u64)
    requires tables.Valid() && oldPrio < 40 && newPrio < 40
    ensures newPrio < oldPrio ==> r <= delta
  {
    var unscaled := MulU64U32Shr(delta, tables.weight[oldPrio], 10);
    var rescaled := MulU64U32Shr(unscaled, tables.wmult[newPrio], 22);
    assert newPrio < oldPrio ==> rescaled <= delta by {
      if newPrio < oldPrio {
        ImprovedProduct(tables, oldPrio, newPrio);
        ChainShrinks(delta, tables.weight[oldPrio], tables.wmult[newPrio]);
      }
    }
    rescaled
  }

  /** A weight times the inverse weight of a strictly better priority is at
      most 2^32. */
  lemma ImprovedProduct(tables: PrioTables, oldPrio: nat, newPrio: nat)
    requires tables.Valid() && newPrio < oldPrio < 40
    ensures tables.weight[oldPrio] * tables.wmult[newPrio] <= TWO_32
  {
    assert tables.NextProduct(newPrio + 1) <= TWO_32;
    MulMono(tables.weight[oldPrio], tables.weight[newPrio + 1], tables.wmult[newPrio]);
  }

  /** With the kernel's tables, rescaling 2^40 at an unchanged index 2
      lengthens it by 6144, because weight[2] * wmult[2] is 2^32 + 24. */
  lemma RescaleSliceSamePrioGrows()
    ensures KernelTables().Valid()
    ensures RescaleSlice(KernelTables(), 0x100_0000_0000, 2, 2) == 0x100_0000_0000 + 6144
  {
    KernelTablesValid();
    Pow2Of10And22();
    var unscaled := 0x100_0000_0000 * 56483 / 1024;
    assert unscaled == 0x4000_0000 * 56483;
    ModUnique(unscaled, TWO_64, 0, unscaled);
    var rescaled := unscaled * 76040 / 0x40_0000;
    assert rescaled == 0x100_0000_0000 + 6144;
    ModUnique(rescaled, TWO_64, 0, rescaled);
  }

  lemma ModBelow(x: nat)
    ensures U64(x) <= x
  {
    ModUnique(x, TWO_64, x / TWO_64, x % TWO_64);
    MulMono(0, x / TWO_64, TWO_64);
  }

  /** The two multiply-shifts by w >> 10 and m >> 22 never lengthen delta
      when w * m <= 2^32. */
  lemma ChainShrinks(delta: u64, w: u32, m: u32)
    requires w * m <= TWO_32
    ensures MulU64U32Shr(MulU64U32Shr(delta, w, 10), m, 22) <= delta
  {
    Pow2Of10And22();
    var unscaled := MulU64U32Shr(delta, w, 10);
    ModBelow(delta * w / 1024);
    ModBelow(unscaled * m / 0x40_0000);
    MulMono(unscaled, delta * w / 1024, m);
    DivMonotone(unscaled * m, (delta * w / 1024) * m, 0x40_0000);
    DivMulDiv(delta * w, 1024, m, 0x40_0000);
    MulAssoc(delta, w, m);
    MulMono(w * m, TWO_32, delta);
    DivMonotone(delta * (w * m), delta * TWO_32, TWO_32);
    DivUnique(delta * TWO_32, TWO_32, delta, 0);
  }

  /** The signed remaining distance `vremain` rescaled by rescale_slice on
      its magnitude (`abs` of an s64), with the sign put back by s64
      negation.  Once the priority has improved the result keeps the sign of
      vremain (or is zero) and is no longer. */
  function ScaledRemaining(tables: PrioTables, vremain: int, oldPrio: nat, newPrio: nat): (r: int)
    requires tables.Valid() && oldPrio < 40 && newPrio < 40
    requires -vremain <= TWO_63 && vremain < TWO_63
    ensures -r <= TWO_63 && r < TWO_63
    ensures newPrio < oldPrio && vremain >= 0 ==> 0 <= r <= vremain
    ensures newPrio < oldPrio && vremain < 0 ==> vremain <= r <= 0
  {
    var magnitude: u64 := if vremain < 0 then -vremain else vremain;
    var vscaled := S64(RescaleSlice(tables, magnitude, oldPrio, newPrio));
    ScaledRemainingSign(tables, vremain, oldPrio, newPrio);
    if vremain < 0 then NegS64(vscaled) else vscaled
  }

  lemma ScaledRemainingSign(tables: PrioTables, vremain: int, oldPrio: nat, newPrio: nat)
    requires tables.Valid() && oldPrio < 40 && newPrio < 40
    requires -vremain <= TWO_63 && vremain < TWO_63
    ensures var magnitude: u64 := if vremain < 0 then -vremain else vremain;
      var rescaled := RescaleSlice(tables, magnitude, oldPrio, newPrio);
      var vs := if vremain < 0 then NegS64(S64(rescaled)) else S64(rescaled);
      && -vs <= TWO_63 && vs < TWO_63
      && (newPrio < oldPrio && vremain >= 0 ==> 0 <= vs <= vremain)
      && (newPrio < oldPrio && vremain < 0 ==> vremain <= vs <= 0)
  {
    var magnitude: u64 := if vremain < 0 then -vremain else vremain;
    var rescaled := RescaleSlice(tables, magnitude, oldPrio, newPrio);
  }

  /** The signed distance from vruntime to deadline, as the s64 `vremain`. */
  function Remaining(vruntime: u64, deadline: u64): (r: int)
    ensures -r <= TWO_63 && r < TWO_63
  {
    S64(SubU64(deadline, vruntime))
  }

  /** The deadline restart_burst_rescale_deadline_bore writes once the
      priority has improved: `vruntime + vscaled` in u64 arithmetic, where
      vscaled is the rescaled `vremain`.  Measured from vruntime, the new
      deadline keeps the sign of vremain (or is zero) and is no farther. */
  function RescaledDeadline(tables: PrioTables, vruntime: u64, vremain: int, oldPrio: nat, newPrio: nat): (r: u64)
    requires tables.Valid() && oldPrio < 40 && newPrio < 40
    requires -vremain <= TWO_63 && vremain < TWO_63
    ensures newPrio < oldPrio && vremain >= 0 ==> 0 <= Remaining(vruntime, r) <= vremain
    ensures newPrio < oldPrio && vremain < 0 ==> vremain <= Remaining(vruntime, r) <= 0
  {
    var vscaled := ScaledRemaining(tables, vremain, oldPrio, newPrio);
    AddS64Distance(vruntime, vscaled);
    AddS64(vruntime, vscaled)
  }

  // ---------------------------------------------------------------------
  // burst_cache_expired (bore.c lines 195-200, 205-208)
  // ---------------------------------------------------------------------

  /** burst_cache_expired: `now - (timestamp << SHIFT) > cache_lifetime`,
      in u64 arithmetic. */
  function BurstCacheExpired(t: Tunables, timestamp: u64, now: u64): (r: bool)
    ensures var stamp := Shl64(timestamp, t.timestampShift);
      stamp <= now ==> (r <==> now - stamp > t.cacheLifetime)
    ensures var stamp := Shl64(timestamp, t.timestampShift);
      now < stamp <= now + TWO_64 - TWO_32 ==> r
  {
    SubU64(now, Shl64(timestamp, t.timestampShift)) > t.cacheLifetime
  }

  /** The timestamp update_burst_cache stores: `now >> SHIFT`, the number of
      whole 2^SHIFT units in now. */
  function CacheStamp(t: Tunables, now: u64): (r: u64)
    ensures r * Pow2(t.timestampShift) <= now < (r + 1) * Pow2(t.timestampShift)
  {
    var p := Pow2(t.timestampShift);
    StampBelow(now, p);
    now / p
  }

  /** A cache stamped at `now` is still fresh at any later time within the
      lifetime, less the resolution lost by the shift. */
  lemma FreshAfterStamp(t: Tunables, now: u64, later: u64)
    requires now <= later && later - now + Pow2(t.timestampShift) - 1 <= t.cacheLifetime
    ensures !BurstCacheExpired(t, CacheStamp(t, now), later)
  {
    var p := Pow2(t.timestampShift);
    var sp := CacheStamp(t, now) * p;
    assert 0 <= sp <= now && now - sp < p by {
      StampBelow(now, p);
    }
    assert Shl64(CacheStamp(t, now), t.timestampShift) == sp by {
      SmallU64(sp);
    }
  }

  lemma StampBelow(now: nat, p: nat)
    requires p > 0
    ensures 0 <= (now / p) * p <= now && now - (now / p) * p < p
  {
    assert now == (now / p) * p + now % p;
  }

  lemma Pow2Of10And22()
    ensures Pow2(10) == 1024 && Pow2(22) == 0x40_0000
  {
    Pow2Add(16, 6);
    Pow2Of16();
  }

  lemma Pow2Of22()
    ensures Pow2(22) == 0x40_0000
  {
    Pow2Of10And22();
  }

  lemma Pow2Of31()
    ensures Pow2(31) == TWO_31
  {
    Pow2Add(16, 15);
    Pow2Of16();
  }
}
