/** Arithmetic of time buckets: floor division by a resolution and slots modulo a ring size. */
module Ticks {

  const SECOND: int := 1_000_000_000

  /** Nanoseconds from Go's zero time to the Unix epoch, which times here are counted from. */
  const EPOCH: int := 62135596800 * 1_000_000_000

  lemma {:induction false} MulOrder(a: int, b: int, d: int)
    requires d > 0
    ensures a < b ==> a * d + d <= b * d
    decreases b - a
  {
    if a < b {
      MulStep(b - 1, d);
      MulOrder(a, b - 1, d);
    }
  }

  lemma MulStep(a: int, d: int)
    ensures (a + 1) * d == a * d + d
  {
  }

  /** The quotient and remainder of a division are determined by the number they make up. */
  lemma DivUnique(x: int, q: int, m: int, k: int, b: int, r: int)
    requires r > 0 && x == q * r + m && x == k * r + b && 0 <= m < r && 0 <= b < r
    ensures q == k && m == b
  {
    MulOrder(q, k, r);
    MulOrder(k, q, r);
  }

  lemma DivParts(x: int, r: int)
    requires r > 0
    ensures x == (x / r) * r + x % r && 0 <= x % r < r
  {
  }

  lemma DivIs(x: int, r: int, k: int, b: int)
    requires r > 0 && x == k * r + b && 0 <= b < r
    ensures x / r == k && x % r == b
  {
    DivParts(x, r);
    DivUnique(x, x / r, x % r, k, b, r);
  }

  /** time.Time.Truncate: down to a multiple of d since the zero time. */
  function Truncate(t: int, d: int): int
    requires d > 0
  {
    t - (t + EPOCH) % d
  }

  /** Go's integer division, toward zero. */
  function Quotient(a: int, b: int): int
    requires b > 0
  {
    if a >= 0 then a / b else -((-a) / b)
  }

  predicate WholeSeconds(d: int) {
    d > 0 && d % SECOND == 0
  }

  lemma MinutesAreSeconds()
    ensures WholeSeconds(60 * SECOND) && WholeSeconds(300 * SECOND)
  {
  }

  /** A time that starts a bucket: a multiple of d since the zero time. */
  predicate IsStart(s: int, d: int)
    requires d > 0
  {
    Truncate(s, d) == s
  }

  /** Truncation goes down to the nearest bucket start. */
  lemma TruncateIsFloor(t: int, d: int)
    requires d > 0
    ensures t - d < Truncate(t, d) <= t && IsStart(Truncate(t, d), d)
  {
    DivParts(t + EPOCH, d);
    DivIs(Truncate(t, d) + EPOCH, d, (t + EPOCH) / d, 0);
  }

  lemma TruncateMonotone(a: int, b: int, d: int)
    requires d > 0 && a <= b
    ensures Truncate(a, d) <= Truncate(b, d)
  {
    TruncateIsFloor(a, d);
    TruncateIsFloor(b, d);
    if Truncate(b, d) < Truncate(a, d) {
      var _ := StartsSpaced(Truncate(b, d), Truncate(a, d), d);
    }
  }

  /** The number of buckets from one start to another. */
  lemma StartsSpaced(a: int, b: int, d: int) returns (k: int)
    requires d > 0 && IsStart(a, d) && IsStart(b, d) && a < b
    ensures k > 0 && b == a + k * d && a + d <= b
  {
    var i, j := (a + EPOCH) / d, (b + EPOCH) / d;
    DivParts(a + EPOCH, d);
    DivParts(b + EPOCH, d);
    MulOrder(i, j, d);
    MulOrder(j, i, d);
    k := j - i;
    AddMul(i, k, d);
  }

  lemma NextStart(s: int, d: int, steps: int)
    requires d > 0 && IsStart(s, d)
    ensures IsStart(s + steps * d, d)
  {
    DivParts(s + EPOCH, d);
    AddMul((s + EPOCH) / d, steps, d);
    DivIs(s + steps * d + EPOCH, d, (s + EPOCH) / d + steps, 0);
  }

  lemma AddMul(a: int, b: int, d: int)
    ensures (a + b) * d == a * d + b * d
  {
  }

  /** The slot of the bucket that starts at s: its tick count modulo the ring size. Go adds the size to a
      negative remainder, which is Dafny's remainder. */
  function SlotIndex(s: int, d: int, size: int): int
    requires d >= SECOND && size > 0
  {
    Quotient(s / SECOND, d / SECOND) % size
  }

  lemma AtLeastASecond(d: int)
    requires WholeSeconds(d)
    ensures d >= SECOND && d == (d / SECOND) * SECOND
  {
    DivParts(d, SECOND);
  }

  /** Before the Unix epoch Go rounds tick counts the other way, so there the epoch itself must start a bucket. */
  predicate OnTicks(s: int, d: int)
    requires d > 0
  {
    s >= 0 || EPOCH % d == 0
  }

  /** The tick count of a bucket is the number of whole buckets since the epoch. */
  lemma TickOfStart(s: int, d: int)
    requires WholeSeconds(d) && IsStart(s, d) && OnTicks(s, d)
    ensures d >= SECOND && Quotient(s / SECOND, d / SECOND) == s / d
  {
    AtLeastASecond(d);
    if s >= 0 {
      TickSince(s, d / SECOND);
    } else {
      TickBefore(s, d);
    }
  }

  lemma TickSince(s: int, rs: int)
    requires s >= 0 && rs > 0
    ensures Quotient(s / SECOND, rs) == s / (rs * SECOND)
  {
    var q, r, b := s / SECOND / rs, s / SECOND % rs, s % SECOND;
    DivParts(s, SECOND);
    DivParts(s / SECOND, rs);
    MulAssociates(q, rs, SECOND);
    AddMul(q * rs, r, SECOND);
    MulOrder(r, rs, SECOND);
    MulOrder(0, r, SECOND);
    DivIs(s, rs * SECOND, q, r * SECOND + b);
    MulOrder(s / SECOND, 0, SECOND);
  }

  lemma TickBefore(s: int, d: int)
    requires WholeSeconds(d) && IsStart(s, d) && EPOCH % d == 0
    ensures Quotient(s / SECOND, d / SECOND) == s / d
  {
    AtLeastASecond(d);
    var k, rs := (s + EPOCH) / d - EPOCH / d, d / SECOND;
    DivParts(s + EPOCH, d);
    DivParts(EPOCH, d);
    AddMul(k, EPOCH / d, d);
    DivIs(s, d, k, 0);
    MulAssociates(k, rs, SECOND);
    DivIs(s, SECOND, k * rs, 0);
    DivIs(k * rs, rs, k, 0);
    NegMul(k, rs);
    DivIs(-(k * rs), rs, -k, 0);
  }

  lemma MulAssociates(a: int, b: int, c: int)
    ensures a * (b * c) == (a * b) * c
  {
  }

  lemma NegMul(a: int, b: int)
    ensures (-a) * b == -(a * b)
  {
  }

  /** Buckets less than a ring apart use different slots. */
  lemma SlotsDiffer(s: int, t: int, d: int, size: int)
    requires WholeSeconds(d) && size > 0 && IsStart(s, d) && IsStart(t, d) && OnTicks(s, d) && s < t < s + size * d
    ensures d >= SECOND && SlotIndex(s, d, size) != SlotIndex(t, d, size)
  {
    TickOfStart(s, d);
    TickOfStart(t, d);
    var k := StartsSpaced(s, t, d);
    MulOrder(size, k, d);
    DivParts(s, d);
    AddMul(s / d, k, d);
    DivIs(t, d, s / d + k, s % d);
    ResiduesDiffer(s / d, s / d + k, size);
  }

  /** Two buckets less than a ring apart use different slots. */
  ghost predicate Apart(s: int, t: int, d: int, size: int)
    requires d >= SECOND && size > 0
  {
    IsStart(s, d) && IsStart(t, d) && s < t < s + size * d ==> SlotIndex(s, d, size) != SlotIndex(t, d, size)
  }

  /** Since the Unix epoch no two buckets within any ring share a slot. */
  ghost predicate SlotsApart(d: int)
    requires d >= SECOND
  {
    forall s, t, size | size > 0 && s >= 0 :: Apart(s, t, d, size)
  }

  /** Nor did they ever before it. */
  ghost predicate SlotsAlwaysApart(d: int)
    requires d >= SECOND
  {
    forall s, t, size | size > 0 :: Apart(s, t, d, size)
  }

  /** A resolution keeps the buckets since the Unix epoch apart, in rings of every size, if and only if it is whole
      seconds. */
  lemma SlotsApartIff(d: int)
    requires d >= SECOND
    ensures SlotsApart(d) <==> d % SECOND == 0
  {
    if d % SECOND == 0 {
      forall s, t, size | size > 0 && s >= 0 ensures Apart(s, t, d, size) {
        if IsStart(s, d) && IsStart(t, d) && s < t < s + size * d {
          SlotsDiffer(s, t, d, size);
        }
      }
    } else {
      PartSecondsCollide(d);
    }
  }

  /** For buckets at any time the epoch must also start one. */
  lemma SlotsAlwaysApartIff(d: int)
    requires d >= SECOND
    ensures SlotsAlwaysApart(d) <==> d % SECOND == 0 && EPOCH % d == 0
  {
    SlotsApartIff(d);
    if SlotsAlwaysApart(d) {
      assert SlotsApart(d);
      if EPOCH % d != 0 {
        AroundEpochCollide(d);
      }
    }
    if d % SECOND == 0 && EPOCH % d == 0 {
      forall s, t, size | size > 0 ensures Apart(s, t, d, size) {
        if IsStart(s, d) && IsStart(t, d) && s < t < s + size * d {
          SlotsDiffer(s, t, d, size);
        }
      }
    }
  }

  /** The two buckets on either side of an epoch that starts none both get tick zero. */
  lemma AroundEpochCollide(d: int)
    requires d >= SECOND && d % SECOND == 0 && EPOCH % d != 0
    ensures !SlotsAlwaysApart(d)
  {
    var s, rs := -(EPOCH % d), d / SECOND;
    EpochStarts(d);
    EpochSeconds(d);
    NegMul(rs, SECOND);
    SecondsWithin(s, rs);
    SecondsWithin(s + d, rs);
    assert !Apart(s, s + d, d, 2);
  }

  lemma EpochStarts(d: int)
    requires d > 0 && EPOCH % d != 0
    ensures var s := -(EPOCH % d); -d < s < 0 && IsStart(s, d) && IsStart(s + d, d)
  {
    var q, r := EPOCH / d, EPOCH % d;
    DivParts(EPOCH, d);
    DivIs(-r + EPOCH, d, q, 0);
    MulStep(q, d);
    DivIs(-r + d + EPOCH, d, q + 1, 0);
  }

  lemma EpochSeconds(d: int)
    requires d > 0 && d % SECOND == 0
    ensures d == d / SECOND * SECOND && (-(EPOCH % d)) % SECOND == 0
  {
    var q, rs, whole := EPOCH / d, d / SECOND, EPOCH / SECOND;
    DivParts(d, SECOND);
    DivParts(EPOCH, d);
    MulAssociates(q, rs, SECOND);
    NegMul(q * rs, SECOND);
    AddMul(whole, -(q * rs), SECOND);
    NegMul(whole - q * rs, SECOND);
    DivIs(-(EPOCH % d), SECOND, -(whole - q * rs), 0);
  }

  /** Less than a tick on either side of the epoch the tick count is zero. */
  lemma SecondsWithin(s: int, rs: int)
    requires rs > 0 && -rs * SECOND < s < rs * SECOND
    ensures s >= 0 || s % SECOND == 0 ==> Quotient(s / SECOND, rs) == 0
  {
    DivParts(s, SECOND);
    if s >= 0 {
      MulOrder(rs, s / SECOND, SECOND);
      MulOrder(s / SECOND, 0, SECOND);
      DivIs(s / SECOND, rs, 0, s / SECOND);
    } else if s % SECOND == 0 {
      MulOrder(s / SECOND, -rs, SECOND);
      MulOrder(0, s / SECOND, SECOND);
      DivIs(-(s / SECOND), rs, 0, -(s / SECOND));
    }
  }

  /** The part of a second left over adds up: after enough buckets the tick count has run ahead of the buckets, and
      in a ring of as many slots as ticks passed the slot comes round again too early. */
  lemma PartSecondsCollide(d: int)
    requires d >= SECOND && d % SECOND != 0
    ensures !SlotsApart(d)
  {
    var rs, s := d / SECOND, (-EPOCH) % d;
    var k := 2 * rs * SECOND;
    var t := s + k * d;
    FirstStart(d, k);
    TicksAhead(s, d, k);
    var size := Quotient(t / SECOND, rs) - Quotient(s / SECOND, rs);
    assert size > k;
    MulOrder(k, size, d);
    SameResidue(Quotient(s / SECOND, rs), size);
    assert !Apart(s, t, d, size);
  }

  lemma SameResidue(tick: int, size: int)
    requires size > 0
    ensures (tick + size) % size == tick % size
  {
    DivParts(tick, size);
    MulStep(tick / size, size);
    DivIs(tick + size, size, tick / size + 1, tick % size);
  }

  /** The first bucket start from the epoch on, and the one k buckets later. */
  lemma FirstStart(d: int, k: int)
    requires d > 0
    ensures var s := (-EPOCH) % d; 0 <= s < d && IsStart(s, d) && IsStart(s + k * d, d)
  {
    var s, q := (-EPOCH) % d, (-EPOCH) / d;
    DivParts(-EPOCH, d);
    NegMul(q, d);
    DivIs(s + EPOCH, d, -q, 0);
    AddMul(-q, k, d);
    DivIs(s + k * d + EPOCH, d, -q + k, 0);
  }

  lemma TicksAhead(s: int, d: int, k: int)
    requires d >= SECOND && d % SECOND != 0 && 0 <= s < d && k == 2 * (d / SECOND) * SECOND
    ensures Quotient((s + k * d) / SECOND, d / SECOND) - Quotient(s / SECOND, d / SECOND) > k
  {
    var rs, part := d / SECOND, d % SECOND;
    DivParts(d, SECOND);
    var n := (k * rs) + 2 * rs * part;
    assert k * d == n * SECOND by {
      Distribute(k, rs, part);
    }
    assert 2 * rs * part >= 2 * rs by {
      MulOrder(1, part, 2 * rs);
    }
    AtLeast(s + k * d, SECOND, n);
    assert n >= (k + 2) * rs by {
      AddMul(k, 2, rs);
    }
    AtLeast((s + k * d) / SECOND, rs, k + 2);
    AtMost(s, SECOND, rs);
    AtMost(s / SECOND, rs, 1);
  }

  lemma Distribute(k: int, rs: int, part: int)
    requires k == 2 * rs * SECOND
    ensures k * (rs * SECOND + part) == (k * rs + 2 * rs * part) * SECOND
  {
    assert k * (rs * SECOND + part) == k * rs * SECOND + k * part;
    assert k * part == 2 * rs * part * SECOND;
  }

  lemma AtLeast(x: int, r: int, q: int)
    requires r > 0 && x >= q * r
    ensures x / r >= q
  {
    DivParts(x, r);
    MulOrder(x / r, q, r);
  }

  lemma AtMost(x: int, r: int, q: int)
    requires r > 0 && x < q * r + r
    ensures x / r <= q
  {
    DivParts(x, r);
    MulOrder(q, x / r, r);
  }

  lemma ResiduesDiffer(j: int, k: int, size: int)
    requires size > 0 && j < k < j + size
    ensures j % size != k % size
  {
    DivParts(j, size);
    DivParts(k, size);
    MulOrder(j / size, k / size, size);
    MulOrder(k / size, j / size, size);
  }

  /** The number of whole buckets in a window no longer than the ring. */
  lemma PointsFit(window: int, size: int, d: int)
    requires d > 0 && size > 0 && window <= size * d
    ensures window / d <= size
  {
    DivParts(window, d);
    MulOrder(size, window / d, d);
  }
}
