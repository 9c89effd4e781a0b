/** Lock evaluation and the countdown shown by the Timer component.
    Instants are integer milliseconds; a lock date is optional. */
module LockClock {
  import opened Wrappers

  /** Milliseconds since the epoch. */
  type Instant = int

  const MsPerSecond := 1000
  const MsPerMinute := 60000
  const MsPerHour := 3600000
  const MsPerDay := 86400000

  /** The lock test every view repeats: a lock date is present and lies
      strictly after the current instant. */
  predicate IsLocked(lockDate: Option<Instant>, now: Instant) {
    lockDate.Some? && lockDate.value > now
  }

  /** Without a lock date nothing is ever locked. */
  lemma AbsentDateNeverLocked(now: Instant)
    ensures !IsLocked(None, now)
  {
  }

  /** Unlocking is inclusive of the lock instant itself, and one millisecond
      earlier the item is still locked. */
  lemma UnlockBoundary(d: Instant)
    ensures !IsLocked(Some(d), d)
    ensures IsLocked(Some(d), d - 1)
  {
  }

  /** Once unlocked, an item stays unlocked as time moves forward. */
  lemma UnlockIsPermanent(lockDate: Option<Instant>, now: Instant, later: Instant)
    requires now <= later
    requires !IsLocked(lockDate, now)
    ensures !IsLocked(lockDate, later)
  {
  }

  /** The `timeLeft` object: `{}` when the target has passed, otherwise the
      four fields. */
  datatype TimeLeft =
    | NoTimeLeft
    | TimeLeft(days: nat, hours: nat, minutes: nat, seconds: nat)

  /** The milliseconds the four fields stand for. */
  function Total(t: TimeLeft): nat {
    match t
    case NoTimeLeft => 0
    case TimeLeft(d, h, m, s) => d * MsPerDay + h * MsPerHour + m * MsPerMinute + s * MsPerSecond
  }

  /** Fields within their clock ranges. */
  predicate InRange(t: TimeLeft) {
    t.TimeLeft? ==> t.hours < 24 && t.minutes < 60 && t.seconds < 60
  }

  // ---------------------------------------------------------------------
  // Integer division facts used by the countdown proofs.

  lemma DivModUnique(a: int, m: int, q: int, r: int)
    requires m > 0 && 0 <= r < m && a == q * m + r
    ensures a / m == q && a % m == r
  {
    var k := a / m - q;
    assert k * m == r - a % m by {
      MulSubRight(a / m, q, m);
    }
    MulBounds(k, m);
  }

  lemma MulSubRight(x: int, y: int, m: int)
    ensures (x - y) * m == x * m - y * m
  {
  }

  lemma MulBounds(k: int, m: int)
    requires m > 0
    ensures k >= 1 ==> k * m >= m
    ensures k <= -1 ==> k * m <= -m
  {
  }

  /** Regrouping `(q2 * c + r2) * b` around the product `b * c`. */
  lemma Regroup(q2: int, r2: int, b: int, c: int)
    ensures (q2 * c + r2) * b == q2 * (b * c) + r2 * b
  {
    assert (q2 * c + r2) * b == q2 * c * b + r2 * b;
    assert q2 * c * b == q2 * (b * c);
  }

  /** A digit below `c` scaled by `b`, plus a digit below `b`, stays below
      `b * c`. */
  lemma DigitBound(r2: int, r1: int, b: int, c: int)
    requires 0 <= r2 < c && 0 <= r1 < b
    ensures 0 <= r2 * b + r1 < b * c
  {
    MulLeRight(r2, c - 1, b);
    assert (c - 1) * b == b * c - b;
  }

  lemma MulLeRight(x: int, y: int, b: int)
    requires 0 <= x <= y && b > 0
    ensures 0 <= x * b <= y * b
  {
    assert y * b - x * b == (y - x) * b;
  }

  lemma DivDiv(a: int, b: int, c: int)
    requires a >= 0 && b > 0 && c > 0
    ensures a / b / c == a / (b * c)
    ensures (a / b) % c == (a % (b * c)) / b
  {
    var q1 := a / b;
    var r1 := a % b;
    var q2 := q1 / c;
    var r2 := q1 % c;
    assert a == q1 * b + r1;
    assert q1 == q2 * c + r2;
    Regroup(q2, r2, b, c);
    assert a == q2 * (b * c) + (r2 * b + r1);
    DigitBound(r2, r1, b, c);
    DivModUnique(a, b * c, q2, r2 * b + r1);
    DivModUnique(r2 * b + r1, b, r2, r1);
  }

  /** `calculateTimeLeft`: the difference between target and now broken into
      days, hours, minutes and seconds by floor division, or nothing once the
      difference is not positive. */
  function CalculateTimeLeft(target: Instant, now: Instant): (t: TimeLeft)
    ensures t.TimeLeft? <==> IsLocked(Some(target), now)
    ensures InRange(t)
    ensures t.TimeLeft? ==> t.days == (target - now) / MsPerDay
    ensures t.TimeLeft? ==> Total(t) <= target - now < Total(t) + MsPerSecond
  {
    var d := target - now;
    if d > 0 then
      var t := TimeLeft(d / MsPerDay, (d / MsPerHour) % 24, (d / MsPerMinute) % 60, (d / MsPerSecond) % 60);
      WholeSeconds(d);
      t
    else NoTimeLeft
  }

  /** The four fields add up to the difference rounded down to whole
      seconds. */
  lemma WholeSeconds(d: nat)
    ensures (d / MsPerDay) * 86400 + ((d / MsPerHour) % 24) * 3600
            + ((d / MsPerMinute) % 60) * 60 + (d / MsPerSecond) % 60 == d / MsPerSecond
  {
    var s := d / 1000;
    DivDiv(d, 1000, 86400);
    DivDiv(d, 1000, 3600);
    DivDiv(d, 1000, 60);
    DivDiv(s, 3600, 24);
    DivDiv(s, 60, 60);
    var h := s / 3600;
    assert s / 86400 == h / 24;
    assert h == (h / 24) * 24 + h % 24;
    assert s / 60 == h * 60 + (s / 60) % 60 by {
      assert s / 60 / 60 == h;
    }
    assert s == (s / 60) * 60 + s % 60;
  }

  /** The countdown is the only in-range breakdown that rounds the difference
      down to whole seconds: any other choice of fields with the same bounds is
      the same breakdown. */
  lemma {:induction false} TimeLeftUnique(target: Instant, now: Instant, t: TimeLeft)
    requires target > now
    requires t.TimeLeft? && InRange(t)
    requires Total(t) <= target - now < Total(t) + MsPerSecond
    ensures CalculateTimeLeft(target, now) == t
  {
    var d := target - now;
    var s := t.days * 86400 + t.hours * 3600 + t.minutes * 60 + t.seconds;
    assert d == s * 1000 + (d - s * 1000);
    DivModUnique(d, 1000, s, d - s * 1000);
    var c := CalculateTimeLeft(target, now);
    DivModUnique(s, 60, t.days * 1440 + t.hours * 60 + t.minutes, t.seconds);
    DivModUnique(s / 60, 60, t.days * 24 + t.hours, t.minutes);
    DivModUnique(s / 60 / 60, 24, t.days, t.hours);
    DivDiv(d, 1000, 60);
    DivDiv(d, 60000, 60);
    DivDiv(d, 3600000, 24);
    DivDiv(s, 60, 60);
    DivDiv(s, 3600, 24);
    assert d / 60000 / 60 == d / 3600000;
    assert d / 3600000 / 24 == d / 86400000;
    assert d / 1000 / 60 == d / 60000;
    assert c.seconds == t.seconds;
    assert c.minutes == t.minutes;
    assert c.hours == t.hours;
    assert c.days == t.days;
  }

  /** Re-evaluating later never shows more time left. */
  lemma CountdownNonIncreasing(target: Instant, now: Instant, later: Instant)
    requires now <= later
    ensures Total(CalculateTimeLeft(target, later)) <= Total(CalculateTimeLeft(target, now))
  {
    var d1 := target - now;
    var d2 := target - later;
    if d2 > 0 {
      WholeSeconds(d1);
      WholeSeconds(d2);
      assert d2 / 1000 <= d1 / 1000;
    }
  }

  // ---------------------------------------------------------------------
  // The JavaScript arithmetic: `Math.floor((difference / u) % m)` on Numbers.

  /** JavaScript's `%` on Numbers: the remainder of truncating division. */
  function JsRem(x: real, y: real): real
    requires y != 0.0
  {
    var q := x / y;
    var t := if q >= 0.0 then q.Floor else -((-q).Floor);
    x - y * t as real
  }

  lemma RealFloorQuotient(a: int, u: int)
    requires a >= 0 && u > 0
    ensures (a as real / u as real).Floor == a / u
  {
    var q := a / u;
    var x := a as real / u as real;
    assert a as real == x * u as real;
    assert q * u <= a < (q + 1) * u;
    assert (q * u) as real == q as real * u as real;
    assert ((q + 1) * u) as real == (q + 1) as real * u as real;
    assert q as real <= x;
    assert x < (q + 1) as real;
  }

  /** With exact arithmetic, JavaScript's `Math.floor((d / u) % m)` is the
      integer `(d / u) % m`, so the countdown needs no real numbers. */
  lemma JsFloorRemIsIntegerRem(d: int, u: int, m: int)
    requires d >= 0 && u > 0 && m > 0
    ensures JsRem(d as real / u as real, m as real).Floor == (d / u) % m
  {
    var x := d as real / u as real;
    var q := d / u;
    RealFloorQuotient(d, u);
    var f := x - q as real;
    QuotientOfQuotient(d, u, m);
    RealFloorQuotient(d, u * m);
    DivDiv(d, u, m);
    var t := q / m;
    assert JsRem(x, m as real) == x - m as real * t as real;
    RemainderSplit(q, m, t, f);
    FloorOfIntPlusFraction(q % m, f);
  }

  /** Dividing by `u` and then by `m` is dividing by `u * m`. */
  lemma QuotientOfQuotient(d: int, u: int, m: int)
    requires d >= 0 && u > 0 && m > 0
    ensures (d as real / u as real) / m as real == d as real / (u * m) as real
    ensures (d as real / u as real) / m as real >= 0.0
  {
    assert (u * m) as real == u as real * m as real;
  }

  /** Taking `t` whole multiples of `m` off `q + f` leaves `q % m + f`. */
  lemma RemainderSplit(q: int, m: int, t: int, f: real)
    requires m > 0 && t == q / m
    ensures (q as real + f) - m as real * t as real == (q % m) as real + f
  {
    assert q == t * m + q % m;
    assert (t * m) as real == m as real * t as real;
  }

  /** A whole number plus a fraction in [0, 1) floors to the whole number. */
  lemma FloorOfIntPlusFraction(n: int, f: real)
    requires 0.0 <= f < 1.0
    ensures (n as real + f).Floor == n
  {
  }

  // ---------------------------------------------------------------------
  // What the Timer renders.

  /** One rendered field, such as `3 hours`. */
  datatype Part = Part(value: nat, unit: string)

  /** Either the non-zero fields or the word "Unlocked". */
  datatype TimerView = Countdown(parts: seq<Part>) | UnlockedLabel

  /** The fields in `Object.keys` order. */
  function Fields(t: TimeLeft): seq<Part> {
    match t
    case NoTimeLeft => []
    case TimeLeft(d, h, m, s) => [Part(d, "days"), Part(h, "hours"), Part(m, "minutes"), Part(s, "seconds")]
  }

  /** Position of a unit in `Object.keys` order. */
  function Rank(unit: string): nat {
    if unit == "days" then 0 else if unit == "hours" then 1 else if unit == "minutes" then 2 else 3
  }

  /** Parts listed in strictly increasing unit order: each part comes
      before every later one. */
  predicate Ordered(ps: seq<Part>)
    decreases |ps|
  {
    ps == [] || ((forall p :: p in ps[1..] ==> Rank(ps[0].unit) < Rank(p.unit)) && Ordered(ps[1..]))
  }

  /** Drops the falsy (zero) fields, keeping the order. */
  function NonZero(ps: seq<Part>): (r: seq<Part>)
    ensures |r| <= |ps|
    ensures forall p :: p in r ==> p in ps && p.value != 0
    ensures forall p :: p in ps && p.value != 0 ==> p in r
  {
    if ps == [] then []
    else if ps[0].value == 0 then NonZero(ps[1..])
    else [ps[0]] + NonZero(ps[1..])
  }

  /** Dropping fields keeps the remaining ones in their order. */
  lemma {:induction false} NonZeroOrdered(ps: seq<Part>)
    requires Ordered(ps)
    ensures Ordered(NonZero(ps))
  {
    if ps != [] {
      NonZeroOrdered(ps[1..]);
      if ps[0].value != 0 {
        var tail := NonZero(ps[1..]);
        assert NonZero(ps)[1..] == tail;
      }
    }
  }

  /** `Object.keys` lists the four fields in unit order. */
  lemma FieldsOrdered(t: TimeLeft)
    ensures Ordered(Fields(t))
  {
    if t.TimeLeft? {
      var d, h, m, s := Part(t.days, "days"), Part(t.hours, "hours"), Part(t.minutes, "minutes"), Part(t.seconds, "seconds");
      assert [s][1..] == [];
      assert Ordered([s]);
      assert [m, s][1..] == [s];
      assert Ordered([m, s]);
      assert [h, m, s][1..] == [m, s];
      assert Ordered([h, m, s]);
      assert [d, h, m, s][1..] == [h, m, s];
    }
  }

  /** No field is non-zero exactly when the time left is empty or zero. */
  lemma FieldsAllZero(t: TimeLeft)
    ensures (forall p :: p in Fields(t) ==> p.value == 0) <==>
            t.NoTimeLeft? || (t.days == 0 && t.hours == 0 && t.minutes == 0 && t.seconds == 0)
  {
    if t.TimeLeft? {
      var fs := Fields(t);
      assert fs[0] in fs && fs[1] in fs && fs[2] in fs && fs[3] in fs;
    }
  }

  /** The Timer's output for a `timeLeft` value. */
  function Display(t: TimeLeft): (v: TimerView)
    ensures v.Countdown? ==> |v.parts| > 0 && forall p :: p in v.parts ==> p.value != 0 && p in Fields(t)
    ensures v.Countdown? ==> forall p :: p in Fields(t) && p.value != 0 ==> p in v.parts
    ensures v.Countdown? ==> Ordered(v.parts)
    ensures v.UnlockedLabel? <==> t.NoTimeLeft? || (t.days == 0 && t.hours == 0 && t.minutes == 0 && t.seconds == 0)
  {
    var fs := Fields(t);
    var ps := NonZero(fs);
    FieldsOrdered(t);
    NonZeroOrdered(fs);
    FieldsAllZero(t);
    if |ps| > 0 then Countdown(ps)
    else UnlockedLabel
  }

  /** The Timer shows "Unlocked" exactly when less than one second is left,
      which includes every target that has already passed. */
  lemma ShowsUnlockedIffUnderASecond(target: Instant, now: Instant)
    ensures Display(CalculateTimeLeft(target, now)).UnlockedLabel? <==> target - now < MsPerSecond
  {
    var t := CalculateTimeLeft(target, now);
    if t.TimeLeft? && target - now >= MsPerSecond {
      WholeSeconds(target - now);
    }
  }
}
