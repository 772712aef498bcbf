/**
 Arithmetic on (seconds, nanoseconds) pairs: the subtraction that also rewrites its
 subtrahend, and the addition that steps a deadline, both with the 32-bit intermediates of
 the source.
 */
module TimeArith {
  import opened Bytes

  const NSEC: int := 1_000_000_000

  datatype Timespec = Timespec(sec: int, nsec: int)

  function Total(t: Timespec): int {
    t.sec * NSEC + t.nsec
  }

  predicate Normal(t: Timespec) {
    0 <= t.nsec < NSEC
  }

  /** The normal pair of a number of nanoseconds. */
  function FromNanos(n: int): (t: Timespec)
    ensures Normal(t) && Total(t) == n
  {
    Timespec(n / NSEC, n % NSEC)
  }

  /** A 32-bit `int`. */
  function Wrap32(n: int): int {
    (n + 0x8000_0000) % TWO32 - 0x8000_0000
  }

  // ------------------------------------------------------------- subtraction

  datatype Difference = Difference(result: Timespec, y: Timespec, negative: bool)

  /** Move whole seconds between the parts of `y` so that its nanoseconds lie below those
      of `x` by at most a second. */
  function Borrow(x: Timespec, y: Timespec): Timespec {
    if x.nsec < y.nsec then
      var n := Wrap32((y.nsec - x.nsec) / NSEC + 1);
      Timespec(y.sec + n, y.nsec - Wrap32(NSEC * n))
    else y
  }

  function Repay(x: Timespec, y: Timespec): Timespec {
    if x.nsec - y.nsec > NSEC then
      var n := Wrap32((x.nsec - y.nsec) / NSEC);
      Timespec(y.sec - n, y.nsec + Wrap32(NSEC * n))
    else y
  }

  function Subtract(x: Timespec, y: Timespec): Difference {
    var z := Repay(x, Borrow(x, y));
    Difference(Timespec(x.sec - z.sec, x.nsec - z.nsec), z, x.sec < z.sec)
  }

  /** A variable of the source that its time functions update through a pointer. */
  class TimeCell {
    var v: Timespec

    constructor (v: Timespec)
      ensures this.v == v
    {
      this.v := v;
    }
  }

  method TimevalSubtract(result: TimeCell, x: TimeCell, y: TimeCell) returns (negative: bool)
    requires result != x && result != y && x != y
    modifies result, y
    ensures Difference(result.v, y.v, negative) == Subtract(x.v, old(y.v))
  {
    if x.v.nsec < y.v.nsec {
      var n := Wrap32((y.v.nsec - x.v.nsec) / 1_000_000_000 + 1);
      y.v := y.v.(nsec := y.v.nsec - Wrap32(1_000_000_000 * n));
      y.v := y.v.(sec := y.v.sec + n);
    }
    if x.v.nsec - y.v.nsec > 1_000_000_000 {
      var n := Wrap32((x.v.nsec - y.v.nsec) / 1_000_000_000);
      y.v := y.v.(nsec := y.v.nsec + Wrap32(1_000_000_000 * n));
      y.v := y.v.(sec := y.v.sec - n);
    }
    result.v := Timespec(x.v.sec - y.v.sec, x.v.nsec - y.v.nsec);
    negative := x.v.sec < y.v.sec;
  }

  /** The result is the difference, with its nanoseconds between 0 and one second. */
  predicate Exact(x: Timespec, y: Timespec) {
    var d := Subtract(x, y);
    && Total(d.result) == Total(x) - Total(y)
    && Total(d.y) == Total(y)
    && 0 <= d.result.nsec <= NSEC
  }

  /** Subtraction is exact precisely while the number of seconds moved fits: two at most,
      since three thousand million does not fit a 32-bit `int`. */
  lemma ExactIff(x: Timespec, y: Timespec)
    ensures Exact(x, y) <==> -2 * NSEC < x.nsec - y.nsec < 3 * NSEC
  {
    var d := x.nsec - y.nsec;
    if d < 0 {
      BorrowCases(x, y);
    } else if d > NSEC {
      RepayCases(x, y);
    }
  }

  lemma BorrowCases(x: Timespec, y: Timespec)
    requires x.nsec < y.nsec
    ensures Exact(x, y) <==> -2 * NSEC < x.nsec - y.nsec
  {
    var k := (y.nsec - x.nsec) / NSEC + 1;
    var n := Wrap32(k);
    var z := Borrow(x, y);
    if k <= 2 {
      assert n == k && Wrap32(NSEC * n) == NSEC * n;
      assert Repay(x, z) == z;
    } else {
      assert Repay(x, z) == z by {
        assert x.nsec - z.nsec == x.nsec - y.nsec + Wrap32(NSEC * n);
      }
      Scaled(n);
    }
  }

  /** A count whose product with a second fits 32 bits is at most 2. */
  lemma Scaled(n: int)
    ensures Wrap32(NSEC * n) == NSEC * n <==> -2 <= n <= 2
  {
  }

  lemma RepayCases(x: Timespec, y: Timespec)
    requires x.nsec - y.nsec > NSEC
    ensures Exact(x, y) <==> x.nsec - y.nsec < 3 * NSEC
  {
    var n := Wrap32((x.nsec - y.nsec) / NSEC);
    Scaled(n);
  }

  /** Which of the pairs of that total it is: a borrow leaves some nanoseconds, up to a whole second;
      a repayment less than a second; and otherwise `y` is left as it is. */
  lemma ResultRange(x: Timespec, y: Timespec)
    requires Exact(x, y)
    ensures var d, n := Subtract(x, y), x.nsec - y.nsec;
            if n < 0 then 0 < d.result.nsec <= NSEC
            else if n > NSEC then 0 <= d.result.nsec < NSEC
            else d.y == y && d.result.nsec == n
  {
    ExactIff(x, y);
  }

  /** For normal pairs nothing overflows, the result is normal and the flag says exactly
      whether `x` precedes `y`. */
  lemma NormalSubtract(x: Timespec, y: Timespec)
    requires Normal(x) && Normal(y)
    ensures var d := Subtract(x, y);
            && Total(d.result) == Total(x) - Total(y) && Normal(d.result)
            && (d.negative <==> Total(x) < Total(y))
  {
    ExactIff(x, y);
    FlagIff(x, y);
    assert Subtract(x, y).result.nsec < NSEC;
  }

  /** The flag in general: one value of the difference, -1 second and 10^9 nanoseconds, counts
      as negative although it is zero. */
  lemma FlagIff(x: Timespec, y: Timespec)
    requires Exact(x, y)
    ensures var d := Subtract(x, y);
            d.negative <==> Total(x) < Total(y) || d.result == Timespec(-1, NSEC)
  {
  }

  // ------------------------------------------------------------------- drift

  /** `y` after subtracting it from each of `xs` in turn. */
  function Drift(y: Timespec, xs: seq<Timespec>): Timespec {
    if xs == [] then y else Subtract(xs[|xs| - 1], Drift(y, xs[..|xs| - 1])).y
  }

  function Borrowed(y: Timespec): Timespec {
    Timespec(y.sec + 1, y.nsec - NSEC)
  }

  lemma DriftStep(y0: Timespec, y: Timespec, x: Timespec)
    requires Normal(y0) && Normal(x) && (y == y0 || y == Borrowed(y0))
    ensures var z := Subtract(x, y).y; z == y0 || z == Borrowed(y0)
    ensures Exact(x, y)
  {
    ExactIff(x, y);
  }

  /** However often a normal start time is subtracted from normal readings, its value stays
      and its pair is one of two. */
  lemma {:induction false} DriftTwoForms(y: Timespec, xs: seq<Timespec>)
    requires Normal(y) && forall i :: 0 <= i < |xs| ==> Normal(xs[i])
    ensures Drift(y, xs) == y || Drift(y, xs) == Borrowed(y)
    ensures Total(Drift(y, xs)) == Total(y)
  {
    if xs != [] {
      var n := |xs| - 1;
      DriftTwoForms(y, xs[..n]);
      DriftStep(y, Drift(y, xs[..n]), xs[n]);
    }
  }

  /** The burst's stop test: whole seconds elapsed against the limit. */
  predicate Stops(x: Timespec, y: Timespec, lastSec: int) {
    Subtract(x, y).result.sec >= lastSec
  }

  /** The form matters in one nanosecond only: a borrowed start time misses the limit when
      the elapsed time equals it exactly. */
  lemma StopsIff(y0: Timespec, y: Timespec, x: Timespec, lastSec: int)
    requires Normal(y0) && Normal(x) && (y == y0 || y == Borrowed(y0))
    ensures var elapsed := Total(x) - Total(y0);
            Stops(x, y, lastSec) <==>
            elapsed >= lastSec * NSEC && !(y == Borrowed(y0) && elapsed == lastSec * NSEC)
  {
    ExactIff(x, y);
    var r := Subtract(x, y).result;
    assert Total(r) == Total(x) - Total(y0);
    if y == Borrowed(y0) {
      assert x.nsec - y.nsec == x.nsec - y0.nsec + NSEC;
      if x.nsec == y0.nsec {
        assert r == Timespec(x.sec - y0.sec - 1, NSEC);
      }
    }
  }

  // ---------------------------------------------------------------- addition

  /** The line that handles a carry: as written it adds a second's nanoseconds where it has
      to take them off. */
  datatype Carry = AsWritten | Repaired

  function Add(carry: Carry, x: Timespec, y: Timespec): Timespec {
    var sub := (x.nsec + y.nsec) % TWO32;
    if sub >= NSEC then
      Timespec(x.sec + y.sec + 1, (if carry.AsWritten? then sub + NSEC else sub - NSEC) % TWO32)
    else
      Timespec(x.sec + y.sec, sub)
  }

  method TimespecAdd(carry: Carry, result: TimeCell, x: Timespec, y: Timespec)
    modifies result
    ensures result.v == Add(carry, x, y)
  {
    var inc := 0;
    var sub := (x.nsec + y.nsec) % 0x1_0000_0000;
    if sub >= 1_000_000_000 {
      sub := (if carry.AsWritten? then sub + 1_000_000_000 else sub - 1_000_000_000) % 0x1_0000_0000;
      inc := 1;
    }
    result.v := Timespec(x.sec + y.sec + inc, sub);
  }

  /** As written the sum is right exactly when there is nothing to carry, and until the
      32 bits wrap a carry puts it two seconds too late. */
  lemma WrittenAddIff(x: Timespec, y: Timespec)
    requires x.nsec >= 0 && y.nsec >= 0
    ensures Total(Add(AsWritten, x, y)) == Total(x) + Total(y) <==> x.nsec + y.nsec < NSEC
    ensures NSEC <= x.nsec + y.nsec < TWO32 - NSEC ==>
              Total(Add(AsWritten, x, y)) == Total(x) + Total(y) + 2 * NSEC
  {
    var s := x.nsec + y.nsec;
    var sub := s % TWO32;
    assert s == sub + TWO32 * (s / TWO32);
    if sub >= NSEC {
      var w := (sub + NSEC) % TWO32;
      assert w == sub + NSEC || w == sub + NSEC - TWO32;
    }
  }

  lemma RepairedAdd(x: Timespec, y: Timespec)
    requires Normal(x) && 0 <= y.nsec <= NSEC
    ensures Normal(Add(Repaired, x, y)) && Total(Add(Repaired, x, y)) == Total(x) + Total(y)
  {
  }

  /** The deadline after `k` additions of the pause. */
  function Deadline(carry: Carry, start: Timespec, pause: int, k: nat): Timespec {
    if k == 0 then start else Add(carry, Deadline(carry, start, pause, k - 1), Timespec(0, pause))
  }

  /** The deadline is a multiple of the pause past the start, for every number of additions. */
  lemma {:induction false} DeadlineIsMultiple(start: Timespec, pause: int, k: nat)
    requires Normal(start) && 0 <= pause <= NSEC
    ensures Normal(Deadline(Repaired, start, pause, k))
    ensures Total(Deadline(Repaired, start, pause, k)) == Total(start) + k * pause
  {
    if k > 0 {
      DeadlineIsMultiple(start, pause, k - 1);
      RepairedAdd(Deadline(Repaired, start, pause, k - 1), Timespec(0, pause));
      assert (k - 1) * pause + pause == k * pause;
    }
  }

  /** As written, the deadlines up to the k-th are the intended ones exactly when the whole
      burst stays within the second it started in. */
  lemma {:induction false} WrittenDeadlineIff(start: Timespec, pause: int, k: nat)
    requires Normal(start) && 0 <= pause <= NSEC
    ensures (forall j: nat :: j <= k ==> SameDeadline(start, pause, j)) <==> start.nsec + k * pause < NSEC
  {
    if k > 0 {
      WrittenDeadlineIff(start, pause, k - 1);
      assert (k - 1) * pause + pause == k * pause;
      if start.nsec + (k - 1) * pause < NSEC {
        assert SameDeadline(start, pause, k - 1);
        SameDeadlineStep(start, pause, k);
      }
    }
  }

  predicate SameDeadline(start: Timespec, pause: int, j: nat) {
    Deadline(AsWritten, start, pause, j) == Deadline(Repaired, start, pause, j)
  }

  lemma SameDeadlineStep(start: Timespec, pause: int, k: nat)
    requires Normal(start) && 0 <= pause <= NSEC && k > 0
    requires SameDeadline(start, pause, k - 1) && start.nsec + (k - 1) * pause < NSEC
    ensures SameDeadline(start, pause, k) <==> start.nsec + k * pause < NSEC
  {
    var d := Deadline(Repaired, start, pause, k - 1);
    DeadlineIsMultiple(start, pause, k - 1);
    TimesOn(k - 1, pause);
    assert d == Timespec(start.sec, start.nsec + (k - 1) * pause) by {
      TimesOn(k - 1, pause);
    }
    SameSumIff(d, pause);
  }

  lemma TimesOn(k: nat, p: int)
    requires p >= 0
    ensures k * p + p == (k + 1) * p && k * p >= 0
  {
  }

  lemma SameSumIff(d: Timespec, pause: int)
    requires Normal(d) && 0 <= pause <= NSEC
    ensures Add(AsWritten, d, Timespec(0, pause)) == Add(Repaired, d, Timespec(0, pause)) <==> d.nsec + pause < NSEC
  {
    WrittenAddIff(d, Timespec(0, pause));
    RepairedAdd(d, Timespec(0, pause));
  }
}
