/**
 The pacing of the burst loop with its carry as it is written: which runs keep the rate, and
 how many turns a burst can take.
 */
module WrittenPacing {
  import opened Bytes
  import opened TimeArith
  import opened BurstModel

  /** Within the second it starts in, the loop as written takes exactly the runs intended. */
  lemma WrittenRunSame(start: int, pause: int, lastSec: nat, turns: seq<Turn>)
    requires 0 <= pause <= NSEC && start % NSEC + |turns| * pause < NSEC
    ensures Run(AsWritten, start, pause, lastSec, turns) <==> Run(Repaired, start, pause, lastSec, turns)
  {
    WrittenDeadlineIff(FromNanos(start), pause, |turns|);
    forall i | 0 < i < |turns|
      ensures Follows(AsWritten, start, pause, turns, i) <==> Follows(Repaired, start, pause, turns, i)
    {
      assert SameDeadline(FromNanos(start), pause, i + 1);
    }
  }

  // ------------------------------------------------------- the deadlines as written

  /** The nanoseconds after an addition as written, and by how much the deadline gets later. */
  function NextNsec(n: int, p: int): int {
    if n + p < NSEC then n + p
    else if n + p + NSEC < TWO32 then n + p + NSEC
    else if n + p < TWO32 then n + p + NSEC - TWO32
    else n + p - TWO32
  }

  function Delay(n: int, p: int): int {
    if n + p < NSEC then 0
    else if n + p + NSEC < TWO32 then 2 * NSEC
    else if n + p < TWO32 then 2 * NSEC - TWO32
    else -TWO32
  }

  lemma WrittenAdd(d: Timespec, p: int)
    requires 1 <= p <= NSEC && 0 <= d.nsec < TWO32
    ensures var e := Add(AsWritten, d, Timespec(0, p));
            e.nsec == NextNsec(d.nsec, p) && Total(e) == Total(d) + p + Delay(d.nsec, p)
  {
  }

  /** A sleep until a deadline whose nanoseconds stay below three seconds still reaches it. */
  lemma LateSleptReaches(d: Timespec, now: int, next: int)
    requires 2 * NSEC <= d.nsec < 3 * NSEC && Slept(d, now, next)
    ensures Total(d) <= next
  {
    ExactIff(d, FromNanos(now));
    FlagIff(d, FromNanos(now));
  }

  /** A deadline of three seconds' worth of nanoseconds or more: on a whole second its sleep
      request is rejected, and the next turn may begin at once. */
  lemma RejectedSleep(d: Timespec, now: int)
    requires 3 * NSEC <= d.nsec < TWO32 && now % NSEC == 0
    ensures Left(d, now).result.nsec > NSEC && Slept(d, now, now)
  {
    var k := d.nsec / NSEC;
    assert k == 3 || k == 4;
    assert Wrap32(k) == k && Wrap32(NSEC * k) == NSEC * k - TWO32;
    assert Left(d, now).result.nsec == d.nsec - NSEC * k + TWO32;
  }

  /** Deadlines below three seconds' worth of nanoseconds are waited for. */
  lemma TurnWaits(d: Timespec, now: int, next: int)
    requires (Normal(d) || 2 * NSEC <= d.nsec) && Slept(d, now, next)
    ensures now <= next && (d.nsec < 3 * NSEC ==> Total(d) <= next)
  {
    if Normal(d) {
      SleptReaches(d, now, next);
    } else if d.nsec < 3 * NSEC {
      LateSleptReaches(d, now, next);
    }
  }

  /** How far 2^32 ns are past four seconds. */
  const WRAP: int := TWO32 - 4 * NSEC

  lemma OneMore(i: int, p: int)
    ensures i * p + p == (i + 1) * p
  {
  }

  lemma DeadlineNext(start: int, p: int, k: nat)
    requires 1 <= p <= NSEC
    ensures var d, e := Deadline(AsWritten, FromNanos(start), p, k), Deadline(AsWritten, FromNanos(start), p, k + 1);
            0 <= d.nsec < TWO32 && e.nsec == NextNsec(d.nsec, p) && Total(e) == Total(d) + p + Delay(d.nsec, p)
  {
    var d := Deadline(AsWritten, FromNanos(start), p, k);
    if k > 0 {
      assert d == Add(AsWritten, Deadline(AsWritten, FromNanos(start), p, k - 1), Timespec(0, p));
    }
    WrittenAdd(d, p);
  }

  // ------------------------------------------------------- how late the deadlines are

  /** Pauses up to this long let every cycle of the nanoseconds carry four times. */
  const SHORT: int := 50_000_000

  /** By how much a deadline is late at least, for the seconds its nanoseconds have lost. */
  function Gain(short: bool, x: int): int {
    if short then 12 * x else x
  }

  /** What the deadline's nanoseconds `n` say of `late`, the deadline less the time intended, at
      rates of 3 and more; `w` is the time intended, from the second of the start. A carry adds
      two seconds, and after three or four carries the 32 bits wrap and take less than that back. */
  predicate Late(short: bool, p: int, w: int, n: int, late: int) {
    || (0 <= n < NSEC && w >= n && late >= Gain(short, w - n)
        && (short && w != n ==> late >= 8 * NSEC - TWO32))
    || (2 * NSEC <= n < 2 * NSEC + p && w >= n - NSEC && late >= Gain(short, w - n + NSEC) + 2 * NSEC)
    || (3 * NSEC <= n < 3 * NSEC + 2 * p && w >= n - 2 * NSEC && late >= Gain(short, w - n + 2 * NSEC) + 4 * NSEC)
    || (4 * NSEC <= n < 4 * NSEC + 3 * p && n < TWO32 && w >= n - 3 * NSEC
        && late >= Gain(short, w - n + 3 * NSEC) + 6 * NSEC)
  }

  lemma LateStep(short: bool, p: int, w: int, n: int, late: int, w': int, n': int, late': int)
    requires 1 <= p && 3 * p <= NSEC && (short ==> p <= SHORT) && Late(short, p, w, n, late)
    requires w' == w + p && n' == NextNsec(n, p) && late' == late + Delay(n, p)
    ensures Late(short, p, w', n', late')
  {
  }

  /** The `k`-th deadline, intended `at` nanoseconds past the start. */
  predicate LateAt(short: bool, start: int, p: int, k: nat, at: int) {
    var d := Deadline(AsWritten, FromNanos(start), p, k);
    Late(short, p, at + start % NSEC, d.nsec, Total(d) - (start + at))
  }

  /** Every deadline of every burst, at rates of 3 and more. */
  lemma {:induction false} DeadlineLate(short: bool, start: int, p: int, k: nat)
    requires 1 <= p && 3 * p <= NSEC && (short ==> p <= SHORT)
    ensures LateAt(short, start, p, k, k * p)
  {
    if k > 0 {
      DeadlineLate(short, start, p, k - 1);
      OneMore(k - 1, p);
      LateNext(short, start, p, k - 1, (k - 1) * p, k * p);
    }
  }

  lemma LateNext(short: bool, start: int, p: int, k: nat, at: int, at': int)
    requires 1 <= p && 3 * p <= NSEC && (short ==> p <= SHORT)
    requires at' == at + p && LateAt(short, start, p, k, at)
    ensures LateAt(short, start, p, k + 1, at')
  {
    var d, e := Deadline(AsWritten, FromNanos(start), p, k), Deadline(AsWritten, FromNanos(start), p, k + 1);
    DeadlineNext(start, p, k);
    LateStep(short, p, at + start % NSEC, d.nsec, Total(d) - (start + at),
             at' + start % NSEC, e.nsec, Total(e) - (start + at'));
  }

  // ------------------------------------------------------- how the turns follow

  /** The deadline moves on from `n` and `late` to `n'` and `late'`. The turn that waits for it,
      `gap'` past the time intended, begins no earlier than the one before, or waits in full. */
  predicate Moves(p: int, n: int, late: int, gap: int, n': int, late': int, gap': int) {
    && n' == NextNsec(n, p) && late' == late + Delay(n, p)
    && (gap' >= gap - p || (n < NSEC && late >= 0))
    && (n' < 3 * NSEC ==> gap' >= late')
  }

  /** What a turn can miss of its deadline: after three carries the sleeps are rejected. */
  function Missed(p: int, n: int): int {
    if n < 3 * NSEC then 0 else if n < 4 * NSEC then 2 * NSEC + p else 4 * NSEC + 2 * p
  }

  lemma WaitsStep(short: bool, p: int, w: int, n: int, late: int, gap: int, n': int, late': int, gap': int)
    requires 1 <= p && 3 * p <= NSEC && Late(short, p, w, n, late)
    requires gap >= late - Missed(p, n) && Moves(p, n, late, gap, n', late', gap')
    ensures gap' >= late' - Missed(p, n')
  {
  }

  /** Turn `i` begins no earlier than its deadline, less what it can miss of it. */
  predicate Waits(start: int, p: int, turns: seq<Turn>, i: nat)
    requires i < |turns|
  {
    var d := Deadline(AsWritten, FromNanos(start), p, i + 1);
    Total(d) - Missed(p, d.nsec) <= turns[i].begin
  }

  /** `begin` stands for the beginning of turn `i - 1`, or for its deadline if that is on time. */
  lemma WaitsNext(start: int, p: int, turns: seq<Turn>, i: nat, begin: int)
    requires 1 <= p && 3 * p <= NSEC
    requires 0 < i < |turns| && Follows(AsWritten, start, p, turns, i)
    requires var d := Deadline(AsWritten, FromNanos(start), p, i);
             && Total(d) - Missed(p, d.nsec) <= begin
             && (begin <= turns[i - 1].now || (Normal(d) && Total(d) >= start + i * p))
    ensures Waits(start, p, turns, i)
  {
    var d, e := Deadline(AsWritten, FromNanos(start), p, i), Deadline(AsWritten, FromNanos(start), p, i + 1);
    DeadlineNext(start, p, i);
    DeadlineLate(false, start, p, i);
    DeadlineLate(false, start, p, i + 1);
    OneMore(i, p);
    TurnWaits(e, turns[i - 1].now, turns[i].begin);
    var at, at' := start + i * p, start + (i + 1) * p;
    WaitsStep(false, p, i * p + start % NSEC, d.nsec, Total(d) - at, begin - at,
              e.nsec, Total(e) - at', turns[i].begin - at');
  }

  lemma {:induction false} WaitsAlong(start: int, p: int, lastSec: nat, turns: seq<Turn>, first: nat, i: nat)
    requires 1 <= p && 3 * p <= NSEC
    requires Run(AsWritten, start, p, lastSec, turns) && first <= i < |turns| && Waits(start, p, turns, first)
    ensures Waits(start, p, turns, i)
  {
    if first < i {
      WaitsAlong(start, p, lastSec, turns, first, i - 1);
      assert Follows(AsWritten, start, p, turns, i);
      WaitsNext(start, p, turns, i, turns[i - 1].begin);
    }
  }

  /** At rates of 3 and more every turn waits, but for the first three of a burst that carries
      at once. */
  lemma AllWait(start: int, p: int, lastSec: nat, turns: seq<Turn>, i: nat)
    requires 1 <= p && 3 * p <= NSEC && Run(AsWritten, start, p, lastSec, turns)
    requires i < |turns| && i >= if start % NSEC + p < NSEC then 1 else 3
    ensures Waits(start, p, turns, i)
  {
    if start % NSEC + p < NSEC {
      DeadlineNext(start, p, 0);
      assert Follows(AsWritten, start, p, turns, 1);
      WaitsNext(start, p, turns, 1, start + p);
      WaitsAlong(start, p, lastSec, turns, 1, i);
    } else {
      CarryingStart3(start, p, lastSec, turns);
      WaitsAlong(start, p, lastSec, turns, 3, i);
    }
  }

  /** So no such turn is before its time. */
  lemma WaitsSafe(start: int, p: int, turns: seq<Turn>, i: nat)
    requires 1 <= p && 3 * p <= NSEC && i < |turns| && Waits(start, p, turns, i)
    ensures start + (i + 1) * p <= turns[i].begin
  {
    DeadlineLate(false, start, p, i + 1);
  }

  // ------------------------------------------------------- a rate of 2

  /** The same at a rate of 2, for deadline and turn together. Its deadlines can wrap to a little
      before the intended time; `strict` says that the turns then still live on an earlier wait. */
  predicate KeptFor(strict: bool, n: int, late: int, gap: int) {
    var p := NSEC / 2;
    || (0 <= n < NSEC && late >= 0 && gap >= 0)
    || (0 <= n < p - WRAP && late >= -WRAP && gap >= (if strict then p else -WRAP))
    || (p <= n < NSEC - WRAP && late >= -WRAP && gap >= (if strict then 0 else -WRAP))
    || (2 * NSEC <= n < 2 * NSEC + p && gap >= late >= 2 * NSEC - (if n >= 2 * NSEC + p - WRAP then 0 else WRAP))
    || (3 * NSEC + p <= n < 4 * NSEC && late >= 4 * NSEC - (if n >= 4 * NSEC - WRAP then 0 else WRAP)
        && gap >= late - 2 * NSEC - p)
  }

  lemma KeptStep(strict: bool, n: int, late: int, gap: int, n': int, late': int, gap': int)
    requires KeptFor(strict, n, late, gap) && Moves(NSEC / 2, n, late, gap, n', late', gap')
    ensures KeptFor(strict, n', late', gap')
  {
  }

  lemma KeptRange(strict: bool, n: int, late: int, gap: int)
    requires KeptFor(strict, n, late, gap)
    ensures 0 <= NextNsec(n, NSEC / 2) < NSEC || 2 * NSEC <= NextNsec(n, NSEC / 2)
  {
  }

  predicate Kept(strict: bool, d: Timespec, at: int, begin: int) {
    KeptFor(strict, d.nsec, Total(d) - at, begin - at)
  }

  lemma KeptTurn(strict: bool, p: int, d: Timespec, e: Timespec, at: int, at': int, begin: int, now: int, next: int)
    requires 2 * p == NSEC && at' == at + p
    requires Kept(strict, d, at, begin) && (begin <= now || (Normal(d) && Total(d) >= at))
    requires e.nsec == NextNsec(d.nsec, p) && Total(e) == Total(d) + p + Delay(d.nsec, p)
    requires Slept(e, now, next)
    ensures Kept(strict, e, at', next)
  {
    KeptRange(strict, d.nsec, Total(d) - at, begin - at);
    TurnWaits(e, now, next);
    KeptStep(strict, d.nsec, Total(d) - at, begin - at, e.nsec, Total(e) - at', next - at');
  }

  predicate KeptAt(strict: bool, start: int, p: int, turns: seq<Turn>, i: nat)
    requires i < |turns|
  {
    Kept(strict, Deadline(AsWritten, FromNanos(start), p, i + 1), start + (i + 1) * p, turns[i].begin)
  }

  lemma KeptNext(strict: bool, start: int, p: int, turns: seq<Turn>, i: nat, begin: int)
    requires 2 * p == NSEC
    requires 0 < i < |turns| && Follows(AsWritten, start, p, turns, i)
    requires var d := Deadline(AsWritten, FromNanos(start), p, i);
             && Kept(strict, d, start + i * p, begin)
             && (begin <= turns[i - 1].now || (Normal(d) && Total(d) >= start + i * p))
    ensures KeptAt(strict, start, p, turns, i)
  {
    var d, e := Deadline(AsWritten, FromNanos(start), p, i), Deadline(AsWritten, FromNanos(start), p, i + 1);
    DeadlineNext(start, p, i);
    OneMore(i, p);
    KeptTurn(strict, p, d, e, start + i * p, start + (i + 1) * p, begin, turns[i - 1].now, turns[i].begin);
  }

  /** From turn `first` on, the bounds hold at every turn. */
  lemma {:induction false} KeptAlong(strict: bool, start: int, p: int, lastSec: nat, turns: seq<Turn>,
                                     first: nat, i: nat)
    requires 2 * p == NSEC
    requires Run(AsWritten, start, p, lastSec, turns) && first <= i < |turns|
    requires KeptAt(strict, start, p, turns, first)
    ensures KeptAt(strict, start, p, turns, i)
  {
    if first < i {
      KeptAlong(strict, start, p, lastSec, turns, first, i - 1);
      assert Follows(AsWritten, start, p, turns, i);
      KeptNext(strict, start, p, turns, i, turns[i - 1].begin);
    }
  }

  // ------------------------------------------------------- the rate

  lemma WrittenRateSafe(start: int, p: int, lastSec: nat, turns: seq<Turn>, i: nat)
    requires 1 <= p && (3 * p <= NSEC || 2 * p == NSEC) && start % NSEC + p < NSEC
    requires Run(AsWritten, start, p, lastSec, turns) && 0 < i < |turns|
    ensures start + (i + 1) * p <= turns[i].begin
  {
    if 2 * p == NSEC {
      DeadlineNext(start, p, 0);
      assert Follows(AsWritten, start, p, turns, 1);
      KeptNext(true, start, p, turns, 1, start + p);
      KeptAlong(true, start, p, lastSec, turns, 1, i);
    } else {
      AllWait(start, p, lastSec, turns, i);
      WaitsSafe(start, p, turns, i);
    }
  }

  /** Every run as written keeps the rate at every wait. */
  ghost predicate WrittenIsSafe(start: int, p: int, lastSec: nat) {
    forall turns: seq<Turn>, i :: 0 < i < |turns| && Run(AsWritten, start, p, lastSec, turns) ==>
      start + (i + 1) * p <= turns[i].begin
  }

  /** As written, every run of a burst keeps the rate at every wait exactly when the first
      addition has nothing to carry, or the burst has no second turn: it lasts no second, or one
      second at one packet a second and the second deadline wraps. */
  lemma WrittenRateSafeIff(start: int, rate: int, lastSec: nat)
    requires 1 <= rate <= NSEC
    ensures 1 <= Pause(rate) <= NSEC
    ensures WrittenIsSafe(start, Pause(rate), lastSec) <==>
            || start % NSEC + Pause(rate) < NSEC
            || lastSec == 0
            || (lastSec == 1 && rate == 1 && start % NSEC >= WRAP)
  {
    var p := Pause(rate);
    PauseClasses(rate);
    if start % NSEC + p < NSEC {
      forall turns: seq<Turn>, i | 0 < i < |turns| && Run(AsWritten, start, p, lastSec, turns)
        ensures start + (i + 1) * p <= turns[i].begin
      {
        WrittenRateSafe(start, p, lastSec, turns, i);
      }
    } else if lastSec == 0 || (lastSec == 1 && rate == 1 && start % NSEC >= WRAP) {
      forall turns | Run(AsWritten, start, p, lastSec, turns) ensures |turns| <= 1 {
        OneTurnAtMost(start, p, lastSec, turns);
      }
    } else {
      var turns := EarlyTurns(start, p, lastSec);
      assert start + (1 + 1) * p > turns[1].begin;
    }
  }

  lemma OneTurnAtMost(start: int, p: int, lastSec: nat, turns: seq<Turn>)
    requires Run(AsWritten, start, p, lastSec, turns)
    requires lastSec == 0 || (lastSec == 1 && p == NSEC && start % NSEC >= WRAP)
    ensures |turns| <= 1
  {
    NoTime(AsWritten, start, p, turns);
    if |turns| > 1 {
      SecondDeadline(start, p);
      Reaches(start, p, lastSec, turns, 1);
      TurnInTime(AsWritten, start, p, lastSec, turns, 1);
    }
  }

  lemma PauseClasses(rate: int)
    requires 1 <= rate <= NSEC
    ensures 1 <= Pause(rate) <= NSEC
    ensures rate == 1 ==> Pause(rate) == NSEC
    ensures rate == 2 ==> 2 * Pause(rate) == NSEC
    ensures rate >= 3 ==> 3 * Pause(rate) <= NSEC
    ensures rate * Pause(rate) <= NSEC
  {
    PauseRange(rate);
    if rate >= 3 {
      Monotone(3, rate, Pause(rate));
    }
  }

  /** The second deadline, when the first addition carries. */
  lemma SecondDeadline(start: int, p: int)
    requires 1 <= p <= NSEC && start % NSEC + p >= NSEC
    ensures var n, d := start % NSEC + 2 * p + 2 * NSEC, Deadline(AsWritten, FromNanos(start), p, 2);
            && d.nsec == (if n < TWO32 then n else n - TWO32)
            && Total(d) == start + 2 * p + 4 * NSEC - (if n < TWO32 then 0 else TWO32)
  {
    DeadlineNext(start, p, 0);
    DeadlineNext(start, p, 1);
  }

  /** Two turns of a run as written, the second too early. */
  lemma EarlyTurns(start: int, p: int, lastSec: nat) returns (turns: seq<Turn>)
    requires 1 <= p && (p == NSEC || 2 * p <= NSEC) && start % NSEC + p >= NSEC
    requires lastSec >= 2 || (lastSec == 1 && (p < NSEC || start % NSEC < WRAP))
    ensures |turns| == 2 && Run(AsWritten, start, p, lastSec, turns) && turns[1].begin < start + 2 * p
  {
    var d := Deadline(AsWritten, FromNanos(start), p, 2);
    SecondDeadline(start, p);
    var now, next;
    if start % NSEC + 2 * p + 2 * NSEC < TWO32 {
      now := if start % NSEC == 0 then start else start - start % NSEC + NSEC;
      next := now;
      RejectedSleep(d, now);
    } else {
      now, next := start, Total(d);
      NormalSubtract(d, FromNanos(now));
    }
    turns := [Turn(start, now), Turn(next, next)];
    StopTest(start, lastSec, turns[..0], start);
    StopTest(start, lastSec, turns[..1], next);
    assert Goes(start, lastSec, turns, 0) && Goes(start, lastSec, turns, 1);
    assert Follows(AsWritten, start, p, turns, 1);
  }

  // ------------------------------------------------------- the size of a burst as written

  /** After a carry at once, a rate of 2 has its third deadline on time up to one wrap. */
  lemma ThirdDeadline(start: int, p: int)
    requires 2 * p == NSEC && start % NSEC + p >= NSEC
    ensures var d := Deadline(AsWritten, FromNanos(start), p, 3);
            Normal(d) && KeptFor(false, d.nsec, Total(d) - (start + 3 * p), Total(d) - (start + 3 * p))
  {
    SecondDeadline(start, p);
    DeadlineNext(start, p, 2);
  }

  /** A higher rate has its third or its fourth deadline on time. */
  lemma FourthDeadline(start: int, p: int)
    requires 1 <= p && 3 * p <= NSEC && start % NSEC + p >= NSEC
    ensures var d, e := Deadline(AsWritten, FromNanos(start), p, 3), Deadline(AsWritten, FromNanos(start), p, 4);
            || (Normal(d) && Total(d) >= start + 3 * p)
            || (Normal(e) && Total(e) >= start + 4 * p)
  {
    SecondDeadline(start, p);
    DeadlineNext(start, p, 2);
    DeadlineNext(start, p, 3);
  }

  lemma CarryingStart2(start: int, p: int, lastSec: nat, turns: seq<Turn>)
    requires 2 * p == NSEC && start % NSEC + p >= NSEC
    requires Run(AsWritten, start, p, lastSec, turns) && |turns| > 2
    ensures KeptAt(false, start, p, turns, 2)
  {
    ThirdDeadline(start, p);
    Reaches(start, p, lastSec, turns, 2);
  }

  lemma CarryingStart3(start: int, p: int, lastSec: nat, turns: seq<Turn>)
    requires 1 <= p && 3 * p <= NSEC && start % NSEC + p >= NSEC
    requires Run(AsWritten, start, p, lastSec, turns) && |turns| > 3
    ensures Waits(start, p, turns, 3)
  {
    var d := Deadline(AsWritten, FromNanos(start), p, 3);
    FourthDeadline(start, p);
    if Normal(d) && Total(d) >= start + 3 * p {
      assert Follows(AsWritten, start, p, turns, 3);
      WaitsNext(start, p, turns, 3, Total(d));
    } else {
      Reaches(start, p, lastSec, turns, 3);
    }
  }

  lemma Reaches(start: int, p: int, lastSec: nat, turns: seq<Turn>, i: nat)
    requires 1 <= p <= NSEC && Run(AsWritten, start, p, lastSec, turns) && 0 < i < |turns|
    requires Normal(Deadline(AsWritten, FromNanos(start), p, i + 1))
    ensures Total(Deadline(AsWritten, FromNanos(start), p, i + 1)) <= turns[i].begin
  {
    assert Follows(AsWritten, start, p, turns, i);
    SleptReaches(Deadline(AsWritten, FromNanos(start), p, i + 1), turns[i - 1].now, turns[i].begin);
  }

  /** As written, a burst of rate 2 or more takes no more turns than an intended one. */
  lemma WrittenBurstSize(start: int, rate: int, lastSec: nat, turns: seq<Turn>)
    requires 2 <= rate <= NSEC && Run(AsWritten, start, Pause(rate), lastSec, turns)
    ensures |turns| <= MaxTurns(Pause(rate), lastSec)
  {
    PauseClasses(rate);
    NoTime(AsWritten, start, Pause(rate), turns);
    if lastSec > 0 {
      if |turns| <= (if rate == 2 then 2 else 3) {
        Few(|turns|, rate, Pause(rate), lastSec);
      } else {
        ManyTurns(start, Pause(rate), lastSec, turns);
      }
    }
  }

  lemma ManyTurns(start: int, p: int, lastSec: nat, turns: seq<Turn>)
    requires 1 <= p && (3 * p <= NSEC || 2 * p == NSEC)
    requires Run(AsWritten, start, p, lastSec, turns)
    requires |turns| > if 2 * p == NSEC then 2 else 3
    ensures |turns| <= MaxTurns(p, lastSec)
  {
    TurnInTime(AsWritten, start, p, lastSec, turns, |turns| - 1);
    LastTurnKept(start, p, lastSec, turns);
    TurnsFit(|turns|, p, lastSec);
  }

  lemma TurnsFit(n: nat, p: int, lastSec: nat)
    requires 1 <= p && n * p - (if 2 * p == NSEC then WRAP else 0) <= lastSec * NSEC
    ensures n <= MaxTurns(p, lastSec)
  {
    if 2 * p == NSEC {
      assert n * p == n * 500_000_000;
    }
    Quotient(n, p, lastSec * NSEC);
  }

  lemma LastTurnKept(start: int, p: int, lastSec: nat, turns: seq<Turn>)
    requires 1 <= p && (3 * p <= NSEC || 2 * p == NSEC)
    requires Run(AsWritten, start, p, lastSec, turns)
    requires |turns| > if 2 * p == NSEC then 2 else 3
    ensures start + |turns| * p - (if 2 * p == NSEC then WRAP else 0) <= turns[|turns| - 1].begin
  {
    var n := |turns|;
    if start % NSEC + p < NSEC {
      WrittenRateSafe(start, p, lastSec, turns, n - 1);
    } else if 2 * p == NSEC {
      CarryingStart2(start, p, lastSec, turns);
      KeptAlong(false, start, p, lastSec, turns, 2, n - 1);
    } else {
      AllWait(start, p, lastSec, turns, n - 1);
      WaitsSafe(start, p, turns, n - 1);
    }
  }

  lemma Few(n: nat, rate: int, p: int, lastSec: nat)
    requires n <= rate && 1 <= p && rate * p <= NSEC && lastSec >= 1
    ensures n <= MaxTurns(p, lastSec)
  {
    Monotone(n, rate, p);
    Quotient(n, p, lastSec * NSEC);
  }

  /** Every burst as written, whenever it starts and however long it lasts, stays within the
      size of an intended one. */
  ghost predicate WrittenStaysSmall(rate: int)
    requires 1 <= rate <= NSEC
  {
    PauseRange(rate);
    forall start: int, lastSec: nat, turns: seq<Turn> :: Run(AsWritten, start, Pause(rate), lastSec, turns) ==>
      |turns| <= MaxTurns(Pause(rate), lastSec)
  }

  /** That is so exactly for rates of 2 and more. */
  lemma WrittenSizeIff(rate: int)
    requires 1 <= rate <= NSEC
    ensures WrittenStaysSmall(rate) <==> rate >= 2
  {
    PauseClasses(rate);
    if rate >= 2 {
      forall start: int, lastSec: nat, turns: seq<Turn> | Run(AsWritten, start, Pause(rate), lastSec, turns)
        ensures |turns| <= MaxTurns(Pause(rate), lastSec)
      {
        WrittenBurstSize(start, rate, lastSec, turns);
      }
    } else {
      var turns := RateOneOverruns(0);
      assert MaxTurns(NSEC, 1) == 1;
    }
  }

  /** One packet a second for one second, started on a whole second: as written the request of
      the first sleep has more than a second of nanoseconds and is rejected, and the burst takes
      a second turn at once. */
  lemma RateOneOverruns(start: int) returns (turns: seq<Turn>)
    requires start % NSEC == 0
    ensures turns == [Turn(start, start), Turn(start, start)]
    ensures Run(AsWritten, start, NSEC, 1, turns)
    ensures Left(Deadline(AsWritten, FromNanos(start), NSEC, 2), start).result.nsec > NSEC
  {
    turns := [Turn(start, start), Turn(start, start)];
    SecondDeadline(start, NSEC);
    RejectedSleep(Deadline(AsWritten, FromNanos(start), NSEC, 2), start);
    StopTest(start, 1, turns[..0], start);
    StopTest(start, 1, turns[..1], start);
    assert Goes(start, 1, turns, 0) && Goes(start, 1, turns, 1);
    assert Follows(AsWritten, start, NSEC, turns, 1);
  }
}
