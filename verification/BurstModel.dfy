/**
 Runs of the burst loop as sequences of clock readings, for any clock that never goes back
 and any sleep that is never short.
 */
module BurstModel {
  import opened TimeArith

  /** One turn of the loop: the reading at its head and the reading before its sleep. */
  datatype Turn = Turn(begin: int, now: int)

  /** The turn's sleep request: the time left until the deadline. */
  function Left(deadline: Timespec, now: int): Difference {
    Subtract(deadline, FromNanos(now))
  }

  /** Does the turn that starts at `next` respect the sleep of the turn before it? An elapsed
      deadline asks for no sleep, and a request with abnormal nanoseconds is rejected. */
  predicate Slept(deadline: Timespec, now: int, next: int) {
    var d := Left(deadline, now);
    now <= next && (!d.negative && Normal(d.result) ==> now + Total(d.result) <= next)
  }

  function Begins(turns: seq<Turn>): seq<Timespec> {
    seq(|turns|, i requires 0 <= i < |turns| => FromNanos(turns[i].begin))
  }

  /** The start time as its cell stands after the stop tests of these turns. */
  function StartCell(start: int, turns: seq<Turn>): Timespec {
    Drift(FromNanos(start), Begins(turns))
  }

  /** `turns` are turns the loop may take: at the head of each the stop test fails, and each
      follows the sleep of the one before it. The deadline of turn i is the (i+2)-nd: one
      addition comes before the loop. */
  ghost predicate Run(carry: Carry, start: int, pause: int, lastSec: nat, turns: seq<Turn>) {
    && (forall i :: 0 <= i < |turns| ==> start <= turns[i].begin <= turns[i].now)
    && (forall i :: 0 <= i < |turns| ==> Goes(start, lastSec, turns, i))
    && (forall i :: 0 < i < |turns| ==> Follows(carry, start, pause, turns, i))
  }

  predicate Goes(start: int, lastSec: nat, turns: seq<Turn>, i: nat)
    requires i < |turns|
  {
    !Stops(FromNanos(turns[i].begin), StartCell(start, turns[..i]), lastSec)
  }

  predicate Follows(carry: Carry, start: int, pause: int, turns: seq<Turn>, i: nat)
    requires 0 < i < |turns|
  {
    Slept(Deadline(carry, FromNanos(start), pause, i + 1), turns[i - 1].now, turns[i].begin)
  }

  lemma SleptReaches(deadline: Timespec, now: int, next: int)
    requires Normal(deadline) && Slept(deadline, now, next)
    ensures Total(deadline) <= next
  {
    NormalSubtract(deadline, FromNanos(now));
  }

  /** Rate safety: the n-th turn, from the second on, never begins before the start plus n
      pauses. */
  lemma RateSafe(start: int, pause: int, lastSec: nat, turns: seq<Turn>, i: nat)
    requires 0 <= pause <= NSEC && Run(Repaired, start, pause, lastSec, turns)
    requires 0 < i < |turns|
    ensures start + (i + 1) * pause <= turns[i].begin
  {
    assert Follows(Repaired, start, pause, turns, i);
    var d := Deadline(Repaired, FromNanos(start), pause, i + 1);
    DeadlineIsMultiple(FromNanos(start), pause, i + 1);
    SleptReaches(d, turns[i - 1].now, turns[i].begin);
  }

  /** The stop test at turn i, in true time. */
  lemma StopTest(start: int, lastSec: nat, turns: seq<Turn>, begin: int)
    ensures var y := StartCell(start, turns);
            && (y == FromNanos(start) || y == Borrowed(FromNanos(start)))
            && (Stops(FromNanos(begin), y, lastSec) <==>
                begin - start >= lastSec * NSEC
                && !(y == Borrowed(FromNanos(start)) && begin - start == lastSec * NSEC))
  {
    DriftTwoForms(FromNanos(start), Begins(turns));
    StopsIff(FromNanos(start), StartCell(start, turns), FromNanos(begin), lastSec);
  }

  lemma TurnInTime(carry: Carry, start: int, pause: int, lastSec: nat, turns: seq<Turn>, i: nat)
    requires Run(carry, start, pause, lastSec, turns) && i < |turns|
    ensures turns[i].begin - start <= lastSec * NSEC
  {
    assert Goes(start, lastSec, turns, i);
    StopTest(start, lastSec, turns[..i], turns[i].begin);
  }

  /** A burst of no seconds takes no turn. */
  lemma NoTime(carry: Carry, start: int, pause: int, turns: seq<Turn>)
    ensures Run(carry, start, pause, 0, turns) ==> turns == []
  {
    if Run(carry, start, pause, 0, turns) && turns != [] {
      assert Goes(start, 0, turns, 0);
      assert Begins(turns[..0]) == [];
      StopTest(start, 0, turns[..0], turns[0].begin);
    }
  }

  /** The most turns a burst can take. */
  function MaxTurns(pause: int, lastSec: nat): nat
    requires pause > 0
  {
    var n := lastSec * NSEC / pause;
    if n < 1 then 1 else n
  }

  /** Burst size: however the clock behaves, the loop turns at most once per pause of the
      burst's duration, and at most once if that is shorter than a pause. */
  lemma BurstSize(start: int, pause: int, lastSec: nat, turns: seq<Turn>)
    requires 0 < pause <= NSEC && Run(Repaired, start, pause, lastSec, turns)
    ensures |turns| <= MaxTurns(pause, lastSec)
  {
    var n := |turns|;
    if n > 1 {
      RateSafe(start, pause, lastSec, turns, n - 1);
      TurnInTime(Repaired, start, pause, lastSec, turns, n - 1);
      Quotient(n, pause, lastSec * NSEC);
    }
  }

  lemma Quotient(n: nat, p: int, total: int)
    requires p > 0 && n * p <= total
    ensures n <= total / p
  {
    var q := total / p;
    assert total < (q + 1) * p;
    Monotone(q + 1, n, p);
  }

  lemma Monotone(a: int, b: int, p: int)
    requires p > 0
    ensures a <= b ==> a * p <= b * p
  {
  }

  /** The pause for a rate, as the source divides it. */
  function Pause(rate: int): int
    requires rate >= 1
  {
    NSEC / rate
  }

  /** The longest burst: started a nanosecond past a whole second, each reading falls just
      before the deadline after the next one, and the last on its own deadline. */
  function LongestBegin(p: int, n: nat, i: nat): int {
    1 + (if i == n - 1 then n * p else (i + 2) * p - 1)
  }

  function Longest(p: int, n: nat): (turns: seq<Turn>)
    ensures |turns| == n
  {
    seq(n, i requires 0 <= i < n => Turn(LongestBegin(p, n, i), LongestBegin(p, n, i)))
  }

  lemma LongestOrder(p: int, n: nat, i: nat)
    requires p >= 1 && i < n
    ensures 1 + (i + 1) * p <= LongestBegin(p, n, i) <= 1 + n * p
    ensures i < n - 1 ==> LongestBegin(p, n, i) < 1 + n * p
    ensures i > 0 ==> LongestBegin(p, n, i - 1) <= LongestBegin(p, n, i)
  {
    assert (i + 1) * p + p == (i + 2) * p;
    if i < n - 1 {
      Monotone(i + 2, n, p);
    }
  }

  lemma LongestFollows(p: int, n: nat, i: nat)
    requires 1 <= p <= NSEC && 0 < i < n
    ensures Follows(Repaired, 1, p, Longest(p, n), i)
  {
    var d, now := Deadline(Repaired, FromNanos(1), p, i + 1), LongestBegin(p, n, i - 1);
    LongestOrder(p, n, i);
    DeadlineIsMultiple(FromNanos(1), p, i + 1);
    NormalSubtract(d, FromNanos(now));
  }

  lemma LongestGoes(p: int, lastSec: nat, n: nat, i: nat)
    requires 1 <= p && 1 < n && n * p <= lastSec * NSEC && i < n
    ensures Goes(1, lastSec, Longest(p, n), i)
  {
    var turns := Longest(p, n);
    LongestOrder(p, n, i);
    StopTest(1, lastSec, turns[..i], turns[i].begin);
    if i == n - 1 && n * p == lastSec * NSEC {
      LongestBorrows(p, lastSec, n);
    }
  }

  /** When the last reading falls on the limit, the one before it has borrowed. */
  lemma LongestBorrows(p: int, lastSec: nat, n: nat)
    requires 1 <= p && 1 < n && n * p == lastSec * NSEC
    ensures StartCell(1, Longest(p, n)[..n - 1]) == Borrowed(FromNanos(1))
  {
    var turns := Longest(p, n)[..n - 1];
    assert turns[n - 2].begin == lastSec * NSEC;
    WholeSeconds(lastSec);
    LastBorrows(Begins(turns), lastSec);
  }

  lemma LastBorrows(xs: seq<Timespec>, sec: int)
    requires xs != [] && xs[|xs| - 1] == Timespec(sec, 0)
    requires forall i :: 0 <= i < |xs| ==> Normal(xs[i])
    ensures Drift(FromNanos(1), xs) == Borrowed(FromNanos(1))
  {
    DriftTwoForms(FromNanos(1), xs[..|xs| - 1]);
  }

  lemma WholeSeconds(n: nat)
    ensures FromNanos(n * NSEC) == Timespec(n, 0)
  {
  }

  /** The bound on the size is attained. */
  lemma BurstSizeTight(p: int, lastSec: nat) returns (turns: seq<Turn>)
    requires 1 <= p <= NSEC && lastSec >= 1
    ensures Run(Repaired, 1, p, lastSec, turns) && |turns| == MaxTurns(p, lastSec)
  {
    var n := MaxTurns(p, lastSec);
    if n == 1 {
      turns := [Turn(1, 1)];
      StopTest(1, lastSec, turns[..0], 1);
      assert Goes(1, lastSec, turns, 0);
    } else {
      turns := Longest(p, n);
      FloorTimes(lastSec * NSEC, p);
      forall i | 0 <= i < n ensures turns[i].begin >= 1 && Goes(1, lastSec, turns, i) {
        LongestOrder(p, n, i);
        LongestGoes(p, lastSec, n, i);
      }
      forall i | 0 < i < n ensures Follows(Repaired, 1, p, turns, i) {
        LongestFollows(p, n, i);
      }
    }
  }

  lemma FloorTimes(total: nat, p: int)
    requires p >= 1
    ensures total / p * p <= total
  {
  }

  /** No run of a burst has more turns than the asked rate allows. */
  ghost predicate RespectsRate(rate: int, lastSec: nat)
    requires 1 <= rate <= NSEC
  {
    forall start: int, turns: seq<Turn> :: Run(Repaired, start, Pause(rate), lastSec, turns) ==>
      |turns| <= lastSec * rate
  }

  /** That is so exactly when the nanoseconds lost by rounding the pause down, over all the
      seconds, do not make up one more pause. */
  lemma RateRespectedIff(rate: int, lastSec: nat)
    requires 1 <= rate <= NSEC
    ensures RespectsRate(rate, lastSec) <==> lastSec * (NSEC % rate) < Pause(rate)
  {
    PauseRange(rate);
    if lastSec == 0 {
      forall start: int, turns: seq<Turn> ensures Run(Repaired, start, Pause(rate), 0, turns) ==> turns == [] {
        NoTime(Repaired, start, Pause(rate), turns);
      }
    } else {
      BoundRespectedIff(rate, lastSec);
      forall start: int, turns: seq<Turn> | Run(Repaired, start, Pause(rate), lastSec, turns)
        ensures |turns| <= MaxTurns(Pause(rate), lastSec)
      {
        BurstSize(start, Pause(rate), lastSec, turns);
      }
      var longest := BurstSizeTight(Pause(rate), lastSec);
    }
  }

  lemma BoundRespectedIff(rate: int, lastSec: nat)
    requires 1 <= rate <= NSEC && lastSec >= 1
    ensures 1 <= Pause(rate) <= NSEC
    ensures MaxTurns(Pause(rate), lastSec) <= lastSec * rate <==> lastSec * (NSEC % rate) < Pause(rate)
  {
    var p, r := Pause(rate), NSEC % rate;
    PauseRange(rate);
    assert lastSec * NSEC == lastSec * rate * p + lastSec * r by {
      assert NSEC == rate * p + r;
      Distribute(lastSec, rate, p, r);
    }
    Overshoot(lastSec * rate, p, lastSec * r);
    assert lastSec * rate >= 1 by { AtLeastOne(lastSec, rate); }
  }

  lemma PauseRange(rate: int)
    requires 1 <= rate <= NSEC
    ensures 1 <= Pause(rate) <= NSEC && NSEC == rate * Pause(rate) + NSEC % rate && 0 <= NSEC % rate < rate
  {
  }

  lemma Distribute(a: int, b: int, c: int, d: int)
    ensures a * (b * c + d) == a * b * c + a * d
  {
  }

  lemma AtLeastOne(a: int, b: int)
    requires a >= 1 && b >= 1
    ensures a * b >= 1
  {
  }

  lemma Overshoot(n: int, p: int, extra: int)
    requires p >= 1 && extra >= 0 && n >= 0
    ensures (n * p + extra) / p <= n <==> extra < p
  {
    var q := (n * p + extra) / p;
    if extra < p {
      assert q * p <= n * p + extra < (n + 1) * p;
      Monotone(n + 1, q, p);
    } else {
      assert (q + 1) * p > n * p + extra >= (n + 1) * p;
      Monotone(q + 1, n + 1, p);
    }
  }

  // ------------------------------------------------------- an exact world

  /** When a sleep that lasts just as asked is over; a deadline that is past asks for none. */
  function Until(deadline: Timespec, now: int): int {
    var d := Left(deadline, now);
    if d.negative || !Normal(d.result) then now else now + Total(d.result)
  }

  /** When the turn after these begins, if time passes in sending and in sleeps only. */
  function NextBegin(carry: Carry, start: int, pause: int, turns: seq<Turn>): int {
    if turns == [] then start
    else Until(Deadline(carry, FromNanos(start), pause, |turns| + 1), turns[|turns| - 1].now)
  }

  predicate Punctual(carry: Carry, start: int, pause: int, turns: seq<Turn>) {
    forall i :: 0 <= i < |turns| ==> turns[i].begin == NextBegin(carry, start, pause, turns[..i])
  }

  /** With the carry repaired a turn that is late is followed at once, and one that is not by a
      turn on the deadline. */
  lemma PunctualNext(start: int, pause: int, turns: seq<Turn>)
    requires 0 <= pause <= NSEC && turns != []
    ensures var at, now := start + (|turns| + 1) * pause, turns[|turns| - 1].now;
            NextBegin(Repaired, start, pause, turns) == if at < now then now else at
  {
    var k := |turns| + 1;
    DeadlineIsMultiple(FromNanos(start), pause, k);
    NormalSubtract(Deadline(Repaired, FromNanos(start), pause, k), FromNanos(turns[|turns| - 1].now));
  }

  /** Every turn's sending takes less than a pause. */
  predicate Quick(pause: int, turns: seq<Turn>) {
    forall i :: 0 <= i < |turns| ==> turns[i].begin <= turns[i].now < turns[i].begin + pause
  }

  /** Then every turn but the first begins just on its deadline. */
  lemma {:induction false} OnDeadline(start: int, pause: int, turns: seq<Turn>, i: nat)
    requires 1 <= pause <= NSEC && Punctual(Repaired, start, pause, turns) && Quick(pause, turns) && 0 < i <= |turns|
    ensures NextBegin(Repaired, start, pause, turns[..i]) == start + (i + 1) * pause
  {
    var n := i - 1;
    assert turns[n].begin == NextBegin(Repaired, start, pause, turns[..n]);
    if n > 0 {
      OnDeadline(start, pause, turns, n);
    }
    DueIn(start, pause, turns[n].begin, i);
    assert turns[..i][i - 1] == turns[n];
    PunctualNext(start, pause, turns[..i]);
  }

  lemma DueIn(start: int, pause: int, begin: int, i: nat)
    requires pause >= 1 && i > 0 && (begin == start || begin == start + i * pause)
    ensures begin + pause <= start + (i + 1) * pause
  {
    OnePauseMore(i, pause);
    if begin == start {
      Monotone(0, i, pause);
    }
  }

  /** The turns of a burst in an exact world, if every turn's sending takes less than a pause:
      one for each pause that fits the duration. When they fill it just, the last one takes place
      only if a reading a pause earlier has made the start time borrow. */
  function ExactCount(start: int, pause: int, lastSec: nat): nat
    requires pause >= 1
  {
    var q := lastSec * NSEC / pause;
    if lastSec == 0 then 0
    else if lastSec * NSEC % pause != 0 || q <= 1 || (q >= 3 && pause <= start % NSEC) then q
    else q - 1
  }

  lemma ExactTurns(start: int, pause: int, lastSec: nat, turns: seq<Turn>)
    requires 1 <= pause <= NSEC && Run(Repaired, start, pause, lastSec, turns)
    requires Punctual(Repaired, start, pause, turns) && Quick(pause, turns)
    requires Stops(FromNanos(NextBegin(Repaired, start, pause, turns)), StartCell(start, turns), lastSec)
    ensures |turns| == ExactCount(start, pause, lastSec)
  {
    var n, end := |turns|, NextBegin(Repaired, start, pause, turns);
    NoTime(Repaired, start, pause, turns);
    StopTest(start, lastSec, turns, end);
    if lastSec > 0 {
      assert n > 0 by {
        assert turns == [] ==> end == start;
      }
      assert turns[..n] == turns;
      OnDeadline(start, pause, turns, n);
      LastGoes(start, pause, lastSec, turns);
      var q := lastSec * NSEC / pause;
      Between(n, pause, lastSec * NSEC);
      if lastSec * NSEC % pause == 0 && q >= 2 {
        PunctualPrefix(start, pause, turns, q - 1);
        FullCell(start, pause, lastSec, turns[..q - 1], q);
        assert n == q - 1 ==> turns[..q - 1] == turns;
        assert (q - 1 + 1) * pause == lastSec * NSEC;
      }
    }
  }

  /** The last turn is within the limit; on it only when the start time has borrowed. */
  lemma LastGoes(start: int, pause: int, lastSec: nat, turns: seq<Turn>)
    requires 1 <= pause <= NSEC && Run(Repaired, start, pause, lastSec, turns) && turns != [] && lastSec > 0
    requires Punctual(Repaired, start, pause, turns) && Quick(pause, turns)
    ensures var n := |turns|;
            && n * pause <= lastSec * NSEC
            && (n > 1 && n * pause == lastSec * NSEC ==>
                  StartCell(start, turns[..n - 1]) == Borrowed(FromNanos(start)))
  {
    var n := |turns|;
    assert Goes(start, lastSec, turns, n - 1);
    StopTest(start, lastSec, turns[..n - 1], turns[n - 1].begin);
    if n > 1 {
      OnDeadline(start, pause, turns, n - 1);
      assert turns[n - 1].begin == NextBegin(Repaired, start, pause, turns[..n - 1]);
    } else {
      Monotone(1, lastSec, NSEC);
    }
  }

  lemma Between(n: nat, p: int, total: nat)
    requires p >= 1 && n * p <= total <= (n + 1) * p
    ensures var q := total / p; n <= q <= n + 1 && (total % p != 0 ==> q == n) && (total % p == 0 ==> total == q * p)
    ensures total < (n + 1) * p ==> total / p == n
  {
    var q := total / p;
    assert total == q * p + total % p;
    Quotient(n, p, total);
    if q > n + 1 {
      Monotone(n + 2, q, p);
    }
    if q == n + 1 {
      assert q * p == (n + 1) * p;
    }
  }

  /** The start time's cell before a reading on the limit, when the pauses fill the duration. */
  lemma FullCell(start: int, pause: int, lastSec: nat, turns: seq<Turn>, q: nat)
    requires 1 <= pause <= NSEC && q == |turns| + 1 >= 2 && q * pause == lastSec * NSEC
    requires Punctual(Repaired, start, pause, turns) && Quick(pause, turns)
    ensures StartCell(start, turns) == Borrowed(FromNanos(start)) <==> q >= 3 && pause <= start % NSEC
  {
    if q == 2 {
      assert turns[0].begin == NextBegin(Repaired, start, pause, turns[..0]) == start;
      FirstCell(start, Begins(turns));
    } else if pause == NSEC {
      WholeCell(start, turns);
    } else {
      LongCell(start, pause, lastSec, turns, q);
    }
  }

  lemma LongCell(start: int, pause: int, lastSec: nat, turns: seq<Turn>, q: nat)
    requires 1 <= pause < NSEC && q == |turns| + 1 >= 3 && q * pause == lastSec * NSEC
    requires Punctual(Repaired, start, pause, turns) && Quick(pause, turns)
    ensures StartCell(start, turns) == Borrowed(FromNanos(start)) <==> pause <= start % NSEC
  {
    assert turns[q - 2].begin == start + lastSec * NSEC - pause by {
      assert turns[q - 2].begin == NextBegin(Repaired, start, pause, turns[..q - 2]);
      OnDeadline(start, pause, turns, q - 2);
      OnePauseMore(q - 1, pause);
    }
    LastCell(start, pause, lastSec, Begins(turns));
  }

  lemma PunctualPrefix(start: int, pause: int, turns: seq<Turn>, n: nat)
    requires n <= |turns| && Punctual(Repaired, start, pause, turns) && Quick(pause, turns)
    ensures Punctual(Repaired, start, pause, turns[..n]) && Quick(pause, turns[..n])
  {
    assert forall i :: 0 <= i < n ==> turns[..n][..i] == turns[..i];
  }

  lemma FirstCell(start: int, xs: seq<Timespec>)
    requires xs == [FromNanos(start)]
    ensures Drift(FromNanos(start), xs) == FromNanos(start)
  {
    assert xs[..0] == [];
  }

  lemma WholeCell(start: int, turns: seq<Turn>)
    requires Punctual(Repaired, start, NSEC, turns) && Quick(NSEC, turns)
    ensures StartCell(start, turns) == FromNanos(start)
  {
    var xs := Begins(turns);
    forall i | 0 <= i < |xs| ensures xs[i].nsec == start % NSEC {
      WholeTurns(start, turns, i);
    }
    DriftStays(FromNanos(start), xs);
  }

  lemma LastCell(start: int, pause: int, lastSec: nat, xs: seq<Timespec>)
    requires 1 <= pause < NSEC && xs != [] && xs[|xs| - 1] == FromNanos(start + lastSec * NSEC - pause)
    requires forall i :: 0 <= i < |xs| ==> Normal(xs[i])
    ensures Drift(FromNanos(start), xs) == Borrowed(FromNanos(start)) <==> pause <= start % NSEC
  {
    var y, x := Drift(FromNanos(start), xs[..|xs| - 1]), xs[|xs| - 1];
    DriftTwoForms(FromNanos(start), xs[..|xs| - 1]);
    WholeSecondsOn(start - pause, lastSec);
    PauseBack(start, pause);
    BorrowsIff(FromNanos(start), y, x);
  }

  lemma PauseBack(start: int, pause: int)
    requires 1 <= pause < NSEC
    ensures var s := start % NSEC; (start - pause) % NSEC == if pause <= s then s - pause else s - pause + NSEC
  {
  }

  /** A reading with other nanoseconds than the start's settles the form of its cell. */
  lemma BorrowsIff(y0: Timespec, y: Timespec, x: Timespec)
    requires Normal(y0) && Normal(x) && (y == y0 || y == Borrowed(y0)) && x.nsec != y0.nsec
    ensures Subtract(x, y).y == Borrowed(y0) <==> x.nsec < y0.nsec
  {
    DriftStep(y0, y, x);
  }

  lemma WholeSecondsOn(t: int, n: nat)
    ensures (t + n * NSEC) % NSEC == t % NSEC && (t + n * NSEC) / NSEC == t / NSEC + n
  {
  }

  lemma WholeTurns(start: int, turns: seq<Turn>, i: nat)
    requires i < |turns| && Punctual(Repaired, start, NSEC, turns) && Quick(NSEC, turns)
    ensures turns[i].begin % NSEC == start % NSEC
  {
    assert turns[i].begin == NextBegin(Repaired, start, NSEC, turns[..i]);
    if i > 0 {
      OnDeadline(start, NSEC, turns, i);
      WholeSecondsOn(start, i + 1);
    }
  }

  lemma {:induction false} DriftStays(y: Timespec, xs: seq<Timespec>)
    requires Normal(y) && forall i :: 0 <= i < |xs| ==> xs[i].nsec == y.nsec
    ensures Drift(y, xs) == y
  {
    if xs != [] {
      DriftStays(y, xs[..|xs| - 1]);
    }
  }

  /** If every turn's sending takes longer than two pauses, a burst never sleeps: each turn begins
      when the one before it has sent. */
  lemma {:induction false} SlowNeverSleeps(start: int, pause: int, turns: seq<Turn>, i: nat)
    requires 1 <= pause <= NSEC && Punctual(Repaired, start, pause, turns) && 0 < i <= |turns|
    requires forall j :: 0 <= j < |turns| ==> turns[j].begin + 2 * pause <= turns[j].now
    ensures NextBegin(Repaired, start, pause, turns[..i]) == turns[i - 1].now
    ensures start + (i + 1) * pause <= turns[i - 1].now
  {
    assert turns[i - 1].begin == NextBegin(Repaired, start, pause, turns[..i - 1]);
    if i > 1 {
      SlowNeverSleeps(start, pause, turns, i - 1);
    }
    OnePauseMore(i, pause);
    assert turns[..i][i - 1] == turns[i - 1];
    PunctualNext(start, pause, turns[..i]);
  }

  lemma OnePauseMore(i: int, pause: int)
    ensures (i + 1) * pause == i * pause + pause && 2 * pause == pause + pause
  {
  }
}
