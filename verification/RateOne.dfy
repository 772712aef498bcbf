/**
 Bursts of one packet a second with the carry as it is written: the deadlines run in cycles of
 two or three, each a little earlier than the one before, until a burst has more turns than
 seconds.
 */
module RateOne {
  import opened Bytes
  import opened TimeArith
  import opened BurstModel
  import opened WrittenPacing

  // ------------------------------------------------------- the cycles

  /** The nanoseconds at the start of a cycle, after `m` cycles of which `b` had three turns. */
  function Base(s: int, m: nat, b: nat): int {
    s - m * WRAP + b * NSEC
  }

  /** The `k`-th deadline's nanoseconds and lateness, for a start at `s` in its second. A cycle
      carries twice; from less than a wrap it does not wrap at once, and has a third turn. */
  predicate Cycle(s: int, m: nat, b: nat, k: nat, n: int, late: int) {
    var base := Base(s, m, b);
    && 0 <= base < NSEC
    && ((n == base && k == 2 * m + b && late == -(m * WRAP))
        || (n == base + 2 * NSEC && k == 2 * m + b + 1 && late == 2 * NSEC - m * WRAP)
        || (n == base + 4 * NSEC && base < WRAP && k == 2 * m + b + 2 && late == 4 * NSEC - m * WRAP))
  }

  lemma CycleStep(s: int, m: nat, b: nat, k: nat, n: int, late: int) returns (m': nat, b': nat)
    requires Cycle(s, m, b, k, n, late)
    ensures Cycle(s, m', b', k + 1, NextNsec(n, NSEC), late + Delay(n, NSEC))
    ensures m' == if n >= 2 * NSEC && NextNsec(n, NSEC) < NSEC then m + 1 else m
  {
    var wraps := n >= 2 * NSEC && NextNsec(n, NSEC) < NSEC;
    m' := if wraps then m + 1 else m;
    b' := if wraps && n >= 4 * NSEC then b + 1 else b;
  }

  predicate CycleAt(start: int, m: nat, b: nat, k: nat) {
    var d := Deadline(AsWritten, FromNanos(start), NSEC, k);
    Cycle(start % NSEC, m, b, k, d.nsec, Total(d) - (start + k * NSEC))
  }

  lemma CycleNext(start: int, m: nat, b: nat, k: nat) returns (m': nat, b': nat)
    requires CycleAt(start, m, b, k)
    ensures CycleAt(start, m', b', k + 1)
    ensures m' >= m
  {
    var d := Deadline(AsWritten, FromNanos(start), NSEC, k);
    DeadlineNext(start, NSEC, k);
    m', b' := CycleStep(start % NSEC, m, b, k, d.nsec, Total(d) - (start + k * NSEC));
  }

  lemma {:induction false} CycleOf(start: int, k: nat) returns (m: nat, b: nat)
    ensures CycleAt(start, m, b, k)
  {
    if k == 0 {
      m, b := 0, 0;
    } else {
      m, b := CycleOf(start, k - 1);
      m, b := CycleNext(start, m, b, k - 1);
    }
  }

  /** A turn's number and nanoseconds determine its cycle. */
  lemma CycleUnique(s: int, m: nat, b: nat, m': nat, b': nat, k: nat, n: int, late: int)
    requires 0 <= s < NSEC && Cycle(s, m, b, k, n, late)
    requires k == 2 * m' + b' && NSEC - WRAP <= Base(s, m', b') < NSEC
    ensures m == m' && n == Base(s, m', b')
  {
  }

  // ------------------------------------------------------- no turn much before its time

  /** How far past its time the turn in this place of a cycle begins, once a whole cycle has
      been waited for. */
  function Place(m: nat, n: int): int {
    if n < NSEC - WRAP then NSEC - (m - 1) * WRAP
    else if n < NSEC then -((m - 1) * WRAP)
    else if n < 3 * NSEC then 2 * NSEC - m * WRAP
    else NSEC - m * WRAP
  }

  /** Only the turn that ends the first cycle has not waited for a whole one. */
  predicate Behind(m: nat, n: int, gap: int) {
    if n < NSEC && m == 1 then gap >= -WRAP else gap >= Place(m, n)
  }

  lemma BehindStep(s: int, m: nat, b: nat, k: nat, n: int, late: int, gap: int, m': nat, b': nat, n': int, late': int,
                   gap': int)
    requires Cycle(s, m, b, k, n, late) && Behind(m, n, gap) && Moves(NSEC, n, late, gap, n', late', gap')
    requires gap' >= gap - NSEC && Cycle(s, m', b', k + 1, n', late')
    ensures Behind(m', n', gap')
  {
  }

  /** Turn `i` of a burst, in cycle `m`. */
  predicate BehindAt(start: int, turns: seq<Turn>, m: nat, i: nat)
    requires i < |turns|
  {
    Behind(m, Deadline(AsWritten, FromNanos(start), NSEC, i + 1).nsec, turns[i].begin - (start + (i + 1) * NSEC))
  }

  lemma BehindNext(start: int, lastSec: nat, turns: seq<Turn>, m: nat, b: nat, i: nat) returns (m': nat, b': nat)
    requires Run(AsWritten, start, NSEC, lastSec, turns) && i + 1 < |turns|
    requires CycleAt(start, m, b, i + 1) && BehindAt(start, turns, m, i)
    ensures CycleAt(start, m', b', i + 2) && BehindAt(start, turns, m', i + 1) && m' >= m
  {
    var d, e := Deadline(AsWritten, FromNanos(start), NSEC, i + 1), Deadline(AsWritten, FromNanos(start), NSEC, i + 2);
    var at, at' := start + (i + 1) * NSEC, start + (i + 2) * NSEC;
    m', b' := CycleNext(start, m, b, i + 1);
    DeadlineNext(start, NSEC, i + 1);
    assert Follows(AsWritten, start, NSEC, turns, i + 1);
    TurnWaits(e, turns[i].now, turns[i + 1].begin);
    BehindStep(start % NSEC, m, b, i + 1, d.nsec, Total(d) - at, turns[i].begin - at,
               m', b', e.nsec, Total(e) - at', turns[i + 1].begin - at');
  }

  /** The first cycle ends with the second turn, or with the third. */
  lemma FirstCycle(start: int, lastSec: nat, turns: seq<Turn>) returns (i: nat, b: nat)
    requires Run(AsWritten, start, NSEC, lastSec, turns) && |turns| > 2
    ensures 1 <= i <= 2 && CycleAt(start, 1, b, i + 1) && BehindAt(start, turns, 1, i)
  {
    i, b := if start % NSEC >= WRAP then 1 else 2, if start % NSEC >= WRAP then 0 else 1;
    DeadlineNext(start, NSEC, 0);
    DeadlineNext(start, NSEC, 1);
    DeadlineNext(start, NSEC, 2);
    Reaches(start, NSEC, lastSec, turns, i);
  }

  lemma ThirdTurn(start: int, lastSec: nat, turns: seq<Turn>) returns (m: nat, b: nat)
    requires Run(AsWritten, start, NSEC, lastSec, turns) && |turns| > 2
    ensures m >= 1 && CycleAt(start, m, b, 3) && BehindAt(start, turns, m, 2)
  {
    var i;
    i, b := FirstCycle(start, lastSec, turns);
    m := 1;
    if i == 1 {
      m, b := BehindNext(start, lastSec, turns, m, b, 1);
    }
  }

  lemma {:induction false} BehindAlong(start: int, lastSec: nat, turns: seq<Turn>, i: nat) returns (m: nat, b: nat)
    requires Run(AsWritten, start, NSEC, lastSec, turns) && 2 <= i < |turns|
    ensures m >= 1 && CycleAt(start, m, b, i + 1) && BehindAt(start, turns, m, i)
  {
    if i == 2 {
      m, b := ThirdTurn(start, lastSec, turns);
    } else {
      m, b := BehindAlong(start, lastSec, turns, i - 1);
      m, b := BehindNext(start, lastSec, turns, m, b, i - 1);
    }
  }

  // ------------------------------------------------------- how many turns at most

  /** A turn in this place of its cycle is before its time by less than half a wrap a turn, and
      by less than a second for the first ten turns, and the 13th and the 15th. */
  lemma NotEarly(s: int, m: nat, b: nat, k: nat, n: int, late: int, gap: int)
    requires 0 <= s < NSEC && m >= 1 && Cycle(s, m, b, k, n, late) && Behind(m, n, gap)
    ensures 2 * gap + k * WRAP >= 0
    ensures k <= 11 || k == 13 || k == 15 ==> gap > -NSEC
  {
  }

  /** A burst of rate 1 takes at most two turns, or 20 in 17 seconds. */
  lemma RateOneSize(start: int, lastSec: nat, turns: seq<Turn>)
    requires Run(AsWritten, start, NSEC, lastSec, turns)
    ensures |turns| <= 2 || 17 * |turns| <= 20 * lastSec
  {
    var k := |turns|;
    if k > 2 {
      LastNotEarly(start, lastSec, turns, k);
      TurnInTime(AsWritten, start, NSEC, lastSec, turns, k - 1);
    }
  }

  lemma LastNotEarly(start: int, lastSec: nat, turns: seq<Turn>, k: nat)
    requires Run(AsWritten, start, NSEC, lastSec, turns) && 2 < k <= |turns|
    ensures var gap := turns[k - 1].begin - (start + k * NSEC);
            2 * gap + k * WRAP >= 0 && (k <= 11 || k == 13 || k == 15 ==> gap > -NSEC)
  {
    var m, b := BehindAlong(start, lastSec, turns, k - 1);
    var d := Deadline(AsWritten, FromNanos(start), NSEC, k);
    NotEarly(start % NSEC, m, b, k, d.nsec, Total(d) - (start + k * NSEC), turns[k - 1].begin - (start + k * NSEC));
  }

  /** The durations a burst of rate 1 never exceeds in turns. */
  predicate Enough(lastSec: nat) {
    lastSec != 1 && lastSec != 11 && lastSec != 13 && lastSec < 15
  }

  lemma RateOneFits(start: int, lastSec: nat, turns: seq<Turn>)
    requires Run(AsWritten, start, NSEC, lastSec, turns) && Enough(lastSec)
    ensures |turns| <= lastSec
  {
    NoTime(AsWritten, start, NSEC, turns);
    if lastSec > 0 && |turns| > lastSec {
      LastNotEarly(start, lastSec, turns, lastSec + 1);
      TurnInTime(AsWritten, start, NSEC, lastSec, turns, lastSec);
    }
  }

  // ------------------------------------------------------- the run that exceeds them

  /** When turn `i` begins at the earliest, if every sleep that can be rejected is. */
  function Earliest(start: int, i: nat): int {
    if i == 0 then start
    else
      var d, before := Deadline(AsWritten, FromNanos(start), NSEC, i + 1), Earliest(start, i - 1);
      if d.nsec < 3 * NSEC && before < Total(d) then Total(d) else before
  }

  /** No turn of that run begins later than its place in its cycle says. */
  predicate InPlace(m: nat, n: int, gap: int) {
    gap <= Place(m, n)
  }

  lemma InPlaceStep(s: int, m: nat, b: nat, k: nat, n: int, late: int, gap: int, m': nat, b': nat, n': int, late': int,
                    gap': int)
    requires k >= 1 && Cycle(s, m, b, k, n, late) && InPlace(m, n, gap) && Cycle(s, m', b', k + 1, n', late')
    requires n' == NextNsec(n, NSEC) && late' == late + Delay(n, NSEC)
    requires gap' == gap - NSEC || (n' < 3 * NSEC && gap' == late')
    ensures InPlace(m', n', gap')
  {
  }

  lemma {:induction false} EarliestInPlace(start: int, i: nat) returns (m: nat, b: nat)
    ensures CycleAt(start, m, b, i + 1)
    ensures InPlace(m, Deadline(AsWritten, FromNanos(start), NSEC, i + 1).nsec,
                    Earliest(start, i) - (start + (i + 1) * NSEC))
  {
    if i == 0 {
      m, b := 0, 0;
      DeadlineNext(start, NSEC, 0);
    } else {
      m, b := EarliestInPlace(start, i - 1);
      m, b := InPlaceNext(start, m, b, i);
    }
  }

  lemma InPlaceNext(start: int, m0: nat, b0: nat, i: nat) returns (m: nat, b: nat)
    requires i > 0 && CycleAt(start, m0, b0, i)
    requires InPlace(m0, Deadline(AsWritten, FromNanos(start), NSEC, i).nsec,
                     Earliest(start, i - 1) - (start + i * NSEC))
    ensures CycleAt(start, m, b, i + 1)
    ensures InPlace(m, Deadline(AsWritten, FromNanos(start), NSEC, i + 1).nsec,
                    Earliest(start, i) - (start + (i + 1) * NSEC))
  {
    var d, e := Deadline(AsWritten, FromNanos(start), NSEC, i), Deadline(AsWritten, FromNanos(start), NSEC, i + 1);
    var at, at' := start + i * NSEC, start + (i + 1) * NSEC;
    m, b := CycleNext(start, m0, b0, i);
    DeadlineNext(start, NSEC, i);
    InPlaceStep(start % NSEC, m0, b0, i, d.nsec, Total(d) - at, Earliest(start, i - 1) - at,
                m, b, e.nsec, Total(e) - at', Earliest(start, i) - at');
  }

  function EarliestTurns(start: int, k: nat): (turns: seq<Turn>)
    ensures |turns| == k
  {
    seq(k, i requires 0 <= i < k => Turn(Earliest(start, i), Earliest(start, i)))
  }

  lemma {:induction false} EarliestGrows(start: int, i: nat, j: nat)
    requires i <= j
    ensures start <= Earliest(start, i) <= Earliest(start, j)
    decreases j
  {
    if j > 0 {
      EarliestGrows(start, if i < j then i else j - 1, j - 1);
    }
  }

  /** A sleep until a deadline of four seconds' worth of nanoseconds is rejected. */
  lemma RejectedLate(d: Timespec, now: int)
    requires 4 * NSEC <= d.nsec < TWO32
    ensures Slept(d, now, now)
  {
    var x := d.nsec - now % NSEC;
    var k := x / NSEC;
    assert k == 3 || k == 4;
    assert Wrap32(k) == k && Wrap32(NSEC * k) == NSEC * k - TWO32;
    assert Left(d, now).result.nsec == x - NSEC * k + TWO32;
  }

  lemma SleptUntil(d: Timespec, now: int, next: int)
    requires (Normal(d) || 2 * NSEC <= d.nsec < 3 * NSEC) && now <= next && Total(d) <= next
    ensures Slept(d, now, next)
  {
    ExactIff(d, FromNanos(now));
  }

  lemma EarliestFollows(start: int, k: nat, i: nat)
    requires 0 < i < k
    ensures Follows(AsWritten, start, NSEC, EarliestTurns(start, k), i)
  {
    var d := Deadline(AsWritten, FromNanos(start), NSEC, i + 1);
    var m, b := CycleOf(start, i + 1);
    if d.nsec < 3 * NSEC {
      SleptUntil(d, Earliest(start, i - 1), Earliest(start, i));
    } else {
      RejectedLate(d, Earliest(start, i - 1));
    }
  }

  lemma EarliestRun(start: int, lastSec: nat, k: nat)
    requires k > 0 && Earliest(start, k - 1) < start + lastSec * NSEC
    ensures Run(AsWritten, start, NSEC, lastSec, EarliestTurns(start, k))
  {
    var turns := EarliestTurns(start, k);
    forall i | 0 <= i < k ensures turns[i].begin >= start && Goes(start, lastSec, turns, i) {
      EarliestGrows(start, i, k - 1);
      StopTest(start, lastSec, turns[..i], turns[i].begin);
    }
    forall i | 0 < i < k ensures Follows(AsWritten, start, NSEC, turns, i) {
      EarliestFollows(start, k, i);
    }
  }

  /** A start whose `m`-th cycle is the `b`-th one of three turns, and the run up to its end. */
  lemma CycleEnds(m: nat, b: nat, lastSec: nat) returns (start: int)
    requires m >= 1 && (m - 1) * WRAP < b * NSEC < m * WRAP + NSEC
    requires (2 * m + b - lastSec) * NSEC < (m - 1) * WRAP
    ensures Run(AsWritten, start, NSEC, lastSec, EarliestTurns(start, 2 * m + b))
  {
    start := (m - 1) * WRAP + NSEC - b * NSEC;
    start := if start < 0 then 0 else start;
    CycleEnd(start, m, b);
    EarliestRun(start, lastSec, 2 * m + b);
  }

  lemma CycleEnd(start: int, m: nat, b: nat)
    requires m >= 1 && 0 <= start < NSEC && NSEC - WRAP <= Base(start, m, b) < NSEC
    ensures Earliest(start, 2 * m + b - 1) <= start + (2 * m + b) * NSEC - (m - 1) * WRAP
  {
    var k := 2 * m + b;
    var d := Deadline(AsWritten, FromNanos(start), NSEC, k);
    var m', b' := EarliestInPlace(start, k - 1);
    CycleUnique(start, m', b', m, b, k, d.nsec, Total(d) - (start + k * NSEC));
  }

  // ------------------------------------------------------- which cycle exceeds a duration

  /** The least number of three-turn cycles the `m`-th cycle can end with. */
  function Threes(m: nat): nat
    requires m >= 1
  {
    (m - 1) * WRAP / NSEC + 1
  }

  lemma ThreesStep(m: nat)
    requires m >= 1
    ensures (m - 1) * WRAP < Threes(m) * NSEC < m * WRAP + NSEC
    ensures Threes(m) <= Threes(m + 1) <= Threes(m) + 1
  {
  }

  /** The first cycle that ends after more turns than there are seconds. */
  lemma FirstBeyond(lastSec: nat, m: nat) returns (m': nat)
    requires m >= 1 && 2 * m + Threes(m) <= lastSec + 3
    ensures m' >= m && lastSec < 2 * m' + Threes(m') <= lastSec + 3
    ensures m' == m || 2 * (m' - 1) + Threes(m' - 1) <= lastSec
    decreases lastSec + 3 - 2 * m
  {
    if 2 * m + Threes(m) > lastSec {
      m' := m;
    } else {
      ThreesStep(m);
      m' := FirstBeyond(lastSec, m + 1);
    }
  }

  /** That cycle has gained enough, but for 16 seconds. */
  lemma BeyondGains(lastSec: nat, m: nat)
    requires m >= 5 && lastSec < 2 * m + Threes(m) <= lastSec + 3
    requires m == 5 || 2 * (m - 1) + Threes(m - 1) <= lastSec
    requires !Enough(lastSec) && lastSec >= 11 && lastSec != 16
    ensures (2 * m + Threes(m) - lastSec) * NSEC < (m - 1) * WRAP
  {
    if m < 12 {
      assert m == 5 || m == 6 || m == 7 || m == 8 || m == 9 || m == 10 || m == 11;
    }
  }

  /** For every other duration some burst of rate 1 takes more turns than seconds. */
  lemma RateOneExceeds(lastSec: nat) returns (start: int, turns: seq<Turn>)
    requires !Enough(lastSec)
    ensures Run(AsWritten, start, NSEC, lastSec, turns) && |turns| > lastSec
  {
    if lastSec == 1 {
      start := 0;
      turns := RateOneOverruns(start);
    } else if lastSec == 16 {
      start := CycleEnds(7, 3, lastSec);
      turns := EarliestTurns(start, 17);
    } else {
      var m := FirstBeyond(lastSec, 5);
      BeyondGains(lastSec, m);
      ThreesStep(m);
      start := CycleEnds(m, Threes(m), lastSec);
      turns := EarliestTurns(start, 2 * m + Threes(m));
    }
  }
}
