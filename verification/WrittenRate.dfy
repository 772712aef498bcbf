/**
 How many turns a burst takes with its carry as it is written, against the asked rate: most
 bursts fall far below it, and exactly some bursts of one second exceed it.
 */
module WrittenRate {
  import opened TimeArith
  import opened BurstModel
  import opened WrittenPacing
  import opened RateOne

  // ------------------------------------------------------- rates of 3 and more

  /** The last turn of a burst, `x` nanoseconds of pauses past the start, by its deadline's
      nanoseconds `n` and lateness. */
  lemma LastTurnLate(short: bool, p: int, x: int, s: int, n: int, late: int, gap: int, limit: int)
    requires 1 <= p && 3 * p <= NSEC && (short ==> p <= SHORT) && 0 <= s < NSEC
    requires Late(short, p, x + s, n, late) && gap >= late - Missed(p, n) && x + gap <= limit
    ensures if short then 13 * x < limit + 12 * NSEC else 2 * x < limit + NSEC
  {
  }

  /** A burst of more than three turns loses most of its time: all of it but a thirteenth for
      pauses up to 50 ms, half of it for longer ones, but for its first second. */
  lemma WrittenSlow(short: bool, start: int, p: int, lastSec: nat, turns: seq<Turn>)
    requires 1 <= p && 3 * p <= NSEC && (short ==> p <= SHORT)
    requires Run(AsWritten, start, p, lastSec, turns) && |turns| > 3
    ensures if short then 13 * (|turns| * p) < (lastSec + 12) * NSEC else 2 * (|turns| * p) < (lastSec + 1) * NSEC
  {
    var k, x := |turns|, |turns| * p;
    var d := Deadline(AsWritten, FromNanos(start), p, k);
    AllWait(start, p, lastSec, turns, k - 1);
    DeadlineLate(short, start, p, k);
    TurnInTime(AsWritten, start, p, lastSec, turns, k - 1);
    LastTurnLate(short, p, x, start % NSEC, d.nsec, Total(d) - (start + x), turns[k - 1].begin - (start + x),
                 lastSec * NSEC);
  }

  /** Two seconds are not enough to come back after the first carry. */
  lemma TwoSecondsTurn(p: int, x: int, s: int, n: int, late: int, gap: int)
    requires 1 <= p <= SHORT && 0 <= s < NSEC && x > 3 * p
    requires Late(true, p, x + s, n, late) && gap >= late - Missed(p, n) && x + gap <= 2 * NSEC
    ensures x < NSEC
  {
  }

  lemma TwoSeconds(start: int, p: int, turns: seq<Turn>)
    requires 1 <= p <= SHORT && Run(AsWritten, start, p, 2, turns) && |turns| > 3
    ensures |turns| * p < NSEC
  {
    var k, x := |turns|, |turns| * p;
    var d := Deadline(AsWritten, FromNanos(start), p, k);
    AllWait(start, p, 2, turns, k - 1);
    DeadlineLate(true, start, p, k);
    TurnInTime(AsWritten, start, p, 2, turns, k - 1);
    MoreTurns(k, p);
    TwoSecondsTurn(p, x, start % NSEC, d.nsec, Total(d) - (start + x), turns[k - 1].begin - (start + x));
  }

  lemma MoreTurns(k: nat, p: int)
    requires k > 3 && p >= 1
    ensures k * p > 3 * p
  {
    Monotone(4, k, p);
  }

  // ------------------------------------------------------- the asked rate

  /** As written, no run of a burst has more turns than the asked rate allows. */
  ghost predicate WrittenRespects(rate: int, lastSec: nat)
    requires 1 <= rate <= NSEC
  {
    forall start: int, turns: seq<Turn> :: Run(AsWritten, start, Pause(rate), lastSec, turns) ==>
      |turns| <= lastSec * rate
  }

  /** From a rate of 2 on that is so for every duration but one second, and there exactly when
      the nanoseconds lost by rounding the pause down make up at most one more pause. At a rate
      of 1 it is so for less than 15 seconds, but for 1, 11 and 13. */
  lemma WrittenRespectsIff(rate: int, lastSec: nat)
    requires 1 <= rate <= NSEC
    ensures WrittenRespects(rate, lastSec) <==>
            if rate == 1 then lastSec < 15 && lastSec != 1 && lastSec != 11 && lastSec != 13
            else lastSec != 1 || NSEC % rate <= Pause(rate)
  {
    PauseClasses(rate);
    if rate == 1 {
      RateOneRespectsIff(rate, lastSec);
    } else if lastSec != 1 || NSEC % rate <= Pause(rate) {
      forall start: int, turns: seq<Turn> | Run(AsWritten, start, Pause(rate), lastSec, turns)
        ensures |turns| <= lastSec * rate
      {
        WrittenInRate(start, rate, lastSec, turns);
      }
    } else {
      var turns := WrittenExceeds(rate);
    }
  }

  lemma RateOneRespectsIff(rate: int, lastSec: nat)
    requires rate == 1
    ensures WrittenRespects(rate, lastSec) <==> Enough(lastSec)
  {
    PauseClasses(rate);
    if Enough(lastSec) {
      forall start: int, turns: seq<Turn> | Run(AsWritten, start, Pause(rate), lastSec, turns)
        ensures |turns| <= lastSec * rate
      {
        RateOneFits(start, lastSec, turns);
      }
    } else {
      var start, turns := RateOneExceeds(lastSec);
      assert Run(AsWritten, start, Pause(rate), lastSec, turns) && |turns| > lastSec * rate;
    }
  }

  /** As written, the asked rate is respected whatever the duration. */
  ghost predicate AlwaysRespects(rate: int)
    requires 1 <= rate <= NSEC
  {
    forall lastSec: nat :: WrittenRespects(rate, lastSec)
  }

  /** That is so exactly for rates from 2 on whose lost nanoseconds make up at most one more
      pause. */
  lemma AlwaysRespectsIff(rate: int)
    requires 1 <= rate <= NSEC
    ensures AlwaysRespects(rate) <==> rate >= 2 && NSEC % rate <= Pause(rate)
  {
    if rate >= 2 && NSEC % rate <= Pause(rate) {
      forall lastSec: nat ensures WrittenRespects(rate, lastSec) {
        WrittenRespectsIff(rate, lastSec);
      }
    } else {
      WrittenRespectsIff(rate, 1);
    }
  }

  lemma WrittenInRate(start: int, rate: int, lastSec: nat, turns: seq<Turn>)
    requires 2 <= rate <= NSEC && (lastSec != 1 || NSEC % rate <= Pause(rate))
    requires Run(AsWritten, start, Pause(rate), lastSec, turns)
    ensures |turns| <= lastSec * rate
  {
    var p := Pause(rate);
    PauseClasses(rate);
    NoTime(AsWritten, start, p, turns);
    if lastSec > 0 {
      if rate == 2 {
        WrittenBurstSize(start, rate, lastSec, turns);
        HalfSeconds(lastSec);
      } else if |turns| <= 3 {
        Monotone(1, lastSec, rate);
      } else if lastSec == 1 {
        WrittenSlow(false, start, p, lastSec, turns);
        OneSecondFits(|turns|, rate);
      } else if p > SHORT {
        WrittenSlow(false, start, p, lastSec, turns);
        LongFits(|turns|, rate, lastSec);
      } else if lastSec == 2 {
        TwoSeconds(start, p, turns);
        ShortFits2(|turns|, rate);
      } else {
        WrittenSlow(true, start, p, lastSec, turns);
        ShortFits(|turns|, rate, lastSec);
      }
    }
  }

  lemma HalfSeconds(lastSec: nat)
    requires lastSec > 0
    ensures Pause(2) == NSEC / 2 && MaxTurns(Pause(2), lastSec) == lastSec * 2
  {
  }

  lemma Cancel(a: int, b: int, p: int)
    requires p >= 1 && a * p < b * p
    ensures a < b
  {
    if b <= a {
      Monotone(b, a, p);
    }
  }

  lemma OneSecondFits(k: nat, rate: int)
    requires 1 <= rate <= NSEC && 1 <= Pause(rate) && NSEC % rate <= Pause(rate)
    requires 2 * (k * Pause(rate)) < 2 * NSEC
    ensures k <= rate
  {
    var p := Pause(rate);
    PauseRange(rate);
    OneMore(rate, p);
    Cancel(k, rate + 1, p);
  }

  lemma LongFits(k: nat, rate: int, lastSec: nat)
    requires 1 <= rate <= NSEC && Pause(rate) > SHORT && lastSec >= 2
    requires 2 * (k * Pause(rate)) < (lastSec + 1) * NSEC
    ensures k <= lastSec * rate
  {
    var p := Pause(rate);
    PauseRange(rate);
    assert rate < 20 by {
      if rate >= 20 {
        Monotone(20, rate, p);
      }
    }
    var r := rate * p;
    assert 3 * NSEC <= 4 * r;
    Scale(lastSec, r, 1, 4, 3, 2);
    Regroup(lastSec, rate, p);
    Cancel(k, lastSec * rate, p);
  }

  lemma ShortFits(k: nat, rate: int, lastSec: nat)
    requires 1 <= rate <= NSEC && 1 <= Pause(rate) && lastSec >= 3
    requires 13 * (k * Pause(rate)) < (lastSec + 12) * NSEC
    ensures k <= lastSec * rate
  {
    var p := Pause(rate);
    var r := rate * p;
    LessThanTwice(rate);
    Scale(lastSec, r, 12, 2, 1, 13);
    Regroup(lastSec, rate, p);
    Cancel(k, lastSec * rate, p);
  }

  lemma ShortFits2(k: nat, rate: int)
    requires 1 <= rate <= NSEC && 1 <= Pause(rate) && k * Pause(rate) < NSEC
    ensures k <= 2 * rate
  {
    var p := Pause(rate);
    LessThanTwice(rate);
    Regroup(2, rate, p);
    Cancel(k, 2 * rate, p);
  }

  lemma LessThanTwice(rate: int)
    requires 1 <= rate <= NSEC && 1 <= Pause(rate)
    ensures NSEC <= 2 * (rate * Pause(rate))
  {
    PauseRange(rate);
    Monotone(1, Pause(rate), rate);
  }

  /** From `b` seconds at most `c / b` times `r`, and enough of them. */
  lemma Scale(lastSec: nat, r: int, more: int, c: int, b: int, a: int)
    requires r >= 0 && b >= 1 && c >= 0 && more >= 0
    requires b * NSEC <= c * r && c * (lastSec + more) <= a * b * lastSec
    ensures b * ((lastSec + more) * NSEC) <= b * (a * (lastSec * r))
  {
    assert (lastSec + more) * (b * NSEC) <= (lastSec + more) * (c * r);
    assert (c * (lastSec + more)) * r <= (a * b * lastSec) * r;
  }

  lemma Regroup(a: int, b: int, c: int)
    ensures a * (b * c) == (a * b) * c
  {
  }

  /** The run that exceeds the rate: started on a whole second, with every turn on time. */
  lemma WrittenExceeds(rate: int) returns (turns: seq<Turn>)
    requires 1 <= rate <= NSEC && NSEC % rate > Pause(rate)
    ensures Run(AsWritten, 0, Pause(rate), 1, turns) && |turns| == rate + 1
  {
    var p := Pause(rate);
    PauseRange(rate);
    OneMore(rate, p);
    turns := seq(rate + 1, i requires 0 <= i < rate + 1 => Turn((i + 1) * p, (i + 1) * p));
    forall i | 0 <= i < |turns| ensures turns[i].begin >= 0 && Goes(0, 1, turns, i) {
      Monotone(0, i + 1, p);
      Monotone(i + 1, rate + 1, p);
      StopTest(0, 1, turns[..i], turns[i].begin);
    }
    forall i | 0 < i < |turns| ensures Follows(Repaired, 0, p, turns, i) {
      OnTimeFollows(p, turns, i);
    }
    WrittenRunSame(0, p, 1, turns);
  }

  lemma OnTimeFollows(p: int, turns: seq<Turn>, i: nat)
    requires 1 <= p <= NSEC && 0 < i < |turns|
    requires turns[i - 1].now == i * p && turns[i].begin == (i + 1) * p
    ensures Follows(Repaired, 0, p, turns, i)
  {
    OneMore(i, p);
    DeadlineIsMultiple(FromNanos(0), p, i + 1);
    NormalSubtract(Deadline(Repaired, FromNanos(0), p, i + 1), FromNanos(i * p));
  }

  // ------------------------------------------------------- the size of a burst

  /** The most turns a burst as written can take, by the length of its pause. */
  function WrittenMost(rate: int, lastSec: nat): nat
    requires 1 <= rate <= NSEC
  {
    PauseRange(rate);
    var p := Pause(rate);
    if lastSec == 0 then 0
    else if rate == 1 then AtLeast(2, 20 * lastSec / 17)
    else if rate == 2 then 2 * lastSec
    else if p > SHORT then AtLeast(3, (lastSec + 1) * NSEC / (2 * p))
    else AtLeast(3, (lastSec + 12) * NSEC / (13 * p))
  }

  function AtLeast(a: nat, b: nat): nat {
    if b < a then a else b
  }

  lemma WrittenMostSize(start: int, rate: int, lastSec: nat, turns: seq<Turn>)
    requires 1 <= rate <= NSEC && Run(AsWritten, start, Pause(rate), lastSec, turns)
    ensures |turns| <= WrittenMost(rate, lastSec)
  {
    var p := Pause(rate);
    PauseClasses(rate);
    NoTime(AsWritten, start, p, turns);
    if lastSec > 0 {
      if rate == 1 {
        RateOneSize(start, lastSec, turns);
      } else if rate == 2 {
        WrittenBurstSize(start, rate, lastSec, turns);
        HalfSeconds(lastSec);
      } else if |turns| > 3 {
        WrittenSlow(p <= SHORT, start, p, lastSec, turns);
        var a := if p <= SHORT then 13 else 2;
        Regroup3(a, |turns|, p);
        Quotient(|turns|, a * p, (lastSec + (a - 1)) * NSEC);
      }
    }
  }

  /** Both bounds on a burst as written. */
  lemma WrittenSizes(start: int, rate: int, lastSec: nat, turns: seq<Turn>)
    requires 1 <= rate <= NSEC && Run(AsWritten, start, Pause(rate), lastSec, turns)
    ensures 1 <= Pause(rate)
    ensures rate >= 2 ==> |turns| <= MaxTurns(Pause(rate), lastSec)
    ensures |turns| <= WrittenMost(rate, lastSec)
  {
    PauseRange(rate);
    WrittenMostSize(start, rate, lastSec, turns);
    if rate >= 2 {
      WrittenBurstSize(start, rate, lastSec, turns);
    }
  }

  lemma Regroup3(a: int, b: int, c: int)
    ensures a * (b * c) == b * (a * c)
  {
  }
}
