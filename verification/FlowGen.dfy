/**
 The load generator: the outside world it reads the time from, sleeps in and sends to, and the
 burst loop, sending fresh flows at a limited rate.
 */
module FlowGen {
  import opened TimeArith
  import opened BurstModel
  import opened WrittenPacing
  import opened WrittenRate
  import B = Bytes
  import P = PacketMaker

  /** What the generator asks of the world: the time, a sleep, or to take a packet. */
  datatype Event = Read(at: int) | Sleep(request: Timespec) | Handed(packet: nat, taken: bool)

  /** A whole frame of packet number `k`; only its Ethernet header is determined. */
  predicate IsPacket(frame: B.Bytes, k: nat) {
    |frame| == P.FRAME_SIZE && frame[..P.ETHER_HEADER] == P.Header(k)
  }

  /** The world outside. Its clock never goes back. In an exact world a sleep lasts just as long
      as asked, and reading the clock takes no time; sending may always take some. */
  class World {
    var now: int
    const exact: bool
    /** All that has been asked, in order. */
    ghost var log: seq<Event>

    constructor (now: int, exact: bool)
      ensures this.now == now && this.exact == exact && log == []
    {
      this.now := now;
      this.exact := exact;
      log := [];
    }

    method GetTime() returns (t: int)
      modifies this
      ensures old(now) <= t == now && (exact ==> t == old(now))
      ensures log == old(log) + [Read(t)]
    {
      if exact {
        t := now;
      } else {
        t :| now <= t;
      }
      now := t;
      log := log + [Read(t)];
    }

    /** A sleep lasts at least as long as asked; an abnormal request is rejected. */
    method Nanosleep(request: Timespec)
      modifies this
      ensures old(now) <= now && (Normal(request) ==> old(now) + Total(request) <= now)
      ensures exact ==> now == old(now) + if Normal(request) && Total(request) > 0 then Total(request) else 0
      ensures log == old(log) + [Sleep(request)]
    {
      var until := if Normal(request) && Total(request) > 0 then now + Total(request) else now;
      if exact {
        now := until;
      } else {
        var t :| until <= t;
        now := t;
      }
      log := log + [Sleep(request)];
    }

    /** The callback takes every frame. */
    method Deliver(frame: B.Bytes, ghost k: nat)
      requires IsPacket(frame, k)
      modifies this
      ensures old(now) <= now && log == old(log) + [Handed(k, true)]
    {
      var t :| now <= t;
      now := t;
      log := log + [Handed(k, true)];
    }

    /** The device may refuse a frame. */
    method Transmit(frame: B.Bytes, ghost k: nat) returns (ok: bool)
      requires IsPacket(frame, k)
      modifies this
      ensures old(now) <= now && log == old(log) + [Handed(k, ok)]
    {
      ok := *;
      var t :| now <= t;
      now := t;
      log := log + [Handed(k, ok)];
    }
  }

  /** Where packets go: a callback, an open device, or nowhere. */
  datatype Sink = Callback | Device | Nowhere

  class Generator {
    const world: World
    const packets: P.Generator
    const sink: Sink
    /** The carry line of the time addition: as the source has it, or repaired. */
    const carry: Carry
    /** Packets a turn; the source never changes it. */
    const factor: B.u32
    var isRun: bool
    var failed: B.u32

    constructor (world: World, packets: P.Generator, sink: Sink, carry: Carry)
      ensures this.world == world && this.packets == packets && this.sink == sink && this.carry == carry
      ensures factor == 1 && isRun && failed == 0
    {
      this.world := world;
      this.packets := packets;
      this.sink := sink;
      this.carry := carry;
      factor, isRun, failed := 1, true, 0;
    }

    /** Where the generator stands: the packets made, and what `count` and `failed` hold of the
        packets and refusals so far. */
    ghost predicate Stands(t: Tally, count: B.u32)
      reads this`failed, packets, world
    {
      && packets.Valid() && packets.made == t.made && world.log == t.log
      && count == t.total % B.TWO32 && failed == t.refused % B.TWO32
    }

    /** Hand packet number `k` to the sink. `refused` counts the refusals before it. */
    method Send(frame: array<B.u8>, ghost k: nat, ghost refused: nat) returns (ghost hand: seq<Event>)
      requires IsPacket(frame[..], k) && failed == refused % B.TWO32
      modifies this`failed, world
      ensures HandsOver(sink, k, 1, hand)
      ensures world.log == old(world.log) + hand && old(world.now) <= world.now
      ensures failed == (refused + Refused(hand)) % B.TWO32
    {
      match sink
      case Callback =>
        world.Deliver(frame[..], k);
        hand := [Handed(k, true)];
        RefusedOne(hand);
      case Device =>
        var ok := world.Transmit(frame[..], k);
        hand := [Handed(k, ok)];
        RefusedOne(hand);
        OneMoreCounted(refused, failed);
        if !ok {
          failed := (failed + 1) % 0x1_0000_0000;
        }
      case Nowhere =>
        hand := [];
    }

    /** One packet: made, handed over and counted. */
    method SendOne(count: B.u32, ghost t: Tally) returns (count': B.u32, ghost one: seq<Event>)
      requires Stands(t, count)
      modifies this`failed, packets, world
      ensures HandsOver(sink, t.made, 1, one) && Stands(t.On(1, one), count') && old(world.now) <= world.now
    {
      var frame := packets.MakePkt();
      WholeFrame(frame[..], t.made);
      one := Send(frame, t.made, t.refused);
      OneMoreCounted(t.total, count);
      count' := (count + 1) % 0x1_0000_0000;
    }

    /** The packets of one turn: `factor` fresh frames, each handed over once and counted whether
        or not the sink takes it. */
    method SendTurn(count: B.u32, ghost t: Tally) returns (count': B.u32, ghost hand: seq<Event>)
      requires Stands(t, count)
      modifies this`failed, packets, world
      ensures HandsOver(sink, t.made, factor, hand) && Stands(t.On(factor, hand), count') && old(world.now) <= world.now
    {
      count', hand := count, [];
      for i := 0 to factor
        invariant HandsOver(sink, t.made, i, hand) && Stands(t.On(i, hand), count') && old(world.now) <= world.now
      {
        ghost var one;
        count', one := SendOne(count', t.On(i, hand));
        HandsJoin(sink, t.made, i, hand, 1, one);
        OnJoin(t, i, hand, 1, one);
        hand := hand + one;
      }
    }

    /** The head of a turn: read the clock and test for the end of the burst. */
    method TestStop(secBeg: TimeCell, lastSec: B.u32) returns (stop: bool, ghost begin: int)
      modifies secBeg, world
      ensures begin == world.now >= old(world.now) && (world.exact ==> begin == old(world.now))
      ensures world.log == old(world.log) + [Read(begin)]
      ensures stop == Stops(FromNanos(begin), old(secBeg.v), lastSec)
      ensures secBeg.v == Subtract(FromNanos(begin), old(secBeg.v)).y
    {
      var t := world.GetTime();
      begin := t;
      var secEnd := new TimeCell(FromNanos(t));
      var result := new TimeCell(Timespec(0, 0));
      var negative := TimevalSubtract(result, secEnd, secBeg);
      stop := result.v.sec >= lastSec;
    }

    /** The foot of a turn: move the deadline on, read the clock, and ask for one sleep, the time
        left, if the deadline is not past; if it is, ask for none. */
    method Pace(deadline: TimeCell, pause: Timespec) returns (ghost now: int)
      modifies deadline, world
      ensures deadline.v == Add(carry, old(deadline.v), pause)
      ensures old(world.now) <= now && (world.exact ==> now == old(world.now))
      ensures Slept(deadline.v, now, world.now)
      ensures world.exact ==> world.now == Until(deadline.v, now)
      ensures world.log == old(world.log) + ([Read(now)] + SleepsFor(deadline.v, now))
    {
      TimespecAdd(carry, deadline, deadline.v, pause);
      var t := world.GetTime();
      now := t;
      var nowCell := new TimeCell(FromNanos(t));
      var result := new TimeCell(Timespec(0, 0));
      var negative := TimevalSubtract(result, deadline, nowCell);
      if !negative {
        world.Nanosleep(result.v);
      }
    }

    /** One turn: unless the burst is over, send and pace. */
    method OneTurn(count: B.u32, pause: int, lastSec: B.u32, secBeg: TimeCell, deadline: TimeCell, ghost start: int,
                   ghost turns: seq<Turn>, ghost t: Tally)
        returns (stop: bool, count': B.u32, ghost turn: Turn, ghost hand: seq<Event>)
      requires 1 <= pause <= NSEC && Stands(t, count)
      requires secBeg != deadline && Run(carry, start, pause, lastSec, turns)
      requires AtHead(carry, start, pause, turns, secBeg.v, deadline.v, world.now)
      modifies this`failed, packets, world, secBeg, deadline
      ensures stop ==> Stops(FromNanos(world.now), StartCell(start, turns), lastSec)
      ensures stop ==> Stands(t.Asks([Read(world.now)]), count') && (world.exact ==> world.now == old(world.now))
      ensures !stop ==> HandsOver(sink, t.made, factor, hand)
      ensures !stop ==> Stands(t.Turns(factor, hand, TurnLog(carry, start, pause, |turns|, turn, hand)), count')
      ensures !stop ==> Run(carry, start, pause, lastSec, turns + [turn])
      ensures !stop ==> AtHead(carry, start, pause, turns + [turn], secBeg.v, deadline.v, world.now)
      ensures !stop && world.exact ==>
                turn.begin == old(world.now)
                && world.now == Until(Deadline(carry, FromNanos(start), pause, |turns| + 2), turn.now)
      ensures !stop ==> 0 <= Remaining(start, lastSec, old(deadline.v))
      ensures !stop ==> Remaining(start, lastSec, deadline.v) < Remaining(start, lastSec, old(deadline.v))
    {
      ghost var begin;
      stop, begin := TestStop(secBeg, lastSec);
      count', turn, hand := count, Turn(begin, begin), [];
      if stop {
        return;
      }
      count', hand := SendTurn(count, t.Asks([Read(begin)]));
      ghost var now := Pace(deadline, Timespec(0, pause));
      turn := Turn(begin, now);
      TurnHolds(carry, start, pause, lastSec, turns, old(secBeg.v), old(deadline.v), old(world.now), turn, world.now);
      LogJoin(t, factor, begin, hand, now, SleepsFor(deadline.v, now));
    }

    /** What a burst has done after these turns, from `t` on. */
    ghost predicate Bursting(start: int, pause: int, turns: seq<Turn>, hands: seq<seq<Event>>, t: Tally, count: B.u32,
                             read: seq<Event>)
      reads this`failed, packets, world
    {
      && |hands| == |turns| && HandsOver(sink, t.made, Packets(|turns|, factor), Flat(hands))
      && Stands(BurstTally(carry, start, pause, factor, turns, hands, t).Asks(read), count)
      && (world.exact ==>
            Punctual(carry, start, pause, turns) && world.now == NextBegin(carry, start, pause, turns))
    }

    /** One more turn, or the end of the burst. */
    method NextTurn(count: B.u32, pause: int, lastSec: B.u32, secBeg: TimeCell, deadline: TimeCell, ghost start: int,
                    ghost turns: seq<Turn>, ghost hands: seq<seq<Event>>, ghost t: Tally)
        returns (stop: bool, count': B.u32, ghost turns': seq<Turn>, ghost hands': seq<seq<Event>>)
      requires 1 <= pause <= NSEC && secBeg != deadline && Run(carry, start, pause, lastSec, turns)
      requires AtHead(carry, start, pause, turns, secBeg.v, deadline.v, world.now)
      requires Bursting(start, pause, turns, hands, t, count, [])
      modifies this`failed, packets, world, secBeg, deadline
      ensures stop ==>
                turns' == turns && hands' == hands && Stops(FromNanos(world.now), StartCell(start, turns), lastSec)
      ensures Bursting(start, pause, turns', hands', t, count', if stop then [Read(world.now)] else [])
      ensures !stop ==> Run(carry, start, pause, lastSec, turns')
      ensures !stop ==> AtHead(carry, start, pause, turns', secBeg.v, deadline.v, world.now)
      ensures !stop ==> 0 <= Remaining(start, lastSec, old(deadline.v))
      ensures !stop ==> Remaining(start, lastSec, deadline.v) < Remaining(start, lastSec, old(deadline.v))
    {
      ghost var now := BurstTally(carry, start, pause, factor, turns, hands, t);
      AsksNothing(now);
      ghost var turn, hand;
      stop, count', turn, hand := OneTurn(count, pause, lastSec, secBeg, deadline, start, turns, now);
      turns', hands' := turns, hands;
      if !stop {
        turns', hands' := turns + [turn], hands + [hand];
        HandsTurn(sink, t.made, Packets(|turns|, factor), hands, factor, hand);
        TallyTurn(carry, start, pause, factor, turns, hands, t, turn, hand);
        AsksNothing(BurstTally(carry, start, pause, factor, turns', hands', t));
        PunctualTurn(carry, start, pause, turns, turn);
      }
    }

    /** The loop of a burst. */
    method Loop(count: B.u32, pause: int, lastSec: B.u32, secBeg: TimeCell, deadline: TimeCell, ghost start: int,
                ghost t: Tally)
        returns (count': B.u32, ghost turns: seq<Turn>, ghost hands: seq<seq<Event>>)
      requires secBeg != deadline && 1 <= pause <= NSEC
      requires AtHead(carry, start, pause, [], secBeg.v, deadline.v, world.now)
      requires Bursting(start, pause, [], [], t, count, [])
      modifies this`isRun, this`failed, packets, world, secBeg, deadline
      ensures !isRun && Run(carry, start, pause, lastSec, turns)
      ensures !old(isRun) ==> turns == []
      ensures old(isRun) ==> Stops(FromNanos(world.now), StartCell(start, turns), lastSec)
      ensures Bursting(start, pause, turns, hands, t, count', if old(isRun) then [Read(world.now)] else [])
    {
      count', turns, hands := count, [], [];
      while isRun
        invariant isRun ==> old(isRun)
        invariant !old(isRun) ==> turns == []
        invariant !isRun && old(isRun) ==> Stops(FromNanos(world.now), StartCell(start, turns), lastSec)
        invariant isRun ==> AtHead(carry, start, pause, turns, secBeg.v, deadline.v, world.now)
        invariant Run(carry, start, pause, lastSec, turns)
        invariant Bursting(start, pause, turns, hands, t, count',
                           if old(isRun) && !isRun then [Read(world.now)] else [])
        decreases isRun, Remaining(start, lastSec, deadline.v)
      {
        var stop;
        stop, count', turns, hands := NextTurn(count', pause, lastSec, secBeg, deadline, start, turns, hands, t);
        if stop {
          isRun := false;
          break;
        }
      }
    }

    /** A burst, with the carry as it is written or repaired. It ends whatever the clock does.
        Unless the generator has been stopped before, its turns are a run of the model that ends
        with a successful stop test; afterwards the generator stays stopped. It makes and counts
        `factor` packets a turn, and hands them over in order, each once; those that the device
        refuses are counted too. What it asks of the world is the journal of its turns, nothing
        more. In an exact world each turn begins as soon as the one before has ended and its
        sleep is over. */
    method Burst(count: B.u32, rate: B.u32, lastSec: B.u32)
        returns (count': B.u32, ghost start: int, ghost turns: seq<Turn>, ghost hands: seq<seq<Event>>)
      requires 1 <= rate <= NSEC && packets.Valid()
      modifies this`isRun, this`failed, packets, world
      ensures !isRun
      ensures old(world.now) <= start && (world.exact ==> start == old(world.now))
      ensures Run(carry, start, Pause(rate), lastSec, turns)
      ensures carry.Repaired? || rate >= 2 ==> |turns| <= MaxTurns(Pause(rate), lastSec)
      ensures carry.AsWritten? ==> |turns| <= WrittenMost(rate, lastSec)
      ensures !old(isRun) || lastSec == 0 ==> turns == []
      ensures old(isRun) ==> Stops(FromNanos(world.now), StartCell(start, turns), lastSec)
      ensures |hands| == |turns| && HandsOver(sink, old(packets.made), |turns| * factor, Flat(hands))
      ensures Stands(Tally(old(packets.made) + |turns| * factor, count + |turns| * factor,
                           old(failed) + Refused(Flat(hands)),
                           old(world.log) + [Read(start)] + Journal(carry, start, Pause(rate), turns, hands)
                           + if old(isRun) then [Read(world.now)] else []),
                     count')
      ensures world.exact ==>
                Punctual(carry, start, Pause(rate), turns) && world.now == NextBegin(carry, start, Pause(rate), turns)
    {
      PauseFits(rate);
      var t := world.GetTime();
      start := t;
      ghost var tally := Tally(packets.made, count, failed, world.log);
      count', turns, hands := FromStart(count, 1_000_000_000 / rate, lastSec, t, tally);
      BurstFits(carry, start, rate, lastSec, turns);
      TallySum(carry, start, Pause(rate), factor, turns, hands, tally, if old(isRun) then [Read(world.now)] else []);
    }

    /** A burst from its first reading of the clock on. */
    method FromStart(count: B.u32, pause: int, lastSec: B.u32, start: int, ghost t: Tally)
        returns (count': B.u32, ghost turns: seq<Turn>, ghost hands: seq<seq<Event>>)
      requires 1 <= pause <= NSEC && start == world.now && Stands(t, count)
      modifies this`isRun, this`failed, packets, world
      ensures !isRun && Run(carry, start, pause, lastSec, turns)
      ensures !old(isRun) ==> turns == []
      ensures old(isRun) ==> Stops(FromNanos(world.now), StartCell(start, turns), lastSec)
      ensures Bursting(start, pause, turns, hands, t, count', if old(isRun) then [Read(world.now)] else [])
    {
      var secBeg := new TimeCell(FromNanos(start));
      var deadline := new TimeCell(FromNanos(start));
      TimespecAdd(carry, deadline, deadline.v, Timespec(0, pause));
      DeadlineStep(carry, FromNanos(start), pause, 0);
      AheadFirst(carry, pause, start);
      assert Begins([]) == [];
      AsksNothing(t);
      count', turns, hands := Loop(count, pause, lastSec, secBeg, deadline, start, t);
    }
  }

  lemma PauseFits(rate: int)
    requires 1 <= rate <= NSEC
    ensures 1 <= Pause(rate) <= NSEC
  {
    PauseRange(rate);
  }

  /** The sizes of a burst, with either carry. */
  lemma BurstFits(carry: Carry, start: int, rate: int, lastSec: nat, turns: seq<Turn>)
    requires 1 <= rate <= NSEC && Run(carry, start, Pause(rate), lastSec, turns)
    ensures 1 <= Pause(rate)
    ensures carry.Repaired? || rate >= 2 ==> |turns| <= MaxTurns(Pause(rate), lastSec)
    ensures carry.AsWritten? ==> |turns| <= WrittenMost(rate, lastSec)
    ensures lastSec == 0 ==> turns == []
  {
    PauseRange(rate);
    NoTime(carry, start, Pause(rate), turns);
    if carry.Repaired? {
      BurstSize(start, Pause(rate), lastSec, turns);
    } else {
      WrittenSizes(start, rate, lastSec, turns);
    }
  }

  // ------------------------------------------------------------------- the journal

  lemma OneMoreCounted(n: nat, count: B.u32)
    requires count == n % B.TWO32
    ensures (count + 1) % B.TWO32 == (n + 1) % B.TWO32
  {
  }

  lemma WholeFrame(frame: B.Bytes, k: nat)
    requires |frame| == P.FRAME_SIZE && frame[..P.ETHER_HEADER] == P.Header(k)
    ensures IsPacket(frame, k)
  {
  }

  /** `n` packets handed over in order, each once, from number `first` on; a callback takes all. */
  predicate HandsOver(sink: Sink, first: nat, n: nat, hand: seq<Event>) {
    if sink.Nowhere? then hand == []
    else |hand| == n && forall i :: 0 <= i < n ==> Offers(hand[i], first + i, sink)
  }

  predicate Offers(e: Event, k: nat, sink: Sink) {
    e.Handed? && e.packet == k && (sink.Callback? ==> e.taken)
  }

  /** How many of them the sink has refused. */
  function Refused(hand: seq<Event>): nat {
    if hand == [] then 0
    else Refused(hand[..|hand| - 1]) + (var e := hand[|hand| - 1]; if e.Handed? && !e.taken then 1 else 0)
  }

  lemma RefusedOne(hand: seq<Event>)
    requires |hand| == 1
    ensures Refused(hand) == if hand[0].Handed? && !hand[0].taken then 1 else 0
  {
    assert hand[..0] == [];
  }

  lemma {:induction false} RefusedJoin(a: seq<Event>, b: seq<Event>)
    ensures Refused(a + b) == Refused(a) + Refused(b)
  {
    if b == [] {
      assert a + b == a;
    } else {
      var n := |b| - 1;
      RefusedJoin(a, b[..n]);
      assert (a + b)[..|a| + n] == a + b[..n];
    }
  }

  lemma HandsJoin(sink: Sink, first: nat, n: nat, a: seq<Event>, m: nat, b: seq<Event>)
    requires HandsOver(sink, first, n, a) && HandsOver(sink, first + n, m, b)
    ensures HandsOver(sink, first, n + m, a + b)
  {
    if !sink.Nowhere? {
      forall i | 0 <= i < n + m ensures Offers((a + b)[i], first + i, sink) {
        if i >= n {
          assert (a + b)[i] == b[i - n] && Offers(b[i - n], first + n + (i - n), sink);
        }
      }
    }
  }

  function Flat(hands: seq<seq<Event>>): seq<Event> {
    if hands == [] then [] else Flat(hands[..|hands| - 1]) + hands[|hands| - 1]
  }

  lemma FlatSnoc(hands: seq<seq<Event>>, hand: seq<Event>)
    ensures Flat(hands + [hand]) == Flat(hands) + hand
  {
    assert (hands + [hand])[..|hands|] == hands;
  }

  lemma HandsTurn(sink: Sink, first: nat, n: nat, hands: seq<seq<Event>>, m: nat, hand: seq<Event>)
    requires HandsOver(sink, first, n, Flat(hands)) && HandsOver(sink, first + n, m, hand)
    ensures HandsOver(sink, first, n + m, Flat(hands + [hand]))
  {
    FlatSnoc(hands, hand);
    HandsJoin(sink, first, n, Flat(hands), m, hand);
  }

  /** Packets made, packets and refusals counted, and what has been asked of the world. */
  datatype Tally = Tally(made: nat, total: nat, refused: nat, log: seq<Event>) {
    /** `n` packets on, handed over as `hand`, while `asked` was asked of the world. */
    function Turns(n: nat, hand: seq<Event>, asked: seq<Event>): Tally {
      Tally(made + n, total + n, refused + Refused(hand), log + asked)
    }

    function On(n: nat, hand: seq<Event>): Tally {
      Turns(n, hand, hand)
    }

    function Asks(asked: seq<Event>): Tally {
      Tally(made, total, refused, log + asked)
    }
  }

  lemma AsksNothing(t: Tally)
    ensures t.Asks([]) == t && t.On(0, []) == t
  {
  }

  lemma OnJoin(t: Tally, n: nat, a: seq<Event>, m: nat, b: seq<Event>)
    ensures t.On(n, a).On(m, b) == t.On(n + m, a + b)
  {
    RefusedJoin(a, b);
  }

  ghost function BurstTally(carry: Carry, start: int, pause: int, factor: nat, turns: seq<Turn>,
                            hands: seq<seq<Event>>, t: Tally): Tally
    requires |hands| == |turns|
  {
    t.Turns(Packets(|turns|, factor), Flat(hands), Journal(carry, start, pause, turns, hands))
  }

  /** The whole of a burst, with the final reading of the clock. */
  lemma TallySum(carry: Carry, start: int, pause: int, factor: nat, turns: seq<Turn>, hands: seq<seq<Event>>, t: Tally,
                 read: seq<Event>)
    requires |hands| == |turns|
    ensures Packets(|turns|, factor) == |turns| * factor >= 0
    ensures BurstTally(carry, start, pause, factor, turns, hands, t).Asks(read) ==
            Tally(t.made + |turns| * factor, t.total + |turns| * factor, t.refused + Refused(Flat(hands)),
                  t.log + Journal(carry, start, pause, turns, hands) + read)
  {
    PacketsProduct(|turns|, factor);
  }

  lemma TallyTurn(carry: Carry, start: int, pause: int, factor: nat, turns: seq<Turn>, hands: seq<seq<Event>>, t: Tally,
                  turn: Turn, hand: seq<Event>)
    requires |hands| == |turns|
    ensures BurstTally(carry, start, pause, factor, turns + [turn], hands + [hand], t) ==
            BurstTally(carry, start, pause, factor, turns, hands, t)
            .Turns(factor, hand, TurnLog(carry, start, pause, |turns|, turn, hand))
  {
    FlatSnoc(hands, hand);
    RefusedJoin(Flat(hands), hand);
    JournalTurn(t.log, carry, start, pause, turns, hands, turn, hand);
  }

  /** The sleep asked for at the end of a turn. */
  function SleepsFor(deadline: Timespec, now: int): seq<Event> {
    var d := Left(deadline, now);
    if d.negative then [] else [Sleep(d.result)]
  }

  /** What turn `i` asks of the world: the time, to take its packets, the time again, and
      a sleep until its deadline unless that is past. */
  function TurnLog(carry: Carry, start: int, pause: int, i: nat, turn: Turn, hand: seq<Event>): seq<Event> {
    [Read(turn.begin)] + hand + [Read(turn.now)]
    + SleepsFor(Deadline(carry, FromNanos(start), pause, i + 2), turn.now)
  }

  function Journal(carry: Carry, start: int, pause: int, turns: seq<Turn>, hands: seq<seq<Event>>): seq<Event>
    requires |hands| == |turns|
  {
    if turns == [] then []
    else
      var n := |turns| - 1;
      Journal(carry, start, pause, turns[..n], hands[..n]) + TurnLog(carry, start, pause, n, turns[n], hands[n])
  }

  lemma JournalTurn(log: seq<Event>, carry: Carry, start: int, pause: int, turns: seq<Turn>, hands: seq<seq<Event>>,
                    turn: Turn, hand: seq<Event>)
    requires |hands| == |turns|
    ensures log + Journal(carry, start, pause, turns, hands) + TurnLog(carry, start, pause, |turns|, turn, hand) ==
            log + Journal(carry, start, pause, turns + [turn], hands + [hand])
  {
    assert (turns + [turn])[..|turns|] == turns && (hands + [hand])[..|turns|] == hands;
  }

  lemma LogJoin(t: Tally, n: nat, begin: int, hand: seq<Event>, now: int, sleeps: seq<Event>)
    ensures t.Asks([Read(begin)]).On(n, hand).Asks([Read(now)] + sleeps) ==
            t.Turns(n, hand, [Read(begin)] + hand + [Read(now)] + sleeps)
  {
    assert t.log + [Read(begin)] + hand + ([Read(now)] + sleeps) ==
           t.log + ([Read(begin)] + hand + [Read(now)] + sleeps);
  }

  // ------------------------------------------------------------------- an exact world

  lemma PunctualTurn(carry: Carry, start: int, pause: int, turns: seq<Turn>, turn: Turn)
    ensures Punctual(carry, start, pause, turns) && turn.begin == NextBegin(carry, start, pause, turns) ==>
              Punctual(carry, start, pause, turns + [turn])
    ensures NextBegin(carry, start, pause, turns + [turn]) ==
            Until(Deadline(carry, FromNanos(start), pause, |turns| + 2), turn.now)
  {
    var longer := turns + [turn];
    assert forall i :: 0 <= i < |turns| ==> longer[..i] == turns[..i];
    assert longer[..|turns|] == turns;
  }

  /** The packets of `n` turns. */
  function Packets(n: nat, factor: nat): nat {
    if n == 0 then 0 else Packets(n - 1, factor) + factor
  }

  lemma {:induction false} PacketsProduct(n: nat, factor: nat)
    ensures Packets(n, factor) == n * factor
  {
    if n > 0 {
      PacketsProduct(n - 1, factor);
      assert (n - 1) * factor + factor == n * factor;
    }
  }

  /** What the loop's variables hold at the head of a turn. */
  ghost predicate AtHead(carry: Carry, start: int, pause: int, turns: seq<Turn>, secBeg: Timespec,
                         deadline: Timespec, now: int) {
    && secBeg == StartCell(start, turns)
    && deadline == Deadline(carry, FromNanos(start), pause, |turns| + 1)
    && (turns != [] ==> Slept(deadline, turns[|turns| - 1].now, now))
    && start <= now && Ahead(carry, pause, deadline, now)
  }

  lemma DeadlineStep(carry: Carry, start: Timespec, pause: int, k: nat)
    ensures Deadline(carry, start, pause, k + 1) == Add(carry, Deadline(carry, start, pause, k), Timespec(0, pause))
  {
  }

  // ------------------------------------------------------------------- termination

  /** The deadline's seconds never run more than three ahead of the clock: a sleep request is
      rejected only for three seconds' worth of nanoseconds or more, and as written at most two
      deadlines in a row have that many. */
  ghost predicate Ahead(carry: Carry, pause: int, d: Timespec, now: int) {
    && (Normal(d) || (carry.AsWritten? && 2 * NSEC <= d.nsec < B.TWO32))
    && d.sec <= now / NSEC + (if d.nsec < 3 * NSEC then 1 else if d.nsec < 4 * NSEC + pause then 2 else 3)
  }

  /** How far a deadline is from the last second a burst may reach. As it moves on, its seconds
      grow, or they stay and its nanoseconds fall back below a second or grow. */
  function Remaining(start: int, lastSec: nat, d: Timespec): int {
    (start / NSEC + lastSec + 3 - d.sec) * 6 * NSEC + (if d.nsec >= NSEC then 6 * NSEC else NSEC) - d.nsec
  }

  lemma AheadFirst(carry: Carry, pause: int, start: int)
    requires 1 <= pause <= NSEC
    ensures Ahead(carry, pause, Add(carry, FromNanos(start), Timespec(0, pause)), start)
  {
  }

  /** A deadline below three seconds' worth of nanoseconds is reached by its sleep. */
  lemma Reached(d: Timespec, now: int, next: int)
    requires (Normal(d) || 2 * NSEC <= d.nsec < 3 * NSEC) && Slept(d, now, next)
    ensures d.sec <= next / NSEC
  {
    if Normal(d) {
      SleptReaches(d, now, next);
    } else {
      LateSleptReaches(d, now, next);
    }
  }

  lemma AheadLater(carry: Carry, pause: int, d: Timespec, now: int, later: int)
    requires Ahead(carry, pause, d, now) && now <= later
    ensures Ahead(carry, pause, d, later)
  {
    assert now / NSEC <= later / NSEC;
  }

  /** A turn keeps the deadline close to the clock, whichever way it carries. */
  lemma AheadKept(carry: Carry, pause: int, d: Timespec, begin: int, now: int, next: int)
    requires 1 <= pause <= NSEC && Ahead(carry, pause, d, begin) && begin <= now
    requires Slept(Add(carry, d, Timespec(0, pause)), now, next)
    ensures Ahead(carry, pause, Add(carry, d, Timespec(0, pause)), next)
  {
    var e := Add(carry, d, Timespec(0, pause));
    assert begin / NSEC <= next / NSEC;
    if e.nsec < 3 * NSEC {
      Reached(e, now, next);
    } else {
      assert carry.AsWritten? && e == Timespec(d.sec + 1, d.nsec + pause + NSEC);
    }
  }

  /** And moves the deadline on, towards the last second the burst may reach. */
  lemma RemainingDrops(carry: Carry, pause: int, d: Timespec, start: int, lastSec: nat, begin: int)
    requires 1 <= pause <= NSEC && Ahead(carry, pause, d, begin)
    requires begin - start <= lastSec * NSEC
    ensures 0 <= Remaining(start, lastSec, d)
    ensures Remaining(start, lastSec, Add(carry, d, Timespec(0, pause))) < Remaining(start, lastSec, d)
  {
    SecondsLeft(start, begin, lastSec);
  }

  lemma SecondsLeft(start: int, begin: int, lastSec: nat)
    requires begin - start <= lastSec * NSEC
    ensures begin / NSEC <= start / NSEC + lastSec
  {
  }

  // ------------------------------------------------------------------- the run

  /** What a turn that goes on keeps. */
  lemma TurnHolds(carry: Carry, start: int, pause: int, lastSec: nat, turns: seq<Turn>, cell: Timespec, d: Timespec,
                  before: int, turn: Turn, next: int)
    requires 1 <= pause <= NSEC && Run(carry, start, pause, lastSec, turns)
    requires AtHead(carry, start, pause, turns, cell, d, before) && before <= turn.begin <= turn.now
    requires !Stops(FromNanos(turn.begin), cell, lastSec)
    requires Slept(Add(carry, d, Timespec(0, pause)), turn.now, next)
    ensures var e := Add(carry, d, Timespec(0, pause));
            && e == Deadline(carry, FromNanos(start), pause, |turns| + 2)
            && Run(carry, start, pause, lastSec, turns + [turn])
            && AtHead(carry, start, pause, turns + [turn], Subtract(FromNanos(turn.begin), cell).y, e, next)
            && 0 <= Remaining(start, lastSec, d) && Remaining(start, lastSec, e) < Remaining(start, lastSec, d)
  {
    Extend(carry, start, pause, lastSec, turns, turn);
    DeadlineStep(carry, FromNanos(start), pause, |turns| + 1);
    StopTest(start, lastSec, turns, turn.begin);
    AheadLater(carry, pause, d, before, turn.begin);
    RemainingDrops(carry, pause, d, start, lastSec, turn.begin);
    AheadKept(carry, pause, d, turn.begin, turn.now, next);
  }

  /** One more turn of a run. */
  lemma Extend(carry: Carry, start: int, pause: int, lastSec: nat, turns: seq<Turn>, turn: Turn)
    requires Run(carry, start, pause, lastSec, turns)
    requires start <= turn.begin <= turn.now
    requires !Stops(FromNanos(turn.begin), StartCell(start, turns), lastSec)
    requires turns != [] ==>
               Slept(Deadline(carry, FromNanos(start), pause, |turns| + 1), turns[|turns| - 1].now, turn.begin)
    ensures Run(carry, start, pause, lastSec, turns + [turn])
    ensures StartCell(start, turns + [turn]) == Subtract(FromNanos(turn.begin), StartCell(start, turns)).y
  {
    var longer := turns + [turn];
    forall i | 0 <= i < |longer| ensures Goes(start, lastSec, longer, i) {
      if i < |turns| {
        assert Goes(start, lastSec, turns, i);
        assert longer[..i] == turns[..i];
      } else {
        assert longer[..i] == turns;
      }
    }
    forall i | 0 < i < |longer| ensures Follows(carry, start, pause, longer, i) {
      if i < |turns| {
        assert Follows(carry, start, pause, turns, i);
      }
    }
    var b := Begins(longer);
    assert b[..|b| - 1] == Begins(turns);
  }

  /** Packets of different flows differ in both addresses. */
  predicate Differ(m: nat, n: nat) {
    P.Header(m)[..6] != P.Header(n)[..6] && P.Header(m)[6..12] != P.Header(n)[6..12]
  }

  lemma DifferIff(m: nat, n: nat)
    ensures Differ(m, n) <==> m % P.PERIOD != n % P.PERIOD
  {
    HeaderParts(m);
    HeaderParts(n);
    P.SameAddressIff(m, n);
  }

  /** All frames of a burst of `n` packets, from number `first` on, are new flows. */
  ghost predicate AllFresh(first: nat, n: nat) {
    forall i, j :: first <= i < j < first + n ==> Differ(i, j)
  }

  /** That is so exactly when there are at most 2^24 of them, wherever the counters stand in
      their cycle. */
  lemma BurstIsFreshIff(first: nat, n: nat)
    ensures AllFresh(first, n) <==> n <= P.PERIOD
  {
    if n <= P.PERIOD {
      forall i, j | first <= i < j < first + n ensures Differ(i, j) {
        DifferWithin(i, j);
      }
    } else {
      RepeatsAfter(first);
    }
  }

  lemma DifferWithin(m: nat, n: nat)
    requires m < n < m + P.PERIOD
    ensures Differ(m, n)
  {
    DifferIff(m, n);
    P.Apart(m, n - m);
  }

  lemma RepeatsAfter(n: nat)
    ensures !Differ(n, n + P.PERIOD)
  {
    P.ExactPeriod(n);
    assert P.Header(n + P.PERIOD) == P.Header(n);
  }

  lemma MulMonotone(a: nat, b: nat, c: nat)
    requires a <= b
    ensures a * c <= b * c
  {
  }

  lemma HeaderParts(n: nat)
    ensures P.Header(n)[..6] == P.DstMac(n) && P.Header(n)[6..12] == P.SrcMac(n)
  {
  }
}
