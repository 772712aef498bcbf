/**
 The packet-in tester's accounting: one thread charges each PACKET_IN to the current group,
 the test thread runs one burst a group, moves to the next group and appends its own record.
 */
module Tester {
  import opened Bytes
  import FlowGen
  import BurstModel
  import TimeArith
  import WrittenRate

  const GROUPS: nat := 2048

  /** A group's record; stamps are whole seconds, 0 for none yet. */
  datatype Group = Group(time: u32, sentFlow: u32, sentPerSec: u32, packetIns: u32, first: u32, last: u32)

  const EmptyGroup: Group := Group(0, 0, 0, 0, 0, 0)

  function Charged(g: Group, sec: u32): Group {
    g.(first := if g.first == 0 then sec else g.first, last := sec, packetIns := (g.packetIns + 1) % TWO32)
  }

  // ---------------------------------------------------- the two threads, stepwise

  /** A PACKET_IN, by the group it was charged to and the second it came. */
  datatype Charge = Charge(group: nat, sec: u32)

  /** `tested`: the test thread has moved the index and not yet appended its record. `handled`
      and `charges` record the PACKET_INs handled, `clock` the last second read. */
  datatype State = State(data: seq<Group>, index: nat, tested: bool, handled: nat, clock: u32,
                         charges: seq<Charge>)

  datatype Step = PacketIn(sec: u32) | NextGroup | Append(group: Group)

  predicate Initial(s: State) {
    s == State(seq(GROUPS, _ => EmptyGroup), 0, false, 0, 1, [])
  }

  /** The clock is positive and never goes back. An appended record has counted nothing, and has
      sent nothing either unless it is the first: its burst leaves the generator stopped. */
  predicate Enabled(s: State, step: Step) {
    match step
    case PacketIn(sec) => s.clock <= sec && s.index < |s.data|
    case NextGroup => !s.tested
    case Append(g) => s.tested && g.packetIns == g.first == g.last == 0 && (s.index > 1 ==> g.sentFlow == 0)
  }

  function Next(s: State, step: Step): State
    requires Enabled(s, step)
  {
    match step
    case PacketIn(sec) =>
      s.(data := s.data[s.index := Charged(s.data[s.index], sec)], handled := s.handled + 1, clock := sec,
         charges := s.charges + [Charge(s.index, sec)])
    case NextGroup => s.(index := s.index + 1, tested := true)
    case Append(g) => s.(data := s.data + [g], tested := false)
  }

  ghost predicate Leads(s: State, steps: seq<Step>, t: State)
    decreases |steps|
  {
    if steps == [] then s == t
    else Enabled(s, steps[0]) && Leads(Next(s, steps[0]), steps[1..], t)
  }

  ghost predicate Reachable(s: State) {
    exists s0, steps :: Initial(s0) && Leads(s0, steps, s)
  }

  function PacketIns(data: seq<Group>): nat {
    if data == [] then 0 else PacketIns(data[..|data| - 1]) + data[|data| - 1].packetIns
  }

  lemma {:induction false} PacketInsUpdate(data: seq<Group>, i: nat, g: Group)
    requires i < |data|
    ensures PacketIns(data[i := g]) == PacketIns(data) - data[i].packetIns + g.packetIns
  {
    var n := |data| - 1;
    if i == n {
      assert data[i := g][..n] == data[..n];
    } else {
      PacketInsUpdate(data[..n], i, g);
      assert data[i := g][..n] == data[..n][i := g];
    }
  }

  lemma {:induction false} PacketInsNone(n: nat)
    ensures PacketIns(seq(n, _ => EmptyGroup)) == 0
  {
    if n > 0 {
      PacketInsNone(n - 1);
      assert seq(n, _ => EmptyGroup)[..n - 1] == seq(n - 1, _ => EmptyGroup);
    }
  }

  lemma {:induction false} PacketInsAtLeast(data: seq<Group>, i: nat)
    requires i < |data|
    ensures data[i].packetIns <= PacketIns(data)
  {
    if i < |data| - 1 {
      PacketInsAtLeast(data[..|data| - 1], i);
    }
  }

  ghost predicate CountInv(s: State) {
    && PacketIns(s.data) <= s.handled
    && PacketIns(s.data) % TWO32 == s.handled % TWO32
    && (s.handled < TWO32 ==> PacketIns(s.data) == s.handled)
  }

  predicate Stamped(g: Group, clock: u32) {
    g.first <= g.last <= clock && (g.first == 0 <==> g.last == 0)
  }

  ghost predicate GroupInv(s: State) {
    && |s.data| + (if s.tested then 1 else 0) == GROUPS + s.index
    && s.clock >= 1
    && forall i :: 0 <= i < |s.data| ==> Stamped(s.data[i], s.clock)
  }

  /** The seconds of the PACKET_INs charged to a group, in order. */
  function SecondsOf(charges: seq<Charge>, group: nat): seq<u32> {
    if charges == [] then []
    else
      var c := charges[|charges| - 1];
      SecondsOf(charges[..|charges| - 1], group) + if c.group == group then [c.sec] else []
  }

  lemma SecondsSnoc(charges: seq<Charge>, c: Charge, group: nat)
    ensures SecondsOf(charges + [c], group) == SecondsOf(charges, group) + if c.group == group then [c.sec] else []
  {
    assert (charges + [c])[..|charges|] == charges;
  }

  /** A record tells how many PACKET_INs were charged to its group, and when the first and the
      last of them came. */
  predicate Tells(g: Group, secs: seq<u32>) {
    && g.packetIns == |secs| % TWO32
    && g.first == (if secs == [] then 0 else secs[0]) && g.last == (if secs == [] then 0 else secs[|secs| - 1])
  }

  ghost predicate ChargeInv(s: State) {
    && |s.charges| == s.handled && s.clock >= 1
    && (forall i :: 0 <= i < |s.charges| ==> s.charges[i].group < |s.data| && s.charges[i].sec >= 1)
    && (forall i :: 0 <= i < |s.data| ==> Tells(s.data[i], SecondsOf(s.charges, i)))
  }

  lemma {:induction false} SecondsPositive(charges: seq<Charge>, group: nat)
    requires forall i :: 0 <= i < |charges| ==> charges[i].sec >= 1
    ensures forall i :: 0 <= i < |SecondsOf(charges, group)| ==> SecondsOf(charges, group)[i] >= 1
  {
    if charges != [] {
      SecondsPositive(charges[..|charges| - 1], group);
    }
  }

  lemma {:induction false} SecondsNone(charges: seq<Charge>, group: nat)
    requires forall i :: 0 <= i < |charges| ==> charges[i].group < group
    ensures SecondsOf(charges, group) == []
  {
    if charges != [] {
      SecondsNone(charges[..|charges| - 1], group);
    }
  }

  lemma TellsMore(g: Group, secs: seq<u32>, sec: u32)
    requires Tells(g, secs) && sec >= 1 && forall i :: 0 <= i < |secs| ==> secs[i] >= 1
    ensures Tells(Charged(g, sec), secs + [sec])
  {
    assert (g.packetIns + 1) % TWO32 == (|secs| + 1) % TWO32;
  }

  lemma ChargeOne(data: seq<Group>, charges: seq<Charge>, group: nat, sec: u32, i: nat)
    requires group < |data| && i < |data| && sec >= 1 && Tells(data[i], SecondsOf(charges, i))
    requires forall j :: 0 <= j < |charges| ==> charges[j].sec >= 1
    ensures Tells(data[group := Charged(data[group], sec)][i], SecondsOf(charges + [Charge(group, sec)], i))
  {
    SecondsSnoc(charges, Charge(group, sec), i);
    if i == group {
      SecondsPositive(charges, i);
      TellsMore(data[i], SecondsOf(charges, i), sec);
    }
  }

  lemma ChargesKept(s: State, step: Step)
    requires ChargeInv(s) && Enabled(s, step)
    ensures ChargeInv(Next(s, step))
  {
    var t := Next(s, step);
    match step
    case PacketIn(sec) =>
      forall i | 0 <= i < |t.data| ensures Tells(t.data[i], SecondsOf(t.charges, i)) {
        ChargeOne(s.data, s.charges, s.index, sec, i);
      }
    case NextGroup =>
    case Append(g) => SecondsNone(s.charges, |s.data|);
  }

  /** Until the first 2048 groups are used up, what is charged and what is sent are recorded
      in different groups. */
  ghost predicate ApartInv(s: State) {
    && |s.data| >= GROUPS
    && (forall i :: 0 <= i < GROUPS ==> s.data[i].sentFlow == 0)
    && (s.index < GROUPS ==> forall i :: GROUPS <= i < |s.data| ==> s.data[i].packetIns == 0)
  }

  ghost predicate Inv(s: State) {
    CountInv(s) && GroupInv(s) && ApartInv(s) && ChargeInv(s)
  }

  /** Counting one more, in a 32-bit counter or outside it. */
  lemma OneMoreMod(sum: int, handled: int, c: u32)
    requires sum % TWO32 == handled % TWO32
    ensures (sum - c + (c + 1) % TWO32) % TWO32 == (handled + 1) % TWO32
  {
    var q, r := sum / TWO32, handled / TWO32;
    assert sum - handled == TWO32 * (q - r);
    if c == TWO32 - 1 {
      assert sum - c + 0 == handled + 1 + TWO32 * (q - r - 1);
    }
  }

  lemma ChargeKept(s: State, sec: u32)
    requires CountInv(s) && Enabled(s, PacketIn(sec))
    ensures CountInv(Next(s, PacketIn(sec)))
  {
    var g := s.data[s.index];
    PacketInsUpdate(s.data, s.index, Charged(g, sec));
    PacketInsAtLeast(s.data, s.index);
    OneMoreMod(PacketIns(s.data), s.handled, g.packetIns);
  }

  lemma CountKept(s: State, step: Step)
    requires CountInv(s) && Enabled(s, step)
    ensures CountInv(Next(s, step))
  {
    match step
    case PacketIn(sec) => ChargeKept(s, sec);
    case NextGroup =>
    case Append(g) => assert (s.data + [g])[..|s.data|] == s.data;
  }

  lemma StepKeepsInv(s: State, step: Step)
    requires Inv(s) && Enabled(s, step)
    ensures Inv(Next(s, step))
  {
    CountKept(s, step);
    ChargesKept(s, step);
    GroupsKept(s, step);
    ApartKept(s, step);
  }

  lemma GroupsKept(s: State, step: Step)
    requires GroupInv(s) && Enabled(s, step)
    ensures GroupInv(Next(s, step))
  {
  }

  lemma ApartKept(s: State, step: Step)
    requires GroupInv(s) && ApartInv(s) && Enabled(s, step)
    ensures ApartInv(Next(s, step))
  {
  }

  lemma {:induction false} RunKeepsInv(s: State, steps: seq<Step>, t: State)
    requires Inv(s) && Leads(s, steps, t)
    ensures Inv(t)
    decreases |steps|
  {
    if steps != [] {
      StepKeepsInv(s, steps[0]);
      RunKeepsInv(Next(s, steps[0]), steps[1..], t);
    }
  }

  lemma ReachableInv(s: State)
    requires Reachable(s)
    ensures Inv(s)
  {
    var s0, steps :| Initial(s0) && Leads(s0, steps, s);
    PacketInsNone(GROUPS);
    RunKeepsInv(s0, steps, s);
  }

  /** Group accounting. Under every interleaving, for any number of groups run one after the
      other: the groups' PACKET_IN counts sum to those handled, exactly below 2^32 and modulo
      2^32 always; the index stays inside the data; every touched group has its first stamp
      no later than its last. */
  lemma GroupAccounting(s: State)
    requires Reachable(s)
    ensures PacketIns(s.data) % TWO32 == s.handled % TWO32
    ensures s.handled < TWO32 ==> PacketIns(s.data) == s.handled
    ensures s.index < |s.data|
    ensures forall i :: 0 <= i < |s.data| && s.data[i].first > 0 ==> s.data[i].first <= s.data[i].last
  {
    ReachableInv(s);
  }

  /** Each record tells exactly how many PACKET_INs were charged to its group, modulo 2^32, and the
      seconds of the first and the last of them; each one handled is charged to one group. */
  lemma RecordsTell(s: State, i: nat)
    requires Reachable(s) && i < |s.data|
    ensures Tells(s.data[i], SecondsOf(s.charges, i))
    ensures |s.charges| == s.handled && forall j :: 0 <= j < |s.charges| ==> s.charges[j].group < |s.data|
  {
    ReachableInv(s);
  }

  /** Packets sent and PACKET_INs received are never recorded in the same group while fewer
      than 2048 groups have finished. */
  lemma RecordsApart(s: State, i: nat)
    requires Reachable(s) && s.index < GROUPS && i < |s.data|
    ensures s.data[i].sentFlow == 0 || s.data[i].packetIns == 0
  {
    ReachableInv(s);
  }

  /** While the test thread runs a group, and until it has appended the group's record, the
      PACKET_INs go to another record: one 2048 places earlier during the burst, and the one
      after that between the burst and the append. */
  lemma ChargedElsewhere(s: State)
    requires Reachable(s)
    ensures s.index + GROUPS == |s.data| + (if s.tested then 1 else 0) && s.index < |s.data|
  {
    ReachableInv(s);
  }

  /** While the index stands at `k`, no record holds both packets sent and PACKET_INs. */
  ghost predicate ApartAt(k: nat) {
    forall s, i :: Reachable(s) && s.index == k && 0 <= i < |s.data| ==>
      s.data[i].sentFlow == 0 || s.data[i].packetIns == 0
  }

  /** The records stay apart for exactly the first 2048 groups, so in a whole test of twenty.
      Were tests repeated until the index comes to the first appended record, the only one of a
      group that has sent, later PACKET_INs would be added to it. */
  lemma RecordsApartIff(k: nat)
    ensures ApartAt(k) <==> k < GROUPS
  {
    if k < GROUPS {
      forall s, i | Reachable(s) && s.index == k && 0 <= i < |s.data|
        ensures s.data[i].sentFlow == 0 || s.data[i].packetIns == 0
      {
        RecordsApart(s, i);
      }
    } else {
      var s := ReachMixed(k);
    }
  }

  const OneSent: Group := Group(1, 1, 1, 0, 0, 0)
  const NoneSent: Group := Group(1, 0, 0, 0, 0, 0)

  lemma OneMoreGroup(r: State, g: Group) returns (s: State)
    requires Reachable(r) && !r.tested && g.packetIns == g.first == g.last == 0 && (r.index > 0 ==> g.sentFlow == 0)
    ensures Reachable(s) && s == r.(index := r.index + 1, data := r.data + [g])
  {
    ReachableNext(r, NextGroup);
    var t := Next(r, NextGroup);
    ReachableNext(t, Append(g));
    s := Next(t, Append(g));
  }

  /** A run of `k` groups, of which the first sends one packet, and none receives. */
  lemma {:induction false} ReachGroup(k: nat) returns (s: State)
    ensures Reachable(s) && s.index == k && !s.tested && s.clock == 1 && |s.data| == GROUPS + k
    ensures k > 0 ==> s.data[GROUPS] == OneSent
  {
    if k == 0 {
      s := State(seq(GROUPS, _ => EmptyGroup), 0, false, 0, 1, []);
      assert Initial(s) && Leads(s, [], s);
    } else {
      var r := ReachGroup(k - 1);
      s := OneMoreGroup(r, if k == 1 then OneSent else NoneSent);
    }
  }

  /** The first appended record, with a PACKET_IN of group 2048 added to it. */
  lemma {:induction false} ReachMixed(k: nat) returns (s: State)
    requires k >= GROUPS
    ensures Reachable(s) && s.index == k && !s.tested && |s.data| == GROUPS + k
    ensures s.data[GROUPS].sentFlow == 1 && s.data[GROUPS].packetIns == 1
  {
    if k == GROUPS {
      var r := ReachGroup(k);
      ReachableNext(r, PacketIn(1));
      s := Next(r, PacketIn(1));
    } else {
      var r := ReachMixed(k - 1);
      s := OneMoreGroup(r, NoneSent);
    }
  }

  lemma ReachableNext(s: State, step: Step)
    requires Reachable(s) && Enabled(s, step)
    ensures Reachable(Next(s, step))
  {
    var s0, steps :| Initial(s0) && Leads(s0, steps, s);
    LeadsOn(s0, steps, s, step);
  }

  lemma {:induction false} LeadsOn(s: State, steps: seq<Step>, t: State, step: Step)
    requires Leads(s, steps, t) && Enabled(t, step)
    ensures Leads(s, steps + [step], Next(t, step))
    decreases |steps|
  {
    if steps == [] {
      assert Leads(Next(t, step), [step][1..], Next(t, step));
    } else {
      assert (steps + [step])[0] == steps[0] && (steps + [step])[1..] == steps[1..] + [step];
      LeadsOn(Next(s, steps[0]), steps[1..], t, step);
    }
  }

  /** A 32-bit count of `n` turns is at most the packets of the longest burst. */
  lemma SentAtMost(count: u32, n: nat, most: nat, factor: nat)
    requires count == (0 + n * factor) % TWO32 && n <= most
    ensures count <= most * factor
  {
    FlowGen.MulMonotone(n, most, factor);
  }

  /** Both bounds on the packets a burst counts. */
  predicate FitsBurst(carry: TimeArith.Carry, rate: int, lastSec: nat, factor: nat, count: u32)
    requires 1 <= rate <= TimeArith.NSEC && 1 <= BurstModel.Pause(rate)
  {
    && (carry.Repaired? || rate >= 2 ==> count <= BurstModel.MaxTurns(BurstModel.Pause(rate), lastSec) * factor)
    && (carry.AsWritten? ==> count <= WrittenRate.WrittenMost(rate, lastSec) * factor)
  }

  lemma TestCounts(carry: TimeArith.Carry, factor: nat, count: u32)
    requires 1 <= BurstModel.Pause(100) && FitsBurst(carry, 100, 5, factor, count)
    ensures count <= (if carry.AsWritten? then 130 else 500) * factor
  {
    assert BurstModel.MaxTurns(10_000_000, 5) == 500 && WrittenRate.WrittenMost(100, 5) == 130;
  }

  lemma BurstCounts(carry: TimeArith.Carry, rate: int, lastSec: nat, n: nat, factor: nat, count: u32)
    requires 1 <= rate <= TimeArith.NSEC && 1 <= BurstModel.Pause(rate) && count == (0 + n * factor) % TWO32
    requires carry.Repaired? || rate >= 2 ==> n <= BurstModel.MaxTurns(BurstModel.Pause(rate), lastSec)
    requires carry.AsWritten? ==> n <= WrittenRate.WrittenMost(rate, lastSec)
    ensures FitsBurst(carry, rate, lastSec, factor, count)
  {
    if carry.Repaired? || rate >= 2 {
      SentAtMost(count, n, BurstModel.MaxTurns(BurstModel.Pause(rate), lastSec), factor);
    }
    if carry.AsWritten? {
      SentAtMost(count, n, WrittenRate.WrittenMost(rate, lastSec), factor);
    }
  }

  /** The whole packets a second that make up `count` packets. */
  predicate Averages(rate: u32, count: u32, lastSec: u32) {
    rate * lastSec <= count < (rate + 1) * lastSec
  }

  function PerSecond(count: u32, lastSec: u32): (r: u32)
    requires lastSec >= 1
    ensures Averages(r, count, lastSec)
  {
    QuotientRange(count, lastSec);
    count / lastSec
  }

  lemma QuotientRange(a: nat, b: nat)
    requires b >= 1
    ensures a / b * b <= a < (a / b + 1) * b && a / b <= a
  {
  }

  // ----------------------------------------------------------------- the object

  class PacketInTester {
    const flowGen: FlowGen.Generator
    var data: seq<Group>
    var groupIndex: nat

    constructor (flowGen: FlowGen.Generator)
      ensures this.flowGen == flowGen && data == seq(GROUPS, _ => EmptyGroup) && groupIndex == 0
    {
      this.flowGen := flowGen;
      data, groupIndex := seq(GROUPS, _ => EmptyGroup), 0;
    }

    /** A PACKET_IN is charged to the current group; the first stamp is kept. */
    method OnMessage(nowSec: u32)
      requires groupIndex < |data|
      modifies this`data
      ensures data == old(data)[groupIndex := Charged(old(data)[groupIndex], nowSec)]
    {
      var g := data[groupIndex];
      if g.first == 0 {
        g := g.(first := nowSec);
      }
      g := g.(last := nowSec);
      g := g.(packetIns := (g.packetIns + 1) % 0x1_0000_0000);
      data := data[groupIndex := g];
    }

    /** One burst; the number of packets it has made is recorded in the caller's group. */
    method GroupTest(g: Group, lastSec: u32, rate: u32)
        returns (g': Group, ghost start: int, ghost turns: seq<BurstModel.Turn>)
      requires flowGen.packets.Valid() && 1 <= rate <= TimeArith.NSEC && lastSec >= 1
      requires g.sentFlow == 0
      modifies this`groupIndex, flowGen`isRun, flowGen`failed, flowGen.packets, flowGen.world
      ensures flowGen.packets.Valid() && !flowGen.isRun && groupIndex == old(groupIndex) + 1
      ensures BurstModel.Run(flowGen.carry, start, BurstModel.Pause(rate), lastSec, turns)
      ensures old(flowGen.isRun) ==>
                TimeArith.Stops(TimeArith.FromNanos(flowGen.world.now), BurstModel.StartCell(start, turns), lastSec)
      ensures !old(flowGen.isRun) ==> turns == []
      ensures flowGen.packets.made == old(flowGen.packets.made) + |turns| * flowGen.factor
      ensures g' == g.(time := lastSec, sentFlow := (flowGen.packets.made - old(flowGen.packets.made)) % TWO32,
                       sentPerSec := g'.sentPerSec)
      ensures Averages(g'.sentPerSec, g'.sentFlow, lastSec)
      ensures 1 <= BurstModel.Pause(rate) && FitsBurst(flowGen.carry, rate, lastSec, flowGen.factor, g'.sentFlow)
    {
      FlowGen.PauseFits(rate);
      ghost var hands;
      var count;
      count, start, turns, hands := flowGen.Burst(g.sentFlow, rate, lastSec);
      BurstCounts(flowGen.carry, rate, lastSec, |turns|, flowGen.factor, count);
      g' := g.(time := lastSec, sentFlow := count, sentPerSec := PerSecond(count, lastSec));
      groupIndex := groupIndex + 1;
    }

    /** The whole test: twenty groups of five seconds, at rates 100 to 2000. The first burst leaves
        the generator stopped, so only the first group ever sends: its record holds the packets of
        a burst at 100 a second. */
    method DoTest() returns (ghost start: int, ghost turns: seq<BurstModel.Turn>)
      requires flowGen.packets.Valid()
      modifies this, flowGen`isRun, flowGen`failed, flowGen.packets, flowGen.world
      ensures flowGen.packets.Valid() && !flowGen.isRun
      ensures groupIndex == old(groupIndex) + 20 && |data| == |old(data)| + 20
      ensures data[..|old(data)|] == old(data)
      ensures BurstModel.Run(flowGen.carry, start, 10_000_000, 5, turns) && (!old(flowGen.isRun) ==> turns == [])
      ensures flowGen.packets.made == old(flowGen.packets.made) + |turns| * flowGen.factor
      ensures data[|old(data)|].sentFlow == (flowGen.packets.made - old(flowGen.packets.made)) % TWO32
      ensures data[|old(data)|].sentFlow <= (if flowGen.carry.AsWritten? then 130 else 500) * flowGen.factor
      ensures forall i :: |old(data)| <= i < |data| ==> Finished(data[i])
      ensures forall i :: |old(data)| < i < |data| ==> data[i].sentFlow == 0
    {
      var rate := 100;
      start, turns := 0, [];
      while rate <= 2000
        invariant flowGen.packets.Valid()
        invariant 100 <= rate <= 2100 && rate % 100 == 0
        invariant groupIndex == old(groupIndex) + (rate / 100 - 1) && |data| == |old(data)| + (rate / 100 - 1)
        invariant data[..|old(data)|] == old(data)
        invariant if rate == 100 then flowGen.isRun == old(flowGen.isRun) else !flowGen.isRun
        invariant rate == 100 ==> flowGen.packets.made == old(flowGen.packets.made)
        invariant rate > 100 ==>
          && BurstModel.Run(flowGen.carry, start, 10_000_000, 5, turns) && (!old(flowGen.isRun) ==> turns == [])
          && flowGen.packets.made == old(flowGen.packets.made) + |turns| * flowGen.factor
          && data[|old(data)|].sentFlow == (flowGen.packets.made - old(flowGen.packets.made)) % TWO32
          && data[|old(data)|].sentFlow <= (if flowGen.carry.AsWritten? then 130 else 500) * flowGen.factor
        invariant forall i :: |old(data)| <= i < |data| ==> Finished(data[i])
        invariant forall i :: |old(data)| < i < |data| ==> data[i].sentFlow == 0
        decreases 2100 - rate
      {
        ghost var first := rate == 100;
        var group;
        ghost var begin, run;
        group, begin, run := GroupTest(EmptyGroup, 5, rate);
        if first {
          start, turns := begin, run;
          assert BurstModel.Pause(100) == 10_000_000;
          TestCounts(flowGen.carry, flowGen.factor, group.sentFlow);
        }
        data := data + [group];
        rate := rate + 100;
      }
    }
  }

  /** The record of a group of five seconds, as it is appended. */
  predicate Finished(g: Group) {
    && g.time == 5 && g.packetIns == g.first == g.last == 0
    && Averages(g.sentPerSec, g.sentFlow, 5)
  }
}
