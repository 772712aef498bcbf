/**
 The proxy's guarantees, as a user of either stream would state them.
 */
module ProxyResults {
  import opened Bytes
  import opened Framing
  import opened Migrator
  import opened ProxyModel
  import opened ProxyTheorems

  // -------------------------------------------------- switch to controller

  /** What the proxy has from the switch and has not yet sent to the controller. */
  function Backlog(s: State): Bytes
    requires ConnOk(s.sw)
  {
    Concat(PostedTo(s.tasks, Controller)) + (if s.pending.Some? then s.pending.value else [])
    + Partial(s.sw) + s.sw.unread
  }

  lemma WrittenFirst(s: State)
    requires ConnOk(s.sw)
    ensures Concat(ToController(s)) + Undispatched(s.sw) == Concat(s.ctl.written) + Backlog(s)
  {
    var posted := PostedTo(s.tasks, Controller);
    var pending := if s.pending.Some? then [s.pending.value] else [];
    ConcatAppend(s.ctl.written + posted, pending);
    ConcatAppend(s.ctl.written, posted);
    if s.pending.Some? {
      OneMessage(s.pending.value);
    }
    Regroup4(Concat(s.ctl.written), Concat(posted), Concat(pending), Partial(s.sw), s.sw.unread);
  }

  lemma Regroup4(a: Bytes, b: Bytes, c: Bytes, d: Bytes, e: Bytes)
    ensures ((a + b) + c) + (d + e) == a + (((b + c) + d) + e)
  {
  }

  /** The messages already dispatched are the first messages of the stream. */
  lemma DispatchedFirst(port: u32, threshold: u32, s: State)
    requires Inv(EproxyWiring(port, threshold), s)
    ensures Frames(s.history.fromSwitch) == Frames(Undispatched(s.sw)).After(ToController(s))
  {
    FramesOfConcat(ToController(s), Undispatched(s.sw));
  }

  lemma FramesOfWhole(ms: seq<Message>)
    requires AllWellFormed(ms)
    ensures Frames(Concat(ms)) == Cut(ms, [])
  {
    FramesOfConcat(ms, []);
    assert Concat(ms) + [] == Concat(ms);
    assert ms + [] == ms;
  }

  /** Transparency. In every reachable state the bytes received from the switch are those
      sent to the controller followed by the posted messages, the one being posted, the
      partial message and the unread input. What was sent is whole messages, the first ones
      of the switch's stream, on the counted PACKET_IN path and the default path alike. */
  lemma Transparency(port: u32, threshold: u32, s: State)
    requires Reachable(EproxyWiring(port, threshold), s)
    ensures ConnOk(s.sw) && s.history.fromSwitch == Concat(s.ctl.written) + Backlog(s)
    ensures s.ctl.written <= Frames(s.history.fromSwitch).messages
    ensures Frames(Concat(s.ctl.written)) == Cut(s.ctl.written, [])
  {
    ReachableInv(port, threshold, s);
    WrittenFirst(s);
    DispatchedFirst(port, threshold, s);
    Prefixes(s.ctl.written, ToController(s), Frames(Undispatched(s.sw)).messages);
    FramesOfWhole(s.ctl.written);
  }

  lemma Prefixes(a: seq<Message>, b: seq<Message>, c: seq<Message>)
    requires a <= b && AllWellFormed(b)
    ensures a <= b + c && AllWellFormed(a)
  {
    assert forall m :: m in a ==> m in b;
  }

  /** No handler of the io thread can run. */
  predicate IoIdle(s: State) {
    && !Enabled(s, Follow) && !Enabled(s, RunPosted)
    && (forall side :: !Enabled(s, HeaderRead(side)) && !Enabled(s, BodyRead(side)))
  }

  /** A reader that waits has no complete message to wait for. */
  lemma WaitingIsIncomplete(c: Conn)
    requires ConnOk(c) && !c.phase.Stopped? && !HeaderReady(c) && !BodyReady(c)
    ensures Incomplete(Undispatched(c))
  {
    if c.phase.Body? {
      var u := Undispatched(c);
      assert U16At(u, 2) == U16At(c.data, 2);
      BodyFitsIff(c.data);
    }
  }

  /** Completeness. Once the io thread has nothing left to run, the controller has received
      exactly the messages the switch's stream cuts into, unless a body read failed. */
  lemma Drained(port: u32, threshold: u32, s: State)
    requires Reachable(EproxyWiring(port, threshold), s)
    requires IoIdle(s) && !s.sw.phase.Stopped?
    ensures s.ctl.written == Frames(s.history.fromSwitch).messages
  {
    ReachableInv(port, threshold, s);
    DispatchedFirst(port, threshold, s);
    IdleMeans(s);
    WaitingIsIncomplete(s.sw);
    assert s.ctl.written + [] == s.ctl.written;
  }

  lemma IdleMeans(s: State)
    requires ConnOk(s.sw) && IoIdle(s)
    ensures !HeaderReady(s.sw) && !BodyReady(s.sw) && ToController(s) == s.ctl.written
  {
    assert !Enabled(s, HeaderRead(Switch)) && !Enabled(s, BodyRead(Switch));
  }

  /** Framing inverts concatenation: whatever well-formed messages the switch sends, and
      however the network cuts and delays their bytes, the controller gets those messages. */
  lemma DeliversExactly(port: u32, threshold: u32, s: State, ms: seq<Message>)
    requires Reachable(EproxyWiring(port, threshold), s)
    requires IoIdle(s) && !s.sw.phase.Stopped?
    requires AllWellFormed(ms) && s.history.fromSwitch == Concat(ms)
    ensures s.ctl.written == ms
  {
    Drained(port, threshold, s);
    FramesOfWhole(ms);
  }

  /** Two runs that received the same bytes have sent the same messages, however the bytes
      were split and the threads scheduled. */
  lemma ChunkingIrrelevant(port: u32, threshold: u32, s: State, t: State)
    requires Reachable(EproxyWiring(port, threshold), s) && Reachable(EproxyWiring(port, threshold), t)
    requires IoIdle(s) && IoIdle(t) && !s.sw.phase.Stopped? && !t.sw.phase.Stopped?
    requires s.history.fromSwitch == t.history.fromSwitch
    ensures s.ctl.written == t.ctl.written
  {
    Drained(port, threshold, s);
    Drained(port, threshold, t);
  }

  // -------------------------------------------------- controller to switch

  /** `ms` is an order-preserving interleaving of `a` and `b`. */
  ghost predicate IsShuffle(ms: seq<Message>, a: seq<Message>, b: seq<Message>) {
    exists marks :: |marks| == |ms| && Marked(ms, marks, true) == a && Marked(ms, marks, false) == b
  }

  lemma {:induction false} MarkedAppend(a: seq<Message>, x: seq<bool>, b: seq<Message>, y: seq<bool>, which: bool)
    requires |a| == |x| && |b| == |y|
    ensures Marked(a + b, x + y, which) == Marked(a, x, which) + Marked(b, y, which)
  {
    if b == [] {
      assert a + b == a && x + y == x;
    } else {
      var n := |b| - 1;
      MarkedAppend(a, x, b[..n], y[..n], which);
      MarkedSnoc(a + b[..n], x + y[..n], b[n], y[n], which);
      assert a + b == (a + b[..n]) + [b[n]] && x + y == (x + y[..n]) + [y[n]];
    }
  }

  lemma {:induction false} MarkedWellFormed(ms: seq<Message>, marks: seq<bool>, which: bool)
    requires |ms| == |marks| && AllWellFormed(ms)
    ensures AllWellFormed(Marked(ms, marks, which))
  {
    if ms != [] {
      MarkedWellFormed(ms[..|ms| - 1], marks[..|ms| - 1], which);
    }
  }

  lemma MarkedSplit(a: seq<Message>, b: seq<Message>, marks: seq<bool>)
    requires |a| + |b| == |marks|
    ensures forall which ::
      Marked(a + b, marks, which) == Marked(a, marks[..|a|], which) + Marked(b, marks[|a|..], which)
  {
    assert marks == marks[..|a|] + marks[|a|..];
    MarkedAppend(a, marks[..|a|], b, marks[|a|..], true);
    MarkedAppend(a, marks[..|a|], b, marks[|a|..], false);
  }

  /** Splitting a marked stream into what has been received and what is still posted. */
  lemma SplitDown(w: Wiring, f: Flow, h: History, written: seq<Message>, posted: seq<Message>)
      returns (relayed: seq<Message>, rest: seq<Message>, sent: nat, waiting: nat)
    requires DownstreamInv(w, f, h) && f.down == written + posted
    ensures IsShuffle(written, relayed, Copies(SwitchBytes(w.port), sent))
    ensures IsShuffle(posted, rest, Copies(SwitchBytes(w.port), waiting))
    ensures relayed + rest == Marked(f.down, h.relayed, true) && sent + waiting == h.fired
  {
    var x, y := h.relayed[..|written|], h.relayed[|written|..];
    MarkedSplit(written, posted, h.relayed);
    relayed, rest := Marked(written, x, true), Marked(posted, y, true);
    sent, waiting := |Marked(written, x, false)|, |Marked(posted, y, false)|;
    CopiesSplit(SwitchBytes(w.port), h.fired, Marked(written, x, false), Marked(posted, y, false));
  }

  /** The messages relayed so far are the first messages of the controller's stream. */
  lemma RelayedFirst(w: Wiring, f: Flow, h: History)
    requires DownstreamInv(w, f, h)
    ensures Marked(f.down, h.relayed, true) <= Frames(h.fromController).messages
  {
    MarkedWellFormed(f.down, h.relayed, true);
    FramesOfConcat(Marked(f.down, h.relayed, true), f.downLeft);
  }

  /** The switch-bound stream. What the switch has received is whole messages: an
      order-preserving interleaving of the first messages of the controller's stream with
      copies of the flow mod. Every firing of the monitor accounts for exactly one copy,
      received or still posted, and the posted messages carry on where the others stop. */
  lemma SwitchBound(port: u32, threshold: u32, s: State)
      returns (relayed: seq<Message>, rest: seq<Message>, sent: nat, waiting: nat)
    requires Reachable(EproxyWiring(port, threshold), s)
    ensures Frames(Concat(s.sw.written)) == Cut(s.sw.written, [])
    ensures IsShuffle(s.sw.written, relayed, Copies(SwitchBytes(port), sent))
    ensures IsShuffle(PostedTo(s.tasks, Switch), rest, Copies(SwitchBytes(port), waiting))
    ensures relayed + rest <= Frames(s.history.fromController).messages
    ensures sent + waiting == s.history.fired
  {
    var w := EproxyWiring(port, threshold);
    ReachableInv(port, threshold, s);
    relayed, rest, sent, waiting := SplitDown(w, FlowOf(s), s.history, s.sw.written, PostedTo(s.tasks, Switch));
    RelayedFirst(w, FlowOf(s), s.history);
    assert forall m :: m in s.sw.written ==> m in ToSwitch(s);
    FramesOfWhole(s.sw.written);
  }

  lemma CopiesSplit(m: Message, n: nat, a: seq<Message>, b: seq<Message>)
    requires a + b == Copies(m, n)
    ensures a == Copies(m, |a|) && b == Copies(m, |b|) && |a| + |b| == n
  {
    assert forall i :: 0 <= i < |a| ==> a[i] == (a + b)[i];
    assert forall i :: 0 <= i < |b| ==> b[i] == (a + b)[|a| + i];
  }

  // ------------------------------------------------------------- the monitor

  lemma {:induction false} PacketInsPrefix(a: seq<Message>, b: seq<Message>)
    requires a <= b
    ensures PacketIns(a) <= PacketIns(b)
  {
    PacketInsAppend(a, b[|a|..]);
    assert b == a + b[|a|..];
  }

  /** Trigger soundness. Firings times threshold never exceed the PACKET_INs in the bytes the
      switch has sent, under every interleaving of counting, resets and checks and for every
      wrap of the 32-bit counter. */
  lemma TriggerSound(port: u32, threshold: u32, s: State)
    requires Reachable(EproxyWiring(port, threshold), s)
    ensures s.history.fired * threshold <= PacketIns(Frames(s.history.fromSwitch).messages)
  {
    ReachableInv(port, threshold, s);
    DispatchedFirst(port, threshold, s);
    PacketInsPrefix(ToController(s), Frames(s.history.fromSwitch).messages);
  }

  predicate CheckFires(w: Wiring, s: State)
    requires s.monitor.pc.Sleeping?
  {
    Next(w, s, MonitorCheck).monitor.pc.Firing?
  }

  lemma CounterIsWindow(port: u32, threshold: u32, s: State)
    requires Reachable(EproxyWiring(port, threshold), s)
    ensures s.monitor.counter == s.history.window % TWO32
    ensures s.history.seen == s.history.discarded + s.history.window
  {
    ReachableInv(port, threshold, s);
  }

  /** Trigger completeness, exactly. A check fires if and only if the PACKET_INs counted since
      the reset, modulo 2^32, reach the threshold. */
  lemma CheckFiresIff(port: u32, threshold: u32, s: State)
    requires Reachable(EproxyWiring(port, threshold), s) && s.monitor.pc.Sleeping?
    ensures CheckFires(EproxyWiring(port, threshold), s) <==> s.history.window % TWO32 >= threshold
  {
    CounterIsWindow(port, threshold, s);
  }

  predicate IsMonitors(step: Step) {
    step.MonitorReset? || step.MonitorCheck? || step.MonitorFire? || step.MonitorExit?
  }

  /** How far the monitor's thread is from the head of its loop; a finished one is there for
      good. */
  function ToHead(mon: Monitor): nat {
    match mon.pc
    case Sleeping => 2
    case Firing => 1
    case _ => 0
  }

  /** A running monitor never ends: it always has just one step to take, from the head of its
      loop into a new window, and otherwise towards the head. */
  lemma MonitorRuns(port: u32, threshold: u32, s: State)
    requires Reachable(EproxyWiring(port, threshold), s) && s.monitor.running
    ensures exists step :: IsMonitors(step) && Enabled(s, step)
    ensures forall step :: IsMonitors(step) && Enabled(s, step) ==>
              var t := Next(EproxyWiring(port, threshold), s, step).monitor;
              if s.monitor.pc.LoopTop? then t == Monitor(0, true, Sleeping)
              else ToHead(t) < ToHead(s.monitor) && t.running
  {
    ReachableMonitor(EproxyWiring(port, threshold), s);
    var pc := s.monitor.pc;
    var step := if pc.Sleeping? then MonitorCheck else if pc.Firing? then MonitorFire else MonitorReset;
    assert IsMonitors(step) && Enabled(s, step);
  }

  lemma ReachableMonitor(w: Wiring, s: State)
    requires Reachable(w, s)
    ensures s.monitor.running ==> !s.monitor.pc.Finished?
  {
    var s0, steps :| Initial(s0) && Leads(w, s0, steps, s);
    RunningNotFinished(w, s0, steps, s);
  }

  lemma {:induction false} RunningNotFinished(w: Wiring, s: State, steps: seq<Step>, t: State)
    requires Leads(w, s, steps, t) && (s.monitor.running ==> !s.monitor.pc.Finished?)
    ensures t.monitor.running ==> !t.monitor.pc.Finished?
    decreases |steps|
  {
    if steps != [] {
      MonitorStep(w, s, steps[0]);
      RunningNotFinished(w, Next(w, s, steps[0]), steps[1..], t);
    }
  }

  /** What each step does to the monitor's thread. */
  lemma MonitorStep(w: Wiring, s: State, step: Step)
    requires Enabled(s, step)
    ensures var m, t := s.monitor, Next(w, s, step);
            && t.monitor.running == (m.running && !step.MonitorStop?)
            && (!IsMonitors(step) ==> t.monitor.pc == m.pc)
            && (step.MonitorExit? <==> t.monitor.pc.Finished? && !m.pc.Finished?)
            && (step.MonitorReset? || t.history.discarded == s.history.discarded)
            && t.history.fired == s.history.fired + (if step.MonitorFire? then 1 else 0)
  {
    match step
    case HeaderRead(side) => ReadFiresNothing(w, s, side, ReadHeader(ConnOf(s, side)));
    case BodyRead(side) =>
      BodyMessageLength(ConnOf(s, side));
      ReadFiresNothing(w, s, side, ReadBody(ConnOf(s, side)));
    case _ =>
  }

  /** The steps a stopped monitor still takes, and whether it can still fire. */
  function StepsLeft(mon: Monitor): nat {
    match mon.pc
    case Finished => 0
    case LoopTop => 1
    case Firing => 2
    case Sleeping => 3
  }

  function Pending(mon: Monitor): nat {
    if mon.pc.Sleeping? || mon.pc.Firing? then 1 else 0
  }

  function MonitorSteps(steps: seq<Step>): nat {
    if steps == [] then 0 else (if IsMonitors(steps[0]) then 1 else 0) + MonitorSteps(steps[1..])
  }

  /** Stopping the monitor. It stays stopped, fires at most once more, for the sleep it is in or
      the check it has passed, never starts another window, and ends after at most three steps
      of its own. */
  lemma {:induction false} StoppedMonitor(w: Wiring, s: State, steps: seq<Step>, t: State)
    requires Leads(w, s, steps, t) && !s.monitor.running
    ensures !t.monitor.running && t.history.discarded == s.history.discarded
    ensures t.history.fired + Pending(t.monitor) <= s.history.fired + Pending(s.monitor)
    ensures MonitorSteps(steps) + StepsLeft(t.monitor) <= StepsLeft(s.monitor)
    decreases |steps|
  {
    if steps != [] {
      StoppedStep(w, s, steps[0]);
      StoppedMonitor(w, Next(w, s, steps[0]), steps[1..], t);
    }
  }

  lemma StoppedStep(w: Wiring, s: State, step: Step)
    requires Enabled(s, step) && !s.monitor.running
    ensures var t := Next(w, s, step);
            && !t.monitor.running && t.history.discarded == s.history.discarded
            && t.history.fired + Pending(t.monitor) <= s.history.fired + Pending(s.monitor)
            && (if IsMonitors(step) then 1 else 0) + StepsLeft(t.monitor) <= StepsLeft(s.monitor)
  {
    MonitorStep(w, s, step);
  }

  lemma ReadFiresNothing(w: Wiring, s: State, side: Side, r: Read)
    requires r.message.Some? ==> |r.message.value| >= 2
    ensures var t := AfterRead(w, s, side, r);
            && t.monitor.running == s.monitor.running && t.monitor.pc == s.monitor.pc
            && t.history.discarded == s.history.discarded && t.history.fired == s.history.fired
  {
  }

  lemma {:induction false} LeadsTogether(w: Wiring, s: State, a: seq<Step>, t: State, b: seq<Step>, u: State)
    requires Leads(w, s, a, t) && Leads(w, t, b, u)
    ensures Leads(w, s, a + b, u)
    decreases |a|
  {
    if a == [] {
      assert a + b == b;
    } else {
      assert (a + b)[0] == a[0] && (a + b)[1..] == a[1..] + b;
      LeadsTogether(w, Next(w, s, a[0]), a[1..], t, b, u);
    }
  }

  lemma ReachableNext(w: Wiring, s: State, step: Step)
    requires Reachable(w, s) && Enabled(s, step)
    ensures Reachable(w, Next(w, s, step))
  {
    var s0, steps :| Initial(s0) && Leads(w, s0, steps, s);
    assert Leads(w, Next(w, s, step), [step][1..], Next(w, s, step));
    LeadsTogether(w, s0, steps, s, [step], Next(w, s, step));
  }

  /** A PACKET_IN without a body. */
  const BarePacketIn: Message := [4, PACKET_IN, 0, 8, 0, 0, 0, 0]

  /** Between reset and check, with the io thread free and the switch's reader at a message
      boundary. */
  predicate Counting(s: State, n: nat) {
    && s.monitor.pc.Sleeping? && s.pending.None? && s.sw.phase.Header? && s.sw.unread == []
    && |s.sw.data| == MAX_LENGTH && s.history.window == n
  }

  lemma OneMorePacketIn(port: u32, threshold: u32, s: State, n: nat) returns (steps: seq<Step>, t: State)
    requires Counting(s, n)
    ensures Leads(EproxyWiring(port, threshold), s, steps, t) && Counting(t, n + 1)
  {
    var w := EproxyWiring(port, threshold);
    var s1 := Next(w, s, Arrive(Switch, BarePacketIn));
    assert s1.sw.unread == BarePacketIn;
    var f := Fill(s1.sw, 0, HEADER_SIZE);
    assert f.data[..HEADER_SIZE] == BarePacketIn;
    assert U16At(f.data, 2) == U16At(BarePacketIn, 2);
    var s2 := Next(w, s1, HeaderRead(Switch));
    t := Next(w, s2, Follow);
    steps := [Arrive(Switch, BarePacketIn), HeaderRead(Switch), Follow];
    assert Leads(w, s2, [Follow], t) by { assert [Follow][1..] == []; }
    assert Leads(w, s1, [HeaderRead(Switch), Follow], t) by {
      assert [HeaderRead(Switch), Follow][1..] == [Follow];
    }
    assert steps[1..] == [HeaderRead(Switch), Follow];
  }

  lemma {:induction false} ReachWindow(port: u32, threshold: u32, n: nat) returns (s: State)
    ensures Reachable(EproxyWiring(port, threshold), s) && Counting(s, n)
  {
    var w := EproxyWiring(port, threshold);
    if n == 0 {
      var c := Conn([], seq(MAX_LENGTH, _ => 0), Header, []);
      var s0 := State(c, c, [], None, Monitor(0, true, LoopTop), History([], [], 0, 0, 0, 0, []));
      s := Next(w, s0, MonitorReset);
      assert Initial(s0) && Leads(w, s0, [MonitorReset], s);
    } else {
      var r := ReachWindow(port, threshold, n - 1);
      var s0, steps :| Initial(s0) && Leads(w, s0, steps, r);
      var more;
      more, s := OneMorePacketIn(port, threshold, r, n - 1);
      LeadsTogether(w, s0, steps, r, more, s);
    }
  }

  /** The wrap is real: a window of 2^32 PACKET_INs reaches any threshold, and its check
      fires for none but zero. */
  lemma WrapHidesBurst(port: u32, threshold: u32) returns (s: State)
    requires threshold > 0
    ensures Reachable(EproxyWiring(port, threshold), s) && s.monitor.pc.Sleeping?
    ensures s.history.window == TWO32 >= threshold
    ensures !CheckFires(EproxyWiring(port, threshold), s)
  {
    s := ReachWindow(port, threshold, TWO32);
    CheckFiresIff(port, threshold, s);
  }
}
