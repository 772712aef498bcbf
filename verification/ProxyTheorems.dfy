/**
 What the wired proxy keeps over every run: nothing the switch sends is lost, changed or
 reordered on its way to the controller, what the switch receives is the controller's
 stream with whole flow mods put in between, and the monitor fires only for PACKET_INs
 it has not been paid for before.
 */
module ProxyTheorems {
  import opened Bytes
  import opened Framing
  import opened Migrator
  import opened ProxyModel

  // ------------------------------------------------- one read, seen from outside

  /** The bytes a connection has received and not yet dispatched. */
  function Undispatched(c: Conn): Bytes
    requires ConnOk(c)
  {
    Partial(c) + c.unread
  }

  function Dispatched(r: Read): seq<Message> {
    if r.message.None? then [] else [r.message.value]
  }

  /** A read turns undispatched bytes into whole messages and keeps the rest. */
  ghost predicate Conserves(c: Conn, r: Read) {
    && ConnOk(c) && ConnOk(r.conn) && r.conn.written == c.written
    && Undispatched(c) == Concat(Dispatched(r)) + Undispatched(r.conn)
    && AllWellFormed(Dispatched(r))
  }

  lemma ReadHeaderConserves(c: Conn)
    requires ConnOk(c) && HeaderReady(c)
    ensures Conserves(c, ReadHeader(c))
  {
    var f, r, h := Fill(c, 0, HEADER_SIZE), ReadHeader(c), c.unread[..HEADER_SIZE];
    assert f.data[..HEADER_SIZE] == h && U16At(f.data, 2) == U16At(h, 2);
    assert Undispatched(c) == h + f.unread;
    if r.message.Some? {
      assert r.message.value == h;
      OneMessage(h);
      assert AllWellFormed([h]);
    } else {
      assert Undispatched(r.conn) == h + f.unread;
      assert Concat([]) + (h + f.unread) == h + f.unread;
    }
  }

  lemma OneMessage(m: Message)
    ensures Concat([m]) == m
  {
    assert Concat([m]) == m + Concat([]);
  }

  lemma ReadBodyConserves(c: Conn)
    requires ConnOk(c) && BodyReady(c)
    ensures Conserves(c, ReadBody(c))
  {
    var f, r, n := Fill(c, HEADER_SIZE, c.phase.need), ReadBody(c), HEADER_SIZE + c.phase.need;
    BodyMessageLength(c);
    assert f.data[..HEADER_SIZE] == c.data[..HEADER_SIZE];
    assert r.message.value == f.data[..n] == c.data[..HEADER_SIZE] + c.unread[..c.phase.need];
    assert c.unread == c.unread[..c.phase.need] + c.unread[c.phase.need..];
    OneMessage(r.message.value);
  }

  lemma FailBodyConserves(c: Conn, k: nat)
    requires ConnOk(c) && BodyCanFail(c, k)
    ensures ConnOk(FailBody(c, k)) && Undispatched(FailBody(c, k)) == Undispatched(c)
  {
    assert c.unread == c.unread[..k] + c.unread[k..];
    assert FailBody(c, k).data[..HEADER_SIZE + k] == c.data[..HEADER_SIZE] + c.unread[..k];
  }

  /** A body read stays inside the buffer exactly when the header announces at least its own
      size; a shorter length wraps to a read of almost 2^64 bytes. */
  lemma BodyFitsIff(data: Bytes)
    requires |data| >= HEADER_SIZE
    ensures BodyFits(BodyLength(data)) <==> U16At(data, 2) >= HEADER_SIZE
  {
  }

  /** A failed header read is handled like a good one, on whatever the buffer still holds.
      It always accounts for 8 - k bytes that never arrived, and it dispatches a message
      exactly when the stale length field is 8. */
  lemma FailedHeaderInvents(c: Conn, k: nat)
    requires ConnOk(c) && c.phase.Header? && k < HEADER_SIZE && k <= |c.unread|
    ensures var r := FailHeader(c, k);
            && ConnOk(r.conn)
            && |Concat(Dispatched(r)) + Undispatched(r.conn)| == |Undispatched(c)| + (HEADER_SIZE - k)
            && (r.message.Some? <==> U16At(c.unread[..k] + c.data[k..], 2) == HEADER_SIZE)
  {
    var f, r := Fill(c, 0, k), FailHeader(c, k);
    assert f.data == c.unread[..k] + c.data[k..];
    if r.message.Some? {
      OneMessage(r.message.value);
    }
  }

  /** What header reads that fail at once dispatch, one after the other, while the handler asks
      for a header again. */
  function FailedReads(c: Conn, n: nat): seq<Message>
    requires ConnOk(c)
    decreases n
  {
    if n == 0 || !c.phase.Header? then []
    else
      var r := FailHeader(c, 0);
      Dispatched(r) + FailedReads(r.conn, n - 1)
  }

  /** A bodiless message followed by any number of failed header reads goes out again each
      time. */
  lemma FailedHeaderReplays(c: Conn, n: nat)
    requires ConnOk(c) && HeaderReady(c) && U16At(c.unread, 2) == HEADER_SIZE
    ensures ReadHeader(c).message == Some(c.unread[..HEADER_SIZE])
    ensures ConnOk(ReadHeader(c).conn)
    ensures FailedReads(ReadHeader(c).conn, n) == Copies(c.unread[..HEADER_SIZE], n)
  {
    var f := Fill(c, 0, HEADER_SIZE);
    assert U16At(f.data, 2) == U16At(c.unread, 2);
    assert f.data[..HEADER_SIZE] == c.unread[..HEADER_SIZE];
    FailedReadsIff(ReadHeader(c).conn, n);
  }

  /** In general failed header reads dispatch what the buffer holds, each time, exactly when
      its length field is 8. */
  lemma {:induction false} FailedReadsIff(c: Conn, n: nat)
    requires ConnOk(c) && c.phase.Header?
    ensures FailedReads(c, n) == if U16At(c.data, 2) == HEADER_SIZE then Copies(MessageIn(c.data), n) else []
    decreases n
  {
    if n > 0 {
      assert Fill(c, 0, 0).data == c.data;
      if U16At(c.data, 2) == HEADER_SIZE {
        FailedReadsIff(c, n - 1);
        assert [MessageIn(c.data)] + Copies(MessageIn(c.data), n - 1) == Copies(MessageIn(c.data), n);
      }
    }
  }

  // ------------------------------------------------------------ traffic so far

  function PostedTo(tasks: seq<Task>, side: Side): seq<Message> {
    if tasks == [] then []
    else (if tasks[0].target == side then [tasks[0].message] else []) + PostedTo(tasks[1..], side)
  }

  lemma {:induction false} PostedToSnoc(tasks: seq<Task>, t: Task, side: Side)
    ensures PostedTo(tasks + [t], side) == PostedTo(tasks, side) + if t.target == side then [t.message] else []
  {
    if tasks == [] {
      assert [t][1..] == [];
    } else {
      assert (tasks + [t])[0] == tasks[0] && (tasks + [t])[1..] == tasks[1..] + [t];
      PostedToSnoc(tasks[1..], t, side);
    }
  }

  /** Messages on their way to the controller, sent or still to be sent, in order. */
  function ToController(s: State): seq<Message> {
    s.ctl.written + PostedTo(s.tasks, Controller) + if s.pending.Some? then [s.pending.value] else []
  }

  function ToSwitch(s: State): seq<Message> {
    s.sw.written + PostedTo(s.tasks, Switch)
  }

  /** The messages at the positions marked `which`. */
  function Marked(ms: seq<Message>, marks: seq<bool>, which: bool): seq<Message>
    requires |ms| == |marks|
  {
    if ms == [] then []
    else
      var n := |ms| - 1;
      Marked(ms[..n], marks[..n], which) + if marks[n] == which then [ms[n]] else []
  }

  lemma MarkedSnoc(ms: seq<Message>, marks: seq<bool>, m: Message, b: bool, which: bool)
    requires |ms| == |marks|
    ensures Marked(ms + [m], marks + [b], which) == Marked(ms, marks, which) + if b == which then [m] else []
  {
    assert (ms + [m])[..|ms|] == ms && (marks + [b])[..|ms|] == marks;
  }

  // ---------------------------------------------------------------- invariants

  /** The traffic of a state: messages in each direction, and what each connection has
      received and not dispatched. */
  datatype Flow = Flow(up: seq<Message>, down: seq<Message>, upLeft: Bytes, downLeft: Bytes)

  ghost predicate ConnsOk(s: State) {
    ConnOk(s.sw) && ConnOk(s.ctl)
  }

  function FlowOf(s: State): Flow
    requires ConnOk(s.sw) && ConnOk(s.ctl)
  {
    Flow(ToController(s), ToSwitch(s), Undispatched(s.sw), Undispatched(s.ctl))
  }

  /** Everything received from the switch is accounted for, byte by byte and in order. */
  ghost predicate UpstreamInv(f: Flow, h: History) {
    && AllWellFormed(f.up)
    && h.fromSwitch == Concat(f.up) + f.upLeft
  }

  /** What goes to the switch is the controller's stream plus one flow mod per firing. */
  ghost predicate DownstreamInv(w: Wiring, f: Flow, h: History) {
    && |h.relayed| == |f.down|
    && AllWellFormed(f.down)
    && h.fromController == Concat(Marked(f.down, h.relayed, true)) + f.downLeft
    && Marked(f.down, h.relayed, false) == Copies(SwitchBytes(w.port), h.fired)
  }

  function Copies(m: Message, n: nat): (ms: seq<Message>)
    ensures |ms| == n
  {
    seq(n, _ => m)
  }

  /** Every firing has been paid for by `threshold` PACKET_INs of its own window. */
  ghost predicate MonitorInv(w: Wiring, f: Flow, h: History, mon: Monitor) {
    && h.seen == h.discarded + h.window
    && h.seen == PacketIns(f.up)
    && mon.counter == h.window % TWO32
    && h.fired * w.threshold + (if mon.pc.Firing? then w.threshold else 0)
       <= h.discarded + (if mon.pc.Sleeping? then 0 else h.window)
  }

  ghost predicate FlowInv(w: Wiring, f: Flow, h: History, mon: Monitor) {
    UpstreamInv(f, h) && DownstreamInv(w, f, h) && MonitorInv(w, f, h, mon)
  }

  ghost predicate Inv(w: Wiring, s: State) {
    ConnsOk(s) && FlowInv(w, FlowOf(s), s.history, s.monitor)
  }

  lemma InitialInv(w: Wiring, s: State)
    requires Initial(s)
    ensures Inv(w, s)
  {
  }

  // ------------------------------------------------------- what moves in a flow

  /** Counting one more PACKET_IN. */
  function Counted(h: History, n: nat): History {
    h.(seen := h.seen + n, window := h.window + n)
  }

  function CountedBy(mon: Monitor, n: nat): Monitor {
    mon.(counter := (mon.counter + n) % TWO32)
  }

  lemma Regroup(a: Bytes, b: Bytes, c: Bytes)
    ensures a + (b + c) == (a + b) + c
  {
  }

  lemma UpMoved(f: Flow, h: History, m: Message, left: Bytes, n: nat)
    requires UpstreamInv(f, h) && f.upLeft == m + left && WellFormed(m)
    ensures UpstreamInv(f.(up := f.up + [m], upLeft := left), Counted(h, n))
  {
    ConcatSnoc(f.up, m);
    Regroup(Concat(f.up), m, left);
  }

  lemma UpCounted(w: Wiring, f: Flow, h: History, mon: Monitor, m: Message, left: Bytes)
    requires MonitorInv(w, f, h, mon)
    ensures var n := if IsPacketIn(m) then 1 else 0;
            MonitorInv(w, f.(up := f.up + [m], upLeft := left), Counted(h, n), CountedBy(mon, n))
  {
    PacketInsSnoc(f.up, m);
    if IsPacketIn(m) {
      WindowGrows(w, f, h, mon, f.(up := f.up + [m], upLeft := left), 1);
    } else {
      WindowGrows(w, f, h, mon, f.(up := f.up + [m], upLeft := left), 0);
    }
  }

  lemma WindowGrows(w: Wiring, f: Flow, h: History, mon: Monitor, f': Flow, n: nat)
    requires MonitorInv(w, f, h, mon) && PacketIns(f'.up) == PacketIns(f.up) + n
    ensures MonitorInv(w, f', Counted(h, n), CountedBy(mon, n))
  {
    CounterMod(h.window, n);
  }

  lemma PacketInsSnoc(ms: seq<Message>, m: Message)
    ensures PacketIns(ms + [m]) == PacketIns(ms) + if IsPacketIn(m) then 1 else 0
  {
    assert (ms + [m])[..|ms|] == ms;
  }

  lemma CounterMod(window: nat, n: nat)
    ensures (window % TWO32 + n) % TWO32 == (window + n) % TWO32
  {
  }

  lemma UpRelayed(w: Wiring, f: Flow, h: History, mon: Monitor, m: Message, left: Bytes)
    requires FlowInv(w, f, h, mon) && f.upLeft == m + left && WellFormed(m)
    ensures var n := if IsPacketIn(m) then 1 else 0;
            FlowInv(w, f.(up := f.up + [m], upLeft := left), Counted(h, n), CountedBy(mon, n))
  {
    UpMoved(f, h, m, left, if IsPacketIn(m) then 1 else 0);
    UpCounted(w, f, h, mon, m, left);
  }

  function Posted(h: History, relayed: bool): History {
    h.(relayed := h.relayed + [relayed])
  }

  lemma DownRelayed(w: Wiring, f: Flow, h: History, m: Message, left: Bytes)
    requires DownstreamInv(w, f, h) && f.downLeft == m + left && WellFormed(m)
    ensures DownstreamInv(w, f.(down := f.down + [m], downLeft := left), Posted(h, true))
  {
    var before := Marked(f.down, h.relayed, true);
    MarkedSnoc(f.down, h.relayed, m, true, true);
    MarkedSnoc(f.down, h.relayed, m, true, false);
    ConcatSnoc(before, m);
    Regroup(Concat(before), m, left);
  }

  lemma Injected(down: seq<Message>, marks: seq<bool>, m: Message, n: nat)
    requires |down| == |marks| && Marked(down, marks, false) == Copies(m, n)
    ensures Marked(down + [m], marks + [false], false) == Copies(m, n + 1)
    ensures Marked(down + [m], marks + [false], true) == Marked(down, marks, true)
  {
    MarkedSnoc(down, marks, m, false, true);
    MarkedSnoc(down, marks, m, false, false);
  }

  lemma DownInjected(w: Wiring, f: Flow, h: History)
    requires DownstreamInv(w, f, h)
    ensures DownstreamInv(w, f.(down := f.down + [SwitchBytes(w.port)]), Posted(h, false).(fired := h.fired + 1))
  {
    Injected(f.down, h.relayed, SwitchBytes(w.port), h.fired);
    SwitchRoundTrip(w.port);
  }

  lemma MonitorFired(w: Wiring, f: Flow, h: History, mon: Monitor, f': Flow)
    requires MonitorInv(w, f, h, mon) && mon.pc.Firing? && f'.up == f.up
    ensures MonitorInv(w, f', Posted(h, false).(fired := h.fired + 1), mon.(pc := LoopTop))
  {
    assert (h.fired + 1) * w.threshold == h.fired * w.threshold + w.threshold;
  }

  lemma UpArrived(f: Flow, h: History, bytes: Bytes)
    requires UpstreamInv(f, h)
    ensures UpstreamInv(f.(upLeft := f.upLeft + bytes), h.(fromSwitch := h.fromSwitch + bytes))
  {
    Regroup(Concat(f.up), f.upLeft, bytes);
  }

  lemma DownArrived(w: Wiring, f: Flow, h: History, bytes: Bytes)
    requires DownstreamInv(w, f, h)
    ensures DownstreamInv(w, f.(downLeft := f.downLeft + bytes), h.(fromController := h.fromController + bytes))
  {
    Regroup(Concat(Marked(f.down, h.relayed, true)), f.downLeft, bytes);
  }

  // ---------------------------------------------------------------- the steps

  lemma PostLists(s: State, target: Side, m: Message, relayed: bool)
    requires s.pending.None? || target.Switch?
    ensures var t := Post(s, target, m, relayed);
            && ToController(t) == ToController(s) + (if target.Controller? then [m] else [])
            && ToSwitch(t) == ToSwitch(s) + (if target.Switch? then [m] else [])
  {
    PostedToSnoc(s.tasks, Task(target, m), Controller);
    PostedToSnoc(s.tasks, Task(target, m), Switch);
  }

  /** A read with nothing to dispatch only moves bytes inside its connection. */
  lemma QuietRead(s: State, side: Side, c: Conn)
    requires ConnsOk(s) && ConnOk(c) && c.written == ConnOf(s, side).written
    requires Undispatched(c) == Undispatched(ConnOf(s, side))
    ensures FlowOf(WithConn(s, side, c)) == FlowOf(s)
  {
  }

  /** From the switch, by either callback: one more message for the controller. */
  lemma FromSwitchDelivered(port: u32, threshold: u32, s: State, m: Message)
    requires ConnsOk(s) && s.pending.None? && |m| >= HEADER_SIZE
    ensures var t, n := Deliver(EproxyWiring(port, threshold), s, Switch, m), if IsPacketIn(m) then 1 else 0;
            && ConnsOk(t) && FlowOf(t) == FlowOf(s).(up := ToController(s) + [m])
            && t.history == Counted(s.history, n) && t.monitor == CountedBy(s.monitor, n)
  {
    if !IsPacketIn(m) {
      PostLists(s, Controller, m, true);
    }
  }

  lemma FromControllerDelivered(port: u32, threshold: u32, s: State, m: Message)
    requires ConnsOk(s) && s.pending.None? && |m| >= HEADER_SIZE
    ensures var t := Deliver(EproxyWiring(port, threshold), s, Controller, m);
            && ConnsOk(t) && FlowOf(t) == FlowOf(s).(down := ToSwitch(s) + [m])
            && t.history == Posted(s.history, true) && t.monitor == s.monitor
  {
    PostLists(s, Switch, m, true);
  }

  /** Exactly the switch's messages of type 10 are counted, and none of the controller's. */
  lemma OnlyPacketInsCount(port: u32, threshold: u32, s: State, m: Message)
    requires |m| >= HEADER_SIZE
    ensures var t, n := Deliver(EproxyWiring(port, threshold), s, Switch, m), if m[1] == 10 then 1 else 0;
            && t.history.seen == s.history.seen + n && t.monitor == CountedBy(s.monitor, n)
    ensures var t := Deliver(EproxyWiring(port, threshold), s, Controller, m);
            t.history.seen == s.history.seen && t.monitor == s.monitor
  {
  }

  lemma DispatchedOne(c: Conn, r: Read)
    requires Conserves(c, r) && r.message.Some?
    ensures WellFormed(r.message.value) && Undispatched(c) == r.message.value + Undispatched(r.conn)
  {
    assert r.message.value in Dispatched(r);
    OneMessage(r.message.value);
  }

  lemma DispatchedNone(c: Conn, r: Read)
    requires Conserves(c, r) && r.message.None?
    ensures Undispatched(c) == Undispatched(r.conn)
  {
    assert Concat([]) + Undispatched(r.conn) == Undispatched(r.conn);
  }

  lemma SwitchReadKeepsInv(port: u32, threshold: u32, s: State, r: Read)
    requires Inv(EproxyWiring(port, threshold), s) && s.pending.None? && Conserves(s.sw, r)
    ensures r.message.Some? ==> |r.message.value| >= HEADER_SIZE
    ensures Inv(EproxyWiring(port, threshold), AfterRead(EproxyWiring(port, threshold), s, Switch, r))
  {
    var w := EproxyWiring(port, threshold);
    var c := WithConn(s, Switch, r.conn);
    assert FlowOf(c) == FlowOf(s).(upLeft := Undispatched(r.conn));
    if r.message.Some? {
      DispatchedOne(s.sw, r);
      FromSwitchDelivered(port, threshold, c, r.message.value);
      UpRelayed(w, FlowOf(s), s.history, s.monitor, r.message.value, Undispatched(r.conn));
    } else {
      DispatchedNone(s.sw, r);
    }
  }

  lemma ControllerReadKeepsInv(port: u32, threshold: u32, s: State, r: Read)
    requires Inv(EproxyWiring(port, threshold), s) && s.pending.None? && Conserves(s.ctl, r)
    ensures r.message.Some? ==> |r.message.value| >= HEADER_SIZE
    ensures Inv(EproxyWiring(port, threshold), AfterRead(EproxyWiring(port, threshold), s, Controller, r))
  {
    var w := EproxyWiring(port, threshold);
    var c := WithConn(s, Controller, r.conn);
    assert FlowOf(c) == FlowOf(s).(downLeft := Undispatched(r.conn));
    if r.message.Some? {
      DispatchedOne(s.ctl, r);
      FromControllerDelivered(port, threshold, c, r.message.value);
      DownRelayed(w, FlowOf(s), s.history, r.message.value, Undispatched(r.conn));
    } else {
      DispatchedNone(s.ctl, r);
    }
  }

  lemma FollowFlow(w: Wiring, s: State)
    requires ConnsOk(s) && s.pending.Some? && w.follow.Controller?
    ensures var t := Next(w, s, Follow);
            ConnsOk(t) && FlowOf(t) == FlowOf(s) && t.history == s.history && t.monitor == s.monitor
  {
    PostLists(s.(pending := None), Controller, s.pending.value, true);
    assert ToController(s) == ToController(s.(pending := None)) + [s.pending.value];
  }

  lemma RunPostedFlow(w: Wiring, s: State)
    requires ConnsOk(s) && Enabled(s, RunPosted)
    ensures var t := Next(w, s, RunPosted);
            ConnsOk(t) && FlowOf(t) == FlowOf(s) && t.history == s.history && t.monitor == s.monitor
  {
    var h, rest := s.tasks[0], s.tasks[1..];
    assert forall side ::
      PostedTo(s.tasks, side) == (if h.target == side then [h.message] else []) + PostedTo(rest, side);
    var c := ConnOf(s, h.target).written;
    assert c + ([h.message] + PostedTo(rest, h.target)) == (c + [h.message]) + PostedTo(rest, h.target);
  }

  lemma FireFlow(w: Wiring, s: State)
    requires ConnsOk(s) && s.monitor.pc.Firing? && w.injectTo.Switch?
    ensures var t := Next(w, s, MonitorFire);
            && ConnsOk(t) && FlowOf(t) == FlowOf(s).(down := ToSwitch(s) + [SwitchBytes(w.port)])
            && t.history == Posted(s.history, false).(fired := s.history.fired + 1)
            && t.monitor == s.monitor.(pc := LoopTop)
  {
    PostLists(s, Switch, SwitchBytes(w.port), false);
  }

  lemma FireKeepsInv(port: u32, threshold: u32, s: State)
    requires Inv(EproxyWiring(port, threshold), s) && s.monitor.pc.Firing?
    ensures Inv(EproxyWiring(port, threshold), Next(EproxyWiring(port, threshold), s, MonitorFire))
  {
    var w := EproxyWiring(port, threshold);
    var t, f, h := Next(w, s, MonitorFire), FlowOf(s), s.history;
    FireFlow(w, s);
    DownInjected(w, f, h);
    MonitorFired(w, f, h, s.monitor, FlowOf(t));
    assert UpstreamInv(FlowOf(t), t.history);
  }

  lemma ArriveFlow(w: Wiring, s: State, side: Side, bytes: Bytes)
    requires ConnsOk(s)
    ensures var t, f := Next(w, s, Arrive(side, bytes)), FlowOf(s);
            && ConnsOk(t)
            && FlowOf(t) == (if side.Switch? then f.(upLeft := f.upLeft + bytes)
                             else f.(downLeft := f.downLeft + bytes))
  {
    Regroup(Partial(ConnOf(s, side)), ConnOf(s, side).unread, bytes);
  }

  lemma ArriveKeepsInv(w: Wiring, s: State, side: Side, bytes: Bytes)
    requires Inv(w, s)
    ensures Inv(w, Next(w, s, Arrive(side, bytes)))
  {
    ArriveFlow(w, s, side, bytes);
    if side.Switch? {
      UpArrived(FlowOf(s), s.history, bytes);
    } else {
      DownArrived(w, FlowOf(s), s.history, bytes);
    }
  }

  lemma MonitorKeepsInv(w: Wiring, s: State, step: Step)
    requires Inv(w, s) && Enabled(s, step)
    requires step.MonitorReset? || step.MonitorCheck? || step.MonitorStop? || step.MonitorExit?
    ensures Inv(w, Next(w, s, step))
  {
    var t := Next(w, s, step);
    assert ConnsOk(t) && FlowOf(t) == FlowOf(s);
    WindowAtLeast(s.history.window);
    assert MonitorInv(w, FlowOf(t), t.history, t.monitor);
  }

  lemma WindowAtLeast(window: nat)
    ensures window % TWO32 <= window
  {
  }

  lemma HeaderReadKeepsInv(port: u32, threshold: u32, s: State, side: Side)
    requires Inv(EproxyWiring(port, threshold), s) && Enabled(s, HeaderRead(side))
    ensures Inv(EproxyWiring(port, threshold), Next(EproxyWiring(port, threshold), s, HeaderRead(side)))
  {
    ReadHeaderConserves(ConnOf(s, side));
    if side.Switch? {
      SwitchReadKeepsInv(port, threshold, s, ReadHeader(s.sw));
    } else {
      ControllerReadKeepsInv(port, threshold, s, ReadHeader(s.ctl));
    }
  }

  lemma BodyReadKeepsInv(port: u32, threshold: u32, s: State, side: Side)
    requires Inv(EproxyWiring(port, threshold), s) && Enabled(s, BodyRead(side))
    ensures Inv(EproxyWiring(port, threshold), Next(EproxyWiring(port, threshold), s, BodyRead(side)))
  {
    ReadBodyConserves(ConnOf(s, side));
    if side.Switch? {
      SwitchReadKeepsInv(port, threshold, s, ReadBody(s.sw));
    } else {
      ControllerReadKeepsInv(port, threshold, s, ReadBody(s.ctl));
    }
  }

  lemma StepKeepsInv(port: u32, threshold: u32, s: State, step: Step)
    requires Inv(EproxyWiring(port, threshold), s) && Enabled(s, step)
    ensures Inv(EproxyWiring(port, threshold), Next(EproxyWiring(port, threshold), s, step))
  {
    var w := EproxyWiring(port, threshold);
    match step
    case Arrive(side, bytes) => ArriveKeepsInv(w, s, side, bytes);
    case HeaderRead(side) => HeaderReadKeepsInv(port, threshold, s, side);
    case BodyRead(side) => BodyReadKeepsInv(port, threshold, s, side);
    case BodyFailed(side, got) =>
      FailBodyConserves(ConnOf(s, side), got);
      QuietRead(s, side, FailBody(ConnOf(s, side), got));
    case Follow => FollowFlow(w, s);
    case RunPosted => RunPostedFlow(w, s);
    case MonitorFire => FireKeepsInv(port, threshold, s);
    case _ => MonitorKeepsInv(w, s, step);
  }

  lemma {:induction false} RunKeepsInv(port: u32, threshold: u32, s: State, steps: seq<Step>, t: State)
    requires Inv(EproxyWiring(port, threshold), s) && Leads(EproxyWiring(port, threshold), s, steps, t)
    ensures Inv(EproxyWiring(port, threshold), t)
    decreases |steps|
  {
    if steps != [] {
      StepKeepsInv(port, threshold, s, steps[0]);
      RunKeepsInv(port, threshold, Next(EproxyWiring(port, threshold), s, steps[0]), steps[1..], t);
    }
  }

  lemma ReachableInv(port: u32, threshold: u32, s: State)
    requires Reachable(EproxyWiring(port, threshold), s)
    ensures Inv(EproxyWiring(port, threshold), s)
  {
    var w := EproxyWiring(port, threshold);
    var s0, steps :| Initial(s0) && Leads(w, s0, steps, s);
    InitialInv(w, s0);
    RunKeepsInv(port, threshold, s0, steps, s);
  }
}
