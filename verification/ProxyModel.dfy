/**
 The proxy as a state machine. Two connections, each a header-then-body reader over one
 fixed buffer; dispatchers that route by message type; one io thread that runs handlers and
 posted writes; a monitor thread that counts PACKET_INs and injects flow mods. Every step is
 one atomic action of one thread or of the network, and steps interleave freely.
 */
module ProxyModel {
  import opened Bytes
  import opened Framing
  import opened Migrator

  const MAX_LENGTH: nat := 102400

  datatype Option<+T> = None | Some(value: T)

  datatype Side = Switch | Controller

  // ------------------------------------------------------------- the reader

  /** What the outstanding read of a connection waits for. A connection whose body read
      failed is never read again. */
  datatype Phase = Header | Body(need: nat) | Stopped(got: nat)

  /** `unread`: bytes received and not yet copied to `data`. `written`: the buffers handed to
      the socket, in order. */
  datatype Conn = Conn(unread: Bytes, data: Bytes, phase: Phase, written: seq<Message>)

  datatype Read = Read(conn: Conn, message: Option<Message>)

  /** The length field less the header size, in the 64 bits of a `size_t`. */
  function BodyLength(data: Bytes): nat
    requires |data| >= HEADER_SIZE
  {
    (U16At(data, 2) + TWO64 - HEADER_SIZE) % TWO64
  }

  /** The message the dispatcher copies out of the buffer. */
  function MessageIn(data: Bytes): (m: Message)
    requires |data| == MAX_LENGTH
    ensures |m| == U16At(data, 2)
  {
    data[..U16At(data, 2)]
  }

  /** The header handler: dispatch a message that has no body, or ask for the body. */
  function HandleHeader(c: Conn): Read
    requires |c.data| == MAX_LENGTH
  {
    var length := BodyLength(c.data);
    if length == 0 then Read(c.(phase := Header), Some(MessageIn(c.data)))
    else Read(c.(phase := Body(length)), None)
  }

  /** Move the next `n` unread bytes into the buffer at `at`. */
  function Fill(c: Conn, at: nat, n: nat): (c': Conn)
    requires n <= |c.unread| && at + n <= |c.data| == MAX_LENGTH
    ensures |c'.data| == MAX_LENGTH
  {
    c.(unread := c.unread[n..], data := c.data[..at] + c.unread[..n] + c.data[at + n..])
  }

  predicate HeaderReady(c: Conn) {
    |c.data| == MAX_LENGTH && c.phase.Header? && |c.unread| >= HEADER_SIZE
  }

  /** A body read can complete when its bytes are there and the buffer holds them. */
  predicate BodyReady(c: Conn) {
    |c.data| == MAX_LENGTH && c.phase.Body? && |c.unread| >= c.phase.need && BodyFits(c.phase.need)
  }

  predicate BodyFits(need: nat) {
    HEADER_SIZE + need <= MAX_LENGTH
  }

  function ReadHeader(c: Conn): Read
    requires HeaderReady(c)
  {
    HandleHeader(Fill(c, 0, HEADER_SIZE))
  }

  function ReadBody(c: Conn): Read
    requires BodyReady(c)
  {
    var f := Fill(c, HEADER_SIZE, c.phase.need);
    Read(f.(phase := Header), Some(MessageIn(f.data)))
  }

  predicate BodyCanFail(c: Conn, k: nat) {
    && |c.data| == MAX_LENGTH && c.phase.Body?
    && k < c.phase.need && k <= |c.unread| && HEADER_SIZE + k <= MAX_LENGTH
  }

  /** A body read that fails after `k` bytes: the handler logs and asks for nothing more. */
  function FailBody(c: Conn, k: nat): Conn
    requires BodyCanFail(c, k)
  {
    Fill(c, HEADER_SIZE, k).(phase := Stopped(HEADER_SIZE + k))
  }

  /** A header read that fails after `k` bytes: the handler does not look at the error. */
  function FailHeader(c: Conn, k: nat): Read
    requires |c.data| == MAX_LENGTH && c.phase.Header? && k < HEADER_SIZE && k <= |c.unread|
  {
    HandleHeader(Fill(c, 0, k))
  }

  /** The bytes of an incomplete message held in the buffer. */
  function Partial(c: Conn): Bytes
    requires ConnOk(c)
  {
    match c.phase
    case Header => []
    case Body(_) => c.data[..HEADER_SIZE]
    case Stopped(got) => c.data[..got]
  }

  predicate ConnOk(c: Conn) {
    && |c.data| == MAX_LENGTH
    && (c.phase.Body? ==> c.phase.need == BodyLength(c.data) != 0)
    && (c.phase.Stopped? ==> c.phase.got <= MAX_LENGTH)
  }

  // ---------------------------------------------------------- the dispatcher

  datatype Callback = WriteTo(side: Side) | CountAndFollow

  datatype Dispatcher = Dispatcher(funs: map<u8, Callback>, default: Option<Callback>) {
    function Route(kind: u8): Option<Callback> {
      if kind in funs then Some(funs[kind]) else default
    }
  }

  datatype Wiring = Wiring(fromSwitch: Dispatcher, fromController: Dispatcher, follow: Side,
                           injectTo: Side, port: u32, threshold: u32)

  /** The callbacks `main` installs. */
  function EproxyWiring(port: u32, threshold: u32): Wiring {
    Wiring(Dispatcher(map[PACKET_IN := CountAndFollow], Some(WriteTo(Controller))),
           Dispatcher(map[], Some(WriteTo(Switch))),
           Controller, Switch, port, threshold)
  }

  // ------------------------------------------------------------- the system

  datatype Task = Task(target: Side, message: Message)

  datatype MonitorPc = LoopTop | Sleeping | Firing | Finished

  datatype Monitor = Monitor(counter: u32, running: bool, pc: MonitorPc)

  /** What has happened so far; nothing in the machine depends on it. `relayed` says of each
      message posted towards the switch whether it came from the controller. */
  datatype History = History(fromSwitch: Bytes, fromController: Bytes, seen: nat, window: nat,
                             discarded: nat, fired: nat, relayed: seq<bool>)

  /** `pending`: a PACKET_IN that the io thread has counted and not yet posted. */
  datatype State = State(sw: Conn, ctl: Conn, tasks: seq<Task>, pending: Option<Message>,
                         monitor: Monitor, history: History)

  datatype Step =
    | Arrive(side: Side, bytes: Bytes)
    | HeaderRead(side: Side)
    | BodyRead(side: Side)
    | BodyFailed(side: Side, got: nat)
    | Follow
    | RunPosted
    | MonitorReset
    | MonitorCheck
    | MonitorFire
    | MonitorStop
    | MonitorExit

  predicate Initial(s: State) {
    && |s.sw.data| == |s.ctl.data| == MAX_LENGTH
    && s.sw == Conn([], s.sw.data, Header, []) && s.ctl == Conn([], s.ctl.data, Header, [])
    && s.tasks == [] && s.pending == None
    && s.monitor == Monitor(0, true, LoopTop)
    && s.history == History([], [], 0, 0, 0, 0, [])
  }

  function ConnOf(s: State, side: Side): Conn {
    if side.Switch? then s.sw else s.ctl
  }

  function WithConn(s: State, side: Side, c: Conn): State {
    if side.Switch? then s.(sw := c) else s.(ctl := c)
  }

  function Post(s: State, target: Side, m: Message, relayed: bool): State {
    var t := s.(tasks := s.tasks + [Task(target, m)]);
    if target.Switch? then t.(history := s.history.(relayed := s.history.relayed + [relayed])) else t
  }

  /** Run the callback the dispatcher of `from` holds for this message's type. */
  function Deliver(w: Wiring, s: State, from: Side, m: Message): State
    requires |m| >= 2
  {
    var d := if from.Switch? then w.fromSwitch else w.fromController;
    match d.Route(m[1])
    case None => s
    case Some(WriteTo(side)) => Post(s, side, m, true)
    case Some(CountAndFollow) =>
      s.(pending := Some(m),
         monitor := s.monitor.(counter := (s.monitor.counter + 1) % TWO32),
         history := s.history.(seen := s.history.seen + 1, window := s.history.window + 1))
  }

  function AfterRead(w: Wiring, s: State, side: Side, r: Read): State
    requires r.message.Some? ==> |r.message.value| >= 2
  {
    var t := WithConn(s, side, r.conn);
    if r.message.None? then t else Deliver(w, t, side, r.message.value)
  }

  /** What each thread can do. `ConnOk` restricts nothing: it holds in every reachable state. */
  predicate Enabled(s: State, step: Step) {
    match step
    case Arrive(_, _) => true
    case HeaderRead(side) => s.pending.None? && HeaderReady(ConnOf(s, side))
    case BodyRead(side) => s.pending.None? && ConnOk(ConnOf(s, side)) && BodyReady(ConnOf(s, side))
    case BodyFailed(side, got) => s.pending.None? && BodyCanFail(ConnOf(s, side), got)
    case Follow => s.pending.Some?
    case RunPosted => s.pending.None? && s.tasks != []
    case MonitorReset => s.monitor.pc.LoopTop? && s.monitor.running
    case MonitorCheck => s.monitor.pc.Sleeping?
    case MonitorFire => s.monitor.pc.Firing?
    case MonitorStop => true
    case MonitorExit => s.monitor.pc.LoopTop? && !s.monitor.running
  }

  lemma BodyMessageLength(c: Conn)
    requires ConnOk(c) && BodyReady(c)
    ensures ReadBody(c).message.Some? && |ReadBody(c).message.value| == HEADER_SIZE + c.phase.need
  {
    assert Fill(c, HEADER_SIZE, c.phase.need).data[..HEADER_SIZE] == c.data[..HEADER_SIZE];
  }

  function Next(w: Wiring, s: State, step: Step): State
    requires Enabled(s, step)
  {
    match step
    case Arrive(side, bytes) =>
      var c := ConnOf(s, side);
      var t := WithConn(s, side, c.(unread := c.unread + bytes));
      if side.Switch? then t.(history := s.history.(fromSwitch := s.history.fromSwitch + bytes))
      else t.(history := s.history.(fromController := s.history.fromController + bytes))
    case HeaderRead(side) =>
      AfterRead(w, s, side, ReadHeader(ConnOf(s, side)))
    case BodyRead(side) =>
      BodyMessageLength(ConnOf(s, side));
      AfterRead(w, s, side, ReadBody(ConnOf(s, side)))
    case BodyFailed(side, got) =>
      WithConn(s, side, FailBody(ConnOf(s, side), got))
    case Follow =>
      Post(s.(pending := None), w.follow, s.pending.value, true)
    case RunPosted =>
      var t := s.tasks[0];
      var c := ConnOf(s, t.target);
      WithConn(s.(tasks := s.tasks[1..]), t.target, c.(written := c.written + [t.message]))
    case MonitorReset =>
      s.(monitor := s.monitor.(counter := 0, pc := Sleeping),
         history := s.history.(discarded := s.history.discarded + s.history.window, window := 0))
    case MonitorCheck =>
      s.(monitor := s.monitor.(pc := if s.monitor.counter >= w.threshold then Firing else LoopTop))
    case MonitorFire =>
      var t := Post(s, w.injectTo, SwitchBytes(w.port), false);
      t.(monitor := s.monitor.(pc := LoopTop), history := t.history.(fired := s.history.fired + 1))
    case MonitorStop =>
      s.(monitor := s.monitor.(running := false))
    case MonitorExit =>
      s.(monitor := s.monitor.(pc := Finished))
  }

  /** `t` is where the steps lead from `s`. */
  ghost predicate Leads(w: Wiring, s: State, steps: seq<Step>, t: State)
    decreases |steps|
  {
    if steps == [] then s == t
    else Enabled(s, steps[0]) && Leads(w, Next(w, s, steps[0]), steps[1..], t)
  }

  /** `s` is a state of some run of the wired proxy. */
  ghost predicate Reachable(w: Wiring, s: State) {
    exists s0, steps :: Initial(s0) && Leads(w, s0, steps, s)
  }
}
