/**
 The proxy's objects, updated in place as the source updates them, and wired as `main` wires
 them. Every public method of `Eproxy` is proved to take the state machine of `ProxyModel`
 from the old view to the new one by steps that machine has, so what is proved there of every
 reachable state holds of the objects.
 */
module ProxyObjects {
  import opened Bytes
  import opened Framing
  import opened Migrator
  import opened ProxyModel
  import opened ProxyResults

  class IoService {
    var tasks: seq<Task>

    constructor ()
      ensures tasks == []
    {
      tasks := [];
    }

    method Post(t: Task)
      modifies this
      ensures tasks == old(tasks) + [t]
    {
      tasks := tasks + [t];
    }
  }

  /** A callback, by what it is bound to. */
  datatype Handler =
    | SessionWrite(session: Session)
    | MonitorOnMessage(monitor: PktInMonitor)
  {
    function View(): Callback {
      match this
      case SessionWrite(s) => WriteTo(s.side)
      case MonitorOnMessage(_) => CountAndFollow
    }
  }

  class Session {
    const side: Side
    const io: IoService
    const data: array<u8>
    var unread: Bytes
    var phase: Phase
    var written: seq<Message>
    var dispatcher: MessageDispatcher?

    constructor (side: Side, io: IoService)
      ensures this.side == side && this.io == io && dispatcher == null
      ensures fresh(data) && data.Length == MAX_LENGTH == 102400
      ensures unread == [] && phase == Header && written == []
    {
      this.side := side;
      this.io := io;
      data := new u8[MAX_LENGTH];
      unread, phase, written, dispatcher := [], Header, [], null;
    }

    function View(): Conn
      reads this, data
    {
      Conn(unread, data[..], phase, written)
    }

    method SetDispatcher(d: MessageDispatcher)
      modifies this`dispatcher
      ensures dispatcher == d
    {
      dispatcher := d;
    }

    /** Ask for the next header. */
    method Read()
      modifies this`phase
      ensures phase == Header
    {
      phase := Header;
    }

    /** Post a write of the whole message to this session. */
    method Write(m: Message)
      modifies io
      ensures io.tasks == old(io.tasks) + [Task(side, m)]
    {
      io.Post(Task(side, m));
    }

    method WriteInIoThread(m: Message)
      modifies this`written
      ensures written == old(written) + [m]
    {
      written := written + [m];
    }

    /** The socket's bytes go into the buffer one after the other. */
    method Receive(at: nat, n: nat)
      requires data.Length == MAX_LENGTH && n <= |unread| && at + n <= MAX_LENGTH
      modifies this`unread, data
      ensures View() == Fill(old(View()), at, n)
    {
      for i := 0 to n
        invariant unread == old(unread)
        invariant data[..] == old(data[..at]) + unread[..i] + old(data[at + i..])
      {
        data[at + i] := unread[i];
      }
      unread := unread[n..];
    }

    /** The header is in the buffer. */
    method HandleReadHeader()
      requires data.Length == MAX_LENGTH && dispatcher != null && dispatcher.Wired()
      requires dispatcher.io == io
      modifies this`phase, io, dispatcher.monitor`counter
      ensures var r := HandleHeader(old(View()));
              && View() == r.conn
              && (r.message.None? ==>
                    io.tasks == old(io.tasks) && dispatcher.monitor.counter == old(dispatcher.monitor.counter))
              && (r.message.Some? ==> |r.message.value| == HEADER_SIZE)
              && (r.message.Some? ==>
                    dispatcher.Ran(r.message.value, old(io.tasks), old(dispatcher.monitor.counter)))
    {
      var length := BodyLength(data[..]);
      if length == 0 {
        dispatcher.OnMessage(data);
        Read();
      } else {
        phase := Body(length);
      }
    }

    /** The body read has completed. */
    method HandleRead(error: bool, transferred: nat)
      requires data.Length == MAX_LENGTH && dispatcher != null && dispatcher.Wired()
      requires dispatcher.io == io && (error || U16At(data[..], 2) >= HEADER_SIZE)
      modifies this`phase, io, dispatcher.monitor`counter
      ensures View() == old(View()).(phase := if error then Stopped(HEADER_SIZE + transferred) else Header)
      ensures error ==> io.tasks == old(io.tasks) && dispatcher.monitor.counter == old(dispatcher.monitor.counter)
      ensures !error ==> dispatcher.Ran(MessageIn(data[..]), old(io.tasks), old(dispatcher.monitor.counter))
    {
      if !error {
        dispatcher.OnMessage(data);
        Read();
      } else {
        phase := Stopped(HEADER_SIZE + transferred);
      }
    }
  }

  class MessageDispatcher {
    var funs: map<u8, Handler>
    var defaultCallback: Option<Handler>
    /** The objects the callbacks act on. */
    ghost const io: IoService
    const monitor: PktInMonitor

    constructor (io: IoService, monitor: PktInMonitor)
      ensures this.io == io && this.monitor == monitor && funs == map[] && defaultCallback == None
    {
      this.io := io;
      this.monitor := monitor;
      funs, defaultCallback := map[], None;
    }

    function View(): Dispatcher
      reads this
    {
      Dispatcher(map k | k in funs :: funs[k].View(),
                 if defaultCallback.Some? then Some(defaultCallback.value.View()) else None)
    }

    ghost predicate Acts(h: Handler)
      reads monitor`follow
    {
      match h
      case SessionWrite(s) => s.io == io
      case MonitorOnMessage(m) => m == monitor && m.follow.Some? && m.follow.value.io == io
    }

    ghost predicate Wired()
      reads this, monitor`follow
    {
      && (forall k :: k in funs ==> Acts(funs[k]))
      && (defaultCallback.Some? ==> Acts(defaultCallback.value))
    }

    method SetCallBackOnMessage(kind: u8, f: Handler)
      modifies this`funs
      ensures funs == old(funs)[kind := f]
    {
      funs := funs[kind := f];
    }

    method SetDefaultCallback(f: Handler)
      modifies this`defaultCallback
      ensures defaultCallback == Some(f)
    {
      defaultCallback := Some(f);
    }

    /** What has been posted and counted once message `m` has been dispatched. */
    ghost predicate Ran(m: Message, tasks: seq<Task>, counter: u32)
      requires |m| >= HEADER_SIZE
      reads this, io, monitor
    {
      match View().Route(m[1])
      case None => io.tasks == tasks && monitor.counter == counter
      case Some(WriteTo(side)) => io.tasks == tasks + [Task(side, m)] && monitor.counter == counter
      case Some(CountAndFollow) =>
        && monitor.follow.Some?
        && io.tasks == tasks + [Task(monitor.follow.value.side, m)]
        && monitor.counter == (counter + 1) % TWO32
    }

    /** Copy the message out of the buffer and run the callback for its type. */
    method OnMessage(data: array<u8>)
      requires data.Length == MAX_LENGTH && U16At(data[..], 2) >= HEADER_SIZE
      requires Wired()
      modifies io, monitor`counter
      ensures Ran(MessageIn(data[..]), old(io.tasks), old(monitor.counter))
    {
      var message := data[..(data[2] as int) * 0x100 + data[3]];
      assert message == MessageIn(data[..]);
      var kind := data[1];
      if kind !in funs {
        if defaultCallback.Some? {
          Invoke(defaultCallback.value, message);
        }
      } else {
        Invoke(funs[kind], message);
      }
    }

    method Invoke(f: Handler, m: Message)
      requires Acts(f)
      modifies io, monitor`counter
      ensures match f
              case SessionWrite(s) =>
                io.tasks == old(io.tasks) + [Task(s.side, m)] && monitor.counter == old(monitor.counter)
              case MonitorOnMessage(_) =>
                && monitor.follow.Some?
                && io.tasks == old(io.tasks) + [Task(monitor.follow.value.side, m)]
                && monitor.counter == (old(monitor.counter) + 1) % TWO32
    {
      match f
      case SessionWrite(s) => s.Write(m);
      case MonitorOnMessage(mon) => mon.OnMessage(m);
    }
  }

  class PktInMonitor {
    var counter: u32
    const threshold: u32
    var isRunning: bool
    var pc: MonitorPc
    var follow: Option<Session>
    var action: Option<PathMigrator>

    constructor (threshold: u32)
      ensures this.threshold == threshold && View() == Monitor(0, true, LoopTop)
      ensures follow == None && action == None
    {
      this.threshold := threshold;
      counter, isRunning, pc, follow, action := 0, true, LoopTop, None, None;
    }

    function View(): Monitor
      reads this
    {
      Monitor(counter, isRunning, pc)
    }

    method SetFollowAction(s: Session)
      modifies this`follow
      ensures follow == Some(s)
    {
      follow := Some(s);
    }

    method SetTriggerAction(a: PathMigrator)
      modifies this`action
      ensures action == Some(a)
    {
      action := Some(a);
    }

    method AddCounter()
      modifies this`counter
      ensures counter == (old(counter) + 1) % TWO32
    {
      counter := (counter + 1) % 0x1_0000_0000;
    }

    method OnMessage(m: Message)
      requires follow.Some?
      modifies this`counter, follow.value.io
      ensures counter == (old(counter) + 1) % TWO32
      ensures follow.value.io.tasks == old(follow.value.io.tasks) + [Task(follow.value.side, m)]
    {
      AddCounter();
      follow.value.Write(m);
    }

    method Stop()
      modifies this`isRunning
      ensures !isRunning
    {
      isRunning := false;
    }

    /** The head of the loop: clear the counter, or leave. */
    method Reset()
      requires pc.LoopTop?
      modifies this`counter, this`pc
      ensures View() == if isRunning then old(View()).(counter := 0, pc := Sleeping)
                        else old(View()).(pc := Finished)
    {
      if isRunning {
        counter := 0;
        pc := Sleeping;
      } else {
        pc := Finished;
      }
    }

    /** After the sleep: compare. */
    method Check()
      requires pc.Sleeping?
      modifies this`pc
      ensures pc == if counter >= threshold then Firing else LoopTop
    {
      pc := if counter >= threshold then Firing else LoopTop;
    }

    method Fire()
      requires pc.Firing? && action.Some?
      modifies this`pc, action.value.session.io
      ensures pc == LoopTop
      ensures var a := action.value;
              a.session.io.tasks == old(a.session.io.tasks) + [Task(a.session.side, SwitchBytes(a.codec.port))]
    {
      action.value.SwitchPath();
      pc := LoopTop;
    }
  }

  class PathMigrator {
    const codec: PktMigrator
    const session: Session

    constructor (codec: PktMigrator, session: Session)
      ensures this.codec == codec && this.session == session
    {
      this.codec := codec;
      this.session := session;
    }

    method SwitchPath()
      modifies session.io
      ensures session.io.tasks == old(session.io.tasks) + [Task(session.side, SwitchBytes(codec.port))]
    {
      var m := codec.PrepareSwitch();
      session.Write(m);
    }
  }

  /** The whole proxy. `history` is the machine's record of the run. */
  class Eproxy {
    const io: IoService
    const sSession: Session
    const cSession: Session
    const fromSwitch: MessageDispatcher
    const fromController: MessageDispatcher
    const monitor: PktInMonitor
    const migrator: PathMigrator
    ghost var history: History

    /** What `main` has set up and nothing changes afterwards. */
    ghost predicate Valid()
      reads sSession`dispatcher, cSession`dispatcher, fromSwitch, fromController, monitor`follow, monitor`action
    {
      && sSession != cSession && sSession.data != cSession.data
      && sSession.data.Length == cSession.data.Length == MAX_LENGTH
      && sSession.side == Switch && cSession.side == Controller
      && sSession.io == cSession.io == fromSwitch.io == fromController.io == io
      && sSession.dispatcher == fromSwitch && cSession.dispatcher == fromController
      && fromSwitch.monitor == fromController.monitor == monitor
      && fromSwitch.Wired() && fromController.Wired()
      && fromSwitch.View() == Wires().fromSwitch && fromController.View() == Wires().fromController
      && monitor.follow == Some(cSession) && monitor.action == Some(migrator)
      && migrator.session == sSession
    }

    function Wires(): Wiring {
      EproxyWiring(migrator.codec.port, monitor.threshold)
    }

    ghost function View(): State
      reads this, sSession, sSession.data, cSession, cSession.data, io, monitor
    {
      State(sSession.View(), cSession.View(), io.tasks, None, monitor.View(), history)
    }

    /** Build the objects and wire them. */
    constructor (host: Host, port: u32, threshold: u32)
      ensures Valid() && Initial(View())
      ensures Wires() == EproxyWiring(port, threshold)
    {
      var ios := new IoService();
      var s := new Session(Switch, ios);
      var c := new Session(Controller, ios);
      var mon := new PktInMonitor(threshold);
      var dSwitch := new MessageDispatcher(ios, mon);
      var dController := new MessageDispatcher(ios, mon);
      var codec := new PktMigrator(host, port);
      var mig := new PathMigrator(codec, s);
      io, sSession, cSession, monitor, migrator := ios, s, c, mon, mig;
      fromSwitch, fromController := dSwitch, dController;
      history := History([], [], 0, 0, 0, 0, []);
      new;
      WireUp();
      StartsInitial();
    }

    lemma StartsInitial()
      requires sSession.data.Length == cSession.data.Length == MAX_LENGTH
      requires sSession.unread == cSession.unread == [] && sSession.written == cSession.written == []
      requires sSession.phase == cSession.phase == Header && io.tasks == []
      requires monitor.View() == Monitor(0, true, LoopTop) && history == History([], [], 0, 0, 0, 0, [])
      ensures Initial(View())
    {
    }

    /** Install the callbacks, in the order of the source. */
    method WireUp()
      requires sSession != cSession && sSession.data != cSession.data && fromSwitch != fromController
      requires sSession.data.Length == cSession.data.Length == MAX_LENGTH
      requires sSession.side == Switch && cSession.side == Controller
      requires sSession.io == cSession.io == fromSwitch.io == fromController.io == io
      requires fromSwitch.monitor == fromController.monitor == monitor && migrator.session == sSession
      requires fromSwitch.funs == fromController.funs == map[]
      modifies sSession`dispatcher, cSession`dispatcher, sSession`phase, cSession`phase
      modifies monitor`action, monitor`follow, fromSwitch, fromController
      ensures Valid() && sSession.phase == cSession.phase == Header
    {
      fromSwitch.SetDefaultCallback(SessionWrite(cSession));
      fromController.SetDefaultCallback(SessionWrite(sSession));
      monitor.SetTriggerAction(migrator);
      monitor.SetFollowAction(cSession);
      fromSwitch.SetCallBackOnMessage(PACKET_IN, MonitorOnMessage(monitor));
      sSession.SetDispatcher(fromSwitch);
      cSession.SetDispatcher(fromController);
      sSession.Read();
      cSession.Read();
    }

    function Of(side: Side): Session {
      if side.Switch? then sSession else cSession
    }

    /** A read handler that dispatches takes one step, and a second one when it has to pass a
        counted PACKET_IN on. */
    ghost function AfterHandler(s: State, side: Side, r: Read): State
      requires r.message.Some? ==> |r.message.value| >= 2
    {
      var t := AfterRead(Wires(), s, side, r);
      if t.pending.Some? then Next(Wires(), t, Follow) else t
    }

    ghost function HistoryAfter(s: State, side: Side, r: Read): History
      requires r.message.Some? ==> |r.message.value| >= 2
    {
      AfterHandler(s, side, r).history
    }

    /** Both callbacks of either dispatcher post one write to the other side. */
    lemma HandlerEffect(s: State, side: Side, r: Read)
      requires s.pending.None? && (r.message.Some? ==> |r.message.value| >= HEADER_SIZE)
      ensures AfterHandler(s, side, r) ==
              State(if side.Switch? then r.conn else s.sw, if side.Switch? then s.ctl else r.conn,
                    TasksAfter(s.tasks, side, r.message), None,
                    s.monitor.(counter := CounterAfter(s.monitor.counter, side, r.message)),
                    HistoryAfter(s, side, r))
    {
    }

    /** The view after a handler, put together from the objects it has changed. */
    lemma HandlerView(s: State, side: Side, r: Read)
      requires s.pending.None? && (r.message.Some? ==> |r.message.value| >= HEADER_SIZE)
      requires Of(side).View() == r.conn
      requires Other(side).View() == if side.Switch? then s.ctl else s.sw
      requires io.tasks == TasksAfter(s.tasks, side, r.message)
      requires monitor.View() == s.monitor.(counter := CounterAfter(s.monitor.counter, side, r.message))
      requires history == HistoryAfter(s, side, r)
      ensures View() == AfterHandler(s, side, r)
    {
      HandlerEffect(s, side, r);
    }

    function TasksAfter(tasks: seq<Task>, side: Side, m: Option<Message>): seq<Task> {
      if m.None? then tasks else tasks + [Task(if side.Switch? then Controller else Switch, m.value)]
    }

    function CounterAfter(counter: u32, side: Side, m: Option<Message>): u32
      requires m.Some? ==> |m.value| >= 2
    {
      if m.Some? && side.Switch? && m.value[1] == PACKET_IN then (counter + 1) % TWO32 else counter
    }

    lemma RanEffect(side: Side, m: Message, tasks: seq<Task>, counter: u32)
      requires Valid() && |m| >= HEADER_SIZE
      requires Of(side).dispatcher.Ran(m, tasks, counter)
      ensures io.tasks == TasksAfter(tasks, side, Some(m))
      ensures monitor.counter == CounterAfter(counter, side, Some(m))
    {
    }

    method Arrived(side: Side, bytes: Bytes)
      requires Valid()
      modifies this`history, Of(side)`unread
      ensures Valid() && View() == Next(Wires(), old(View()), Arrive(side, bytes))
    {
      ghost var after := Next(Wires(), View(), Arrive(side, bytes));
      var s := Of(side);
      s.unread := s.unread + bytes;
      history := after.history;
    }

    function Other(side: Side): Session {
      if side.Switch? then cSession else sSession
    }

    /** The header has arrived: copy it and run the header handler. */
    method HeaderArrived(side: Side)
      requires Valid() && HeaderReady(Of(side).View())
      modifies Of(side)`unread, Of(side)`phase, Of(side).data, io, monitor`counter
      ensures Valid()
      ensures var r := ReadHeader(old(Of(side).View()));
              && Of(side).View() == r.conn && Other(side).View() == old(Other(side).View())
              && (r.message.Some? ==> |r.message.value| >= HEADER_SIZE)
              && io.tasks == TasksAfter(old(io.tasks), side, r.message)
              && monitor.View() == old(monitor.View()).(counter := CounterAfter(old(monitor.counter), side, r.message))
    {
      ghost var r := ReadHeader(Of(side).View());
      Of(side).Receive(0, HEADER_SIZE);
      Of(side).HandleReadHeader();
      if r.message.Some? {
        RanEffect(side, r.message.value, old(io.tasks), old(monitor.counter));
      }
    }

    /** The body has arrived: copy it and run the body handler. */
    method BodyArrived(side: Side)
      requires Valid() && ConnOk(Of(side).View()) && BodyReady(Of(side).View())
      modifies Of(side)`unread, Of(side)`phase, Of(side).data, io, monitor`counter
      ensures Valid()
      ensures var r := ReadBody(old(Of(side).View()));
              && Of(side).View() == r.conn && Other(side).View() == old(Other(side).View())
              && r.message.Some? && |r.message.value| >= HEADER_SIZE
              && io.tasks == TasksAfter(old(io.tasks), side, r.message)
              && monitor.View() == old(monitor.View()).(counter := CounterAfter(old(monitor.counter), side, r.message))
    {
      ghost var r := ReadBody(Of(side).View());
      BodyMessageLength(Of(side).View());
      var need := Of(side).phase.need;
      Of(side).Receive(HEADER_SIZE, need);
      Of(side).HandleRead(false, need);
      RanEffect(side, r.message.value, old(io.tasks), old(monitor.counter));
    }

    method HeaderHandler(side: Side)
      requires Valid() && Enabled(View(), HeaderRead(side))
      modifies this`history, Of(side)`unread, Of(side)`phase, Of(side).data, io, monitor`counter
      ensures Valid() && View() == AfterHandler(old(View()), side, ReadHeader(ConnOf(old(View()), side)))
    {
      ghost var before := View();
      HeaderArrived(side);
      ghost var r := ReadHeader(ConnOf(before, side));
      history := HistoryAfter(before, side, r);
      HandlerView(before, side, r);
    }

    method BodyHandler(side: Side)
      requires Valid() && Enabled(View(), BodyRead(side))
      modifies this`history, Of(side)`unread, Of(side)`phase, Of(side).data, io, monitor`counter
      ensures Valid()
      ensures var r := ReadBody(ConnOf(old(View()), side));
              && (r.message.Some? ==> |r.message.value| >= HEADER_SIZE)
              && View() == AfterHandler(old(View()), side, r)
    {
      ghost var before := View();
      BodyArrived(side);
      ghost var r := ReadBody(ConnOf(before, side));
      history := HistoryAfter(before, side, r);
      HandlerView(before, side, r);
    }

    method BodyErrorHandler(side: Side, got: nat)
      requires Valid() && ConnOk(Of(side).View()) && Enabled(View(), BodyFailed(side, got))
      modifies this`history, Of(side)`unread, Of(side)`phase, Of(side).data, io, monitor`counter
      ensures Valid() && View() == Next(Wires(), old(View()), BodyFailed(side, got))
    {
      ghost var before := View();
      BodyBroken(side, got);
      FailureEffect(before, side, got);
    }

    /** A body read fails after `got` bytes: run the body handler with the error. */
    method BodyBroken(side: Side, got: nat)
      requires Valid() && ConnOk(Of(side).View()) && BodyCanFail(Of(side).View(), got)
      modifies Of(side)`unread, Of(side)`phase, Of(side).data, io, monitor`counter
      ensures Of(side).View() == FailBody(old(Of(side).View()), got)
      ensures Other(side).View() == old(Other(side).View())
      ensures io.tasks == old(io.tasks) && monitor.View() == old(monitor.View())
    {
      ghost var filled := Fill(Of(side).View(), HEADER_SIZE, got);
      Of(side).Receive(HEADER_SIZE, got);
      assert Of(side).View() == filled;
      Of(side).HandleRead(true, got);
      assert Of(side).View() == filled.(phase := Stopped(HEADER_SIZE + got));
    }

    lemma FailureEffect(s: State, side: Side, got: nat)
      requires s.pending.None? && BodyCanFail(ConnOf(s, side), got)
      ensures Next(Wires(), s, BodyFailed(side, got)) ==
              State(if side.Switch? then FailBody(s.sw, got) else s.sw,
                    if side.Switch? then s.ctl else FailBody(s.ctl, got),
                    s.tasks, None, s.monitor, s.history)
    {
    }

    /** What a read handler leads to is reachable too. */
    lemma HandlerReaches(s: State, side: Side)
      requires Reachable(Wires(), s)
      ensures Enabled(s, HeaderRead(side)) ==>
                Reachable(Wires(), AfterHandler(s, side, ReadHeader(ConnOf(s, side))))
      ensures Enabled(s, BodyRead(side)) ==>
                ReadBody(ConnOf(s, side)).message.Some? && |ReadBody(ConnOf(s, side)).message.value| >= HEADER_SIZE
      ensures Enabled(s, BodyRead(side)) ==>
                Reachable(Wires(), AfterHandler(s, side, ReadBody(ConnOf(s, side))))
    {
      if Enabled(s, HeaderRead(side)) {
        ReachesWithFollow(s, HeaderRead(side));
      }
      if Enabled(s, BodyRead(side)) {
        BodyMessageLength(ConnOf(s, side));
        ReachesWithFollow(s, BodyRead(side));
      }
    }

    lemma ReachesWithFollow(s: State, step: Step)
      requires Reachable(Wires(), s) && Enabled(s, step)
      ensures var t := Next(Wires(), s, step);
              Reachable(Wires(), if t.pending.Some? then Next(Wires(), t, Follow) else t)
    {
      ReachableNext(Wires(), s, step);
      var t := Next(Wires(), s, step);
      if t.pending.Some? {
        ReachableNext(Wires(), t, Follow);
      }
    }

    /** So the guarantees hold of the objects: what the controller's session has written is the
        first messages of what the switch's session has received, and every flow mod posted
        has been paid for. */
    lemma ObjectsAreTransparent()
      requires Valid() && Reachable(Wires(), View())
      ensures cSession.written <= Frames(history.fromSwitch).messages
      ensures ConnOk(View().sw)
      ensures history.fromSwitch == Concat(cSession.written) + Backlog(View())
      ensures history.fired * monitor.threshold <= PacketIns(Frames(history.fromSwitch).messages)
    {
      Transparency(migrator.codec.port, monitor.threshold, View());
      TriggerSound(migrator.codec.port, monitor.threshold, View());
    }

    /** The io thread runs the first posted write. */
    method RunPostedWrite()
      requires Valid() && Enabled(View(), RunPosted)
      modifies io, sSession`written, cSession`written
      ensures Valid() && View() == Next(Wires(), old(View()), RunPosted)
    {
      var t := io.tasks[0];
      io.tasks := io.tasks[1..];
      Of(t.target).WriteInIoThread(t.message);
    }

    /** The head of the monitor thread's loop. */
    method MonitorTop()
      requires Valid() && monitor.pc.LoopTop?
      modifies this`history, monitor`counter, monitor`pc
      ensures Valid()
      ensures View() == Next(Wires(), old(View()), if old(monitor.isRunning) then MonitorReset else MonitorExit)
    {
      ghost var after := Next(Wires(), View(), if monitor.isRunning then MonitorReset else MonitorExit);
      monitor.Reset();
      history := after.history;
    }

    method StopMonitor()
      requires Valid()
      modifies monitor`isRunning
      ensures Valid() && View() == Next(Wires(), old(View()), MonitorStop)
    {
      monitor.Stop();
    }

    method MonitorCompare()
      requires Valid() && monitor.pc.Sleeping?
      modifies monitor`pc
      ensures Valid() && View() == Next(Wires(), old(View()), MonitorCheck)
    {
      monitor.Check();
    }

    method MonitorTrigger()
      requires Valid() && monitor.pc.Firing?
      modifies this`history, monitor`pc, io
      ensures Valid() && View() == Next(Wires(), old(View()), MonitorFire)
    {
      ghost var before := View();
      monitor.Fire();
      history := before.history.(relayed := before.history.relayed + [false], fired := before.history.fired + 1);
      FireEffect(before);
    }

    lemma FireEffect(s: State)
      requires s.monitor.pc.Firing?
      ensures Next(Wires(), s, MonitorFire) ==
              State(s.sw, s.ctl, s.tasks + [Task(Switch, SwitchBytes(migrator.codec.port))], s.pending,
                    s.monitor.(pc := LoopTop),
                    s.history.(relayed := s.history.relayed + [false], fired := s.history.fired + 1))
    {
    }
  }
}
