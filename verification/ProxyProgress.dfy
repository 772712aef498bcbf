/**
 What the io thread is bound to do: its handlers run out, and when they have, every message
 received has been delivered, in both directions.
 */
module ProxyProgress {
  import opened Bytes
  import opened Framing
  import opened Migrator
  import opened ProxyModel
  import opened ProxyTheorems
  import opened ProxyResults

  // ------------------------------------------------------------ the work left

  predicate IsIo(step: Step) {
    step.HeaderRead? || step.BodyRead? || step.Follow? || step.RunPosted?
  }

  /** An upper bound on the handlers still to run. A read takes at least one byte and leaves at
      most two more handlers to run: the callback's second half and a posted write. */
  function Work(s: State): nat {
    3 * (|s.sw.unread| + |s.ctl.unread|) + (if s.pending.Some? then 2 else 0) + |s.tasks|
  }

  lemma ReadLessWork(w: Wiring, s: State, side: Side, r: Read)
    requires s.pending.None? && (r.message.Some? ==> |r.message.value| >= 2)
    requires |r.conn.unread| < |ConnOf(s, side).unread|
    ensures Work(AfterRead(w, s, side, r)) < Work(s)
  {
  }

  lemma IoLessWork(w: Wiring, s: State, step: Step)
    requires Enabled(s, step) && IsIo(step)
    ensures Work(Next(w, s, step)) < Work(s)
  {
    match step
    case HeaderRead(side) => ReadLessWork(w, s, side, ReadHeader(ConnOf(s, side)));
    case BodyRead(side) =>
      BodyMessageLength(ConnOf(s, side));
      ReadLessWork(w, s, side, ReadBody(ConnOf(s, side)));
    case Follow =>
    case RunPosted =>
  }

  /** Only a firing of the monitor makes work out of nothing. */
  lemma OtherWork(w: Wiring, s: State, step: Step)
    requires Enabled(s, step) && !IsIo(step) && !step.Arrive?
    ensures Work(Next(w, s, step)) <= Work(s) + if step.MonitorFire? then 1 else 0
  {
  }

  /** How many of the steps run a handler, or fire the monitor. */
  function IoSteps(steps: seq<Step>): nat {
    if steps == [] then 0 else (if IsIo(steps[0]) then 1 else 0) + IoSteps(steps[1..])
  }

  function Firings(steps: seq<Step>): nat {
    if steps == [] then 0 else (if steps[0].MonitorFire? then 1 else 0) + Firings(steps[1..])
  }

  /** The io thread runs out of handlers: once no bytes arrive, it runs at most as many as the
      work it has and one more for each firing, however the threads are scheduled. */
  lemma {:induction false} IoRunsOut(w: Wiring, s: State, steps: seq<Step>, t: State)
    requires Leads(w, s, steps, t) && forall step :: step in steps ==> !step.Arrive?
    ensures IoSteps(steps) + Work(t) <= Work(s) + Firings(steps)
    decreases |steps|
  {
    if steps != [] {
      if IsIo(steps[0]) {
        IoLessWork(w, s, steps[0]);
      } else {
        OtherWork(w, s, steps[0]);
      }
      IoRunsOut(w, Next(w, s, steps[0]), steps[1..], t);
    }
  }

  // --------------------------------------------------------------- delivery

  /** The controller has got the messages `up`, and the switch `down` with the flow mods in
      between, one for each firing. A side whose reader has failed owes nothing. */
  ghost predicate Delivered(w: Wiring, s: State, up: seq<Message>, down: seq<Message>) {
    && (!s.sw.phase.Stopped? ==> s.ctl.written == up)
    && (!s.ctl.phase.Stopped? ==> IsShuffle(s.sw.written, down, Copies(SwitchBytes(w.port), s.history.fired)))
  }

  /** Completeness towards the switch. Once the io thread has nothing left to run, the switch
      has received exactly the messages the controller's stream cuts into, in order, and in
      between exactly one flow mod for each firing. */
  lemma DrainedDown(port: u32, threshold: u32, s: State)
    requires Reachable(EproxyWiring(port, threshold), s)
    requires IoIdle(s) && !s.ctl.phase.Stopped?
    ensures IsShuffle(s.sw.written, Frames(s.history.fromController).messages,
                      Copies(SwitchBytes(port), s.history.fired))
  {
    ReachableInv(port, threshold, s);
    IdleMeansDown(s);
    WaitingIsIncomplete(s.ctl);
    AllRelayed(EproxyWiring(port, threshold), FlowOf(s), s.history);
  }

  lemma IdleMeansDown(s: State)
    requires ConnOk(s.ctl) && IoIdle(s)
    ensures !HeaderReady(s.ctl) && !BodyReady(s.ctl) && ToSwitch(s) == s.sw.written
  {
    assert !Enabled(s, HeaderRead(Controller)) && !Enabled(s, BodyRead(Controller));
  }

  lemma AllRelayed(w: Wiring, f: Flow, h: History)
    requires DownstreamInv(w, f, h) && Incomplete(f.downLeft)
    ensures IsShuffle(f.down, Frames(h.fromController).messages, Copies(SwitchBytes(w.port), h.fired))
  {
    var relayed := Marked(f.down, h.relayed, true);
    MarkedWellFormed(f.down, h.relayed, true);
    FramesOfConcat(relayed, f.downLeft);
    assert relayed + [] == relayed;
  }

  lemma IdleDelivered(port: u32, threshold: u32, s: State)
    requires Reachable(EproxyWiring(port, threshold), s) && IoIdle(s)
    ensures Delivered(EproxyWiring(port, threshold), s, Frames(s.history.fromSwitch).messages,
                      Frames(s.history.fromController).messages)
  {
    if !s.sw.phase.Stopped? {
      Drained(port, threshold, s);
    }
    if !s.ctl.phase.Stopped? {
      DrainedDown(port, threshold, s);
    }
  }

  /** Whatever handler the io thread picks each time, within `n` of them it comes to rest, and
      there all is delivered. */
  ghost predicate MustDeliver(w: Wiring, s: State, n: nat, up: seq<Message>, down: seq<Message>)
    decreases n
  {
    if IoIdle(s) then Delivered(w, s, up, down)
    else n > 0 && forall step :: IsIo(step) && Enabled(s, step) ==> MustDeliver(w, Next(w, s, step), n - 1, up, down)
  }

  lemma IoKeepsReceived(w: Wiring, s: State, step: Step)
    requires Enabled(s, step) && IsIo(step)
    ensures var t := Next(w, s, step);
            t.history.fromSwitch == s.history.fromSwitch && t.history.fromController == s.history.fromController
  {
  }

  lemma {:induction false} DeliversWithin(port: u32, threshold: u32, s: State, n: nat)
    requires Reachable(EproxyWiring(port, threshold), s) && Work(s) <= n
    ensures MustDeliver(EproxyWiring(port, threshold), s, n, Frames(s.history.fromSwitch).messages,
                        Frames(s.history.fromController).messages)
    decreases n
  {
    var w, up, down := EproxyWiring(port, threshold), Frames(s.history.fromSwitch).messages,
                       Frames(s.history.fromController).messages;
    if IoIdle(s) {
      IdleDelivered(port, threshold, s);
    } else {
      SomeWork(s);
      forall step | IsIo(step) && Enabled(s, step) ensures MustDeliver(w, Next(w, s, step), n - 1, up, down) {
        IoLessWork(w, s, step);
        ReachableNext(w, s, step);
        IoKeepsReceived(w, s, step);
        DeliversWithin(port, threshold, Next(w, s, step), n - 1);
      }
    }
  }

  lemma SomeWork(s: State)
    requires !IoIdle(s)
    ensures Work(s) > 0
  {
  }

  /** Delivery is inevitable. Once arrivals stop, the io thread delivers every message of both
      streams after at most `Work(s)` handlers, whichever it runs first. */
  lemma DeliveryIsInevitable(port: u32, threshold: u32, s: State)
    requires Reachable(EproxyWiring(port, threshold), s)
    ensures MustDeliver(EproxyWiring(port, threshold), s, Work(s), Frames(s.history.fromSwitch).messages,
                        Frames(s.history.fromController).messages)
  {
    DeliversWithin(port, threshold, s, Work(s));
  }

  /** So whatever well-formed messages the two sides have sent, however the network has cut and
      delayed their bytes, both streams arrive. */
  lemma SentMessagesArrive(port: u32, threshold: u32, s: State, up: seq<Message>, down: seq<Message>)
    requires Reachable(EproxyWiring(port, threshold), s) && AllWellFormed(up) && AllWellFormed(down)
    requires s.history.fromSwitch == Concat(up) && s.history.fromController == Concat(down)
    ensures MustDeliver(EproxyWiring(port, threshold), s, Work(s), up, down)
  {
    FramesOfWhole(up);
    FramesOfWhole(down);
    DeliveryIsInevitable(port, threshold, s);
  }
}
