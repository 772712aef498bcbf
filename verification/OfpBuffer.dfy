/**
 The blocking queue between producers and consumers: a mutex, a condition variable and a
 flag that shadows emptiness. Any number of threads make any calls; every statement under
 the lock, every wait, wakeup and notification is a step of its own.
 */
module OfpBuffer {
  import opened Framing

  /** As written, taking the last message leaves the flag as it is; repaired, it is set. */
  datatype Version = AsWritten | Repaired

  /** Where a thread stands. */
  datatype Pc =
    | Idle
    | PushWants(m: Message)
    | PushLocked(m: Message)
    | PushMarked(m: Message)
    | PushQueued
    | PushNotifies
    | GetWants
    | GetLocked
    | GetWaits
    | GetWoken
    | GetPassed
    | GetFronted(m: Message)
    | GetPopped(m: Message)

  /** `pushed`, `taken` and `returned` record the messages in the order of the lock; `called`
      those that callers have asked to push. */
  datatype State = State(isEmpty: bool, queue: seq<Message>, lock: int, threads: seq<Pc>,
                         called: seq<Message>, pushed: seq<Message>, taken: seq<Message>,
                         returned: seq<Message>)

  const FREE: int := -1

  datatype Step =
    | CallPush(i: nat, m: Message)
    | CallGet(i: nat)
    | Acquire(i: nat)
    | MarkFull(i: nat)
    | Enqueue(i: nat)
    | UnlockPush(i: nat)
    | NotifyOne(i: nat, j: nat)
    | NotifyNone(i: nat)
    | Spurious(i: nat)
    | TestFlag(i: nat)
    | Front(i: nat)
    | Pop(i: nat)
    | UnlockGet(i: nat)

  predicate Initial(s: State) {
    && s.isEmpty && s.queue == s.called == s.pushed == s.taken == s.returned == [] && s.lock == FREE
    && forall i :: 0 <= i < |s.threads| ==> s.threads[i] == Idle
  }

  predicate Enabled(s: State, step: Step) {
    && step.i < |s.threads|
    && var pc := s.threads[step.i];
       match step
       case CallPush(_, _) => pc.Idle?
       case CallGet(_) => pc.Idle?
       case Acquire(_) => s.lock == FREE && (pc.PushWants? || pc.GetWants? || pc.GetWoken?)
       case MarkFull(_) => pc.PushLocked?
       case Enqueue(_) => pc.PushMarked?
       case UnlockPush(_) => pc.PushQueued?
       case NotifyOne(_, j) => pc.PushNotifies? && j < |s.threads| && s.threads[j].GetWaits?
       case NotifyNone(_) => pc.PushNotifies? && GetWaits !in s.threads
       case Spurious(_) => pc.GetWaits?
       case TestFlag(_) => pc.GetLocked?
       case Front(_) => pc.GetPassed? && s.queue != []
       case Pop(_) => pc.GetFronted? && s.queue != []
       case UnlockGet(_) => pc.GetPopped?
  }

  function At(s: State, i: nat, pc: Pc): State
    requires i < |s.threads|
  {
    s.(threads := s.threads[i := pc])
  }

  function Next(v: Version, s: State, step: Step): State
    requires Enabled(s, step)
  {
    var i := step.i;
    var pc := s.threads[i];
    match step
    case CallPush(_, m) => At(s, i, PushWants(m)).(called := s.called + [m])
    case CallGet(_) => At(s, i, GetWants)
    case Acquire(_) => At(s, i, if pc.PushWants? then PushLocked(pc.m) else GetLocked).(lock := i)
    case MarkFull(_) => At(s, i, PushMarked(pc.m)).(isEmpty := false)
    case Enqueue(_) => At(s, i, PushQueued).(queue := s.queue + [pc.m], pushed := s.pushed + [pc.m])
    case UnlockPush(_) => At(s, i, PushNotifies).(lock := FREE)
    case NotifyOne(_, j) => At(At(s, i, Idle), j, GetWoken)
    case NotifyNone(_) => At(s, i, Idle)
    case Spurious(_) => At(s, i, GetWoken)
    case TestFlag(_) => if s.isEmpty then At(s, i, GetWaits).(lock := FREE) else At(s, i, GetPassed)
    case Front(_) => At(s, i, GetFronted(s.queue[0]))
    case Pop(_) =>
      At(s, i, GetPopped(pc.m)).(queue := s.queue[1..], taken := s.taken + [pc.m],
                                 isEmpty := if v.Repaired? then |s.queue| == 1 else s.isEmpty)
    case UnlockGet(_) => At(s, i, Idle).(lock := FREE, returned := s.returned + [pc.m])
  }

  ghost predicate Leads(v: Version, s: State, steps: seq<Step>, t: State)
    decreases |steps|
  {
    if steps == [] then s == t
    else Enabled(s, steps[0]) && Leads(v, Next(v, s, steps[0]), steps[1..], t)
  }

  ghost predicate Reachable(v: Version, s: State) {
    exists s0, steps :: Initial(s0) && Leads(v, s0, steps, s)
  }

  // ---------------------------------------------------------------- counting

  datatype Role = Waiting | Consuming | Notifying | Carrying(message: Message)

  /** Waiting in the condition variable; woken, or under the lock on the way to a pop; or
      having queued a message whose notification is still to come; or with a message to push. */
  predicate Plays(pc: Pc, r: Role) {
    match r
    case Waiting => pc.GetWaits?
    case Consuming => pc.GetWoken? || pc.GetLocked? || pc.GetPassed? || pc.GetFronted?
    case Notifying => pc.PushQueued? || pc.PushNotifies?
    case Carrying(m) => (pc.PushWants? || pc.PushLocked? || pc.PushMarked?) && pc.m == m
  }

  function Count(ts: seq<Pc>, r: Role): nat {
    if ts == [] then 0 else Count(ts[..|ts| - 1], r) + Unit(ts[|ts| - 1], r)
  }

  function Unit(pc: Pc, r: Role): nat {
    if Plays(pc, r) then 1 else 0
  }

  lemma {:induction false} CountUpdate(ts: seq<Pc>, i: nat, pc: Pc, r: Role)
    requires i < |ts|
    ensures Count(ts[i := pc], r) == Count(ts, r) - Unit(ts[i], r) + Unit(pc, r)
  {
    var n := |ts| - 1;
    if i == n {
      assert ts[i := pc][..n] == ts[..n];
    } else {
      CountUpdate(ts[..n], i, pc, r);
      assert ts[i := pc][..n] == ts[..n][i := pc];
    }
  }

  lemma {:induction false} CountSome(ts: seq<Pc>, r: Role)
    requires Count(ts, r) > 0
    ensures exists i :: 0 <= i < |ts| && Plays(ts[i], r)
  {
    var n := |ts| - 1;
    if !Plays(ts[n], r) {
      CountSome(ts[..n], r);
      var i :| 0 <= i < n && Plays(ts[..n][i], r);
      assert Plays(ts[i], r);
    }
  }

  lemma {:induction false} CountNone(ts: seq<Pc>, r: Role)
    requires forall i :: 0 <= i < |ts| ==> !Plays(ts[i], r)
    ensures Count(ts, r) == 0
  {
    if ts != [] {
      CountNone(ts[..|ts| - 1], r);
    }
  }

  // --------------------------------------------------------------- invariants

  predicate Holds(pc: Pc) {
    || pc.PushLocked? || pc.PushMarked? || pc.PushQueued?
    || pc.GetLocked? || pc.GetPassed? || pc.GetFronted? || pc.GetPopped?
  }

  /** The lock is held by the one thread inside a critical section. */
  ghost predicate LockInv(s: State) {
    && -1 <= s.lock < |s.threads|
    && forall i :: 0 <= i < |s.threads| ==> (Holds(s.threads[i]) <==> s.lock == i)
  }

  /** What was returned, then what is about to be, then what is queued, is what was pushed. */
  ghost predicate FifoInv(s: State) {
    && s.pushed == s.taken + s.queue && s.taken == s.returned + Returning(s)
    && (s.lock >= 0 && s.lock < |s.threads| ==>
          var pc := s.threads[s.lock];
          pc.GetFronted? ==> s.queue != [] && pc.m == s.queue[0])
  }

  /** The message of the get that holds the lock and has taken its message. */
  function Returning(s: State): seq<Message> {
    if 0 <= s.lock < |s.threads| && s.threads[s.lock].GetPopped? then [s.threads[s.lock].m] else []
  }

  function Times(ms: seq<Message>, m: Message): nat {
    if ms == [] then 0 else Times(ms[..|ms| - 1], m) + if ms[|ms| - 1] == m then 1 else 0
  }

  lemma TimesSnoc(ms: seq<Message>, n: Message, m: Message)
    ensures Times(ms + [n], m) == Times(ms, m) + if n == m then 1 else 0
  {
    assert (ms + [n])[..|ms|] == ms;
  }

  /** Each message called for is pushed or on its way, as often as it was called for. */
  ghost predicate CallInv(s: State) {
    forall m :: Times(s.called, m) == Times(s.pushed, m) + Count(s.threads, Carrying(m))
  }

  lemma CallKept(v: Version, s: State, step: Step)
    requires CallInv(s) && Enabled(s, step)
    ensures CallInv(Next(v, s, step))
  {
    forall m ensures Times(Next(v, s, step).called, m) ==
                     Times(Next(v, s, step).pushed, m) + Count(Next(v, s, step).threads, Carrying(m)) {
      CallKeptFor(v, s, step, m);
    }
  }

  lemma CallKeptFor(v: Version, s: State, step: Step, m: Message)
    requires Times(s.called, m) == Times(s.pushed, m) + Count(s.threads, Carrying(m)) && Enabled(s, step)
    ensures var t := Next(v, s, step); Times(t.called, m) == Times(t.pushed, m) + Count(t.threads, Carrying(m))
  {
    Counts(v, s, step, Carrying(m));
    CarryingMoves(v, s, step, m);
    if step.CallPush? {
      TimesSnoc(s.called, step.m, m);
    } else if step.Enqueue? {
      TimesSnoc(s.pushed, s.threads[step.i].m, m);
    }
  }

  /** A message comes with its call, goes with its push, and changes in no other step. */
  lemma CarryingMoves(v: Version, s: State, step: Step, m: Message)
    requires Enabled(s, step)
    ensures var t, i, r := Next(v, s, step), step.i, Carrying(m);
            Unit(t.threads[i], r) - Unit(s.threads[i], r) ==
              if step.CallPush? && step.m == m then 1
              else if step.Enqueue? && s.threads[i].m == m then -1
              else 0
  {
    match step
    case CallPush(_, _) =>
    case Enqueue(_) =>
    case Acquire(_) =>
    case NotifyOne(_, _) =>
    case _ =>
  }

  predicate Marking(s: State) {
    0 <= s.lock < |s.threads| && s.threads[s.lock].PushMarked?
  }

  /** The flag says whether the queue is empty; as written, whether nothing was ever pushed.
      A producer between its two assignments is the exception. Repaired, a consumer past the
      test has something to take. */
  ghost predicate FlagInv(v: Version, s: State) {
    && (if Marking(s) then !s.isEmpty else s.isEmpty <==> FlagMeans(v, s))
    && (v.Repaired? && 0 <= s.lock < |s.threads| && s.threads[s.lock].GetPassed? ==> s.queue != [])
  }

  predicate FlagMeans(v: Version, s: State) {
    if v.Repaired? then s.queue == [] else s.pushed == []
  }

  /** While someone waits, every queued message has a notification or a consumer coming. */
  ghost predicate WakeInv(s: State) {
    Count(s.threads, Waiting) > 0 ==>
      |s.queue| <= Count(s.threads, Notifying) + Count(s.threads, Consuming)
  }

  ghost predicate Inv(v: Version, s: State) {
    LockInv(s) && FifoInv(s) && CallInv(s) && FlagInv(v, s) && WakeInv(s)
  }

  lemma InitialInv(v: Version, s: State)
    requires Initial(s)
    ensures Inv(v, s)
  {
    CountNone(s.threads, Waiting);
    forall m ensures Count(s.threads, Carrying(m)) == 0 {
      CountNone(s.threads, Carrying(m));
    }
  }

  lemma LockKept(v: Version, s: State, step: Step)
    requires LockInv(s) && Enabled(s, step)
    ensures LockInv(Next(v, s, step))
  {
    var t := Next(v, s, step);
    forall i | 0 <= i < |t.threads| ensures Holds(t.threads[i]) <==> t.lock == i {
      assert Holds(s.threads[i]) <==> s.lock == i;
      assert Holds(s.threads[step.i]) <==> s.lock == step.i;
    }
  }

  lemma FifoKept(v: Version, s: State, step: Step)
    requires LockInv(s) && FifoInv(s) && Enabled(s, step)
    ensures FifoInv(Next(v, s, step))
  {
    LockKept(v, s, step);
    if step.Pop? {
      assert s.lock == step.i;
      assert s.queue == [s.queue[0]] + s.queue[1..];
      assert s.taken + s.queue == (s.taken + [s.queue[0]]) + s.queue[1..];
    } else if step.Enqueue? {
      var m := s.threads[step.i].m;
      assert (s.taken + s.queue) + [m] == s.taken + (s.queue + [m]);
    }
  }

  lemma FlagKept(v: Version, s: State, step: Step)
    requires LockInv(s) && FlagInv(v, s) && Enabled(s, step)
    ensures FlagInv(v, Next(v, s, step))
  {
    LockKept(v, s, step);
  }

  lemma WakeKept(v: Version, s: State, step: Step)
    requires LockInv(s) && FifoInv(s) && FlagInv(v, s) && WakeInv(s) && Enabled(s, step)
    ensures WakeInv(Next(v, s, step))
  {
    var t := Next(v, s, step);
    Counts(v, s, step, Waiting);
    Counts(v, s, step, Notifying);
    Counts(v, s, step, Consuming);
    if step.NotifyNone? {
      CountNone(s.threads, Waiting);
    }
    if step.TestFlag? {
      assert s.lock == step.i;
      assert s.isEmpty ==> s.queue == [];
    }
  }

  /** How one step moves a role's count. */
  lemma Counts(v: Version, s: State, step: Step, r: Role)
    requires Enabled(s, step)
    ensures var t := Next(v, s, step);
            Count(t.threads, r) ==
              Count(s.threads, r) - Unit(s.threads[step.i], r) + Unit(t.threads[step.i], r)
              + (if step.NotifyOne? then Unit(GetWoken, r) - Unit(GetWaits, r) else 0)
  {
    var t := Next(v, s, step);
    CountUpdate(s.threads, step.i, t.threads[step.i], r);
    if step.NotifyOne? {
      CountUpdate(s.threads[step.i := Idle], step.j, GetWoken, r);
    } else {
      assert t.threads == s.threads[step.i := t.threads[step.i]];
    }
  }

  lemma StepKeepsInv(v: Version, s: State, step: Step)
    requires Inv(v, s) && Enabled(s, step)
    ensures Inv(v, Next(v, s, step))
  {
    LockKept(v, s, step);
    FifoKept(v, s, step);
    CallKept(v, s, step);
    FlagKept(v, s, step);
    WakeKept(v, s, step);
  }

  lemma {:induction false} RunKeepsInv(v: Version, s: State, steps: seq<Step>, t: State)
    requires Inv(v, s) && Leads(v, s, steps, t)
    ensures Inv(v, t)
    decreases |steps|
  {
    if steps != [] {
      StepKeepsInv(v, s, steps[0]);
      RunKeepsInv(v, Next(v, s, steps[0]), steps[1..], t);
    }
  }

  lemma ReachableInv(v: Version, s: State)
    requires Reachable(v, s)
    ensures Inv(v, s)
  {
    var s0, steps :| Initial(s0) && Leads(v, s0, steps, s);
    InitialInv(v, s0);
    RunKeepsInv(v, s0, steps, s);
  }

  // ------------------------------------------------------------- main results

  /** Linearizable FIFO, as written and repaired: in every reachable state the messages the gets
      have returned, in the order of the lock, then the one being returned, then the queue, are
      the messages pushed; and each message was handed in by the callers of push as often as it
      was pushed or is on its way, so none is lost or repeated. Whenever the lock
      is free the repaired flag says exactly whether the queue is empty, and the flag as written
      whether nothing was ever pushed. */
  lemma LinearizableFifo(v: Version, s: State)
    requires Reachable(v, s)
    ensures s.pushed == s.returned + Returning(s) + s.queue
    ensures forall m :: Times(s.called, m) == Times(s.pushed, m) + Count(s.threads, Carrying(m))
    ensures s.lock == FREE ==> (s.isEmpty <==> if v.Repaired? then s.queue == [] else s.pushed == [])
  {
    ReachableInv(v, s);
  }

  /** Repaired, a consumer past the test always finds a message. */
  lemma FrontIsSafe(s: State, i: nat)
    requires Reachable(Repaired, s) && i < |s.threads| && s.threads[i].GetPassed?
    ensures s.queue != []
  {
    ReachableInv(Repaired, s);
  }

  /** No lost wakeup, as written and repaired: for any number of threads, with spurious wakeups
      and notifications sent outside the lock, while someone waits the queued messages are at
      most the notifications still to be sent plus the consumers on their way to a pop. So if
      anything is queued while the lock is free, some thread has still to notify or has been
      woken. */
  lemma NoLostWakeup(v: Version, s: State)
    requires Reachable(v, s) && Count(s.threads, Waiting) > 0
    ensures |s.queue| <= Count(s.threads, Notifying) + Count(s.threads, Consuming)
    ensures s.lock == FREE && s.queue != [] ==>
              exists i :: 0 <= i < |s.threads| && (s.threads[i].PushNotifies? || s.threads[i].GetWoken?)
  {
    ReachableInv(v, s);
    if s.lock == FREE && s.queue != [] {
      if Count(s.threads, Notifying) > 0 {
        CountSome(s.threads, Notifying);
        var i :| 0 <= i < |s.threads| && Plays(s.threads[i], Notifying);
        assert !Holds(s.threads[i]);
      } else {
        CountSome(s.threads, Consuming);
        var i :| 0 <= i < |s.threads| && Plays(s.threads[i], Consuming);
        assert !Holds(s.threads[i]);
      }
    }
  }

  /** Exactly when the written version fails: a consumer at the test goes on to a message that
      is not there if and only if something was pushed and all of it has been taken. */
  lemma WrittenFailsIff(s: State, i: nat)
    requires Reachable(AsWritten, s) && i < |s.threads| && s.threads[i].GetLocked?
    ensures var t := Next(AsWritten, s, TestFlag(i));
            t.threads[i].GetPassed? && t.queue == [] <==> s.pushed != [] && |s.taken| == |s.pushed|
  {
    ReachableInv(AsWritten, s);
  }

  /** The states of a buffer used by one thread alone. */
  function Alone(pc: Pc, isEmpty: bool, lock: int, queue: seq<Message>, pushed: seq<Message>,
                 taken: seq<Message>): State {
    var called := if pc.PushWants? || pc.PushLocked? || pc.PushMarked? then pushed + [pc.m] else pushed;
    var returned := if pc.GetPopped? && taken != [] then taken[..|taken| - 1] else taken;
    State(isEmpty, queue, lock, [pc], called, pushed, taken, returned)
  }

  lemma AloneCalls(m: Message) returns (steps: seq<Step>)
    ensures Leads(AsWritten, Alone(Idle, true, FREE, [], [], []), steps,
                  Alone(PushMarked(m), false, 0, [], [], []))
  {
    steps := [CallPush(0, m), Acquire(0), MarkFull(0)];
    Trace(AsWritten, steps,
          [Alone(Idle, true, FREE, [], [], []), Alone(PushWants(m), true, FREE, [], [], []),
           Alone(PushLocked(m), true, 0, [], [], []), Alone(PushMarked(m), false, 0, [], [], [])]);
  }

  lemma AlonePushes(m: Message) returns (steps: seq<Step>)
    ensures Leads(AsWritten, Alone(PushMarked(m), false, 0, [], [], []), steps,
                  Alone(PushNotifies, false, FREE, [m], [m], []))
  {
    steps := [Enqueue(0), UnlockPush(0)];
    Trace(AsWritten, steps,
          [Alone(PushMarked(m), false, 0, [], [], []), Alone(PushQueued, false, 0, [m], [m], []),
           Alone(PushNotifies, false, FREE, [m], [m], [])]);
  }

  lemma AloneNotifies(m: Message) returns (steps: seq<Step>)
    ensures Leads(AsWritten, Alone(PushNotifies, false, FREE, [m], [m], []), steps,
                  Alone(Idle, false, FREE, [m], [m], []))
  {
    steps := [NotifyNone(0)];
    Trace(AsWritten, steps, [Alone(PushNotifies, false, FREE, [m], [m], []), Alone(Idle, false, FREE, [m], [m], [])]);
  }

  lemma AlonePasses(queue: seq<Message>, pushed: seq<Message>, taken: seq<Message>) returns (steps: seq<Step>)
    ensures Leads(AsWritten, Alone(Idle, false, FREE, queue, pushed, taken), steps,
                  Alone(GetPassed, false, 0, queue, pushed, taken))
  {
    steps := [CallGet(0), Acquire(0), TestFlag(0)];
    Trace(AsWritten, steps,
          [Alone(Idle, false, FREE, queue, pushed, taken), Alone(GetWants, false, FREE, queue, pushed, taken),
           Alone(GetLocked, false, 0, queue, pushed, taken), Alone(GetPassed, false, 0, queue, pushed, taken)]);
  }

  lemma AloneTakes(m: Message) returns (steps: seq<Step>)
    ensures Leads(AsWritten, Alone(GetPassed, false, 0, [m], [m], []), steps,
                  Alone(Idle, false, FREE, [], [m], [m]))
  {
    steps := [Front(0), Pop(0), UnlockGet(0)];
    Trace(AsWritten, steps,
          [Alone(GetPassed, false, 0, [m], [m], []), Alone(GetFronted(m), false, 0, [m], [m], []),
           Alone(GetPopped(m), false, 0, [], [m], [m]), Alone(Idle, false, FREE, [], [m], [m])]);
  }

  /** A run that breaks it: one push, and two gets by the same thread. */
  lemma WrittenBreaks(m: Message) returns (s: State)
    ensures Reachable(AsWritten, s) && s.threads == [GetPassed] && s.queue == []
  {
    s := Alone(Idle, true, FREE, [], [], []);
    assert Initial(s) && Leads(AsWritten, s, [], s);
    var steps := AloneCalls(m);
    ReachableOn(AsWritten, s, steps, Alone(PushMarked(m), false, 0, [], [], []));
    steps := AlonePushes(m);
    ReachableOn(AsWritten, Alone(PushMarked(m), false, 0, [], [], []), steps,
                Alone(PushNotifies, false, FREE, [m], [m], []));
    steps := AloneNotifies(m);
    ReachableOn(AsWritten, Alone(PushNotifies, false, FREE, [m], [m], []), steps,
                Alone(Idle, false, FREE, [m], [m], []));
    AloneBreaks(m);
    s := Alone(GetPassed, false, 0, [], [m], [m]);
  }

  lemma AloneBreaks(m: Message)
    requires Reachable(AsWritten, Alone(Idle, false, FREE, [m], [m], []))
    ensures Reachable(AsWritten, Alone(GetPassed, false, 0, [], [m], [m]))
  {
    var steps := AlonePasses([m], [m], []);
    ReachableOn(AsWritten, Alone(Idle, false, FREE, [m], [m], []), steps, Alone(GetPassed, false, 0, [m], [m], []));
    steps := AloneTakes(m);
    ReachableOn(AsWritten, Alone(GetPassed, false, 0, [m], [m], []), steps, Alone(Idle, false, FREE, [], [m], [m]));
    steps := AlonePasses([], [m], [m]);
    ReachableOn(AsWritten, Alone(Idle, false, FREE, [], [m], [m]), steps, Alone(GetPassed, false, 0, [], [m], [m]));
  }

  lemma ReachableOn(v: Version, s: State, steps: seq<Step>, t: State)
    requires Reachable(v, s) && Leads(v, s, steps, t)
    ensures Reachable(v, t)
  {
    var s0, before :| Initial(s0) && Leads(v, s0, before, s);
    LeadsTogether(v, s0, before, s, steps, t);
  }

  lemma {:induction false} LeadsTogether(v: Version, s: State, a: seq<Step>, t: State, b: seq<Step>, u: State)
    requires Leads(v, s, a, t) && Leads(v, t, b, u)
    ensures Leads(v, s, a + b, u)
    decreases |a|
  {
    if a == [] {
      assert a + b == b;
    } else {
      assert (a + b)[0] == a[0] && (a + b)[1..] == a[1..] + b;
      LeadsTogether(v, Next(v, s, a[0]), a[1..], t, b, u);
    }
  }

  /** States that follow one another by the steps between them. */
  lemma {:induction false} Trace(v: Version, steps: seq<Step>, after: seq<State>)
    requires |after| == |steps| + 1
    requires forall i :: 0 <= i < |steps| ==> Enabled(after[i], steps[i]) && Next(v, after[i], steps[i]) == after[i + 1]
    ensures Leads(v, after[0], steps, after[|steps|])
    decreases |steps|
  {
    if steps != [] {
      Trace(v, steps[1..], after[1..]);
    }
  }

  // ------------------------------------------------------------- the object

  /** What a get comes to: a message, or the front of a queue that is empty. */
  datatype Outcome = Taken(message: Message) | NoFront

  /** The queue object, in place, as its callers hold the lock in turn. */
  class Buffer {
    const version: Version
    var isEmpty: bool
    var buffer: seq<Message>
    /** The messages pushed and taken so far, by any thread. */
    ghost var pushed: seq<Message>
    ghost var taken: seq<Message>

    constructor (version: Version)
      ensures this.version == version && isEmpty && buffer == pushed == taken == [] && Valid()
    {
      this.version := version;
      isEmpty, buffer, pushed, taken := true, [], [], [];
    }

    /** Repaired, the flag says whether the queue is empty; as written, whether it has ever
        been pushed to. */
    ghost predicate Valid()
      reads this
    {
      && pushed == taken + buffer
      && (isEmpty <==> if version.Repaired? then buffer == [] else pushed == [])
    }

    method PushBack(m: Message)
      requires Valid()
      modifies this
      ensures Valid() && buffer == old(buffer) + [m]
      ensures pushed == old(pushed) + [m] && taken == old(taken)
    {
      isEmpty := false;
      buffer := buffer + [m];
      pushed := pushed + [m];
    }

    /** Give the lock away and get it back: meanwhile other threads push and take as they
        like, or not at all. `vain` is how many more wakeups find nothing to do. */
    method Wait(vain: nat) returns (left: nat)
      requires Valid() && isEmpty
      modifies this
      ensures Valid() && old(pushed) <= pushed && old(taken) <= taken
      ensures isEmpty ==> left < vain
    {
      var more: seq<Message> := *;
      var n: nat :| n <= |buffer| + |more|;
      pushed := pushed + more;
      taken := taken + (buffer + more)[..n];
      buffer := (buffer + more)[n..];
      isEmpty := if version.Repaired? then buffer == [] else isEmpty && more == [];
      left := if vain == 0 then 0 else vain - 1;
      if isEmpty && vain == 0 {
        var m: Message := *;
        PushBack(m);
      }
    }

    /** Take the front, waiting until there is something to take, for any number of wakeups in
        vain before that. Repaired, a message taken is
        the next of those pushed, in their order; as written, a get that meets a queue from
        which everything has been taken goes on to a front that is not there. */
    method GetFront(vain: nat) returns (rs: Outcome)
      requires Valid()
      modifies this
      ensures Valid() && old(pushed) <= pushed && old(taken) <= taken
      ensures rs.Taken? ==> taken != [] && rs.message == taken[|taken| - 1] == pushed[|taken| - 1]
      ensures rs.NoFront? ==> version.AsWritten? && pushed != [] && taken == pushed
      ensures !old(isEmpty) && old(buffer) != [] ==>
                rs == Taken(old(buffer)[0]) && buffer == old(buffer)[1..] && pushed == old(pushed)
      ensures !old(isEmpty) && old(buffer) == [] ==> rs.NoFront? && buffer == [] && pushed == old(pushed)
    {
      var left := vain;
      while isEmpty
        invariant Valid() && old(pushed) <= pushed && old(taken) <= taken
        invariant !old(isEmpty) ==> !isEmpty && buffer == old(buffer) && pushed == old(pushed)
        decreases isEmpty, left
      {
        left := Wait(left);
      }
      if buffer == [] {
        return NoFront;
      }
      rs := Taken(buffer[0]);
      taken := taken + [buffer[0]];
      buffer := buffer[1..];
      if version.Repaired? {
        isEmpty := buffer == [];
      }
    }
  }
}
