/**
 Notification suppression between driver and device (sections 2.4.7 and 2.4.9
 of Virtio 1.0), one memory access per step. A store stays in the buffer of its
 writer until a flush step makes it visible; a step that follows a memory
 barrier in the source waits until the buffer of its side is empty.
 */
module NotifyProtocol {
  import opened Options
  import opened Words
  import opened QueueSpec

  /**
   driverEvent: the driver honours event indices (vq->event).
   deviceEvent: the device does (VIRTIO_RING_F_EVENT_IDX negotiated).
   always: the driver calls virtqueue_kick_always after every add, as the GPU
   queues do; otherwise it calls virtqueue_kick when it likes.
   */
  datatype Config = Config(num: nat, driverEvent: bool, deviceEvent: bool, always: bool)

  datatype DriverPc =
    | Idle
    | Kicking(always: bool)              // before the barrier of a kick
    | GotOne                             // get_buf stored the event index
    | Arming(bufs: nat, target: nat)     // enable_cb stored event index and flag

  datatype SleepPc = Running | GoingToSleep | Asleep

  datatype State = State(
    // the driver and its latest stores
    added: nat, kicked: nat, got: nat, pc: DriverPc, flagStored: bool, eventStored: u16,
    // memory that the driver writes, as the device sees it
    availVisible: nat, flagVisible: bool, eventVisible: u16,
    // the device and its latest stores
    taken: nat, completed: nat, decided: nat, sleep: SleepPc, availEventStored: u16, noNotifyStored: bool,
    // memory that the device writes, as the driver sees it
    usedVisible: nat, availEventVisible: u16, noNotifyVisible: bool,
    // observers: the entry that the driver waits for, whether it was interrupted
    // since, and whether a kick reached the sleeping device
    armed: Option<nat>, interrupted: bool, notified: bool)

  datatype Action =
    | Add | KickStart | KickRead
    | Get | GetDone
    | Enable(delayed: bool) | EnableRead | Disable
    | FlushAvail(n: nat) | FlushEvent | FlushFlag
    | Take | Complete(n: nat) | Decide
    | SleepStart | SleepRead | Wake | Suppress
    | FlushUsed | FlushAvailEvent | FlushNoNotify

  function Start(): State {
    State(0, 0, 0, Idle, false, 0,
          0, false, 0,
          0, 0, 0, Running, 0, false,
          0, 0, false,
          None, false, false)
  }

  /** The barrier of the driver has passed: all its stores are visible. */
  predicate DriverFlushed(s: State) {
    s.availVisible == s.added && s.eventVisible == s.eventStored && s.flagVisible == s.flagStored
  }

  predicate DeviceFlushed(s: State) {
    s.usedVisible == s.completed && s.availEventVisible == s.availEventStored && s.noNotifyVisible == s.noNotifyStored
  }

  /** Three quarters of the buffers that are out (virtqueue_enable_cb_delayed), or none (virtqueue_enable_cb). */
  function WaitFor(s: State, delayed: bool): nat {
    if delayed then DelayedBufs(Wrap16(s.added), Wrap16(s.got)) else 0
  }

  /** The decision of virtqueue_kick_prepare. */
  predicate KickNeeded(c: Config, s: State) {
    if c.driverEvent then NeedEvent(s.availEventVisible, Wrap16(s.added), Wrap16(s.kicked)) else !s.noNotifyVisible
  }

  /** The decision of the device after it has published used->idx. */
  predicate InterruptNeeded(c: Config, s: State) {
    if c.deviceEvent then NeedEvent(s.eventVisible, Wrap16(s.completed), Wrap16(s.decided)) else !s.flagVisible
  }

  predicate Enabled(c: Config, s: State, a: Action) {
    match a
    case Add => s.pc == Idle && s.added - s.got < c.num
    case KickStart => s.pc == Idle
    case KickRead => s.pc.Kicking? && DriverFlushed(s)
    case Get => s.pc == Idle
    case GetDone => s.pc == GotOne && DriverFlushed(s)
    case Enable(_) => s.pc == Idle
    case EnableRead => s.pc.Arming? && DriverFlushed(s)
    case Disable => s.pc == Idle
    case FlushAvail(n) => s.availVisible <= n <= s.added
    case FlushEvent => true
    case FlushFlag => true
    case Take => s.sleep == Running && Wrap16(s.taken) != Wrap16(s.availVisible)
    case Complete(n) => s.completed == s.decided && s.completed < n <= s.taken
    case Decide => s.completed != s.decided && DeviceFlushed(s)
    case SleepStart => s.sleep == Running && Wrap16(s.taken) == Wrap16(s.availVisible)
    case SleepRead => s.sleep == GoingToSleep && DeviceFlushed(s)
    case Wake => s.sleep == Asleep && s.notified
    case Suppress => s.sleep == Running && !c.deviceEvent
    case FlushUsed => true
    case FlushAvailEvent => true
    case FlushNoNotify => true
  }

  function Apply(c: Config, s: State, a: Action): State
    requires Enabled(c, s, a)
  {
    match a
    case Add =>
      s.(added := s.added + 1,
         pc := if c.always then Kicking(true)
               else if s.added + 1 - s.kicked == U16_SIZE - 1 then Kicking(false)
               else Idle)
    case KickStart => s.(pc := Kicking(c.always))
    case KickRead =>
      s.(pc := Idle, kicked := s.added, notified := s.notified || s.pc.always || KickNeeded(c, s))
    case Get =>
      if Wrap16(s.got) == Wrap16(s.usedVisible) then
        // nothing there: with callbacks on and the event index in step, the driver waits
        if !s.flagStored && s.eventStored == Wrap16(s.got) then s.(armed := Some(s.got), interrupted := false) else s
      else
        var s' := s.(got := s.got + 1, armed := None);
        if s.flagStored then s' else s'.(eventStored := Wrap16(s.got + 1), pc := GotOne)
    case GetDone => s.(pc := Idle)
    case Enable(delayed) =>
      var bufs := WaitFor(s, delayed);
      s.(flagStored := false, eventStored := Wrap16(s.got + bufs), pc := Arming(bufs, s.got + bufs), armed := None)
    case EnableRead =>
      // true is returned when at most bufs buffers are waiting
      if Wrap16(Wrap16(s.usedVisible) - Wrap16(s.got)) <= s.pc.bufs then
        s.(pc := Idle, armed := Some(s.pc.target), interrupted := false)
      else s.(pc := Idle)
    case Disable => s.(flagStored := true, armed := None)
    case FlushAvail(n) => s.(availVisible := n)
    case FlushEvent => s.(eventVisible := s.eventStored)
    case FlushFlag => s.(flagVisible := s.flagStored)
    case Take => s.(taken := s.taken + 1)
    case Complete(n) => s.(completed := n)
    case Decide => s.(decided := s.completed, interrupted := s.interrupted || InterruptNeeded(c, s))
    case SleepStart =>
      if c.deviceEvent then s.(availEventStored := Wrap16(s.taken), sleep := GoingToSleep)
      else s.(noNotifyStored := false, sleep := GoingToSleep)
    case SleepRead =>
      if Wrap16(s.taken) == Wrap16(s.availVisible) then s.(sleep := Asleep, notified := false) else s.(sleep := Running)
    case Wake => s.(sleep := Running)
    case Suppress => s.(noNotifyStored := true)
    case FlushUsed => s.(usedVisible := s.completed)
    case FlushAvailEvent => s.(availEventVisible := s.availEventStored)
    case FlushNoNotify => s.(noNotifyVisible := s.noNotifyStored)
  }

  // ------------------------------------------------------------- properties

  /**
   No lost interrupt: while the driver waits for entry `armed`, a completion
   past it has raised an interrupt, or the device is still between its write of
   used->idx and its decision.
   */
  predicate NoLostInterrupt(s: State) {
    s.armed.Some? && s.completed > s.armed.value ==> s.interrupted || s.completed != s.decided
  }

  /** No missed kick: a kick that exposed entries to a sleeping device has reached it. */
  predicate NoMissedKick(s: State) {
    s.sleep == Asleep && s.kicked > s.taken ==> s.notified
  }

  // -------------------------------------------------------------- invariant

  predicate Counters(c: Config, s: State) {
    && s.got <= s.usedVisible <= s.completed <= s.taken <= s.availVisible <= s.added <= s.got + c.num
    && s.decided <= s.usedVisible && (s.decided != s.completed ==> s.decided < s.completed)
    && s.completed <= s.decided + c.num
    && s.kicked <= s.availVisible
    && s.added - s.kicked <= (if s.pc.Kicking? then U16_SIZE - 1 else U16_SIZE - 2)
  }

  predicate ArmingStores(s: State)
    requires s.pc.Arming?
  {
    && !s.flagStored && s.eventStored == Wrap16(s.pc.target)
    && s.pc.target == s.got + s.pc.bufs && s.armed == None
  }

  /** Between operations the stores that turn callbacks on are visible. */
  predicate CallbackStores(s: State) {
    && (s.pc.Arming? ==> ArmingStores(s))
    && (!s.pc.Arming? && !s.pc.GotOne? ==> s.eventVisible == s.eventStored)
    && (!s.pc.Arming? && !s.flagStored ==> !s.flagVisible)
    && (s.pc.GotOne? ==> s.armed == None)
  }

  predicate ArmedStores(s: State) {
    s.armed.Some? ==>
      && s.eventVisible == s.eventStored == Wrap16(s.armed.value)
      && !s.flagStored && !s.flagVisible
      && s.got <= s.armed.value
      && (s.interrupted || s.decided <= s.armed.value)
  }

  predicate SleepStores(c: Config, s: State) {
    && (s.sleep != Running ==>
          if c.deviceEvent then s.availEventStored == Wrap16(s.taken) else !s.noNotifyStored)
    && (s.sleep == Asleep ==> s.availEventVisible == s.availEventStored && s.noNotifyVisible == s.noNotifyStored)
    && (c.deviceEvent ==> !s.noNotifyStored && !s.noNotifyVisible)
    && (s.sleep == Asleep ==> s.notified || s.kicked <= s.taken)
  }

  /** Kicks work unless the driver relies on an event index that the device never writes. */
  predicate KicksAgree(c: Config) {
    c.always || !c.driverEvent || c.deviceEvent
  }

  predicate KickDiscipline(c: Config, s: State) {
    c.always && s.pc.Kicking? ==> s.pc.always
  }

  predicate InterruptInv(c: Config, s: State) {
    1 <= c.num <= 0x8000 && Counters(c, s) && CallbackStores(s) && ArmedStores(s)
  }

  predicate KickInv(c: Config, s: State) {
    KicksAgree(c) && KickDiscipline(c, s) && SleepStores(c, s)
  }

  // ------------------------------------------------------ one step

  /** The decision of the device is right for the entry that the driver waits for. */
  lemma DecideKeepsArmed(c: Config, s: State)
    requires InterruptInv(c, s) && Enabled(c, s, Decide)
    ensures ArmedStores(Apply(c, s, Decide))
  {
    hide CallbackStores;
    if s.armed.Some? && !s.interrupted && s.completed > s.armed.value {
      NeedEventExact(s.eventVisible, s.decided, s.completed);
      assert InWindow(s.eventVisible, s.decided, s.completed) by {
        assert Wrap16(s.armed.value) == s.eventVisible;
      }
    }
  }

  /**
   The device interrupts exactly when it has to: with event indices, when the
   one it sees is among the completions since its last decision; otherwise,
   when the flag it sees does not forbid it.
   */
  lemma InterruptsExactly(c: Config, s: State)
    requires InterruptInv(c, s) && Enabled(c, s, Decide)
    ensures Apply(c, s, Decide).interrupted <==>
      s.interrupted || if c.deviceEvent then InWindow(s.eventVisible, s.decided, s.completed) else !s.flagVisible
    ensures Apply(c, s, Decide) == s.(decided := s.completed, interrupted := Apply(c, s, Decide).interrupted)
  {
    NeedEventExact(s.eventVisible, s.decided, s.completed);
  }

  /** A kick that passes the place where the device went to sleep is needed. */
  lemma KickReachesSleeper(c: Config, s: State)
    requires InterruptInv(c, s) && KickInv(c, s) && Enabled(c, s, KickRead)
    requires s.sleep == Asleep && !s.notified && s.taken < s.added
    ensures s.pc.always || KickNeeded(c, s)
  {
    if c.driverEvent && !s.pc.always {
      NeedEventExact(s.availEventVisible, s.kicked, s.added);
      assert InWindow(s.availEventVisible, s.kicked, s.added) by {
        assert Wrap16(s.taken) == s.availEventVisible;
      }
    }
  }

  predicate Kept(c: Config, s: State, s': State) {
    InterruptInv(c, s') && (KickInv(c, s) ==> KickInv(c, s'))
  }

  lemma KickKeeps(c: Config, s: State, a: Action)
    requires InterruptInv(c, s) && Enabled(c, s, a) && (a.Add? || a.KickStart? || a.KickRead?)
    ensures Kept(c, s, Apply(c, s, a))
  {
    hide InterruptInv, KickInv, Kept, Apply;
    if a.KickRead? {
      KickReadKeeps(c, s);
    } else {
      KickStartKeeps(c, s, a);
    }
  }

  lemma KickReadKeeps(c: Config, s: State)
    requires InterruptInv(c, s) && Enabled(c, s, KickRead)
    ensures Kept(c, s, Apply(c, s, KickRead))
  {
    hide KickNeeded, InterruptNeeded, WaitFor, Wrap16;
    if KickInv(c, s) && s.sleep == Asleep && !s.notified && s.taken < s.added {
      KickReachesSleeper(c, s);
    }
  }

  lemma KickStartKeeps(c: Config, s: State, a: Action)
    requires InterruptInv(c, s) && Enabled(c, s, a) && (a.Add? || a.KickStart?)
    ensures Kept(c, s, Apply(c, s, a))
  {
    hide KickNeeded, InterruptNeeded, WaitFor, Wrap16;
  }

  lemma GetKeeps(c: Config, s: State, a: Action)
    requires InterruptInv(c, s) && Enabled(c, s, a) && (a.Get? || a.GetDone?)
    ensures Kept(c, s, Apply(c, s, a))
  {
    hide KickNeeded, InterruptNeeded, WaitFor, Wrap16;
    SameIndex(s.got, s.usedVisible);
  }

  lemma EnableKeeps(c: Config, s: State, a: Action)
    requires InterruptInv(c, s) && Enabled(c, s, a) && (a.Enable? || a.EnableRead? || a.Disable?)
    ensures Kept(c, s, Apply(c, s, a))
  {
    hide KickNeeded, InterruptNeeded, WaitFor, Wrap16;
    SameIndex(s.got, s.usedVisible);
  }

  lemma FlushKeeps(c: Config, s: State, a: Action)
    requires InterruptInv(c, s) && Enabled(c, s, a)
    requires a.FlushAvail? || a.FlushEvent? || a.FlushFlag? || a.FlushUsed? || a.FlushAvailEvent? || a.FlushNoNotify?
    ensures Kept(c, s, Apply(c, s, a))
  {
    hide KickNeeded, InterruptNeeded, WaitFor, Wrap16;
  }

  lemma DeviceKeeps(c: Config, s: State, a: Action)
    requires InterruptInv(c, s) && Enabled(c, s, a) && (a.Take? || a.Complete? || a.Decide?)
    ensures Kept(c, s, Apply(c, s, a))
  {
    hide KickNeeded, InterruptNeeded, WaitFor, Wrap16;
    SameIndex(s.taken, s.availVisible);
    if a.Decide? {
      DecideKeepsArmed(c, s);
    }
  }

  lemma SleepKeeps(c: Config, s: State, a: Action)
    requires InterruptInv(c, s) && Enabled(c, s, a) && (a.SleepStart? || a.SleepRead? || a.Wake? || a.Suppress?)
    ensures Kept(c, s, Apply(c, s, a))
  {
    hide KickNeeded, InterruptNeeded, WaitFor, Wrap16;
    SameIndex(s.taken, s.availVisible);
  }

  lemma StepKeeps(c: Config, s: State, a: Action)
    requires InterruptInv(c, s) && Enabled(c, s, a)
    ensures Kept(c, s, Apply(c, s, a))
  {
    hide Kept, InterruptInv, Enabled, Apply;
    if a.Add? || a.KickStart? || a.KickRead? {
      KickKeeps(c, s, a);
    } else if a.Get? || a.GetDone? {
      GetKeeps(c, s, a);
    } else if a.Enable? || a.EnableRead? || a.Disable? {
      EnableKeeps(c, s, a);
    } else if a.Take? || a.Complete? || a.Decide? {
      DeviceKeeps(c, s, a);
    } else if a.SleepStart? || a.SleepRead? || a.Wake? || a.Suppress? {
      SleepKeeps(c, s, a);
    } else {
      FlushKeeps(c, s, a);
    }
  }

  lemma ArmedMeansNotLost(c: Config, s: State)
    requires InterruptInv(c, s)
    ensures NoLostInterrupt(s)
  {
  }

  // ------------------------------------------------------ whole runs

  predicate EnabledRun(c: Config, s: State, actions: seq<Action>)
    decreases |actions|
  {
    actions == [] || (Enabled(c, s, actions[0]) && EnabledRun(c, Apply(c, s, actions[0]), actions[1..]))
  }

  function RunOf(c: Config, s: State, actions: seq<Action>): State
    requires EnabledRun(c, s, actions)
    decreases |actions|
  {
    if actions == [] then s else RunOf(c, Apply(c, s, actions[0]), actions[1..])
  }

  lemma {:induction false} RunKeeps(c: Config, s: State, actions: seq<Action>)
    requires InterruptInv(c, s) && EnabledRun(c, s, actions)
    ensures InterruptInv(c, RunOf(c, s, actions))
    ensures KickInv(c, s) ==> KickInv(c, RunOf(c, s, actions))
    decreases |actions|
  {
    hide InterruptInv, KickInv, Apply, Enabled;
    if actions != [] {
      StepKeeps(c, s, actions[0]);
      RunKeeps(c, Apply(c, s, actions[0]), actions[1..]);
    }
  }

  /**
   In every interleaving, in both suppression modes: once a drain ended on an
   empty ring with callbacks on, or enable_cb or enable_cb_delayed returned
   true, a completion past the entry waited for has raised an interrupt or the
   device has yet to decide.
   */
  lemma NoInterruptIsLost(c: Config, actions: seq<Action>)
    requires 1 <= c.num <= 0x8000 && EnabledRun(c, Start(), actions)
    ensures NoLostInterrupt(RunOf(c, Start(), actions))
  {
    RunKeeps(c, Start(), actions);
    ArmedMeansNotLost(c, RunOf(c, Start(), actions));
  }

  /**
   With callbacks on, the published event index is the place of the driver, or
   the driver waits for the entry that enable_cb_delayed chose, or there is
   something to get.
   */
  predicate EventInStep(s: State) {
    !s.flagStored && !s.pc.Arming? ==> s.eventStored == Wrap16(s.got) || s.armed.Some? || s.got < s.usedVisible
  }

  lemma EventStaysInStep(c: Config, s: State, a: Action)
    requires InterruptInv(c, s) && Enabled(c, s, a) && EventInStep(s)
    ensures EventInStep(Apply(c, s, a))
  {
    hide Apply, Enabled, InterruptInv;
    if a.Get? || a.Enable? || a.EnableRead? || a.Disable? {
      DriverStaysInStep(c, s, a);
    } else {
      DriverUntouched(c, s, a);
    }
  }

  lemma DriverStaysInStep(c: Config, s: State, a: Action)
    requires InterruptInv(c, s) && Enabled(c, s, a) && EventInStep(s)
    requires (a.Get? || a.Enable? || a.EnableRead? || a.Disable?)
    ensures EventInStep(Apply(c, s, a))
  {
    hide KickNeeded, InterruptNeeded, WaitFor, Wrap16, ArmedStores, CallbackStores;
    match a {
      case EnableRead => SameIndex(s.got, s.usedVisible);
      case _ =>
    }
  }

  /** All other steps leave what the driver waits for, and only add to what it can see. */
  lemma DriverUntouched(c: Config, s: State, a: Action)
    requires InterruptInv(c, s) && Enabled(c, s, a) && EventInStep(s) && !a.Get? && !a.Enable? && !a.EnableRead?
    requires !a.Disable?
    ensures EventInStep(Apply(c, s, a))
  {
    hide KickNeeded, InterruptNeeded, WaitFor, Wrap16, ArmedStores, CallbackStores;
    match a {
      case Add =>
      case KickStart =>
      case KickRead =>
      case GetDone =>
      case FlushUsed =>
      case Decide =>
      case SleepStart =>
      case SleepRead =>
      case _ =>
    }
  }

  lemma {:induction false} RunStaysInStep(c: Config, s: State, actions: seq<Action>)
    requires InterruptInv(c, s) && EventInStep(s) && EnabledRun(c, s, actions)
    ensures EventInStep(RunOf(c, s, actions))
    decreases |actions|
  {
    hide InterruptInv, EventInStep, Apply, Enabled;
    if actions != [] {
      StepKeeps(c, s, actions[0]);
      EventStaysInStep(c, s, actions[0]);
      RunStaysInStep(c, Apply(c, s, actions[0]), actions[1..]);
    }
  }

  /**
   Every drain that ends on an empty ring with callbacks on leaves the driver
   waiting: for the next completion, or, right after enable_cb_delayed, for the
   entry armed there.
   */
  lemma EmptyDrainWaits(c: Config, actions: seq<Action>)
    requires 1 <= c.num <= 0x8000 && EnabledRun(c, Start(), actions) && Enabled(c, RunOf(c, Start(), actions), Get)
    ensures var s := RunOf(c, Start(), actions);
      Wrap16(s.got) == Wrap16(s.usedVisible) && !s.flagStored ==> WaitsAfter(s, Apply(c, s, Get))
  {
    hide InterruptInv, Apply, EventInStep, EnabledRun, RunOf, Enabled, Wrap16;
    StartInStep(c);
    RunKeeps(c, Start(), actions);
    RunStaysInStep(c, Start(), actions);
    var s := RunOf(c, Start(), actions);
    if Wrap16(s.got) == Wrap16(s.usedVisible) && !s.flagStored {
      EmptyGetWaits(c, s);
    }
  }

  /** The driver waits, for the next completion or for what it waited for already. */
  predicate WaitsAfter(s: State, s': State) {
    s'.armed.Some? && s'.armed.value >= s.got && (s'.armed == Some(s.got) || s'.armed == s.armed)
  }

  lemma StartInStep(c: Config)
    requires 1 <= c.num <= 0x8000
    ensures InterruptInv(c, Start()) && EventInStep(Start())
  {
  }

  lemma EmptyGetWaits(c: Config, s: State)
    requires InterruptInv(c, s) && EventInStep(s) && Enabled(c, s, Get)
    requires Wrap16(s.got) == Wrap16(s.usedVisible) && !s.flagStored
    ensures WaitsAfter(s, Apply(c, s, Get))
  {
    hide KickNeeded, InterruptNeeded, WaitFor, Wrap16;
    SameIndex(s.got, s.usedVisible);
  }

  /**
   No kick is missed in any interleaving exactly when the two sides agree: the
   driver always notifies, or does not use event indices, or the device does.
   */
  lemma KicksAreSafeIffAgreed(c: Config)
    requires 1 <= c.num <= 0x8000
    ensures KicksAgree(c) <==>
      forall actions :: EnabledRun(c, Start(), actions) ==> NoMissedKick(RunOf(c, Start(), actions))
  {
    if KicksAgree(c) {
      forall actions | EnabledRun(c, Start(), actions) ensures NoMissedKick(RunOf(c, Start(), actions)) {
        RunKeeps(c, Start(), actions);
      }
    } else {
      var actions := MissedKick(c);
    }
  }

  /**
   vq->event is set at queue creation whatever was negotiated. With a device
   that suppresses by flag, the event index stays 0, so the second kick is lost.
   */
  lemma MissedKick(c: Config) returns (actions: seq<Action>)
    requires 1 <= c.num && !KicksAgree(c)
    ensures EnabledRun(c, Start(), actions) && !NoMissedKick(RunOf(c, Start(), actions))
  {
    hide EnabledRun, RunOf;
    var s;
    actions, s := FirstKickWorks(c);
    actions, s := SleepsAfterFirst(c, actions, s);
    actions, s := Then(c, actions, s, Add);
    actions, s := Then(c, actions, s, KickStart);
    actions, s := Then(c, actions, s, FlushAvail(2));
    actions, s := Then(c, actions, s, KickRead);
  }

  lemma FirstKickWorks(c: Config) returns (actions: seq<Action>, s: State)
    requires 1 <= c.num && !KicksAgree(c)
    ensures EnabledRun(c, Start(), actions) && RunOf(c, Start(), actions) == s
    ensures s == Start().(added := 1, kicked := 1, availVisible := 1, taken := 1, completed := 1, decided := 1,
                          usedVisible := 1, interrupted := true, notified := true)
  {
    hide EnabledRun, RunOf;
    actions, s := FirstKick(c);
    actions, s := Then(c, actions, s, Take);
    actions, s := Then(c, actions, s, Complete(1));
    actions, s := Then(c, actions, s, FlushUsed);
    actions, s := Then(c, actions, s, Decide);
  }

  lemma FirstKick(c: Config) returns (actions: seq<Action>, s: State)
    requires 1 <= c.num && !KicksAgree(c)
    ensures EnabledRun(c, Start(), actions) && RunOf(c, Start(), actions) == s
    ensures s == Start().(added := 1, kicked := 1, availVisible := 1, notified := true)
  {
    hide EnabledRun, RunOf;
    s := Start();
    actions := EmptyRun(c);
    actions, s := Then(c, actions, s, Add);
    actions, s := Then(c, actions, s, KickStart);
    actions, s := Then(c, actions, s, FlushAvail(1));
    actions, s := Then(c, actions, s, KickRead);
  }

  lemma SleepsAfterFirst(c: Config, before: seq<Action>, s0: State) returns (actions: seq<Action>, s: State)
    requires 1 <= c.num && !KicksAgree(c) && EnabledRun(c, Start(), before) && RunOf(c, Start(), before) == s0
    requires s0 == Start().(added := 1, kicked := 1, availVisible := 1, taken := 1, completed := 1, decided := 1,
                            usedVisible := 1, interrupted := true, notified := true)
    ensures EnabledRun(c, Start(), actions) && RunOf(c, Start(), actions) == s
    ensures s == s0.(got := 1, eventStored := 1, eventVisible := 1, sleep := Asleep, notified := false)
  {
    hide EnabledRun, RunOf;
    actions, s := Then(c, before, s0, Get);
    actions, s := Then(c, actions, s, FlushEvent);
    actions, s := Then(c, actions, s, GetDone);
    actions, s := Then(c, actions, s, SleepStart);
    actions, s := Then(c, actions, s, SleepRead);
  }

  lemma EmptyRun(c: Config) returns (actions: seq<Action>)
    ensures EnabledRun(c, Start(), actions) && RunOf(c, Start(), actions) == Start()
  {
    actions := [];
  }

  /** One more step of a run from the start. */
  lemma Then(c: Config, actions: seq<Action>, s: State, a: Action) returns (actions': seq<Action>, s': State)
    requires EnabledRun(c, Start(), actions) && s == RunOf(c, Start(), actions) && Enabled(c, s, a)
    ensures EnabledRun(c, Start(), actions') && s' == RunOf(c, Start(), actions') && s' == Apply(c, s, a)
  {
    actions' := actions + [a];
    s' := Apply(c, s, a);
    RunAppend(c, Start(), actions, [a]);
  }

  lemma {:induction false} RunAppend(c: Config, s: State, before: seq<Action>, after: seq<Action>)
    requires EnabledRun(c, s, before) && EnabledRun(c, RunOf(c, s, before), after)
    ensures EnabledRun(c, s, before + after) && RunOf(c, s, before + after) == RunOf(c, RunOf(c, s, before), after)
    decreases |before|
  {
    hide Enabled, Apply;
    if before == [] {
      assert before + after == after;
    } else {
      assert (before + after)[1..] == before[1..] + after;
      RunAppend(c, Apply(c, s, before[0]), before[1..], after);
    }
  }

  // ------------------------------------------------------ delayed callbacks

  /** The entry armed by enable_cb_delayed is one of those that are out. */
  lemma DelayedTargetIsOut(c: Config, s: State)
    requires InterruptInv(c, s) && s.added > s.got
    ensures s.got <= s.got + WaitFor(s, true) < s.added
  {
    SameIndex(s.got, s.added);
    var out := s.added - s.got;
    assert Wrap16(out * 3 / 4) == out * 3 / 4;
  }

  /** Steps that do not touch the driver's wait. */
  predicate LeavesWaiting(a: Action) {
    !a.Get? && !a.Enable? && !a.EnableRead? && !a.Disable?
  }

  lemma WaitingStep(c: Config, s: State, a: Action)
    requires Enabled(c, s, a) && LeavesWaiting(a)
    ensures Apply(c, s, a).armed == s.armed
  {
    hide KickNeeded, InterruptNeeded, WaitFor, Wrap16, Enabled;
    match a {
      case Add =>
      case KickStart =>
      case KickRead =>
      case Decide =>
      case SleepStart =>
      case SleepRead =>
      case _ =>
    }
  }

  lemma ArmingStep(c: Config, s: State, a: Action)
    requires Enabled(c, s, a) && LeavesWaiting(a) && s.pc.Arming?
    ensures Apply(c, s, a).pc == s.pc && Apply(c, s, a).added == s.added
  {
    hide Apply;
    assert !a.Add? && !a.KickStart? && !a.KickRead? && !a.GetDone?;
    OtherSteps(c, s, a);
  }

  lemma OtherSteps(c: Config, s: State, a: Action)
    requires Enabled(c, s, a) && LeavesWaiting(a) && !a.Add? && !a.KickStart? && !a.KickRead? && !a.GetDone?
    ensures Apply(c, s, a).pc == s.pc && Apply(c, s, a).added == s.added
  {
    hide Enabled, KickNeeded, InterruptNeeded, WaitFor, Wrap16;
    match a {
      case Decide =>
      case SleepStart =>
      case SleepRead =>
      case Suppress =>
      case Wake =>
      case Complete(n) =>
      case Take =>
      case _ =>
    }
  }

  lemma {:induction false} WaitingGoesOn(c: Config, s: State, actions: seq<Action>)
    requires EnabledRun(c, s, actions) && forall i :: 0 <= i < |actions| ==> LeavesWaiting(actions[i])
    ensures var s' := RunOf(c, s, actions);
      s'.armed == s.armed && (s.pc.Arming? ==> s'.pc == s.pc && s'.added == s.added)
    decreases |actions|
  {
    hide Apply, Enabled;
    if actions != [] {
      WaitingStep(c, s, actions[0]);
      if s.pc.Arming? {
        ArmingStep(c, s, actions[0]);
      }
      WaitingGoesOn(c, Apply(c, s, actions[0]), actions[1..]);
    }
  }

  lemma EnableArms(c: Config, s: State)
    requires Enabled(c, s, Enable(true))
    ensures Apply(c, s, Enable(true)).pc == Arming(WaitFor(s, true), s.got + WaitFor(s, true))
    ensures Apply(c, s, Enable(true)).added == s.added && Apply(c, s, Enable(true)).armed == None
  {
    hide WaitFor, Wrap16;
  }

  lemma AnswerArms(c: Config, s: State)
    requires Enabled(c, s, EnableRead)
    ensures Apply(c, s, EnableRead).armed == Some(s.pc.target) || Apply(c, s, EnableRead).armed == s.armed
  {
    hide Wrap16;
  }

  /**
   Delayed callbacks are live. Let enable_cb_delayed start with buffers out and
   return true after any steps of the device (before). Then in any continuation
   in which the driver just waits (after), a device that has completed all
   those buffers, in any batches, has raised an interrupt or has yet to decide
   on its last batch.
   */
  lemma DelayedCallbackComes(c: Config, s: State, before: seq<Action>, s1: State, after: seq<Action>)
    requires InterruptInv(c, s) && Enabled(c, s, Enable(true)) && s.added > s.got
    requires EnabledRun(c, Apply(c, s, Enable(true)), before) && s1 == RunOf(c, Apply(c, s, Enable(true)), before)
    requires Enabled(c, s1, EnableRead) && Apply(c, s1, EnableRead).armed.Some?
    requires EnabledRun(c, Apply(c, s1, EnableRead), after)
    requires forall i :: 0 <= i < |before| ==> LeavesWaiting(before[i])
    requires forall i :: 0 <= i < |after| ==> LeavesWaiting(after[i])
    ensures var s' := RunOf(c, Apply(c, s1, EnableRead), after);
      s'.completed >= s.added && s'.completed == s'.decided ==> s'.interrupted
  {
    hide InterruptInv, WaitFor, KickNeeded, InterruptNeeded, Wrap16, EnabledRun, RunOf, Enabled, Apply;
    var s0 := Apply(c, s, Enable(true));
    DelayedTargetIsOut(c, s);
    EnableArms(c, s);
    AnswerArms(c, s1);
    StepKeeps(c, s, Enable(true));
    RunKeeps(c, s0, before);
    WaitingGoesOn(c, s0, before);
    StepKeeps(c, s1, EnableRead);
    var s2 := Apply(c, s1, EnableRead);
    RunKeeps(c, s2, after);
    WaitingGoesOn(c, s2, after);
    ArmedMeansNotLost(c, RunOf(c, s2, after));
  }
}
