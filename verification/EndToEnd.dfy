/**
 Ring and notifications in one system: the heads of RingProtocol and the
 stores, barriers, kicks and interrupts of NotifyProtocol, step by step
 together. Such a system comes to rest only when every buffer is back.
 */
module EndToEnd {
  import opened Gather
  import opened Options
  import opened QueueRuns
  import opened QueueSpec
  import opened Words
  import B = BufferRuns
  import N = NotifyProtocol
  import R = RingProtocol

  datatype System = System(r: R.System, n: N.State)

  datatype Action =
    | Add(sg: seq<Sg>, out: nat, token: Token, phys: Option<nat>)
    | Get
    | ShowAvail(entries: nat)        // stores of avail->idx become visible
    | Fetch
    | Fill(head: nat, len: u32)      // the device writes a used element
    | Complete(elements: nat)        // the device stores used->idx
    | ShowUsed                       // that store becomes visible
    | Notify(a: N.Action)            // everything else: kicks, callbacks, decisions, sleeping, other stores

  function Start(num: nat): System {
    System(R.Start(num), N.Start())
  }

  /** The two halves have the same counters. */
  ghost predicate Linked(c: N.Config, s: System) {
    && c.num == s.r.q.num
    && s.n.added == |s.r.q.log| && s.n.got == |s.r.q.returned|
    && s.n.availVisible == s.r.published && s.n.taken == s.r.fetched
    && s.n.completed <= |s.r.done| && s.n.usedVisible == s.r.usedPublished
  }

  /** Steps that concern notifications alone. */
  predicate OnlyNotifies(a: N.Action) {
    !a.Add? && !a.Get? && !a.FlushAvail? && !a.Take? && !a.Complete? && !a.FlushUsed?
  }

  ghost predicate Enabled(c: N.Config, s: System, a: Action) {
    && R.Shape(s.r)
    && match a
       case Add(sg, out, token, phys) => R.Enabled(s.r, R.DriverAdd(sg, out, token, phys)) && N.Enabled(c, s.n, N.Add)
       case Get => N.Enabled(c, s.n, N.Get)
       case ShowAvail(entries) => R.Enabled(s.r, R.DriverPublish(entries)) && N.Enabled(c, s.n, N.FlushAvail(entries))
       case Fetch => R.Enabled(s.r, R.DeviceFetch) && N.Enabled(c, s.n, N.Take)
       case Fill(head, len) => R.Enabled(s.r, R.DeviceComplete(head, len))
       case Complete(elements) => elements <= |s.r.done| && N.Enabled(c, s.n, N.Complete(elements))
       case ShowUsed => R.Enabled(s.r, R.DevicePublish(s.n.completed))
       case Notify(b) => OnlyNotifies(b) && N.Enabled(c, s.n, b)
  }

  ghost function Apply(c: N.Config, s: System, a: Action): System
    requires Enabled(c, s, a)
  {
    match a
    case Add(sg, out, token, phys) => System(R.Apply(s.r, R.DriverAdd(sg, out, token, phys)), N.Apply(c, s.n, N.Add))
    case Get => System(R.Apply(s.r, R.DriverGet), N.Apply(c, s.n, N.Get))
    case ShowAvail(entries) => System(R.Apply(s.r, R.DriverPublish(entries)), N.Apply(c, s.n, N.FlushAvail(entries)))
    case Fetch => System(R.Apply(s.r, R.DeviceFetch), N.Apply(c, s.n, N.Take))
    case Fill(head, len) => s.(r := R.Apply(s.r, R.DeviceComplete(head, len)))
    case Complete(elements) => s.(n := N.Apply(c, s.n, N.Complete(elements)))
    case ShowUsed => System(R.Apply(s.r, R.DevicePublish(s.n.completed)), N.Apply(c, s.n, N.FlushUsed))
    case Notify(b) => s.(n := N.Apply(c, s.n, b))
  }

  ghost predicate EnabledRun(c: N.Config, s: System, actions: seq<Action>)
    decreases |actions|
  {
    actions == [] || (Enabled(c, s, actions[0]) && EnabledRun(c, Apply(c, s, actions[0]), actions[1..]))
  }

  ghost function RunOf(c: N.Config, s: System, actions: seq<Action>): System
    requires EnabledRun(c, s, actions)
    decreases |actions|
  {
    if actions == [] then s else RunOf(c, Apply(c, s, actions[0]), actions[1..])
  }

  // ------------------------------------------------------------- one step

  /** What the driver waits for is out, or it is the next completion of all. */
  predicate AwaitsSomething(n: N.State) {
    && (n.pc.Arming? ==> n.pc.target < n.added || n.pc.target == n.got)
    && (n.armed.Some? ==> n.armed.value < n.added || n.armed.value == n.got)
  }

  lemma DelayedTarget(c: N.Config, n: N.State, delayed: bool)
    requires N.InterruptInv(c, n)
    ensures var bufs := N.WaitFor(n, delayed); n.got + bufs < n.added || bufs == 0
  {
    if delayed {
      if n.added > n.got {
        N.DelayedTargetIsOut(c, n);
      } else {
        assert n.added == n.got;
      }
    }
  }

  lemma AwaitsNext(c: N.Config, n: N.State, a: N.Action)
    requires N.InterruptInv(c, n) && N.Enabled(c, n, a) && AwaitsSomething(n)
    ensures AwaitsSomething(N.Apply(c, n, a))
  {
    hide N.InterruptInv;
    match a {
      case Enable(delayed) => DelayedTarget(c, n, delayed); EnableAwaits(c, n, delayed);
      case Get => GetAwaits(c, n);
      case EnableRead => AnswerAwaits(c, n);
      case _ => OthersAwait(c, n, a);
    }
  }

  lemma EnableAwaits(c: N.Config, n: N.State, delayed: bool)
    requires N.Enabled(c, n, N.Enable(delayed))
    requires var bufs := N.WaitFor(n, delayed); n.got + bufs < n.added || bufs == 0
    ensures AwaitsSomething(N.Apply(c, n, N.Enable(delayed)))
  {
    hide N.WaitFor, Wrap16, N.KickNeeded, N.InterruptNeeded;
  }

  lemma GetAwaits(c: N.Config, n: N.State)
    requires N.Enabled(c, n, N.Get) && AwaitsSomething(n)
    ensures AwaitsSomething(N.Apply(c, n, N.Get))
  {
    hide N.WaitFor, Wrap16, N.KickNeeded, N.InterruptNeeded;
  }

  lemma AnswerAwaits(c: N.Config, n: N.State)
    requires N.Enabled(c, n, N.EnableRead) && AwaitsSomething(n)
    ensures AwaitsSomething(N.Apply(c, n, N.EnableRead))
  {
    hide N.WaitFor, Wrap16, N.KickNeeded, N.InterruptNeeded;
  }

  lemma OthersAwait(c: N.Config, n: N.State, a: N.Action)
    requires N.Enabled(c, n, a) && AwaitsSomething(n) && !a.Enable? && !a.Get? && !a.EnableRead?
    ensures AwaitsSomething(N.Apply(c, n, a))
  {
    hide N.WaitFor, Wrap16, N.KickNeeded, N.InterruptNeeded;
    match a {
      case Add =>
      case KickStart =>
      case KickRead =>
      case GetDone =>
      case Disable =>
      case Decide =>
      case SleepStart =>
      case SleepRead =>
      case Wake =>
      case Suppress =>
      case Complete(_) =>
      case Take =>
      case _ =>
    }
  }

  ghost predicate SystemInv(c: N.Config, s: System) {
    && Linked(c, s) && R.SystemInv(s.r)
    && N.InterruptInv(c, s.n) && AwaitsSomething(s.n) && (N.KicksAgree(c) ==> N.KickInv(c, s.n))
  }

  lemma StartInv(c: N.Config)
    requires RingSize(c.num)
    ensures SystemInv(c, Start(c.num))
  {
    hide R.SystemInv;
    R.StartInv(c.num);
  }

  /** The notification half of a step. */
  lemma NotifyStep(c: N.Config, n: N.State, a: N.Action)
    requires N.InterruptInv(c, n) && AwaitsSomething(n) && (N.KicksAgree(c) ==> N.KickInv(c, n)) && N.Enabled(c, n, a)
    ensures var n' := N.Apply(c, n, a);
      N.InterruptInv(c, n') && AwaitsSomething(n') && (N.KicksAgree(c) ==> N.KickInv(c, n'))
  {
    hide N.InterruptInv, N.KickInv, N.Apply, N.Enabled, AwaitsSomething;
    N.StepKeeps(c, n, a);
    AwaitsNext(c, n, a);
  }

  predicate SameCounters(n: N.State, n': N.State) {
    && n'.added == n.added && n'.got == n.got && n'.availVisible == n.availVisible
    && n'.taken == n.taken && n'.completed == n.completed && n'.usedVisible == n.usedVisible
  }

  lemma NotifyCounters(c: N.Config, n: N.State, a: N.Action)
    requires N.Enabled(c, n, a) && OnlyNotifies(a)
    ensures SameCounters(n, N.Apply(c, n, a))
  {
    hide N.Apply, N.Enabled, SameCounters;
    if a.KickStart? || a.KickRead? || a.GetDone? || a.Enable? || a.EnableRead? || a.Disable? {
      DriverCounters(c, n, a);
    } else {
      OtherCounters(c, n, a);
    }
  }

  lemma DriverCounters(c: N.Config, n: N.State, a: N.Action)
    requires N.Enabled(c, n, a) && OnlyNotifies(a)
    requires a.KickStart? || a.KickRead? || a.GetDone? || a.Enable? || a.EnableRead? || a.Disable?
    ensures SameCounters(n, N.Apply(c, n, a))
  {
    hide N.WaitFor, Wrap16, N.KickNeeded, N.InterruptNeeded, N.Enabled;
  }

  lemma OtherCounters(c: N.Config, n: N.State, a: N.Action)
    requires N.Enabled(c, n, a) && OnlyNotifies(a)
    requires !(a.KickStart? || a.KickRead? || a.GetDone? || a.Enable? || a.EnableRead? || a.Disable?)
    ensures SameCounters(n, N.Apply(c, n, a))
  {
    hide N.WaitFor, Wrap16, N.KickNeeded, N.InterruptNeeded, N.Enabled;
  }

  /** Both halves of a get see something new at the same time. */
  lemma GetsAgree(c: N.Config, s: System)
    requires R.SystemInv(s.r) && Linked(c, s) && N.Enabled(c, s.n, N.Get)
    ensures var r', n' := R.Apply(s.r, R.DriverGet), N.Apply(c, s.n, N.Get);
      && r' == s.r.(q := r'.q) && r'.q.log == s.r.q.log && r'.q.num == s.r.q.num && n'.got == |r'.q.returned|
      && n' == s.n.(got := n'.got, armed := n'.armed, interrupted := n'.interrupted,
                    eventStored := n'.eventStored, pc := n'.pc)
  {
    hide R.SystemInv, Linked, QueueSpec.Get, Offered, R.View, Wrap16;
    InvShape(s.r);
    R.GetAcceptsNext(s.r);
    LinkedGet(c, s);
    GetReturns(s.r.q, R.View(s.r));
  }

  lemma InvShape(r: R.System)
    requires R.SystemInv(r)
    ensures R.Shape(r) && |R.View(r).ring| == r.q.num && r.q.num >= 1 && |r.q.returned| <= r.usedPublished
  {
    hide Inv, R.AvailAhead, R.UsedAhead, R.HeadsConserved;
  }

  lemma LinkedGet(c: N.Config, s: System)
    requires Linked(c, s)
    ensures s.n.got == |s.r.q.returned| && s.n.usedVisible == s.r.usedPublished
  {
  }

  lemma GetReturns(q: Queue, dev: DeviceView)
    requires |dev.ring| == q.num && q.num >= 1
    ensures QueueSpec.Get(q, dev).log == q.log && QueueSpec.Get(q, dev).num == q.num
    ensures |QueueSpec.Get(q, dev).returned| == |q.returned| + (if Offered(q, dev).Some? then 1 else 0)
  {
    hide Wrap16;
  }

  lemma AddsAgree(s: R.System, a: R.Action)
    requires R.SystemInv(s) && a.DriverAdd? && R.Enabled(s, a)
    ensures var s' := R.Apply(s, a);
      && s' == s.(q := s'.q, availRing := s'.availRing) && |s'.q.log| == |s.q.log| + 1 && s'.q.returned == s.q.returned
  {
    hide Inv, R.AvailAhead, R.UsedAhead, R.HeadsConserved, Bufs, TableEntries;
  }

  lemma StaysLinked(c: N.Config, s: System, a: Action)
    requires Linked(c, s) && R.SystemInv(s.r) && N.InterruptInv(c, s.n) && Enabled(c, s, a)
    ensures Linked(c, Apply(c, s, a))
  {
    hide R.SystemInv, R.Apply, R.Enabled, N.InterruptInv, N.Apply, N.Enabled;
    match a {
      case Add(sg, out, token, phys) =>
        AddsAgree(s.r, R.DriverAdd(sg, out, token, phys));
        AddCounts(c, s.n);
        R.ActionKeeps(s.r, R.DriverAdd(sg, out, token, phys));
      case Get =>
        GetIsEnabled(s.r);
        GetsAgree(c, s);
        R.ActionKeeps(s.r, R.DriverGet);
      case Notify(b) =>
        NotifyCounters(c, s.n, b);
      case _ =>
        DeviceStaysLinked(c, s, a);
    }
  }

  lemma AddCounts(c: N.Config, n: N.State)
    requires N.Enabled(c, n, N.Add)
    ensures N.Apply(c, n, N.Add) == n.(added := n.added + 1, pc := N.Apply(c, n, N.Add).pc)
  {
  }

  lemma DeviceStaysLinked(c: N.Config, s: System, a: Action)
    requires Linked(c, s) && R.SystemInv(s.r) && N.InterruptInv(c, s.n) && Enabled(c, s, a)
    requires !a.Add? && !a.Get? && !a.Notify?
    ensures Linked(c, Apply(c, s, a))
  {
    hide R.SystemInv, N.InterruptInv, R.Slot, Wrap16;
  }

  lemma StepKeeps(c: N.Config, s: System, a: Action)
    requires SystemInv(c, s) && Enabled(c, s, a)
    ensures SystemInv(c, Apply(c, s, a))
  {
    hide R.SystemInv, R.Apply, R.Enabled, N.InterruptInv, N.KickInv, N.Apply, N.Enabled, AwaitsSomething, Linked;
    StaysLinked(c, s, a);
    match a {
      case Add(sg, out, token, phys) =>
        R.ActionKeeps(s.r, R.DriverAdd(sg, out, token, phys));
        NotifyStep(c, s.n, N.Add);
      case Get =>
        GetIsEnabled(s.r);
        R.ActionKeeps(s.r, R.DriverGet);
        NotifyStep(c, s.n, N.Get);
      case ShowAvail(entries) =>
        R.ActionKeeps(s.r, R.DriverPublish(entries));
        NotifyStep(c, s.n, N.FlushAvail(entries));
      case Fetch =>
        R.ActionKeeps(s.r, R.DeviceFetch);
        NotifyStep(c, s.n, N.Take);
      case Fill(head, len) =>
        R.ActionKeeps(s.r, R.DeviceComplete(head, len));
      case Complete(elements) =>
        NotifyStep(c, s.n, N.Complete(elements));
      case ShowUsed =>
        R.ActionKeeps(s.r, R.DevicePublish(s.n.completed));
        FlushIsEnabled(c, s.n);
        NotifyStep(c, s.n, N.FlushUsed);
      case Notify(b) =>
        NotifyStep(c, s.n, b);
    }
  }

  lemma GetIsEnabled(r: R.System)
    requires R.Shape(r)
    ensures R.Enabled(r, R.DriverGet)
  {
  }

  lemma FlushIsEnabled(c: N.Config, n: N.State)
    ensures N.Enabled(c, n, N.FlushUsed)
  {
  }

  // ------------------------------------------------------------- whole runs

  lemma {:induction false} RunKeeps(c: N.Config, s: System, actions: seq<Action>)
    requires SystemInv(c, s) && EnabledRun(c, s, actions)
    ensures SystemInv(c, RunOf(c, s, actions))
    decreases |actions|
  {
    hide SystemInv, Apply, Enabled;
    if actions != [] {
      StepKeeps(c, s, actions[0]);
      RunKeeps(c, Apply(c, s, actions[0]), actions[1..]);
    }
  }

  /** The driver waits, everything it added is kicked, and no interrupt has come since. */
  predicate DriverRests(n: N.State) {
    n.pc == N.Idle && n.armed.Some? && n.kicked == n.added && !n.interrupted
  }

  /** The device sleeps, no kick has come since, and it has answered for everything it took. */
  predicate DeviceRests(n: N.State) {
    && n.sleep == N.Asleep && !n.notified
    && n.completed == n.taken && n.decided == n.completed && n.usedVisible == n.completed
  }

  /**
   From kick to return: in every interleaving of every configuration whose kicks
   agree, both sides rest only when no buffer is out any more. Each one added
   was taken, completed, signalled and returned under its own token, once.
   */
  lemma RestsOnlyWhenDelivered(c: N.Config, actions: seq<Action>)
    requires RingSize(c.num) && N.KicksAgree(c) && EnabledRun(c, Start(c.num), actions)
    ensures var s := RunOf(c, Start(c.num), actions);
      DriverRests(s.n) && DeviceRests(s.n) ==>
        && s.r.q.pending == map[] && B.Tokens(s.r.q) == multiset{} && s.r.inFlight == multiset{}
        && |s.r.q.returned| == |s.r.q.log| && ExactlyOnce(s.r.q)
  {
    hide SystemInv, EnabledRun, RunOf, ExactlyOnce, B.Tokens;
    StartInv(c);
    RunKeeps(c, Start(c.num), actions);
    var s := RunOf(c, Start(c.num), actions);
    if DriverRests(s.n) && DeviceRests(s.n) {
      RestIsDelivered(c, s);
    }
  }

  lemma RestIsDelivered(c: N.Config, s: System)
    requires SystemInv(c, s) && N.KicksAgree(c) && DriverRests(s.n) && DeviceRests(s.n)
    ensures s.r.q.pending == map[] && B.Tokens(s.r.q) == multiset{} && s.r.inFlight == multiset{}
    ensures |s.r.q.returned| == |s.r.q.log| && ExactlyOnce(s.r.q)
  {
    hide Inv, R.AvailAhead, R.UsedAhead, R.HeadsConserved, ExactlyOnce, Wrap16, N.CallbackStores;
    assert s.n.taken == s.n.added;
    assert s.n.added <= s.n.armed.value;
    assert s.n.got == s.n.added;
    assert |s.r.inFlight| == 0;
    R.QuietIsEmpty(s.r);
    GatheredEmpty(B.TokenMap(s.r.q.pending), s.r.q.num);
  }
}
