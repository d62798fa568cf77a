/**
 The command builders as they use the buffers: take one from the pool, send it,
 and forget it when the ring refuses it. What that costs, over whole runs.
 */
module CommandRuns {
  import opened GpuBuf
  import opened Options
  import opened QueueRuns
  import opened QueueSpec
  import opened Words
  import B = BufferRuns

  /**
   events: the buffers sent with an event. awaited: those of them that came
   back and are with their waiter. lost: those that nobody has any more.
   */
  datatype Driver = Driver(s: B.Session, events: set<Token>, awaited: multiset<Token>, lost: multiset<Token>)

  datatype Action =
    | Command(sg: seq<Sg>, out: nat, awaits: bool)  // a builder of CtrlQueue; AskDisplayInfo waits for the reply
    | Cursor(one: Sg)                               // AllocCursor and QueueCursor
    | ReceiveCommand(dev: DeviceView)               // a round of the control loop of DpcRoutine
    | ReceiveCursor(dev: DeviceView)                // a round of its cursor loop
    | Collect(buf: Token)                           // the waiter releases its buffer
    | Interrupts(on: bool)

  function Start(num1: nat, num2: nat, allocs: seq<Token>): Driver {
    Driver(B.Start(num1, num2, allocs), {}, multiset{}, multiset{})
  }

  /** Builders write to the buffer they get, so there must be one. */
  predicate Allowed(d: Driver, a: Action) {
    match a
    case Command(sg, out, _) => d.s.free != [] && out <= |sg| && MayAdd(d.s.ctrl, |sg|, d.s.free[0], None)
    case Cursor(_) => d.s.free != [] && MayAdd(d.s.cursor, 1, d.s.free[0], None)
    case ReceiveCommand(dev) => d.s.ctrl.num >= 1 && |dev.ring| == d.s.ctrl.num
    case ReceiveCursor(dev) => d.s.cursor.num >= 1 && |dev.ring| == d.s.cursor.num
    case Collect(buf) => buf in d.awaited && buf in d.s.held
    case Interrupts(_) => true
  }

  /** The ring turns the action down. */
  predicate Refuses(d: Driver, a: Action) {
    match a
    case Command(sg, _, _) => |sg| > |d.s.ctrl.free|
    case Cursor(_) => d.s.cursor.free == []
    case _ => false
  }

  /** A completed buffer goes back to the pool, or to the one who waits for it. */
  function Completed(d: Driver, s: B.Session, t: Token, waited: bool): Driver
    requires t != NULL ==> t in s.held
  {
    if t == NULL then d.(s := s)
    else if waited then d.(s := s, awaited := d.awaited + multiset{t})
    else d.(s := B.Do(s, B.Give(t)))
  }

  function Step(d: Driver, a: Action): Driver
    requires Allowed(d, a)
  {
    match a
    case Command(sg, out, awaits) =>
      var buf := d.s.free[0];
      d.(s := B.Do(B.Do(d.s, B.Take), B.SendCommand(sg, out, buf)),
         events := if awaits then d.events + {buf} else d.events - {buf},
         lost := if Refuses(d, a) then d.lost + multiset{buf} else d.lost)
    case Cursor(one) =>
      var buf := d.s.free[0];
      d.(s := B.Do(B.Do(d.s, B.Take), B.SendCursor(one, buf)),
         events := d.events - {buf},
         lost := if Refuses(d, a) then d.lost + multiset{buf} else d.lost)
    case ReceiveCommand(dev) =>
      var t := NextToken(d.s.ctrl, dev);
      Completed(d, B.Do(d.s, B.ReceiveCommand(dev)), t, t in d.events)
    case ReceiveCursor(dev) =>
      Completed(d, B.Do(d.s, B.ReceiveCursor(dev)), NextToken(d.s.cursor, dev), false)
    case Collect(buf) => d.(s := B.Do(d.s, B.Give(buf)), awaited := d.awaited - multiset{buf})
    case Interrupts(on) => d.(s := B.Do(d.s, B.Interrupts(on)))
  }

  ghost predicate AllowedRun(d: Driver, actions: seq<Action>)
    decreases |actions|
  {
    actions == [] || (Allowed(d, actions[0]) && AllowedRun(Step(d, actions[0]), actions[1..]))
  }

  ghost function After(d: Driver, actions: seq<Action>): Driver
    requires AllowedRun(d, actions)
    decreases |actions|
  {
    if actions == [] then d else After(Step(d, actions[0]), actions[1..])
  }

  /** How many sends of a run were refused. */
  ghost function Refusals(d: Driver, actions: seq<Action>): nat
    requires AllowedRun(d, actions)
    decreases |actions|
  {
    if actions == [] then 0
    else (if Refuses(d, actions[0]) then 1 else 0) + Refusals(Step(d, actions[0]), actions[1..])
  }

  /** Every send of a run finds room in its ring. */
  ghost predicate EverySendFits(d: Driver, actions: seq<Action>)
    requires AllowedRun(d, actions)
    decreases |actions|
  {
    actions == [] || (!Refuses(d, actions[0]) && EverySendFits(Step(d, actions[0]), actions[1..]))
  }

  // ------------------------------------------------------------- every step

  ghost predicate DriverInv(d: Driver, all: multiset<Token>) {
    B.SessionInv(d.s, all) && d.s.held == d.awaited + d.lost
  }

  lemma StartInv(num1: nat, num2: nat, allocs: seq<Token>)
    requires RingSize(num1) && RingSize(num2)
    ensures DriverInv(Start(num1, num2, allocs), multiset(NonNull(allocs)))
  {
    hide B.SessionInv;
    B.StartInv(num1, num2, allocs);
  }

  predicate SameSizes(s: B.Session, s': B.Session) {
    s'.ctrl.num == s.ctrl.num && s'.cursor.num == s.cursor.num
  }

  /** Taking a buffer and sending it: accepted, it leaves the caller again. */
  lemma SendInv(s: B.Session, send: B.Action, all: multiset<Token>)
    requires B.SessionInv(s, all) && s.free != [] && (send.SendCommand? || send.SendCursor?) && send.buf == s.free[0]
    requires B.Allowed(B.Do(s, B.Take), send)
    ensures B.SessionInv(B.Do(B.Do(s, B.Take), send), all) && SameSizes(s, B.Do(B.Do(s, B.Take), send))
    ensures B.Do(B.Do(s, B.Take), send).held
         == if SendFits(s, send) then s.held else s.held + multiset{s.free[0]}
  {
    hide B.SessionInv, QueueBuffer, QueueOne, MayAdd;
    B.DoInv(s, B.Take, all);
    B.DoInv(B.Do(s, B.Take), send, all);
    assert s.held + multiset{s.free[0]} - multiset{s.free[0]} == s.held;
  }

  predicate SendFits(s: B.Session, send: B.Action)
    requires send.SendCommand? || send.SendCursor?
  {
    match send
    case SendCommand(sg, _, _) => HasRoom(s.ctrl, |sg|, None)
    case SendCursor(_, _) => HasRoom(s.cursor, 1, None)
  }

  lemma CompletedInv(d: Driver, receive: B.Action, s: B.Session, t: Token, waited: bool, all: multiset<Token>)
    requires (receive.ReceiveCommand? || receive.ReceiveCursor?) && B.Allowed(d.s, receive)
    requires t == NextToken(if receive.ReceiveCommand? then d.s.ctrl else d.s.cursor, receive.dev)
    requires t != NULL ==> t in s.held
    requires s == B.Do(d.s, receive) && DriverInv(d, all)
    ensures DriverInv(Completed(d, s, t, waited), all)
    ensures SameSizes(d.s, Completed(d, s, t, waited).s)
    ensures Completed(d, s, t, waited).lost == d.lost
  {
    hide B.SessionInv, Get, NextToken;
    B.DoInv(d.s, receive, all);
    assert s.held == d.s.held + B.Received(t);
    if t != NULL && !waited {
      B.DoInv(s, B.Give(t), all);
      assert d.s.held + multiset{t} - multiset{t} == d.s.held;
    }
  }

  lemma ReceivedIsHeld(s: B.Session, receive: B.Action)
    requires (receive.ReceiveCommand? || receive.ReceiveCursor?) && B.Allowed(s, receive)
    ensures var t := NextToken(if receive.ReceiveCommand? then s.ctrl else s.cursor, receive.dev);
      t != NULL ==> t in B.Do(s, receive).held
  {
    hide Get, NextToken;
  }

  /** What every step keeps: the places of the buffers, the sizes of the rings, and what is lost already. */
  ghost predicate Kept(d: Driver, d': Driver, refused: bool, all: multiset<Token>) {
    && DriverInv(d', all) && SameSizes(d.s, d'.s)
    && d.lost <= d'.lost && |d'.lost| == |d.lost| + (if refused then 1 else 0)
  }

  lemma CommandInv(d: Driver, a: Action, all: multiset<Token>)
    requires DriverInv(d, all) && Allowed(d, a) && a.Command?
    ensures Kept(d, Step(d, a), Refuses(d, a), all)
  {
    hide B.SessionInv, B.Do, MayAdd;
    TakeShape(d.s);
    SendInv(d.s, B.SendCommand(a.sg, a.out, d.s.free[0]), all);
  }

  lemma CursorInv(d: Driver, a: Action, all: multiset<Token>)
    requires DriverInv(d, all) && Allowed(d, a) && a.Cursor?
    ensures Kept(d, Step(d, a), Refuses(d, a), all)
  {
    hide B.SessionInv, B.Do, MayAdd;
    TakeShape(d.s);
    SendInv(d.s, B.SendCursor(a.one, d.s.free[0]), all);
  }

  lemma ReceiveInv(d: Driver, a: Action, all: multiset<Token>)
    requires DriverInv(d, all) && Allowed(d, a) && (a.ReceiveCommand? || a.ReceiveCursor?)
    ensures Kept(d, Step(d, a), false, all)
  {
    hide B.SessionInv, B.Do, NextToken, Completed;
    if a.ReceiveCommand? {
      ReceivedIsHeld(d.s, B.ReceiveCommand(a.dev));
      CompletedInv(d, B.ReceiveCommand(a.dev), B.Do(d.s, B.ReceiveCommand(a.dev)), NextToken(d.s.ctrl, a.dev),
                   NextToken(d.s.ctrl, a.dev) in d.events, all);
    } else {
      ReceivedIsHeld(d.s, B.ReceiveCursor(a.dev));
      CompletedInv(d, B.ReceiveCursor(a.dev), B.Do(d.s, B.ReceiveCursor(a.dev)), NextToken(d.s.cursor, a.dev), false,
                   all);
    }
  }

  lemma OtherInv(d: Driver, a: Action, all: multiset<Token>)
    requires DriverInv(d, all) && Allowed(d, a) && (a.Collect? || a.Interrupts?)
    ensures Kept(d, Step(d, a), false, all)
  {
    hide B.SessionInv, B.Do;
    match a {
      case Collect(buf) =>
        B.DoInv(d.s, B.Give(buf), all);
        GiveShape(d.s, buf);
        assert d.awaited + d.lost - multiset{buf} == d.awaited - multiset{buf} + d.lost;
      case Interrupts(on) =>
        B.DoInv(d.s, B.Interrupts(on), all);
        InterruptsShape(d.s, on);
    }
  }

  lemma StepInv(d: Driver, a: Action, all: multiset<Token>)
    requires DriverInv(d, all) && Allowed(d, a)
    ensures Kept(d, Step(d, a), Refuses(d, a), all)
  {
    hide Kept, DriverInv, Step;
    match a {
      case Command(_, _, _) => CommandInv(d, a, all);
      case Cursor(_) => CursorInv(d, a, all);
      case ReceiveCommand(_) => ReceiveInv(d, a, all);
      case ReceiveCursor(_) => ReceiveInv(d, a, all);
      case _ => OtherInv(d, a, all);
    }
  }

  lemma TakeShape(s: B.Session)
    requires s.free != []
    ensures B.Do(s, B.Take).ctrl == s.ctrl && B.Do(s, B.Take).cursor == s.cursor && s.free[0] in B.Do(s, B.Take).held
  {
  }

  lemma GiveShape(s: B.Session, buf: Token)
    requires buf in s.held
    ensures B.Do(s, B.Give(buf)).held == s.held - multiset{buf}
  {
  }

  lemma InterruptsShape(s: B.Session, on: bool)
    ensures B.Do(s, B.Interrupts(on)).held == s.held
    ensures B.Do(s, B.Interrupts(on)).ctrl.callbacks == B.Do(s, B.Interrupts(on)).cursor.callbacks == on
  {
  }

  // ------------------------------------------------------------- whole runs

  lemma {:induction false} RunInv(d: Driver, actions: seq<Action>, all: multiset<Token>)
    requires DriverInv(d, all) && AllowedRun(d, actions)
    ensures DriverInv(After(d, actions), all) && SameSizes(d.s, After(d, actions).s)
    ensures d.lost <= After(d, actions).lost && |After(d, actions).lost| == |d.lost| + Refusals(d, actions)
    decreases |actions|
  {
    hide DriverInv, Allowed, Step, Refuses;
    if actions != [] {
      StepInv(d, actions[0], all);
      RunInv(Step(d, actions[0]), actions[1..], all);
    }
  }

  lemma {:induction false} NoRefusals(d: Driver, actions: seq<Action>)
    requires AllowedRun(d, actions)
    ensures EverySendFits(d, actions) <==> Refusals(d, actions) == 0
    decreases |actions|
  {
    hide Allowed, Step, Refuses;
    if actions != [] {
      NoRefusals(Step(d, actions[0]), actions[1..]);
    }
  }

  lemma SizesAddUp(d: Driver, all: multiset<Token>)
    requires DriverInv(d, all)
    ensures |d.s.free| + |d.s.ctrl.pending| + |d.s.cursor.pending| + |d.awaited| + |d.lost| == |all|
  {
    hide Inv;
    TokensSize(d.s.ctrl);
    TokensSize(d.s.cursor);
    assert |all| == |multiset(d.s.free)| + |d.s.held| + |B.Tokens(d.s.ctrl)| + |B.Tokens(d.s.cursor)|;
  }

  lemma TokensSize(q: Queue)
    requires Inv(q)
    ensures |B.Tokens(q)| == |q.pending|
  {
    HeadsBelow(q);
    B.TokensCount(q.pending, q.num);
  }

  /**
   Over every run, whatever the device writes: pool, rings and waiters together
   have the buffers that were allocated less one for each refused send. No
   buffer is lost exactly when every send found room. And the next GetBuf finds
   a buffer exactly when rings, waiters and refusals have not used all of them.
   */
  lemma EachRefusalCostsOne(num1: nat, num2: nat, allocs: seq<Token>, actions: seq<Action>)
    requires RingSize(num1) && RingSize(num2) && AllowedRun(Start(num1, num2, allocs), actions)
    ensures var d, refused := After(Start(num1, num2, allocs), actions), Refusals(Start(num1, num2, allocs), actions);
      && |d.s.free| + |d.s.ctrl.pending| + |d.s.cursor.pending| + |d.awaited| == |NonNull(allocs)| - refused
      && (d.lost == multiset{} <==> EverySendFits(Start(num1, num2, allocs), actions))
      && (d.s.free != [] <==> |d.s.ctrl.pending| + |d.s.cursor.pending| + |d.awaited| + refused < |NonNull(allocs)|)
  {
    hide DriverInv, AllowedRun, After, Refusals, EverySendFits;
    var start, all := Start(num1, num2, allocs), multiset(NonNull(allocs));
    StartInv(num1, num2, allocs);
    RunInv(start, actions, all);
    SizesAddUp(After(start, actions), all);
    NoRefusals(start, actions);
    assert |all| == |NonNull(allocs)|;
  }

  /**
   With one buffer for each descriptor: GetBuf finds one as long as more
   descriptors are free than sends were refused and buffers are with waiters.
   */
  lemma RoomMeansBuffer(num1: nat, num2: nat, allocs: seq<Token>, actions: seq<Action>)
    requires RingSize(num1) && RingSize(num2) && NULL !in allocs && |allocs| >= num1 + num2
    requires AllowedRun(Start(num1, num2, allocs), actions)
    ensures var d, refused := After(Start(num1, num2, allocs), actions), Refusals(Start(num1, num2, allocs), actions);
      |d.s.ctrl.free| + |d.s.cursor.free| > refused + |d.awaited| ==> d.s.free != []
  {
    hide DriverInv, AllowedRun, After, Refusals, EverySendFits;
    var start, all := Start(num1, num2, allocs), multiset(NonNull(allocs));
    B.NonNullKeeps(allocs);
    EachRefusalCostsOne(num1, num2, allocs, actions);
    StartInv(num1, num2, allocs);
    RunInv(start, actions, all);
    DescriptorsOutnumber(After(start, actions), all);
  }

  lemma DescriptorsOutnumber(d: Driver, all: multiset<Token>)
    requires DriverInv(d, all)
    ensures |d.s.ctrl.pending| + |d.s.ctrl.free| <= d.s.ctrl.num
    ensures |d.s.cursor.pending| + |d.s.cursor.free| <= d.s.cursor.num
  {
    hide Inv;
    PendingAtMostNum(d.s.ctrl);
    PendingAtMostNum(d.s.cursor);
  }

  /** A lost buffer is lost for good: in no continuation is it in the pool, in a ring or with a waiter again. */
  lemma LostForGood(d: Driver, actions: seq<Action>, all: multiset<Token>, b: Token)
    requires DriverInv(d, all) && AllowedRun(d, actions) && b in d.lost && all[b] <= 1
    ensures var d' := After(d, actions);
      b in d'.lost && b !in d'.s.free && b !in d'.awaited && b !in B.Tokens(d'.s.ctrl) && b !in B.Tokens(d'.s.cursor)
  {
    hide Inv, B.Tokens, AllowedRun, After;
    RunInv(d, actions, all);
    var d' := After(d, actions);
    assert d'.lost[b] >= d.lost[b] >= 1;
    assert (multiset(d'.s.free) + d'.s.held + B.Tokens(d'.s.ctrl) + B.Tokens(d'.s.cursor))[b] == all[b];
    assert multiset(d'.s.free)[b] == 0;
  }

  // ------------------------------------------------------------- the drain loop is such a run

  /** One round of the control loop for each of n buffers. */
  function Rounds(views: nat -> DeviceView, k: nat, n: nat): (r: seq<Action>)
    ensures |r| == n
    decreases n
  {
    if n == 0 then [] else [ReceiveCommand(views(k))] + Rounds(views, k + 1, n - 1)
  }

  /** What the control loop hands out, buffer by buffer: to the pool without an event, to the waiter with one. */
  ghost predicate HandsOut(d: Driver, d': Driver, came: seq<Token>) {
    && d'.s.free == d.s.free + Unawaited(came, d.events)
    && SharedOut(multiset(d.s.free), multiset(d'.s.free), d.awaited, d'.awaited, multiset(came), d.events)
    && d'.lost == d.lost && d'.events == d.events && d'.s.cursor == d.s.cursor
  }

  /** Of the buffers that came, the waiters got those with an event and the pool the others. */
  ghost predicate SharedOut(free: multiset<Token>, free': multiset<Token>, awaited: multiset<Token>,
                            awaited': multiset<Token>, came: multiset<Token>, events: set<Token>) {
    && (forall b :: free'[b] == free[b] + if b in events then 0 else came[b])
    && (forall b :: awaited'[b] == awaited[b] + if b in events then came[b] else 0)
  }

  lemma SharedOutThen(f0: multiset<Token>, f1: multiset<Token>, f2: multiset<Token>, w0: multiset<Token>,
                      w1: multiset<Token>, w2: multiset<Token>, a: multiset<Token>, b: multiset<Token>,
                      events: set<Token>)
    requires SharedOut(f0, f1, w0, w1, a, events) && SharedOut(f1, f2, w1, w2, b, events)
    ensures SharedOut(f0, f2, w0, w2, a + b, events)
  {
  }

  /**
   The control loop of DpcRoutine is a run of rounds: from the same ring, pool
   and events it ends with the ring, the pool and the waiters of that run.
   */
  lemma {:induction false} DrainIsRun(d: Driver, views: nat -> DeviceView, k: nat)
    requires Inv(d.s.ctrl) && ViewsFit(d.s.ctrl.num, views)
    ensures var r := Drained(d.s.ctrl, views, k);
      && AllowedRun(d, Rounds(views, k, |r.1|))
      && After(d, Rounds(views, k, |r.1|)).s.ctrl == r.0
      && HandsOut(d, After(d, Rounds(views, k, |r.1|)), r.1)
    decreases |d.s.ctrl.pending|
  {
    hide Inv, Offered, Get, Drained, HandsOut, Step, NextToken;
    var q := d.s.ctrl;
    DrainedUnfolds(q, views, k);
    if Offered(q, views(k)) == None {
      assert After(d, []) == d;
      NothingHandedOut(d);
    } else {
      var a := ReceiveCommand(views(k));
      GetInv(q, views(k));
      OneRound(d, views(k));
      GetTakesOne(q, views(k));
      var d1, rest := Step(d, a), Drained(Get(q, views(k)), views, k + 1).1;
      DrainIsRun(d1, views, k + 1);
      var more := Rounds(views, k + 1, |rest|);
      assert ([a] + more)[1..] == more && ([a] + more)[0] == a;
      assert Rounds(views, k, |rest| + 1) == [a] + more;
      HandedOutThen(d, d1, After(d1, more), NextToken(q, views(k)), rest);
    }
  }

  lemma NothingHandedOut(d: Driver)
    ensures HandsOut(d, d, [])
  {
    assert d.s.free + [] == d.s.free;
  }

  /** A round that finds a buffer. */
  lemma OneRound(d: Driver, dev: DeviceView)
    requires Inv(d.s.ctrl) && |dev.ring| == d.s.ctrl.num && Offered(d.s.ctrl, dev) != None
    ensures Allowed(d, ReceiveCommand(dev)) && Step(d, ReceiveCommand(dev)).s.ctrl == Get(d.s.ctrl, dev)
    ensures HandsOut(d, Step(d, ReceiveCommand(dev)), [NextToken(d.s.ctrl, dev)])
  {
        hide NextToken, Unawaited, Get, Offered, Inv;
    PendingNum(d.s.ctrl);
    var t := NextToken(d.s.ctrl, dev);
    TokenComes(d.s.ctrl, dev);
    UnawaitedJoin(t, [], d.events);
    NoneUnawaited(d.events);
    assert [t] + [] == [t];
    assert multiset([t]) == multiset{t};
  }

  lemma PendingNum(q: Queue)
    requires Inv(q)
    ensures q.num >= 1
  {
  }

  lemma TokenComes(q: Queue, dev: DeviceView)
    requires Inv(q) && |dev.ring| == q.num && Offered(q, dev) != None
    ensures NextToken(q, dev) != NULL
  {
    var h := Offered(q, dev).value;
    assert EntryOk(q.num, q.log, h, q.pending[h]);
  }

  lemma {:induction false} UnawaitedJoin(t: Token, rest: seq<Token>, events: set<Token>)
    ensures Unawaited([t] + rest, events) == (if t in events then [] else [t]) + Unawaited(rest, events)
  {
    if rest == [] {
      assert [t] + rest == [t] && [t][..0] == [];
    } else {
      var front := rest[..|rest| - 1];
      UnawaitedJoin(t, front, events);
      assert ([t] + rest)[..|rest|] == [t] + front;
    }
  }

  lemma HandedOutThen(d: Driver, d1: Driver, d2: Driver, t: Token, rest: seq<Token>)
    requires HandsOut(d, d1, [t]) && HandsOut(d1, d2, rest)
    ensures HandsOut(d, d2, [t] + rest)
  {
    hide Unawaited, SharedOut;
    SharedOutThen(multiset(d.s.free), multiset(d1.s.free), multiset(d2.s.free), d.awaited, d1.awaited, d2.awaited,
                  multiset([t]), multiset(rest), d.events);
    UnawaitedJoin(t, rest, d.events);
    UnawaitedJoin(t, [], d.events);
    NoneUnawaited(d.events);
    assert [t] + [] == [t];
    assert multiset([t] + rest) == multiset([t]) + multiset(rest);
    var first, others := Unawaited([t], d.events), Unawaited(rest, d.events);
    assert d.s.free + first + others == d.s.free + (first + others);
  }

  lemma NoneUnawaited(events: set<Token>)
    ensures Unawaited([], events) == []
  {
  }

  // ------------------------------------------------------------- a run with refusals

  /** A command and its reply. */
  function Pair(): seq<Sg> {
    [Sg(0x1000, 40), Sg(0x2000, 24)]
  }

  /**
   A control ring of two descriptors, a cursor ring of one, three buffers. The
   first command fills the ring and the next two are refused: the pool is empty
   with nobody waiting and the cursor ring unused, and the next builder writes
   through a null pointer.
   */
  lemma RefusalsEmptyPool() returns (actions: seq<Action>, d: Driver)
    ensures RingSize(2) && RingSize(1) && AllowedRun(Start(2, 1, [1, 2, 3]), actions)
    ensures d == After(Start(2, 1, [1, 2, 3]), actions) && Refusals(Start(2, 1, [1, 2, 3]), actions) == 2
    ensures d.s.free == [] && d.lost == multiset{2, 3} && d.awaited == multiset{} && |d.s.cursor.free| == 1
    ensures forall one: Sg :: !Allowed(d, Cursor(one))
  {
    hide AllowedRun, After, Refusals, Step, Allowed, Refuses;
    assert Pow2(1) == 2 && Pow2(0) == 1;
    var d0 := Start(2, 1, [1, 2, 3]);
    FirstFills(d0);
    var a := Command(Pair(), 1, false);
    var d1 := Step(d0, a);
    NextRefused(d1, a);
    var d2 := Step(d1, a);
    NextRefused(d2, a);
    d := Step(d2, a);
    actions := [a, a, a];
    ThreeSteps(d0, a);
    EmptyPoolStops(d);
  }

  lemma FirstFills(d: Driver)
    requires d == Start(2, 1, [1, 2, 3])
    ensures Allowed(d, Command(Pair(), 1, false)) && !Refuses(d, Command(Pair(), 1, false))
    ensures var d' := Step(d, Command(Pair(), 1, false));
      && d'.s.free == [2, 3] && d'.lost == multiset{} && d'.awaited == multiset{}
      && d'.s.ctrl.free == [] && d'.s.ctrl.num == 2 && d'.s.cursor == Initial(1)
  {
    AllThree();
    assert d.s.free == [1, 2, 3];
    assert Initial(2).free == [0, 1];
  }

  lemma AllThree()
    ensures NonNull([1, 2, 3]) == [1, 2, 3]
  {
    B.NonNullKeeps([1, 2, 3]);
  }

  /** With no descriptor free, a command takes a buffer from the pool and changes nothing else. */
  lemma NextRefused(d: Driver, a: Action)
    requires a == Command(Pair(), 1, false) && d.s.ctrl.num == 2 && d.s.ctrl.free == [] && d.s.free != []
    requires d.s.free[0] != NULL
    ensures Allowed(d, a) && Refuses(d, a)
    ensures var d' := Step(d, a);
      && d'.s.free == d.s.free[1..] && d'.lost == d.lost + multiset{d.s.free[0]} && d'.awaited == d.awaited
      && d'.s.ctrl == d.s.ctrl && d'.s.cursor == d.s.cursor
  {
  }

  lemma ThreeSteps(d: Driver, a: Action)
    requires Allowed(d, a) && Allowed(Step(d, a), a) && Allowed(Step(Step(d, a), a), a)
    requires !Refuses(d, a) && Refuses(Step(d, a), a) && Refuses(Step(Step(d, a), a), a)
    ensures AllowedRun(d, [a, a, a]) && After(d, [a, a, a]) == Step(Step(Step(d, a), a), a)
    ensures Refusals(d, [a, a, a]) == 2
  {
    hide Allowed, Step, Refuses;
    assert [a, a, a][1..] == [a, a] && [a, a][1..] == [a] && [a][1..] == [];
    var d1, d2, d3 := Step(d, a), Step(Step(d, a), a), Step(Step(Step(d, a), a), a);
    assert AllowedRun(d3, []) && After(d3, []) == d3 && Refusals(d3, []) == 0;
    assert AllowedRun(d2, [a]) && After(d2, [a]) == d3 && Refusals(d2, [a]) == 1;
    assert AllowedRun(d1, [a, a]) && After(d1, [a, a]) == d3 && Refusals(d1, [a, a]) == 2;
  }

  lemma EmptyPoolStops(d: Driver)
    requires d.s.free == []
    ensures forall one: Sg :: !Allowed(d, Cursor(one))
  {
  }
}
