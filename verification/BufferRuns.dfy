/**
 Where the command buffers are, over whole runs: in the pool, in the control
 ring, in the cursor ring, or held by a caller.
 */
module BufferRuns {
  import opened Words
  import opened Gather
  import opened Options
  import opened QueueSpec
  import opened QueueRuns
  import opened GpuBuf

  datatype Session = Session(free: seq<Token>, ctrl: Queue, cursor: Queue, held: multiset<Token>)

  /** One step of a device session; dev is what the device has written to the ring by then. */
  datatype Action =
    | Take                                            // VioGpuBuf::GetBuf
    | Give(buf: Token)                                // VioGpuBuf::FreeBuf
    | SendCommand(sg: seq<Sg>, out: nat, buf: Token)  // CtrlQueue::QueueBuffer
    | SendCursor(one: Sg, buf: Token)                 // CrsrQueue::QueueCursor
    | ReceiveCommand(dev: DeviceView)                 // CtrlQueue::DequeueBuffer
    | ReceiveCursor(dev: DeviceView)                  // CrsrQueue::DequeueCursor
    | Interrupts(on: bool)                            // EnableInterrupt and DisableInterrupt

  function Start(num1: nat, num2: nat, allocs: seq<Token>): Session {
    Session(NonNull(allocs), Initial(num1), Initial(num2), multiset{})
  }

  /** Callers give back and send only buffers they hold. */
  predicate Allowed(s: Session, a: Action) {
    match a
    case Take => true
    case Give(buf) => buf in s.held
    case SendCommand(sg, out, buf) => buf in s.held && out <= |sg| && MayAdd(s.ctrl, |sg|, buf, None)
    case SendCursor(one, buf) => buf in s.held && MayAdd(s.cursor, 1, buf, None)
    case ReceiveCommand(dev) => s.ctrl.num >= 1 && |dev.ring| == s.ctrl.num
    case ReceiveCursor(dev) => s.cursor.num >= 1 && |dev.ring| == s.cursor.num
    case Interrupts(on) => true
  }

  function Received(t: Token): multiset<Token> {
    if t == NULL then multiset{} else multiset{t}
  }

  function Do(s: Session, a: Action): Session
    requires Allowed(s, a)
  {
    match a
    case Take => if s.free == [] then s else s.(free := s.free[1..], held := s.held + multiset{s.free[0]})
    case Give(buf) => s.(free := s.free + [buf], held := s.held - multiset{buf})
    case SendCommand(sg, out, buf) =>
      s.(ctrl := QueueBuffer(s.ctrl, sg, out, buf),
         held := if HasRoom(s.ctrl, |sg|, None) then s.held - multiset{buf} else s.held)
    case SendCursor(one, buf) =>
      s.(cursor := QueueOne(s.cursor, one, buf),
         held := if HasRoom(s.cursor, 1, None) then s.held - multiset{buf} else s.held)
    case ReceiveCommand(dev) => s.(ctrl := Get(s.ctrl, dev), held := s.held + Received(NextToken(s.ctrl, dev)))
    case ReceiveCursor(dev) => s.(cursor := Get(s.cursor, dev), held := s.held + Received(NextToken(s.cursor, dev)))
    case Interrupts(on) =>
      if on then s.(ctrl := EnableCb(s.ctrl), cursor := EnableCb(s.cursor))
      else s.(ctrl := DisableCb(s.ctrl), cursor := DisableCb(s.cursor))
  }

  ghost predicate AllowedRun(s: Session, actions: seq<Action>)
    decreases |actions|
  {
    actions == [] || (Allowed(s, actions[0]) && AllowedRun(Do(s, actions[0]), actions[1..]))
  }

  ghost function After(s: Session, actions: seq<Action>): Session
    requires AllowedRun(s, actions)
    decreases |actions|
  {
    if actions == [] then s else After(Do(s, actions[0]), actions[1..])
  }

  // ------------------------------------------------------------- tokens of a ring

  ghost function TokenMap(pending: map<nat, Entry>): map<nat, multiset<nat>> {
    map h | h in pending :: multiset{pending[h].token}
  }

  /** The buffers in a ring. */
  ghost function Tokens(q: Queue): multiset<Token> {
    Gathered(TokenMap(q.pending), q.num)
  }

  lemma TokensPut(pending: map<nat, Entry>, h: nat, e: Entry, n: nat)
    requires h !in pending && h < n
    ensures Gathered(TokenMap(pending[h := e]), n) == Gathered(TokenMap(pending), n) + multiset{e.token}
  {
    assert TokenMap(pending[h := e]) == TokenMap(pending)[h := multiset{e.token}];
    GatheredPut(TokenMap(pending), h, multiset{e.token}, n);
  }

  lemma TokensTake(pending: map<nat, Entry>, h: nat, n: nat)
    requires h in pending && h < n
    ensures Gathered(TokenMap(pending), n) == Gathered(TokenMap(pending - {h}), n) + multiset{pending[h].token}
  {
    assert TokenMap(pending - {h}) == TokenMap(pending) - {h};
    GatheredTake(TokenMap(pending), h, n);
  }

  lemma AddMovesToken(q: Queue, sg: seq<Sg>, out: nat, buf: Token)
    requires Inv(q) && MayAdd(q, |sg|, buf, None)
    ensures Tokens(Add(q, sg, out, buf, None))
         == Tokens(q) + (if HasRoom(q, |sg|, None) then multiset{buf} else multiset{})
  {
    if HasRoom(q, |sg|, None) {
      FreeHeadIsFree(q);
      var e := Entry(|q.log|, buf, q.free[..|sg|], Bufs(sg, out), None);
      TokensPut(q.pending, q.free[0], e, q.num);
    }
  }

  lemma GetMovesToken(q: Queue, dev: DeviceView)
    requires Inv(q) && |dev.ring| == q.num
    ensures Tokens(q) == Tokens(Get(q, dev)) + Received(NextToken(q, dev))
  {
    if Offered(q, dev).Some? {
      var h := Offered(q, dev).value;
      assert EntryOk(q.num, q.log, h, q.pending[h]);
      TokensTake(q.pending, h, q.num);
    }
  }

  /** As many buffers as entries. */
  lemma {:induction false} TokensCount(pending: map<nat, Entry>, n: nat)
    requires forall h :: h in pending ==> h < n
    ensures |Gathered(TokenMap(pending), n)| == |pending|
    decreases |pending|
  {
    if pending == map[] {
      GatheredEmpty(TokenMap(pending), n);
    } else {
      var h :| h in pending;
      TokensTake(pending, h, n);
      OneLess(pending, h);
      TokensCount(pending - {h}, n);
    }
  }

  // ------------------------------------------------------------- conservation

  ghost predicate SessionInv(s: Session, all: multiset<Token>) {
    && Inv(s.ctrl) && Inv(s.cursor)
    && multiset(s.free) + s.held + Tokens(s.ctrl) + Tokens(s.cursor) == all
    && NULL !in all
  }

  lemma StartInv(num1: nat, num2: nat, allocs: seq<Token>)
    requires RingSize(num1) && RingSize(num2)
    ensures SessionInv(Start(num1, num2, allocs), multiset(NonNull(allocs)))
  {
    hide Inv;
    InitialInv(num1);
    InitialInv(num2);
    GatheredEmpty(TokenMap(Initial(num1).pending), num1);
    GatheredEmpty(TokenMap(Initial(num2).pending), num2);
  }

  lemma QueueStepInv(q: Queue, sg: seq<Sg>, out: nat, buf: Token)
    requires Inv(q) && MayAdd(q, |sg|, buf, None)
    ensures Inv(QueueBuffer(q, sg, out, buf)) && Inv(Kick(Add(q, sg, out, buf, None)))
    ensures Tokens(QueueBuffer(q, sg, out, buf)) == Tokens(Kick(Add(q, sg, out, buf, None)))
         == Tokens(q) + (if HasRoom(q, |sg|, None) then multiset{buf} else multiset{})
  {
    hide Sound, Tokens, MayAdd, HasRoom;
    AddInv(q, sg, out, buf, None);
    AddMovesToken(q, sg, out, buf);
    SameTokens(Add(q, sg, out, buf, None), Kick(Add(q, sg, out, buf, None)));
    NotificationsKeepSound(Add(q, sg, out, buf, None), Kick(Add(q, sg, out, buf, None)));
    AddShape(q, sg, out, buf);
  }

  lemma SameTokens(q: Queue, q': Queue)
    requires q'.pending == q.pending && q'.num == q.num
    ensures Tokens(q') == Tokens(q)
  {
  }

  lemma InterruptsInv(q: Queue)
    requires Inv(q)
    ensures Inv(EnableCb(q)) && Inv(DisableCb(q)) && Tokens(EnableCb(q)) == Tokens(q)
    ensures Tokens(DisableCb(q)) == Tokens(q)
  {
    NotificationsKeepSound(q, EnableCb(q));
    NotificationsKeepSound(q, DisableCb(q));
  }

  /** Moving one buffer between two of the four places. */
  lemma OneMoves(b: Token, place: multiset<Token>, rest: multiset<Token>, held: multiset<Token>)
    requires b in held
    ensures (held - multiset{b}) + (place + multiset{b}) + rest == held + place + rest
  {
  }

  lemma SendCommandInv(s: Session, sg: seq<Sg>, out: nat, buf: Token, all: multiset<Token>)
    requires SessionInv(s, all) && Allowed(s, SendCommand(sg, out, buf))
    ensures Do(s, SendCommand(sg, out, buf)).ctrl.num == s.ctrl.num
    ensures SessionInv(Do(s, SendCommand(sg, out, buf)), all)
  {
    hide Inv, Tokens, Add, MayAdd, HasRoom;
    QueueStepInv(s.ctrl, sg, out, buf);
    OneMoves(buf, Tokens(s.ctrl), multiset(s.free) + Tokens(s.cursor), s.held);
    AddShape(s.ctrl, sg, out, buf);
  }

  lemma SendCursorInv(s: Session, one: Sg, buf: Token, all: multiset<Token>)
    requires SessionInv(s, all) && Allowed(s, SendCursor(one, buf))
    ensures Do(s, SendCursor(one, buf)).cursor.num == s.cursor.num
    ensures SessionInv(Do(s, SendCursor(one, buf)), all)
  {
    hide Inv, Tokens, Add, MayAdd, HasRoom;
    QueueStepInv(s.cursor, [one], 1, buf);
    OneMoves(buf, Tokens(s.cursor), multiset(s.free) + Tokens(s.ctrl), s.held);
    AddShape(s.cursor, [one], 1, buf);
  }

  lemma ReceiveInv(q: Queue, dev: DeviceView)
    requires Inv(q) && |dev.ring| == q.num
    ensures Inv(Get(q, dev)) && Get(q, dev).num == q.num
    ensures Tokens(q) == Tokens(Get(q, dev)) + Received(NextToken(q, dev))
  {
    hide Sound;
    GetInv(q, dev);
    GetMovesToken(q, dev);
    InvNum(q);
    GetNum(q, dev);
  }

  lemma InvNum(q: Queue)
    requires Inv(q)
    ensures q.num >= 1
  {
  }

  lemma DoInv(s: Session, a: Action, all: multiset<Token>)
    requires SessionInv(s, all) && Allowed(s, a)
    ensures SessionInv(Do(s, a), all)
    ensures Do(s, a).ctrl.num == s.ctrl.num && Do(s, a).cursor.num == s.cursor.num
  {
    hide Inv, Tokens, QueueBuffer, QueueOne, Get, MayAdd, HasRoom, NextToken;
    match a {
      case Take =>
        if s.free != [] {
          assert s.free == [s.free[0]] + s.free[1..];
        }
      case Give(buf) =>
        OneMoves(buf, multiset(s.free), Tokens(s.ctrl) + Tokens(s.cursor), s.held);
      case SendCommand(sg, out, buf) =>
        SendCommandInv(s, sg, out, buf, all);
      case SendCursor(one, buf) =>
        SendCursorInv(s, one, buf, all);
      case ReceiveCommand(dev) =>
        ReceiveInv(s.ctrl, dev);
      case ReceiveCursor(dev) =>
        ReceiveInv(s.cursor, dev);
      case Interrupts(on) =>
        InterruptsInv(s.ctrl);
        InterruptsInv(s.cursor);
    }
  }

  lemma {:induction false} AfterInv(s: Session, actions: seq<Action>, all: multiset<Token>)
    requires SessionInv(s, all) && AllowedRun(s, actions)
    ensures SessionInv(After(s, actions), all)
    ensures After(s, actions).ctrl.num == s.ctrl.num && After(s, actions).cursor.num == s.cursor.num
    decreases |actions|
  {
    hide SessionInv;
    if actions != [] {
      DoInv(s, actions[0], all);
      AfterInv(Do(s, actions[0]), actions[1..], all);
    }
  }

  predicate DistinctAllocs(allocs: seq<Token>) {
    forall i, j :: 0 <= i < j < |allocs| && allocs[i] != NULL ==> allocs[i] != allocs[j]
  }

  /** How often a buffer is found, over all four places. */
  ghost function Places(s: Session, b: Token): nat {
    multiset(s.free)[b] + s.held[b] + Tokens(s.ctrl)[b] + Tokens(s.cursor)[b]
  }

  /**
   In every run, whatever the device writes and whether or not adds are
   refused, each allocated buffer is in exactly one place, once, and nothing
   else is anywhere.
   */
  lemma EveryBufferInOnePlace(num1: nat, num2: nat, allocs: seq<Token>, actions: seq<Action>, b: Token)
    requires RingSize(num1) && RingSize(num2) && DistinctAllocs(allocs)
    requires AllowedRun(Start(num1, num2, allocs), actions)
    ensures Places(After(Start(num1, num2, allocs), actions), b) == if b in allocs && b != NULL then 1 else 0
  {
    hide Inv;
    var all := multiset(NonNull(allocs));
    StartInv(num1, num2, allocs);
    AfterInv(Start(num1, num2, allocs), actions, all);
    var s := After(Start(num1, num2, allocs), actions);
    assert (multiset(s.free) + s.held + Tokens(s.ctrl) + Tokens(s.cursor))[b] == all[b];
    NonNullCounts(allocs, b);
  }

  lemma {:induction false} NonNullCounts(allocs: seq<Token>, b: Token)
    requires DistinctAllocs(allocs)
    ensures multiset(NonNull(allocs))[b] == if b in allocs && b != NULL then 1 else 0
  {
    if allocs != [] {
      var front, last := allocs[..|allocs| - 1], allocs[|allocs| - 1];
      assert allocs == front + [last];
      NonNullCounts(front, b);
      assert b in allocs <==> b in front || b == last;
    }
  }

  // ------------------------------------------------------------- the pool never runs dry

  lemma FreePlusHeld(s: Session, all: multiset<Token>)
    requires SessionInv(s, all) && |all| >= s.ctrl.num + s.cursor.num
    ensures |s.free| + |s.held| >= |s.ctrl.free| + |s.cursor.free|
  {
    hide Inv;
    RingTokens(s.ctrl);
    RingTokens(s.cursor);
    assert |all| == |multiset(s.free)| + |s.held| + |Tokens(s.ctrl)| + |Tokens(s.cursor)|;
  }

  lemma RingTokens(q: Queue)
    requires Inv(q)
    ensures |Tokens(q)| + |q.free| <= q.num
  {
    HeadsBelow(q);
    PendingAtMostNum(q);
    TokensCount(q.pending, q.num);
  }

  /**
   With one buffer for each descriptor of both rings, the buffers outside the
   rings are at least as many as the free descriptors; so GetBuf finds one
   whenever nothing is held and some ring has room.
   */
  lemma PoolCoversRings(num1: nat, num2: nat, allocs: seq<Token>, actions: seq<Action>)
    requires RingSize(num1) && RingSize(num2) && NULL !in allocs && |allocs| >= num1 + num2
    requires AllowedRun(Start(num1, num2, allocs), actions)
    ensures var s := After(Start(num1, num2, allocs), actions);
      && |s.free| + |s.held| >= |s.ctrl.free| + |s.cursor.free|
      && (s.held == multiset{} && |s.ctrl.free| + |s.cursor.free| > 0 ==> s.free != [])
  {
    hide Inv, Tokens;
    StartInv(num1, num2, allocs);
    NonNullKeeps(allocs);
    AfterInv(Start(num1, num2, allocs), actions, multiset(NonNull(allocs)));
    FreePlusHeld(After(Start(num1, num2, allocs), actions), multiset(NonNull(allocs)));
  }

  lemma {:induction false} NonNullKeeps(allocs: seq<Token>)
    requires NULL !in allocs
    ensures NonNull(allocs) == allocs
  {
    if allocs != [] {
      NonNullKeeps(allocs[..|allocs| - 1]);
      assert allocs[|allocs| - 1] in allocs;
      assert allocs == allocs[..|allocs| - 1] + [allocs[|allocs| - 1]];
    }
  }

  /** A send changes nothing exactly when the ring has no room; what becomes of the buffer is the caller's affair. */
  lemma RefusedStaysHeld(s: Session, sg: seq<Sg>, out: nat, buf: Token)
    requires Allowed(s, SendCommand(sg, out, buf))
    ensures Do(s, SendCommand(sg, out, buf)) == s <==> |sg| > |s.ctrl.free|
  {
    if HasRoom(s.ctrl, |sg|, None) {
      assert (s.held - multiset{buf})[buf] == s.held[buf] - 1;
    }
  }
}
