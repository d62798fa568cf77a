/**
 The resource protocol of the GPU device: over a run, the commands issued for
 each id spell create, attach, use, detach, unref, and then possibly again.
 */
module ResourceRuns {
  import opened Idr
  import opened Options
  import opened Resources

  /** What the device makes of the commands for one id. */
  datatype Stage = Absent | Created | Attached | Detached | Broken

  function Next(s: Stage, c: Command): Stage {
    match c
    case Create(_) => if s == Absent then Created else Broken
    case Attach(_) => if s == Created then Attached else Broken
    case Detach(_) => if s == Attached then Detached else Broken
    case Unref(_) => if s == Detached then Absent else Broken
    case _ => if s == Attached then Attached else Broken
  }

  function StageOf(stream: seq<Command>, id: nat): Stage {
    if stream == [] then Absent
    else
      var before, c := StageOf(stream[..|stream| - 1], id), stream[|stream| - 1];
      if c.id == id then Next(before, c) else before
  }

  /** No id is ever used out of order. */
  ghost predicate FollowsProtocol(stream: seq<Command>) {
    forall id: nat :: StageOf(stream, id) != Broken
  }

  /** Only ids that the bitmap has to give are named. */
  ghost predicate AllWithin(stream: seq<Command>, start: nat) {
    forall k :: 0 <= k < |stream| ==> start <= stream[k].id < BITS
  }

  lemma StageAppend(stream: seq<Command>, c: Command, id: nat)
    ensures StageOf(stream + [c], id) == if c.id == id then Next(StageOf(stream, id), c) else StageOf(stream, id)
  {
    assert (stream + [c])[..|stream|] == stream;
  }

  lemma {:induction false} BrokenStays(before: seq<Command>, after: seq<Command>, id: nat)
    requires before <= after && StageOf(before, id) == Broken
    ensures StageOf(after, id) == Broken
    decreases |after|
  {
    if |before| < |after| {
      BrokenStays(before, after[..|after| - 1], id);
    } else {
      assert before == after;
    }
  }

  lemma DestroyStages(stream: seq<Command>, id: nat, other: nat)
    ensures StageOf(stream + [Detach(id), Unref(id)], other)
         == if other != id then StageOf(stream, other) else if StageOf(stream, id) == Attached then Absent else Broken
  {
    StageAppend(stream, Detach(id), other);
    StageAppend(stream + [Detach(id)], Unref(id), other);
    assert stream + [Detach(id)] + [Unref(id)] == stream + [Detach(id), Unref(id)];
  }

  lemma UseStages(stream: seq<Command>, id: nat, other: nat)
    requires StageOf(stream, id) == Attached
    ensures StageOf(stream + [Transfer(id)], other) == StageOf(stream, other)
    ensures StageOf(stream + [UpdateCursor(id)], other) == StageOf(stream, other)
    ensures StageOf(stream + [MoveCursor(id)], other) == StageOf(stream, other)
    ensures StageOf(stream + [Transfer(id), Flush(id)], other) == StageOf(stream, other)
    ensures StageOf(stream + [SetScanout(id), Transfer(id), Flush(id)], other) == StageOf(stream, other)
  {
    StageAppend(stream, Transfer(id), other);
    StageAppend(stream, UpdateCursor(id), other);
    StageAppend(stream, MoveCursor(id), other);
    StageAppend(stream, SetScanout(id), other);
    var s := stream + [SetScanout(id)];
    StageAppend(stream + [Transfer(id)], Flush(id), other);
    StageAppend(s, Transfer(id), other);
    StageAppend(s + [Transfer(id)], Flush(id), other);
    assert stream + [Transfer(id)] + [Flush(id)] == stream + [Transfer(id), Flush(id)];
    assert s + [Transfer(id)] + [Flush(id)] == stream + [SetScanout(id), Transfer(id), Flush(id)];
  }

  lemma CreateStages(stream: seq<Command>, id: nat, other: nat)
    requires StageOf(stream, id) == Absent
    ensures StageOf(stream + [Create(id)], other) == if other == id then Created else StageOf(stream, other)
    ensures StageOf(stream + [Create(id)] + [Attach(id)], other)
         == if other == id then Attached else StageOf(stream, other)
  {
    StageAppend(stream, Create(id), other);
    StageAppend(stream + [Create(id)], Attach(id), other);
  }

  // ------------------------------------------------------------- invariant

  ghost function LiveOf(o: Option<nat>): set<nat> {
    if o.Some? then {o.value} else {}
  }

  ghost function Live(g: Gpu): set<nat> {
    LiveOf(g.frameBuf) + LiveOf(g.cursorBuf)
  }

  predicate IdOk(stage: Stage, taken: bool, live: bool) {
    && (stage == Absent || stage == Created || stage == Attached)
    && (live <==> stage == Attached)
    && (stage != Absent ==> taken)
  }

  function IsTaken(bits: seq<bool>, id: nat): bool {
    id < |bits| && bits[id]
  }

  ghost predicate StagesOk(bits: seq<bool>, stream: seq<Command>, live: set<nat>) {
    forall id: nat :: IdOk(StageOf(stream, id), IsTaken(bits, id), id in live)
  }

  ghost predicate Below(bits: seq<bool>, stream: seq<Command>, start: nat) {
    (forall id: nat :: id < start ==> IsTaken(bits, id) && StageOf(stream, id) == Absent) && AllWithin(stream, start)
  }

  /** leaked counts the ids that no object holds and that were never given back. */
  ghost predicate GpuInv(g: Gpu, start: nat, leaked: nat) {
    && |g.bits| == BITS
    && StagesOk(g.bits, g.stream, Live(g))
    && Below(g.bits, g.stream, start)
    && (g.frameBuf.Some? && g.cursorBuf.Some? ==> g.frameBuf.value != g.cursorBuf.value)
    && |InUse(g.bits)| == start + leaked + |LiveOf(g.frameBuf)| + |LiveOf(g.cursorBuf)|
  }

  lemma StartInv(start: nat)
    requires start <= BITS
    ensures GpuInv(Start(start), start, 0)
  {
    ReservedCount(start);
  }

  /** Destroying a buffer gives its id back, with its commands complete. */
  lemma DestroyInv(bits: seq<bool>, stream: seq<Command>, live: set<nat>, start: nat, id: nat)
    requires |bits| == BITS && StagesOk(bits, stream, live) && Below(bits, stream, start) && id in live
    ensures StagesOk(Put(bits, id), stream + [Detach(id), Unref(id)], live - {id})
    ensures Below(Put(bits, id), stream + [Detach(id), Unref(id)], start)
    ensures id >= start && |InUse(Put(bits, id))| == |InUse(bits)| - 1
  {
    hide StageOf;
    var stream' := stream + [Detach(id), Unref(id)];
    assert IdOk(StageOf(stream, id), IsTaken(bits, id), true);
    PutRemoves(bits, id);
    forall other: nat ensures StageOf(stream', other) == if other == id then Absent else StageOf(stream, other) {
      DestroyStages(stream, id, other);
    }
    forall other: nat ensures IdOk(StageOf(stream', other), IsTaken(Put(bits, id), other), other in live - {id}) {
      assert IdOk(StageOf(stream, other), IsTaken(bits, other), other in live);
    }
  }

  /** A fresh id: not in use, not below the start, and absent from the device. */
  lemma FreshId(bits: seq<bool>, stream: seq<Command>, live: set<nat>, start: nat)
    requires |bits| == BITS && StagesOk(bits, stream, live) && Below(bits, stream, start) && FirstClear(bits, 0) < BITS
    ensures var id := TakenId(bits);
      start <= id < BITS && StageOf(stream, id) == Absent && id !in live && !bits[id] && Taken(bits) == bits[id := true]
  {
    hide StageOf;
    var id := TakenId(bits);
    assert IdOk(StageOf(stream, id), IsTaken(bits, id), id in live);
    assert !IsTaken(bits, id);
  }

  /** A resource that is only created: its id is lost. */
  lemma CreateOnlyInv(bits: seq<bool>, stream: seq<Command>, live: set<nat>, start: nat)
    requires |bits| == BITS && StagesOk(bits, stream, live) && Below(bits, stream, start) && FirstClear(bits, 0) < BITS
    ensures StagesOk(Taken(bits), stream + [Create(TakenId(bits))], live)
    ensures Below(Taken(bits), stream + [Create(TakenId(bits))], start)
    ensures |InUse(Taken(bits))| == |InUse(bits)| + 1
  {
    hide StageOf;
    var id := TakenId(bits);
    FreshId(bits, stream, live, start);
    TakenAdds(bits);
    var stream' := stream + [Create(id)];
    forall other: nat ensures StageOf(stream', other) == if other == id then Created else StageOf(stream, other) {
      CreateStages(stream, id, other);
    }
    forall other: nat ensures IdOk(StageOf(stream', other), IsTaken(Taken(bits), other), other in live) {
      assert IdOk(StageOf(stream, other), IsTaken(bits, other), other in live);
    }
  }

  lemma WithinOne(stream: seq<Command>, c: Command, start: nat)
    requires AllWithin(stream, start) && start <= c.id < BITS
    ensures AllWithin(stream + [c], start)
  {
  }

  /** A resource with its backing attached is live. */
  lemma CreateAttachInv(bits: seq<bool>, stream: seq<Command>, live: set<nat>, start: nat)
    requires |bits| == BITS && StagesOk(bits, stream, live) && Below(bits, stream, start) && FirstClear(bits, 0) < BITS
    ensures StagesOk(Taken(bits), stream + [Create(TakenId(bits))] + [Attach(TakenId(bits))], live + {TakenId(bits)})
    ensures Below(Taken(bits), stream + [Create(TakenId(bits))] + [Attach(TakenId(bits))], start)
    ensures |InUse(Taken(bits))| == |InUse(bits)| + 1 && TakenId(bits) !in live
  {
    hide StageOf, AllWithin, InUse;
    var id := TakenId(bits);
    FreshId(bits, stream, live, start);
    TakenAdds(bits);
    WithinOne(stream, Create(id), start);
    WithinOne(stream + [Create(id)], Attach(id), start);
    var stream' := stream + [Create(id)] + [Attach(id)];
    forall other: nat ensures StageOf(stream', other) == if other == id then Attached else StageOf(stream, other) {
      CreateStages(stream, id, other);
    }
    forall other: nat ensures IdOk(StageOf(stream', other), IsTaken(Taken(bits), other), other in live + {id}) {
      assert IdOk(StageOf(stream, other), IsTaken(bits, other), other in live);
    }
  }

  /** The uses of a live resource. */
  predicate IsUse(uses: seq<Command>, id: nat) {
    || uses == [] || uses == [Transfer(id)] || uses == [UpdateCursor(id)] || uses == [MoveCursor(id)]
    || uses == [Transfer(id), Flush(id)] || uses == [SetScanout(id), Transfer(id), Flush(id)]
  }

  lemma UseInv(bits: seq<bool>, stream: seq<Command>, live: set<nat>, start: nat, id: nat, uses: seq<Command>)
    requires |bits| == BITS && StagesOk(bits, stream, live) && Below(bits, stream, start) && id in live
    requires IsUse(uses, id)
    ensures StagesOk(bits, stream + uses, live) && Below(bits, stream + uses, start)
  {
    hide StageOf;
    assert IdOk(StageOf(stream, id), IsTaken(bits, id), true);
    assert id >= start;
    assert stream + [] == stream;
    forall other: nat ensures StageOf(stream + uses, other) == StageOf(stream, other) {
      UseStages(stream, id, other);
    }
  }

  // ------------------------------------------------------------- every action keeps it

  /** The one failure that goes unnoticed. */
  predicate FailsAttach(a: Action) {
    a.SetMode? && a.found && a.initOk && !a.attachOk
  }

  /**
   The frame buffer object carries id 0: its attach failed, or it was created
   under the 0 that the object before it had given back.
   */
  predicate ZeroHeld(actions: seq<Action>) {
    actions != [] &&
    match actions[|actions| - 1]
    case SetMode(found, initOk, attachOk) =>
      if found then initOk && (!attachOk || ZeroHeld(actions[..|actions| - 1])) else ZeroHeld(actions[..|actions| - 1])
    case _ => ZeroHeld(actions[..|actions| - 1])
  }

  /**
   Ids lost by an action: its resource was created, and then its object or its
   backing could not be had. A frame buffer created under id 0 loses none, since
   that one was reserved before.
   */
  function Leak(a: Action, zeroHeld: bool): nat {
    match a
    case SetMode(found, initOk, attachOk) => if found && !(initOk && attachOk) && !zeroHeld then 1 else 0
    case SetPointerShape(initOk, attachOk, colorOk) => if initOk && attachOk then 0 else 1
    case _ => 0
  }

  function Leaks(actions: seq<Action>): nat {
    if actions == [] then 0
    else Leaks(actions[..|actions| - 1]) + Leak(actions[|actions| - 1], ZeroHeld(actions[..|actions| - 1]))
  }

  /** Actions that ask for an id. */
  predicate Creates(a: Action) {
    a.SetPointerShape? || (a.SetMode? && a.found)
  }

  /** An id is free when the action asks for one, after it has given its old one back. */
  predicate HasClear(g: Gpu, a: Action) {
    Creates(a) ==>
      var bits := if a.SetMode? then WithoutFrameBuffer(g).bits else WithoutCursor(g).bits;
      FirstClear(bits, 0) < |bits|
  }

  lemma WithoutFrameBufferInv(g: Gpu, start: nat, leaked: nat)
    requires GpuInv(g, start, leaked)
    ensures GpuInv(WithoutFrameBuffer(g), start, leaked) && WithoutFrameBuffer(g).frameBuf == None
    ensures WithoutFrameBuffer(g).cursorBuf == g.cursorBuf
  {
    hide StagesOk, Below, InUse, Put;
    if g.frameBuf.Some? {
      var id := g.frameBuf.value;
      DestroyInv(g.bits, g.stream, Live(g), start, id);
      assert Live(g) - {id} == Live(WithoutFrameBuffer(g));
    }
  }

  lemma WithoutCursorInv(g: Gpu, start: nat, leaked: nat)
    requires GpuInv(g, start, leaked)
    ensures GpuInv(WithoutCursor(g), start, leaked) && WithoutCursor(g).cursorBuf == None
    ensures WithoutCursor(g).frameBuf == g.frameBuf
  {
    hide StagesOk, Below, InUse, Put;
    if g.cursorBuf.Some? {
      var id := g.cursorBuf.value;
      DestroyInv(g.bits, g.stream, Live(g), start, id);
      assert Live(g) - {id} == Live(WithoutCursor(g));
    }
  }

  /** An id is free exactly when the reserved, the lost and the one of the other object leave one. */
  lemma HasClearExactly(g: Gpu, a: Action, start: nat, leaked: nat)
    requires GpuInv(g, start, leaked) && Creates(a)
    ensures HasClear(g, a) <==>
      start + leaked + (if a.SetMode? then |LiveOf(g.cursorBuf)| else |LiveOf(g.frameBuf)|) < BITS
  {
    hide StagesOk, Below, InUse, Put, WithoutFrameBuffer, WithoutCursor;
    WithoutFrameBufferInv(g, start, leaked);
    WithoutCursorInv(g, start, leaked);
    ClearExactly(WithoutFrameBuffer(g).bits);
    ClearExactly(WithoutCursor(g).bits);
  }

  lemma SetModeInv(g: Gpu, start: nat, leaked: nat, initOk: bool, attachOk: bool)
    requires GpuInv(g, start, leaked) && HasClear(g, SetMode(true, initOk, attachOk)) && (initOk ==> attachOk)
    ensures GpuInv(WithFrameBuffer(WithoutFrameBuffer(g), initOk, attachOk), start, leaked + (if initOk then 0 else 1))
  {
    hide StagesOk, Below, InUse, Put, Taken, TakenId;
    WithoutFrameBufferInv(g, start, leaked);
    var h := WithoutFrameBuffer(g);
    var id := TakenId(h.bits);
    FreshId(h.bits, h.stream, Live(h), start);
    if initOk {
      CreateAttachInv(h.bits, h.stream, Live(h), start);
      var s := h.stream + [Create(id)] + [Attach(id)];
      UseInv(Taken(h.bits), s, Live(h) + {id}, start, id, [SetScanout(id), Transfer(id), Flush(id)]);
      assert WithFrameBuffer(h, true, true).stream == s + [SetScanout(id), Transfer(id), Flush(id)];
      assert Live(WithFrameBuffer(h, true, true)) == Live(h) + {id};
    } else {
      CreateOnlyInv(h.bits, h.stream, Live(h), start);
    }
  }

  lemma SetShapeInv(g: Gpu, start: nat, leaked: nat, initOk: bool, attachOk: bool, colorOk: bool)
    requires GpuInv(g, start, leaked) && HasClear(g, SetPointerShape(initOk, attachOk, colorOk))
    ensures GpuInv(Do(g, SetPointerShape(initOk, attachOk, colorOk)), start,
                   leaked + (if initOk && attachOk then 0 else 1))
  {
    hide StagesOk, Below, InUse, Put, Taken, TakenId;
    WithoutCursorInv(g, start, leaked);
    var h, g' := WithoutCursor(g), Do(g, SetPointerShape(initOk, attachOk, colorOk));
    var id := TakenId(h.bits);
    FreshId(h.bits, h.stream, Live(h), start);
    if initOk && attachOk {
      CreateAttachInv(h.bits, h.stream, Live(h), start);
      var s := h.stream + [Create(id)] + [Attach(id)];
      assert Live(g') == Live(h) + {id};
      if colorOk {
        UseInv(Taken(h.bits), s, Live(h) + {id}, start, id, [Transfer(id)]);
        UseInv(Taken(h.bits), s + [Transfer(id)], Live(h) + {id}, start, id, [UpdateCursor(id)]);
      } else {
        assert g'.stream == s;
      }
    } else {
      CreateOnlyInv(h.bits, h.stream, Live(h), start);
    }
  }

  lemma DoInv(g: Gpu, a: Action, start: nat, leaked: nat)
    requires GpuInv(g, start, leaked) && Allowed(g, a) && !FailsAttach(a) && HasClear(g, a)
    ensures GpuInv(Do(g, a), start, leaked + Leak(a, false))
  {
    hide StagesOk, Below, InUse, Put, Taken, TakenId, WithFrameBuffer, WithoutFrameBuffer, WithCursor, WithoutCursor;
    match a {
      case SetMode(found, initOk, attachOk) =>
        if found {
          SetModeInv(g, start, leaked, initOk, attachOk);
        }
      case SetPointerShape(initOk, attachOk, colorOk) =>
        SetShapeInv(g, start, leaked, initOk, attachOk, colorOk);
      case SetPointerPosition =>
        UseInv(g.bits, g.stream, Live(g), start, g.cursorBuf.value, [MoveCursor(g.cursorBuf.value)]);
      case Present =>
        UseInv(g.bits, g.stream, Live(g), start, g.frameBuf.value,
               [Transfer(g.frameBuf.value), Flush(g.frameBuf.value)]);
    }
  }

  /** After an unnoticed failure the scanout is set to a resource without backing. */
  lemma FailedAttachBreaks(g: Gpu, a: Action, start: nat, leaked: nat)
    requires GpuInv(g, start, leaked) && FailsAttach(a) && HasClear(g, a)
    ensures !FollowsProtocol(Do(g, a).stream)
  {
    hide StagesOk, Below, InUse, Put, Taken, TakenId;
    WithoutFrameBufferInv(g, start, leaked);
    var h := WithoutFrameBuffer(g);
    var id := TakenId(h.bits);
    FreshId(h.bits, h.stream, Live(h), start);
    CreateStages(h.stream, id, id);
    StageAppend(h.stream + [Create(id)], SetScanout(id), id);
    assert StageOf(h.stream + [Create(id)] + [SetScanout(id)], id) == Broken;
    assert Do(g, a).stream == h.stream + [Create(id)] + [SetScanout(id)] + [Transfer(id), Flush(id)];
    BrokenStays(h.stream + [Create(id)] + [SetScanout(id)], Do(g, a).stream, id);
  }

  /** Without a free id the driver goes on under the number that GetId answers then. */
  lemma ExhaustedNamesNoId(g: Gpu, a: Action)
    requires Allowed(g, a) && !HasClear(g, a)
    ensures Create(NO_ID) in Do(g, a).stream
  {
    hide Put;
    var h := if a.SetMode? then WithoutFrameBuffer(g) else WithoutCursor(g);
    assert TakenId(h.bits) == NO_ID;
    assert (h.stream + [Create(NO_ID)])[|h.stream|] == Create(NO_ID);
    assert h.stream + [Create(NO_ID)] <= Do(g, a).stream;
  }

  lemma StreamGrows(g: Gpu, a: Action)
    requires Allowed(g, a)
    ensures g.stream <= Do(g, a).stream
  {
    hide Put, Taken, TakenId;
  }

  // ------------------------------------------------------------- which objects there are

  /** A run and one more action. */
  lemma {:induction false} RunAppend(g: Gpu, actions: seq<Action>, a: Action)
    ensures AllowedRun(g, actions + [a]) <==> AllowedRun(g, actions) && Allowed(After(g, actions), a)
    ensures AllowedRun(g, actions + [a]) ==> After(g, actions + [a]) == Do(After(g, actions), a)
    decreases |actions|
  {
    hide Allowed, Do;
    var all := actions + [a];
    if actions == [] {
      assert all[0] == a && all[1..] == [];
    } else {
      assert all[0] == actions[0] && all[1..] == actions[1..] + [a];
      if Allowed(g, actions[0]) {
        RunAppend(Do(g, actions[0]), actions[1..], a);
      }
    }
  }

  lemma RunSplit(g: Gpu, actions: seq<Action>)
    requires actions != []
    ensures var front, a := actions[..|actions| - 1], actions[|actions| - 1];
      && (AllowedRun(g, actions) <==> AllowedRun(g, front) && Allowed(After(g, front), a))
      && (AllowedRun(g, actions) ==> After(g, actions) == Do(After(g, front), a))
  {
    hide AllowedRun, After, Allowed, Do;
    var front, a := actions[..|actions| - 1], actions[|actions| - 1];
    assert actions == front + [a];
    RunAppend(g, front, a);
  }

  /** The last pointer shape was set up as far as its backing. */
  predicate HasCursor(actions: seq<Action>) {
    actions != [] &&
    match actions[|actions| - 1]
    case SetPointerShape(initOk, attachOk, _) => initOk && attachOk
    case _ => HasCursor(actions[..|actions| - 1])
  }

  /** The last mode that was found got its object. */
  predicate HasFrameBuffer(actions: seq<Action>) {
    actions != [] &&
    match actions[|actions| - 1]
    case SetMode(found, initOk, _) => if found then initOk else HasFrameBuffer(actions[..|actions| - 1])
    case _ => HasFrameBuffer(actions[..|actions| - 1])
  }

  lemma ObjectsStep(g: Gpu, a: Action)
    requires Allowed(g, a)
    ensures Do(g, a).cursorBuf.Some? == if a.SetPointerShape? then a.initOk && a.attachOk else g.cursorBuf.Some?
    ensures Do(g, a).frameBuf.Some? == if a.SetMode? && a.found then a.initOk else g.frameBuf.Some?
  {
    hide Put, Taken, TakenId;
  }

  /** After a run there is a cursor, or a frame buffer, exactly when the last action that sets one up got it. */
  lemma {:induction false} ObjectsAfter(start: nat, actions: seq<Action>)
    requires AllowedRun(Start(start), actions)
    ensures After(Start(start), actions).cursorBuf.Some? <==> HasCursor(actions)
    ensures After(Start(start), actions).frameBuf.Some? <==> HasFrameBuffer(actions)
    decreases |actions|
  {
    hide AllowedRun, Do, Allowed;
    if actions != [] {
      var front, a := actions[..|actions| - 1], actions[|actions| - 1];
      RunSplit(Start(start), actions);
      ObjectsAfter(start, front);
      ObjectsStep(After(Start(start), front), a);
    }
  }

  /** The pointer is moved only while there is a cursor, and presents come only while there is a frame buffer. */
  ghost predicate NoNull(actions: seq<Action>) {
    forall i :: 0 <= i < |actions| ==> NoNullAt(actions, i)
  }

  predicate NoNullAt(actions: seq<Action>, i: nat)
    requires i < |actions|
  {
    && (actions[i].SetPointerPosition? ==> HasCursor(actions[..i]))
    && (actions[i].Present? ==> HasFrameBuffer(actions[..i]))
  }

  /** Exactly the runs that dereference a missing object are left out of the theorems below. */
  lemma {:induction false} DereferencesNullExactly(start: nat, actions: seq<Action>)
    ensures AllowedRun(Start(start), actions) <==> NoNull(actions)
    decreases |actions|
  {
    hide AllowedRun, After, HasCursor, HasFrameBuffer;
    if actions == [] {
      EmptyRun(Start(start));
    } else {
      var front, a := actions[..|actions| - 1], actions[|actions| - 1];
      RunSplit(Start(start), actions);
      DereferencesNullExactly(start, front);
      NoNullSplit(actions);
      if AllowedRun(Start(start), front) {
        ObjectsAfter(start, front);
      }
    }
  }

  lemma EmptyRun(g: Gpu)
    ensures AllowedRun(g, []) && After(g, []) == g
  {
  }

  lemma NoNullSplit(actions: seq<Action>)
    requires actions != []
    ensures NoNull(actions) <==> NoNull(actions[..|actions| - 1]) && NoNullAt(actions, |actions| - 1)
  {
    hide HasCursor, HasFrameBuffer;
    var front := actions[..|actions| - 1];
    forall i | 0 <= i < |front| ensures NoNullAt(front, i) <==> NoNullAt(actions, i) {
      assert front[..i] == actions[..i];
    }
  }

  // ------------------------------------------------------------- when ids run out

  ghost predicate AllAttach(actions: seq<Action>) {
    forall i :: 0 <= i < |actions| ==> !FailsAttach(actions[i])
  }

  /** What is reserved, lost and held leaves an id for action i; one that gives back id 0 gets that. */
  predicate RoomAt(start: nat, actions: seq<Action>, i: nat)
    requires i < |actions|
  {
    var before := actions[..i];
    match actions[i]
    case SetMode(found, _, _) =>
      !found || ZeroHeld(before) || start + Leaks(before) + (if HasCursor(before) then 1 else 0) < BITS
    case SetPointerShape(_, _, _) =>
      start + Leaks(before) + (if HasFrameBuffer(before) && !ZeroHeld(before) then 1 else 0) < BITS
    case _ => true
  }

  /** There is room for each action. */
  ghost predicate RoomThroughout(start: nat, actions: seq<Action>) {
    forall i :: 0 <= i < |actions| ==> RoomAt(start, actions, i)
  }

  /** There is room for each action, up to the first attach that fails. */
  ghost predicate RoomToFailure(start: nat, actions: seq<Action>) {
    forall i :: 0 <= i < |actions| && AllAttach(actions[..i]) ==> RoomAt(start, actions, i)
  }

  lemma {:induction false} AttachedIsNotZero(actions: seq<Action>)
    requires AllAttach(actions)
    ensures !ZeroHeld(actions)
  {
    if actions != [] {
      AttachedIsNotZero(actions[..|actions| - 1]);
      assert !FailsAttach(actions[|actions| - 1]);
    }
  }

  lemma AttachedRooms(start: nat, actions: seq<Action>)
    ensures RoomThroughout(start, actions) ==> RoomToFailure(start, actions)
    ensures AllAttach(actions) ==> (RoomThroughout(start, actions) <==> RoomToFailure(start, actions))
  {
    hide RoomAt;
    if AllAttach(actions) && RoomToFailure(start, actions) {
      forall i | 0 <= i < |actions| ensures RoomAt(start, actions, i) {
        PrefixAttaches(actions, i);
      }
    }
  }

  lemma AttachSplit(actions: seq<Action>)
    requires actions != []
    ensures AllAttach(actions) <==> AllAttach(actions[..|actions| - 1]) && !FailsAttach(actions[|actions| - 1])
  {
  }

  lemma RoomSplit(start: nat, actions: seq<Action>)
    requires actions != []
    ensures RoomThroughout(start, actions) <==>
      RoomThroughout(start, actions[..|actions| - 1]) && RoomAt(start, actions, |actions| - 1)
    ensures RoomToFailure(start, actions) <==>
      && RoomToFailure(start, actions[..|actions| - 1])
      && (AllAttach(actions[..|actions| - 1]) ==> RoomAt(start, actions, |actions| - 1))
  {
    hide HasCursor, HasFrameBuffer, ZeroHeld, Leaks, AllAttach;
    var front := actions[..|actions| - 1];
    forall i | 0 <= i < |front|
      ensures AllAttach(front[..i]) <==> AllAttach(actions[..i])
      ensures RoomAt(start, front, i) <==> RoomAt(start, actions, i)
    {
      assert front[..i] == actions[..i];
    }
  }

  /** At the end of a run, room in the list of actions is a free id in the bitmap. */
  lemma RoomIsClear(start: nat, actions: seq<Action>)
    requires actions != [] && AllAttach(actions[..|actions| - 1])
    requires AllowedRun(Start(start), actions[..|actions| - 1])
    requires GpuInv(After(Start(start), actions[..|actions| - 1]), start, Leaks(actions[..|actions| - 1]))
    ensures HasClear(After(Start(start), actions[..|actions| - 1]), actions[|actions| - 1]) <==>
      RoomAt(start, actions, |actions| - 1)
  {
    hide AllowedRun, After, GpuInv, HasCursor, HasFrameBuffer, ZeroHeld, Leaks;
    var front, a := actions[..|actions| - 1], actions[|actions| - 1];
    ObjectsAfter(start, front);
    AttachedIsNotZero(front);
    if Creates(a) {
      HasClearExactly(After(Start(start), front), a, start, Leaks(front));
    }
  }

  lemma {:induction false} RunKeepsInv(start: nat, actions: seq<Action>)
    requires start <= BITS && AllowedRun(Start(start), actions) && AllAttach(actions) && RoomToFailure(start, actions)
    ensures GpuInv(After(Start(start), actions), start, Leaks(actions))
    decreases |actions|
  {
    hide AllowedRun, After, GpuInv, AllAttach, RoomThroughout, RoomToFailure, RoomAt, HasClear, Do, Allowed, ZeroHeld;
    if actions == [] {
      EmptyRun(Start(start));
      StartInv(start);
    } else {
      var front, a := actions[..|actions| - 1], actions[|actions| - 1];
      RunSplit(Start(start), actions);
      AttachSplit(actions);
      RoomSplit(start, actions);
      RunKeepsInv(start, front);
      RoomIsClear(start, actions);
      AttachedIsNotZero(front);
      DoInv(After(Start(start), front), a, start, Leaks(front));
    }
  }

  lemma PrefixAttaches(actions: seq<Action>, n: nat)
    requires AllAttach(actions) && n <= |actions|
    ensures AllAttach(actions[..n])
  {
  }

  lemma WithinPrefix(before: seq<Command>, after: seq<Command>, start: nat)
    requires before <= after
    ensures AllWithin(after, start) ==> AllWithin(before, start)
  {
    assert forall k :: 0 <= k < |before| ==> before[k] == after[k];
  }

  lemma InvWithin(g: Gpu, start: nat, leaked: nat)
    requires GpuInv(g, start, leaked)
    ensures AllWithin(g.stream, start)
  {
  }

  lemma NoIdIsOutside(stream: seq<Command>, start: nat)
    requires Create(NO_ID) in stream
    ensures !AllWithin(stream, start)
  {
  }

  // ------------------------------------------------------------- the protocol over whole runs

  lemma FollowsPrefix(before: seq<Command>, after: seq<Command>)
    requires before <= after && FollowsProtocol(after)
    ensures FollowsProtocol(before)
  {
    hide StageOf;
    forall id: nat ensures StageOf(before, id) != Broken {
      if StageOf(before, id) == Broken {
        BrokenStays(before, after, id);
      }
    }
  }

  /** A run that follows the protocol has had no attach fail, if there was room up to then. */
  lemma {:induction false} FailedRunBreaks(start: nat, actions: seq<Action>)
    requires start <= BITS && AllowedRun(Start(start), actions)
    requires FollowsProtocol(After(Start(start), actions).stream)
    requires RoomToFailure(start, actions) || AllWithin(After(Start(start), actions).stream, start)
    ensures AllAttach(actions) && RoomToFailure(start, actions)
    decreases |actions|
  {
    hide AllowedRun, After, GpuInv, AllAttach, RoomThroughout, RoomToFailure, RoomAt, HasClear, Do, Allowed,
         FollowsProtocol,
         AllWithin, ZeroHeld;
    if actions == [] {
      NoActions(start);
    } else {
      var front, a := actions[..|actions| - 1], actions[|actions| - 1];
      RunSplit(Start(start), actions);
      var g := After(Start(start), front);
      AttachSplit(actions);
      RoomSplit(start, actions);
      StreamGrows(g, a);
      WithinPrefix(g.stream, Do(g, a).stream, start);
      FollowsPrefix(g.stream, Do(g, a).stream);
      FailedRunBreaks(start, front);
      RunKeepsInv(start, front);
      RoomIsClear(start, actions);
      if !HasClear(g, a) {
        ExhaustedNamesNoId(g, a);
        NoIdIsOutside(Do(g, a).stream, start);
      } else if FailsAttach(a) {
        FailedAttachBreaks(g, a, start, Leaks(front));
      }
    }
  }

  lemma NoActions(start: nat)
    ensures AllAttach([]) && RoomToFailure(start, [])
  {
  }

  /** With every attach successful and room throughout, all is well at the end. */
  lemma AttachedRunFollows(start: nat, actions: seq<Action>)
    requires start <= BITS && AllowedRun(Start(start), actions) && AllAttach(actions) && RoomToFailure(start, actions)
    ensures var g := After(Start(start), actions);
      && FollowsProtocol(g.stream) && AllWithin(g.stream, start)
      && (g.frameBuf.Some? && g.cursorBuf.Some? ==> g.frameBuf.value != g.cursorBuf.value)
  {
    hide AllowedRun, After, StageOf, InUse, AllAttach, RoomToFailure;
    var g := After(Start(start), actions);
    RunKeepsInv(start, actions);
    assert forall id: nat :: IdOk(StageOf(g.stream, id), IsTaken(g.bits, id), id in Live(g));
  }

  /**
   Over every run: the commands follow the protocol and name only ids that the
   bitmap has to give exactly when every attach of a frame buffer succeeded and
   the ids lasted. As long as they last up to the first attach that fails,
   following the protocol is by itself the same as that none fails. The two live
   resources then have different ids.
   */
  lemma ProtocolExactlyWhenAttached(start: nat, actions: seq<Action>)
    requires start <= BITS && AllowedRun(Start(start), actions)
    ensures var stream := After(Start(start), actions).stream;
      FollowsProtocol(stream) && AllWithin(stream, start) <==> AllAttach(actions) && RoomThroughout(start, actions)
    ensures RoomToFailure(start, actions) ==>
      (FollowsProtocol(After(Start(start), actions).stream) <==> AllAttach(actions))
    ensures AllAttach(actions) && RoomThroughout(start, actions) ==>
      var g := After(Start(start), actions);
      g.frameBuf.Some? && g.cursorBuf.Some? ==> g.frameBuf.value != g.cursorBuf.value
  {
    hide AllowedRun, After, FollowsProtocol, AllWithin, AllAttach, RoomThroughout, RoomToFailure;
    AttachedRooms(start, actions);
    var stream := After(Start(start), actions).stream;
    if AllAttach(actions) && RoomToFailure(start, actions) {
      AttachedRunFollows(start, actions);
    }
    if FollowsProtocol(stream) && (RoomToFailure(start, actions) || AllWithin(stream, start)) {
      FailedRunBreaks(start, actions);
    }
  }

  /** After a failed attach the driver gives id 0 back, though it never had it, and then hands it out. */
  lemma FailedAttachHandsOutZero(g: Gpu)
    requires |g.bits| == BITS
    ensures var actions := [SetMode(true, true, false), SetMode(true, true, true)];
      AllowedRun(g, actions) && Create(0) in After(g, actions).stream && After(g, actions).frameBuf == Some(0)
  {
    var first, second := SetMode(true, true, false), SetMode(true, true, true);
    var g1 := Do(g, first);
    var g2 := Do(g1, second);
    assert g1.frameBuf == Some(0);
    assert !Put(g1.bits, 0)[0];
    assert TakenId(Put(g1.bits, 0)) == 0;
    var h := WithoutFrameBuffer(g1);
    assert (h.stream + [Create(0)])[|h.stream|] == Create(0);
    assert Create(0) in g2.stream;
    TwoSteps(g, first, second);
  }

  lemma TwoSteps(g: Gpu, first: Action, second: Action)
    requires Allowed(g, first) && Allowed(Do(g, first), second)
    ensures AllowedRun(g, [first, second]) && After(g, [first, second]) == Do(Do(g, first), second)
  {
    hide Do, Allowed;
    var actions, g' := [first, second], Do(g, first);
    assert actions[1..] == [second] && actions[0] == first;
    assert [second][1..] == [] && [second][0] == second;
    assert AllowedRun(g', [second]) && After(g', [second]) == Do(g', second);
    assert AllowedRun(g, actions);
  }

  /** The device object on any run that dereferences no missing object, whatever fails in it. */
  method Execute(device: GpuDevice, actions: seq<Action>, ghost start: nat)
    requires device.Valid() && device.State() == Start(start) && NoNull(actions)
    modifies device, device.idr.bitmap
    ensures device.Valid() && device.idr.bitmap == old(device.idr.bitmap)
    ensures AllowedRun(Start(start), actions) && device.State() == After(Start(start), actions)
    ensures start <= BITS ==>
      (FollowsProtocol(device.stream) && AllWithin(device.stream, start)
       <==> AllAttach(actions) && RoomThroughout(start, actions))
    ensures start <= BITS && RoomToFailure(start, actions) ==> (FollowsProtocol(device.stream) <==> AllAttach(actions))
  {
    hide Allowed, Do, FollowsProtocol, AllWithin, Reserved, NoNull, RoomThroughout, RoomToFailure, AllAttach;
    DereferencesNullExactly(start, actions);
    assert actions[0..] == actions;
    for i := 0 to |actions|
      invariant device.Valid() && device.idr.bitmap == old(device.idr.bitmap)
      invariant AllowedRun(device.State(), actions[i..])
      invariant After(device.State(), actions[i..]) == After(Start(start), actions)
    {
      assert actions[i..][0] == actions[i] && actions[i..][1..] == actions[i + 1..];
      device.Perform(actions[i]);
    }
    if start <= BITS {
      ProtocolExactlyWhenAttached(start, actions);
    }
  }
}
