/**
 How long the resource ids last, over every run: also when a frame buffer
 carries id 0 after its attach failed.
 */
module IdRuns {
  import opened Idr
  import opened Options
  import opened ResourceRuns
  import opened Resources

  // ------------------------------------------------------------- counting ids

  ghost predicate InBitmap(stream: seq<Command>) {
    forall k :: 0 <= k < |stream| ==> stream[k].id < BITS
  }

  /** An object with an id of its own, which is set in the bitmap. */
  predicate Holds(bits: seq<bool>, o: Option<nat>) {
    o.Some? ==> o.value != 0 && IsTaken(bits, o.value)
  }

  /** Bit 0 is reserved. The frame buffer has it exactly when zero holds; else each object has an id of its own. */
  ghost predicate CountInv(g: Gpu, start: nat, lost: nat, zero: bool) {
    && |g.bits| == BITS && g.bits[0] && InBitmap(g.stream)
    && (if zero then g.frameBuf == Some(0) else Holds(g.bits, g.frameBuf))
    && Holds(g.bits, g.cursorBuf)
    && (g.frameBuf.Some? && g.cursorBuf.Some? ==> g.frameBuf.value != g.cursorBuf.value)
    && |InUse(g.bits)| == start + lost + One(g.frameBuf.Some? && !zero) + One(g.cursorBuf.Some?)
  }

  function One(b: bool): nat {
    if b then 1 else 0
  }

  lemma StartCounts(start: nat)
    requires 1 <= start <= BITS
    ensures CountInv(Start(start), start, 0, false)
  {
    ReservedCount(start);
  }

  lemma MoreInBitmap(stream: seq<Command>, more: seq<Command>)
    requires InBitmap(stream) && InBitmap(more)
    ensures InBitmap(stream + more)
  {
  }

  /** The state after the old frame buffer has given its id back. */
  lemma FrameBufferFreed(g: Gpu, start: nat, lost: nat, zero: bool)
    requires CountInv(g, start, lost, zero)
    ensures var h := WithoutFrameBuffer(g);
      && |h.bits| == BITS && InBitmap(h.stream) && h.frameBuf == None && h.cursorBuf == g.cursorBuf
      && Holds(h.bits, h.cursorBuf)
      && (zero ==> h.bits == g.bits[0 := false])
      && (!zero ==> h.bits[0] && |InUse(h.bits)| == start + lost + One(h.cursorBuf.Some?))
  {
    if g.frameBuf.Some? {
      var id := g.frameBuf.value;
      assert InBitmap([Detach(id), Unref(id)]);
      MoreInBitmap(g.stream, [Detach(id), Unref(id)]);
      PutRemoves(g.bits, id);
    }
  }

  lemma CursorFreed(g: Gpu, start: nat, lost: nat, zero: bool)
    requires CountInv(g, start, lost, zero)
    ensures CountInv(WithoutCursor(g), start, lost, zero) && WithoutCursor(g).cursorBuf == None
    ensures WithoutCursor(g).frameBuf == g.frameBuf
  {
    if g.cursorBuf.Some? {
      var id := g.cursorBuf.value;
      assert InBitmap([Detach(id), Unref(id)]);
      MoreInBitmap(g.stream, [Detach(id), Unref(id)]);
      PutRemoves(g.bits, id);
    }
  }

  /** An id is free exactly when the counts leave one, or the frame buffer is about to give back id 0. */
  lemma ClearExactlyByCount(g: Gpu, a: Action, start: nat, lost: nat, zero: bool)
    requires CountInv(g, start, lost, zero) && Creates(a)
    ensures HasClear(g, a) <==>
      if a.SetMode? then zero || start + lost + One(g.cursorBuf.Some?) < BITS
      else start + lost + One(g.frameBuf.Some? && !zero) < BITS
  {
    hide InUse, Put;
    FrameBufferFreed(g, start, lost, zero);
    CursorFreed(g, start, lost, zero);
    ClearExactly(WithoutFrameBuffer(g).bits);
    ClearExactly(WithoutCursor(g).bits);
    if zero {
      assert !WithoutFrameBuffer(g).bits[0];
    }
  }

  /** Whether the frame buffer carries id 0 after a mode set. */
  predicate ZeroAfter(zero: bool, initOk: bool, attachOk: bool) {
    initOk && (!attachOk || zero)
  }

  lemma ModeCounts(g: Gpu, start: nat, lost: nat, zero: bool, initOk: bool, attachOk: bool)
    requires CountInv(g, start, lost, zero) && HasClear(g, SetMode(true, initOk, attachOk))
    ensures CountInv(WithFrameBuffer(WithoutFrameBuffer(g), initOk, attachOk), start,
                     lost + Leak(SetMode(true, initOk, attachOk), zero), ZeroAfter(zero, initOk, attachOk))
  {
    hide InUse, Put, InBitmap;
    FrameBufferFreed(g, start, lost, zero);
    var h := WithoutFrameBuffer(g);
    var id := TakenId(h.bits);
    if zero {
      assert id == 0 && Taken(h.bits) == g.bits;
    } else {
      TakenAdds(h.bits);
    }
    ModeNames(h, id, initOk, attachOk);
  }

  lemma ModeNames(h: Gpu, id: nat, initOk: bool, attachOk: bool)
    requires InBitmap(h.stream) && id == TakenId(h.bits) < BITS
    ensures InBitmap(WithFrameBuffer(h, initOk, attachOk).stream)
  {
    var attached := if attachOk then [Attach(id)] else [];
    assert InBitmap([Create(id)]) && InBitmap(attached) && InBitmap([SetScanout(id), Transfer(id), Flush(id)]);
    MoreInBitmap(h.stream, [Create(id)]);
    MoreInBitmap(h.stream + [Create(id)], attached);
    MoreInBitmap(h.stream + [Create(id)] + attached, [SetScanout(id), Transfer(id), Flush(id)]);
    assert h.stream + [Create(id)] + (attached + [SetScanout(id), Transfer(id), Flush(id)])
        == h.stream + [Create(id)] + attached + [SetScanout(id), Transfer(id), Flush(id)];
  }

  lemma ShapeCounts(g: Gpu, start: nat, lost: nat, zero: bool, a: Action)
    requires CountInv(g, start, lost, zero) && a.SetPointerShape? && HasClear(g, a)
    ensures CountInv(Do(g, a), start, lost + Leak(a, zero), zero)
  {
    hide InUse, Put, InBitmap;
    CursorFreed(g, start, lost, zero);
    var h := WithoutCursor(g);
    TakenAdds(h.bits);
    ShapeNames(h, TakenId(h.bits), a.initOk, a.attachOk, a.colorOk);
  }

  lemma ShapeNames(h: Gpu, id: nat, initOk: bool, attachOk: bool, colorOk: bool)
    requires InBitmap(h.stream) && id == TakenId(h.bits) < BITS
    ensures InBitmap(WithCursor(h, initOk, attachOk, colorOk).stream)
    ensures InBitmap(WithCursor(h, initOk, attachOk, colorOk).stream + [UpdateCursor(id)])
  {
    var sent := if colorOk then [Transfer(id)] else [];
    assert InBitmap([Create(id)]) && InBitmap([Attach(id)]) && InBitmap(sent) && InBitmap([UpdateCursor(id)]);
    MoreInBitmap(h.stream, [Create(id)]);
    MoreInBitmap(h.stream + [Create(id)], [Attach(id)]);
    MoreInBitmap(h.stream + [Create(id)] + [Attach(id)], sent);
    MoreInBitmap(WithCursor(h, initOk, attachOk, colorOk).stream, [UpdateCursor(id)]);
  }

  lemma UseCounts(g: Gpu, start: nat, lost: nat, zero: bool, a: Action)
    requires CountInv(g, start, lost, zero) && Allowed(g, a) && (a.SetPointerPosition? || a.Present?)
    ensures CountInv(Do(g, a), start, lost, zero)
  {
    if a.Present? {
      var id := g.frameBuf.value;
      assert InBitmap([Transfer(id), Flush(id)]);
      MoreInBitmap(g.stream, [Transfer(id), Flush(id)]);
    } else {
      var id := g.cursorBuf.value;
      assert InBitmap([MoveCursor(id)]);
      MoreInBitmap(g.stream, [MoveCursor(id)]);
    }
  }

  /** Whether the frame buffer carries id 0 after an action. */
  predicate ZeroNext(zero: bool, a: Action) {
    match a
    case SetMode(found, initOk, attachOk) => if found then ZeroAfter(zero, initOk, attachOk) else zero
    case _ => zero
  }

  lemma DoCounts(g: Gpu, a: Action, start: nat, lost: nat, zero: bool)
    requires CountInv(g, start, lost, zero) && Allowed(g, a) && HasClear(g, a)
    ensures CountInv(Do(g, a), start, lost + Leak(a, zero), ZeroNext(zero, a))
  {
    hide CountInv, HasClear, WithFrameBuffer, WithoutFrameBuffer, WithCursor, WithoutCursor;
    match a {
      case SetMode(found, initOk, attachOk) =>
        if found {
          ModeCounts(g, start, lost, zero, initOk, attachOk);
        }
      case SetPointerShape(_, _, _) => ShapeCounts(g, start, lost, zero, a);
      case _ => UseCounts(g, start, lost, zero, a);
    }
  }

  // ------------------------------------------------------------- whole runs

  /** Every action of the run that asks for an id finds one. */
  ghost predicate AlwaysClear(start: nat, actions: seq<Action>) {
    forall i :: 0 <= i < |actions| ==> ClearAt(start, actions, i)
  }

  ghost predicate ClearAt(start: nat, actions: seq<Action>, i: nat)
    requires i < |actions|
  {
    AllowedRun(Start(start), actions[..i]) && HasClear(After(Start(start), actions[..i]), actions[i])
  }

  lemma ClearSplit(start: nat, actions: seq<Action>)
    requires actions != []
    ensures AlwaysClear(start, actions) <==>
      AlwaysClear(start, actions[..|actions| - 1]) && ClearAt(start, actions, |actions| - 1)
  {
    hide AllowedRun, After, HasClear;
    var front := actions[..|actions| - 1];
    forall i | 0 <= i < |front| ensures ClearAt(start, front, i) <==> ClearAt(start, actions, i) {
      assert front[..i] == actions[..i];
    }
  }

  lemma ZeroSplit(actions: seq<Action>)
    requires actions != []
    ensures ZeroHeld(actions) == ZeroNext(ZeroHeld(actions[..|actions| - 1]), actions[|actions| - 1])
  {
  }

  lemma {:induction false} RunCounts(start: nat, actions: seq<Action>)
    requires 1 <= start <= BITS && AllowedRun(Start(start), actions) && AlwaysClear(start, actions)
    ensures CountInv(After(Start(start), actions), start, Leaks(actions), ZeroHeld(actions))
    decreases |actions|
  {
    hide AllowedRun, After, CountInv, AlwaysClear, HasClear, Do, Allowed, ZeroHeld, Leak, ZeroNext;
    if actions == [] {
      EmptyRun(Start(start));
      StartCounts(start);
      NothingHeld();
    } else {
      var front, a := actions[..|actions| - 1], actions[|actions| - 1];
      RunSplit(Start(start), actions);
      ClearSplit(start, actions);
      RunCounts(start, front);
      DoCounts(After(Start(start), front), a, start, Leaks(front), ZeroHeld(front));
      ZeroSplit(actions);
    }
  }

  lemma NothingHeld()
    ensures !ZeroHeld([])
  {
  }

  /** At the end of a run in which the ids lasted, room in the list of actions is a free id in the bitmap. */
  lemma RoomIsClearByCount(start: nat, actions: seq<Action>)
    requires 1 <= start <= BITS && actions != [] && AllowedRun(Start(start), actions)
    requires AlwaysClear(start, actions[..|actions| - 1])
    ensures ClearAt(start, actions, |actions| - 1) <==> RoomAt(start, actions, |actions| - 1)
  {
    hide AllowedRun, After, CountInv, AlwaysClear, HasCursor, HasFrameBuffer, ZeroHeld, Leaks, Do, Allowed;
    var front, a := actions[..|actions| - 1], actions[|actions| - 1];
    RunSplit(Start(start), actions);
    RunCounts(start, front);
    ObjectsAfter(start, front);
    if Creates(a) {
      ClearExactlyByCount(After(Start(start), front), a, start, Leaks(front), ZeroHeld(front));
    }
  }

  lemma {:induction false} RoomExactly(start: nat, actions: seq<Action>)
    requires 1 <= start <= BITS && AllowedRun(Start(start), actions)
    ensures AlwaysClear(start, actions) <==> RoomThroughout(start, actions)
    ensures InBitmap(After(Start(start), actions).stream) <==> RoomThroughout(start, actions)
    decreases |actions|
  {
    hide AllowedRun, After, CountInv, RoomThroughout, RoomToFailure, RoomAt, AlwaysClear, Do, Allowed, InBitmap,
         HasClear;
    if actions == [] {
      NothingYet(start);
    } else {
      var front, a := actions[..|actions| - 1], actions[|actions| - 1];
      RunSplit(Start(start), actions);
      var g := After(Start(start), front);
      ClearSplit(start, actions);
      RoomSplit(start, actions);
      RoomExactly(start, front);
      StreamGrows(g, a);
      BitmapPrefix(g.stream, Do(g, a).stream);
      if AlwaysClear(start, front) {
        RoomIsClearByCount(start, actions);
        if ClearAt(start, actions, |actions| - 1) {
          RunCounts(start, actions);
          CountsInBitmap(Do(g, a), start, Leaks(actions), ZeroHeld(actions));
        } else {
          ExhaustedNamesNoId(g, a);
          NoIdIsOut(Do(g, a).stream);
        }
      }
    }
  }

  lemma NothingYet(start: nat)
    ensures AlwaysClear(start, []) && RoomThroughout(start, []) && RoomToFailure(start, [])
    ensures InBitmap(After(Start(start), []).stream)
  {
  }

  lemma BitmapPrefix(before: seq<Command>, after: seq<Command>)
    requires before <= after
    ensures InBitmap(after) ==> InBitmap(before)
  {
    assert forall k :: 0 <= k < |before| ==> before[k] == after[k];
  }

  lemma CountsInBitmap(g: Gpu, start: nat, lost: nat, zero: bool)
    requires CountInv(g, start, lost, zero)
    ensures InBitmap(g.stream)
  {
  }

  lemma NoIdIsOut(stream: seq<Command>)
    requires Create(NO_ID) in stream
    ensures !InBitmap(stream)
  {
  }

  /** Without a reserved id the same holds as long as no attach fails. */
  lemma {:induction false} AttachedRoomExactly(start: nat, actions: seq<Action>)
    requires start <= BITS && AllowedRun(Start(start), actions) && AllAttach(actions)
    ensures AlwaysClear(start, actions) <==> RoomToFailure(start, actions)
    ensures InBitmap(After(Start(start), actions).stream) <==> RoomToFailure(start, actions)
    decreases |actions|
  {
    hide AllowedRun, After, GpuInv, AllAttach, RoomThroughout, RoomToFailure, RoomAt, HasClear, Do, Allowed,
         AlwaysClear,
         InBitmap, ZeroHeld;
    if actions == [] {
      NothingYet(start);
    } else {
      var front, a := actions[..|actions| - 1], actions[|actions| - 1];
      RunSplit(Start(start), actions);
      var g := After(Start(start), front);
      AttachSplit(actions);
      RoomSplit(start, actions);
      ClearSplit(start, actions);
      AttachedRoomExactly(start, front);
      StreamGrows(g, a);
      BitmapPrefix(g.stream, Do(g, a).stream);
      if RoomToFailure(start, front) {
        RunKeepsInv(start, front);
        RoomIsClear(start, actions);
        if HasClear(g, a) {
          RunKeepsInv(start, actions);
          InvInBitmap(Do(g, a), start, Leaks(actions));
        } else {
          ExhaustedNamesNoId(g, a);
          NoIdIsOut(Do(g, a).stream);
        }
      }
    }
  }

  lemma InvInBitmap(g: Gpu, start: nat, leaked: nat)
    requires GpuInv(g, start, leaked)
    ensures InBitmap(g.stream)
  {
    InvWithin(g, start, leaked);
  }

  /**
   Exactly when the ids last, whatever fails in a run: every action finds an id
   when it asks for one, and no number outside the bitmap is named, if and only
   if each time the reserved ids, those lost so far and those held leave one.
   */
  lemma NeverExhausted(start: nat, actions: seq<Action>)
    requires start <= BITS && AllowedRun(Start(start), actions) && (start == 0 ==> AllAttach(actions))
    ensures AlwaysClear(start, actions) <==> RoomThroughout(start, actions)
    ensures InBitmap(After(Start(start), actions).stream) <==> RoomThroughout(start, actions)
    ensures AllAttach(actions) ==>
      (AllWithin(After(Start(start), actions).stream, start) <==> RoomThroughout(start, actions))
  {
    hide AllowedRun, After, AlwaysClear, AllAttach, RoomThroughout, RoomToFailure, InBitmap, AllWithin;
    AttachedRooms(start, actions);
    if start == 0 {
      AttachedRoomExactly(start, actions);
    } else {
      RoomExactly(start, actions);
    }
    WithinIsInBitmap(After(Start(start), actions).stream, start);
    if AllAttach(actions) && RoomThroughout(start, actions) {
      AttachedRunFollows(start, actions);
    }
  }

  lemma WithinIsInBitmap(stream: seq<Command>, start: nat)
    ensures AllWithin(stream, start) ==> InBitmap(stream)
  {
  }

  // ------------------------------------------------------------- two runs

  /** Pointer shapes whose object cannot be had. */
  function FailedShapes(n: nat): seq<Action> {
    seq(n, _ => SetPointerShape(false, false, false))
  }

  lemma {:induction false} FailedShapesLeak(n: nat)
    ensures Leaks(FailedShapes(n)) == n && !HasFrameBuffer(FailedShapes(n)) && !ZeroHeld(FailedShapes(n))
    decreases n
  {
    if n > 0 {
      FailedShapesLeak(n - 1);
      assert FailedShapes(n)[..n - 1] == FailedShapes(n - 1);
    }
  }

  lemma FailedShapesRun(start: nat, n: nat)
    ensures AllowedRun(Start(start), FailedShapes(n)) && AllAttach(FailedShapes(n))
    ensures forall i :: 0 <= i < n ==> (RoomAt(start, FailedShapes(n), i) <==> start + i < BITS)
  {
    hide HasCursor, HasFrameBuffer, ZeroHeld, Leaks;
    DereferencesNullExactly(start, FailedShapes(n));
    forall i | 0 <= i < n ensures RoomAt(start, FailedShapes(n), i) <==> start + i < BITS {
      assert FailedShapes(n)[..i] == FailedShapes(i);
      FailedShapesLeak(i);
    }
  }

  /**
   The bitmap does run out: after as many failed pointer shapes as there are
   ids, the next one is created as 0xFFFFFFFF.
   */
  lemma BitmapRunsOut(start: nat)
    requires start <= BITS
    ensures var enough := FailedShapes(BITS - start);
      AllowedRun(Start(start), enough) && AllWithin(After(Start(start), enough).stream, start)
    ensures var more := FailedShapes(BITS - start + 1);
      AllowedRun(Start(start), more) && !AllWithin(After(Start(start), more).stream, start)
  {
    hide AllowedRun, After, AllAttach, AllWithin, RoomAt, AlwaysClear, InBitmap;
    var n := BITS - start;
    FailedShapesRun(start, n);
    FailedShapesRun(start, n + 1);
    NeverExhausted(start, FailedShapes(n));
    NeverExhausted(start, FailedShapes(n + 1));
    assert !RoomAt(start, FailedShapes(n + 1), n);
  }

  /** A failed attach costs one id as well: after it there is one failed shape less in the bitmap. */
  lemma FailedAttachCostsOne()
    ensures var actions := [SetMode(true, true, false)] + FailedShapes(BITS - 1);
      AllowedRun(Start(1), actions) && !AlwaysClear(1, actions) && !RoomThroughout(1, actions)
  {
    hide AllowedRun, After, AlwaysClear, InBitmap, AllAttach, AllWithin, RoomThroughout, RoomAt;
    var actions := [SetMode(true, true, false)] + FailedShapes(BITS - 1);
    FailedAttachFirst(BITS - 2);
    assert actions[..BITS - 1] == [SetMode(true, true, false)] + FailedShapes(BITS - 2);
    NoMoves(actions);
    DereferencesNullExactly(1, actions);
    NeverExhausted(1, actions);
    LastHasNoRoom(actions);
  }

  lemma NoMoves(actions: seq<Action>)
    requires forall i :: 0 <= i < |actions| ==> !actions[i].SetPointerPosition? && !actions[i].Present?
    ensures NoNull(actions)
  {
  }

  lemma LastHasNoRoom(actions: seq<Action>)
    requires |actions| == BITS && actions[BITS - 1] == SetPointerShape(false, false, false)
    requires Leaks(actions[..BITS - 1]) == BITS - 1
    ensures !RoomThroughout(1, actions)
  {
    hide Leaks, ZeroHeld, HasFrameBuffer, HasCursor;
    assert !RoomAt(1, actions, BITS - 1);
  }

  lemma {:induction false} FailedAttachFirst(n: nat)
    ensures Leaks([SetMode(true, true, false)] + FailedShapes(n)) == n + 1
    ensures ZeroHeld([SetMode(true, true, false)] + FailedShapes(n))
    decreases n
  {
    var actions := [SetMode(true, true, false)] + FailedShapes(n);
    if n == 0 {
      assert actions == [SetMode(true, true, false)] && actions[..0] == [];
    } else {
      FailedAttachFirst(n - 1);
      assert actions[..n] == [SetMode(true, true, false)] + FailedShapes(n - 1);
    }
  }
}
