/**
 What the device shows over whole runs: which resource the screen and the cursor
 show, and whether their contents have been sent. It is read off the commands
 alone, one after the other.
 */
module ScreenRuns {
  import opened Idr
  import opened Options
  import opened ResourceRuns
  import opened Resources

  /**
   filled: resources with contents of their own. unflushed: those that got
   contents which were not put on the screen yet. drawn: no cursor was ever set
   to a resource without contents. inStep: no move ever named another resource
   than the cursor shows.
   */
  datatype Display = Display(scanout: Option<nat>, cursor: Option<nat>, filled: set<nat>, unflushed: set<nat>,
                             drawn: bool, inStep: bool)

  /** What is shown of a resource ends with it. */
  function Without(o: Option<nat>, id: nat): Option<nat> {
    if o == Some(id) then None else o
  }

  function See(d: Display, c: Command): Display {
    match c
    case SetScanout(id) => d.(scanout := Some(id))
    case Transfer(id) => d.(filled := d.filled + {id}, unflushed := d.unflushed + {id})
    case Flush(id) => d.(unflushed := d.unflushed - {id})
    case UpdateCursor(id) => d.(cursor := Some(id), drawn := d.drawn && id in d.filled)
    case MoveCursor(id) => d.(inStep := d.inStep && d.cursor == Some(id))
    case Unref(id) =>
      d.(scanout := Without(d.scanout, id), cursor := Without(d.cursor, id), filled := d.filled - {id},
         unflushed := d.unflushed - {id})
    case _ => d
  }

  function Seen(stream: seq<Command>): Display {
    if stream == [] then Display(None, None, {}, {}, true, true)
    else See(Seen(stream[..|stream| - 1]), stream[|stream| - 1])
  }

  lemma SeenThen(stream: seq<Command>, c: Command)
    ensures Seen(stream + [c]) == See(Seen(stream), c)
  {
    assert (stream + [c])[..|stream|] == stream;
  }

  /** The last pointer shape got its image. */
  predicate HasImage(actions: seq<Action>) {
    actions != [] &&
    match actions[|actions| - 1]
    case SetPointerShape(initOk, attachOk, colorOk) => initOk && attachOk && colorOk
    case _ => HasImage(actions[..|actions| - 1])
  }

  /** Each move of the pointer comes after a shape that got its image. */
  ghost predicate MovesAnImage(actions: seq<Action>) {
    forall i :: 0 <= i < |actions| && actions[i].SetPointerPosition? ==> HasImage(actions[..i])
  }

  // ------------------------------------------------------------- invariant

  /** The screen shows the frame buffer, with its contents; the cursor its buffer, when that has an image. */
  ghost predicate Shows(g: Gpu, d: Display, image: bool) {
    && d.scanout == g.frameBuf
    && (g.frameBuf.Some? ==> g.frameBuf.value in d.filled && g.frameBuf.value !in d.unflushed)
    && d.cursor == (if image then g.cursorBuf else None)
    && (image ==> g.cursorBuf.Some? && g.cursorBuf.value in d.filled)
    && d.drawn
  }

  /** The frame buffer and the cursor are different resources. */
  predicate Differ(g: Gpu) {
    g.frameBuf.Some? && g.cursorBuf.Some? ==> g.frameBuf.value != g.cursorBuf.value
  }

  lemma InvDiffers(g: Gpu, start: nat, leaked: nat)
    requires GpuInv(g, start, leaked)
    ensures Differ(g)
  {
  }

  lemma SeenTwo(stream: seq<Command>, a: Command, b: Command)
    ensures Seen(stream + [a, b]) == See(See(Seen(stream), a), b)
  {
    hide See;
    SeenThen(stream, a);
    SeenThen(stream + [a], b);
    assert stream + [a] + [b] == stream + [a, b];
  }

  lemma SeenThree(stream: seq<Command>, a: Command, b: Command, c: Command)
    ensures Seen(stream + [a, b, c]) == See(See(See(Seen(stream), a), b), c)
  {
    hide See;
    SeenTwo(stream, a, b);
    SeenThen(stream + [a, b], c);
    assert stream + [a, b] + [c] == stream + [a, b, c];
  }

  lemma FrameBufferGone(g: Gpu, image: bool)
    requires Shows(g, Seen(g.stream), image) && Differ(g)
    ensures Shows(WithoutFrameBuffer(g), Seen(WithoutFrameBuffer(g).stream), image)
    ensures WithoutFrameBuffer(g).frameBuf == None && WithoutFrameBuffer(g).cursorBuf == g.cursorBuf
    ensures Seen(WithoutFrameBuffer(g).stream).inStep == Seen(g.stream).inStep
  {
    hide Seen, Put;
    if g.frameBuf.Some? {
      SeenTwo(g.stream, Detach(g.frameBuf.value), Unref(g.frameBuf.value));
    }
  }

  lemma CursorGone(g: Gpu, image: bool)
    requires Shows(g, Seen(g.stream), image) && Differ(g)
    ensures Shows(WithoutCursor(g), Seen(WithoutCursor(g).stream), false)
    ensures WithoutCursor(g).cursorBuf == None && WithoutCursor(g).frameBuf == g.frameBuf
    ensures Seen(WithoutCursor(g).stream).inStep == Seen(g.stream).inStep
  {
    hide Seen, Put;
    if g.cursorBuf.Some? {
      SeenTwo(g.stream, Detach(g.cursorBuf.value), Unref(g.cursorBuf.value));
    }
  }

  /** A new frame buffer is shown, with its contents on the screen. */
  lemma FrameBufferShown(h: Gpu, initOk: bool, image: bool)
    requires Shows(h, Seen(h.stream), image) && h.frameBuf == None
    requires h.cursorBuf.Some? ==> h.cursorBuf.value != TakenId(h.bits)
    ensures var g := WithFrameBuffer(h, initOk, true);
      Shows(g, Seen(g.stream), image) && Seen(g.stream).inStep == Seen(h.stream).inStep
  {
    hide Seen, TakenId, Taken;
    var id := TakenId(h.bits);
    SeenThen(h.stream, Create(id));
    if initOk {
      var s := h.stream + [Create(id)] + [Attach(id)];
      SeenThen(h.stream + [Create(id)], Attach(id));
      SeenThree(s, SetScanout(id), Transfer(id), Flush(id));
      assert WithFrameBuffer(h, true, true).stream == s + [SetScanout(id), Transfer(id), Flush(id)];
    }
  }

  /** A new cursor is shown once its image was sent, and not before. */
  lemma CursorShown(h: Gpu, a: Action)
    requires a.SetPointerShape? && Shows(h, Seen(h.stream), false) && h.cursorBuf == None
    requires h.frameBuf.Some? ==> h.frameBuf.value != TakenId(h.bits)
    requires h == WithoutCursor(h)
    ensures var g := Do(h, a);
      && Shows(g, Seen(g.stream), a.initOk && a.attachOk && a.colorOk) && Seen(g.stream).inStep == Seen(h.stream).inStep
  {
    hide Seen, TakenId, Taken;
    var id := TakenId(h.bits);
    SeenThen(h.stream, Create(id));
    if a.initOk && a.attachOk {
      var s := h.stream + [Create(id)] + [Attach(id)];
      SeenThen(h.stream + [Create(id)], Attach(id));
      if a.colorOk {
        SeenThen(s, Transfer(id));
        SeenThen(s + [Transfer(id)], UpdateCursor(id));
      } else {
        assert Do(h, a).stream == s;
      }
    }
  }

  lemma ShapeGoesOn(g: Gpu, a: Action)
    requires a.SetPointerShape?
    ensures Do(g, a) == Do(WithoutCursor(g), a) && WithoutCursor(WithoutCursor(g)) == WithoutCursor(g)
  {
    hide WithCursor;
  }

  /** Whether there is an image after an action. */
  predicate ImageAfter(a: Action, image: bool) {
    match a
    case SetPointerShape(initOk, attachOk, colorOk) => initOk && attachOk && colorOk
    case _ => image
  }

  lemma ActionShows(g: Gpu, a: Action, start: nat, leaked: nat, image: bool)
    requires GpuInv(g, start, leaked) && Allowed(g, a) && !FailsAttach(a) && HasClear(g, a)
    requires Shows(g, Seen(g.stream), image)
    ensures Shows(Do(g, a), Seen(Do(g, a).stream), ImageAfter(a, image))
    ensures Seen(Do(g, a).stream).inStep == (Seen(g.stream).inStep && (a.SetPointerPosition? ==> image))
  {
    hide Seen, GpuInv, WithFrameBuffer, WithoutFrameBuffer, WithCursor, WithoutCursor;
    InvDiffers(g, start, leaked);
    match a {
      case SetMode(found, initOk, attachOk) =>
        if found {
          FrameBufferGone(g, image);
          NewFrameBufferDiffers(g, start, leaked, initOk, attachOk);
          FrameBufferShown(WithoutFrameBuffer(g), initOk, image);
          AttachNotReached(WithoutFrameBuffer(g), attachOk);
        }
      case SetPointerShape(initOk, attachOk, colorOk) =>
        CursorGone(g, image);
        NewCursorDiffers(g, a, start, leaked);
        ShapeGoesOn(g, a);
        CursorShown(WithoutCursor(g), a);
      case SetPointerPosition =>
        SeenThen(g.stream, MoveCursor(g.cursorBuf.value));
      case Present =>
        SeenTwo(g.stream, Transfer(g.frameBuf.value), Flush(g.frameBuf.value));
    }
  }

  /** Without an object the attach is not come to. */
  lemma AttachNotReached(h: Gpu, attachOk: bool)
    ensures WithFrameBuffer(h, false, attachOk) == WithFrameBuffer(h, false, true)
  {
  }

  lemma NewFrameBufferDiffers(g: Gpu, start: nat, leaked: nat, initOk: bool, attachOk: bool)
    requires GpuInv(g, start, leaked) && HasClear(g, SetMode(true, initOk, attachOk))
    ensures var h := WithoutFrameBuffer(g); h.cursorBuf.Some? ==> h.cursorBuf.value != TakenId(h.bits)
  {
    hide StagesOk, ResourceRuns.Below, InUse, Put, Taken, TakenId, WithoutFrameBuffer;
    WithoutFrameBufferInv(g, start, leaked);
    var h := WithoutFrameBuffer(g);
    FreshId(h.bits, h.stream, Live(h), start);
  }

  lemma NewCursorDiffers(g: Gpu, a: Action, start: nat, leaked: nat)
    requires GpuInv(g, start, leaked) && a.SetPointerShape? && HasClear(g, a)
    ensures var h := WithoutCursor(g); h.frameBuf.Some? ==> h.frameBuf.value != TakenId(h.bits)
  {
    hide StagesOk, ResourceRuns.Below, InUse, Put, Taken, TakenId, WithoutCursor;
    WithoutCursorInv(g, start, leaked);
    var h := WithoutCursor(g);
    FreshId(h.bits, h.stream, Live(h), start);
  }

  // ------------------------------------------------------------- whole runs

  lemma StartShows(start: nat)
    ensures Shows(Start(start), Seen(Start(start).stream), false) && Seen(Start(start).stream).inStep
  {
  }

  lemma MovesSplit(actions: seq<Action>)
    requires actions != []
    ensures var front, a := actions[..|actions| - 1], actions[|actions| - 1];
      MovesAnImage(actions) <==> MovesAnImage(front) && (a.SetPointerPosition? ==> HasImage(front))
  {
    hide HasImage;
    var front := actions[..|actions| - 1];
    forall i | 0 <= i < |front| ensures HasImage(front[..i]) <==> HasImage(actions[..i]) {
      assert front[..i] == actions[..i];
    }
  }

  lemma ImageSplit(actions: seq<Action>)
    requires actions != []
    ensures HasImage(actions) == ImageAfter(actions[|actions| - 1], HasImage(actions[..|actions| - 1]))
  {
  }

  lemma {:induction false} RunShows(start: nat, actions: seq<Action>)
    requires start <= BITS && AllowedRun(Start(start), actions) && AllAttach(actions) && RoomToFailure(start, actions)
    ensures var g := After(Start(start), actions);
      Shows(g, Seen(g.stream), HasImage(actions)) && (Seen(g.stream).inStep <==> MovesAnImage(actions))
    decreases |actions|
  {
    hide AllowedRun, After, GpuInv, AllAttach, RoomToFailure, RoomAt, HasClear, Do, Allowed, ZeroHeld, Shows, Seen,
         MovesAnImage, HasImage, ImageAfter;
    if actions == [] {
      EmptyRun(Start(start));
      StartShows(start);
      NoMoves();
    } else {
      var front, a := actions[..|actions| - 1], actions[|actions| - 1];
      RunSplit(Start(start), actions);
      AttachSplit(actions);
      RoomSplit(start, actions);
      RunKeepsInv(start, front);
      RoomIsClear(start, actions);
      RunShows(start, front);
      ActionShows(After(Start(start), front), a, start, Leaks(front), HasImage(front));
      MovesSplit(actions);
      ImageSplit(actions);
    }
  }

  lemma NoMoves()
    ensures MovesAnImage([]) && !HasImage([])
  {
  }

  /**
   Over every run in which all attaches succeed and the ids last: the screen
   shows the frame buffer, whenever there is one and only then, with its
   contents sent and flushed. The cursor shows the cursor buffer exactly when
   the last shape got its image, every cursor had its image sent before it was
   set, and the moves all name the cursor shown exactly when each came after a
   shape that got its image.
   */
  lemma ShownIsCurrent(start: nat, actions: seq<Action>)
    requires start <= BITS && AllowedRun(Start(start), actions) && AllAttach(actions) && RoomThroughout(start, actions)
    ensures var g := After(Start(start), actions);
      var d := Seen(g.stream);
      && d.scanout == g.frameBuf
      && (g.frameBuf.Some? ==> g.frameBuf.value in d.filled && g.frameBuf.value !in d.unflushed)
      && (g.cursorBuf.Some? ==> (d.cursor == g.cursorBuf <==> HasImage(actions)))
      && (g.cursorBuf.None? ==> d.cursor == None)
      && (d.cursor.Some? ==> d.cursor.value in d.filled)
      && d.drawn
      && (d.inStep <==> MovesAnImage(actions))
  {
    hide AllowedRun, After, AllAttach, RoomThroughout, RoomToFailure, Seen, HasImage, MovesAnImage;
    AttachedRooms(start, actions);
    RunShows(start, actions);
  }

  /**
   After an attach that failed, the screen shows the new resource, and the
   frame buffer object stands for another one.
   */
  lemma FailedAttachShowsAnother(start: nat, actions: seq<Action>)
    requires 1 <= start < BITS && AllowedRun(Start(start), actions) && AllAttach(actions)
    requires RoomThroughout(start, actions + [SetMode(true, true, false)])
    ensures var g := After(Start(start), actions);
      var g' := Do(g, SetMode(true, true, false));
      g'.frameBuf == Some(0) && Seen(g'.stream).scanout.Some? && Seen(g'.stream).scanout != g'.frameBuf
  {
    hide AllowedRun, After, GpuInv, AllAttach, RoomThroughout, RoomToFailure, RoomAt, HasClear, Seen, ZeroHeld, TakenId,
         Taken, Put;
    var a := SetMode(true, true, false);
    var all := actions + [a];
    assert all[..|all| - 1] == actions && all[|all| - 1] == a;
    AttachedRooms(start, all);
    RoomSplit(start, all);
    RunKeepsInv(start, actions);
    RoomIsClear(start, all);
    var g := After(Start(start), actions);
    var h := WithoutFrameBuffer(g);
    FreshFrameBuffer(g, start, Leaks(actions));
    var id := TakenId(h.bits);
    SeenThree(h.stream + [Create(id)], SetScanout(id), Transfer(id), Flush(id));
    assert Do(g, a).stream == h.stream + [Create(id)] + [SetScanout(id), Transfer(id), Flush(id)];
  }

  lemma FreshFrameBuffer(g: Gpu, start: nat, leaked: nat)
    requires GpuInv(g, start, leaked) && HasClear(g, SetMode(true, true, false))
    ensures TakenId(WithoutFrameBuffer(g).bits) >= start
  {
    hide StagesOk, ResourceRuns.Below, InUse, Put, Taken, TakenId, WithoutFrameBuffer;
    WithoutFrameBufferInv(g, start, leaked);
    var h := WithoutFrameBuffer(g);
    FreshId(h.bits, h.stream, Live(h), start);
  }
}
