/**
 The resources of the GPU device over whole runs of mode sets, pointer shapes,
 pointer moves and presents: which commands are issued, for which ids, and in
 which order. Failures of allocations are inputs.
 */
module Resources {
  import opened Idr
  import opened Options

  /** A command as far as resource ids go. */
  datatype Command =
    | Create(id: nat)        // RESOURCE_CREATE_2D
    | Attach(id: nat)        // RESOURCE_ATTACH_BACKING
    | SetScanout(id: nat)
    | Transfer(id: nat)      // TRANSFER_TO_HOST_2D
    | Flush(id: nat)         // RESOURCE_FLUSH
    | UpdateCursor(id: nat)
    | MoveCursor(id: nat)
    | Detach(id: nat)        // RESOURCE_DETACH_BACKING
    | Unref(id: nat)         // RESOURCE_UNREF

  /** m_IdBitMap, the ids in m_pFrameBuf and m_pCursorBuf (or no object), and all commands issued. */
  datatype Gpu = Gpu(bits: seq<bool>, frameBuf: Option<nat>, cursorBuf: Option<nat>, stream: seq<Command>)

  /** What the environment decides: whether an object could be allocated, and its list of memory entries. */
  datatype Action =
    | SetMode(found: bool, initOk: bool, attachOk: bool)
    | SetPointerShape(initOk: bool, attachOk: bool, colorOk: bool)
    | SetPointerPosition
    | Present

  // ------------------------------------------------------------- the operations on values

  function WithoutFrameBuffer(g: Gpu): Gpu {
    if g.frameBuf.None? then g
    else
      var id := g.frameBuf.value;
      g.(stream := g.stream + [Detach(id), Unref(id)], frameBuf := None, bits := Put(g.bits, id))
  }

  /** Id of the object after GpuObjectAttach: 0 if that failed, which goes unnoticed. */
  function WithFrameBuffer(g: Gpu, initOk: bool, attachOk: bool): Gpu {
    var resid := TakenId(g.bits);
    var g' := g.(bits := Taken(g.bits), stream := g.stream + [Create(resid)]);
    if !initOk then g'
    else
      var attached := if attachOk then [Attach(resid)] else [];
      g'.(stream := g'.stream + attached + [SetScanout(resid), Transfer(resid), Flush(resid)],
          frameBuf := Some(if attachOk then resid else 0))
  }

  function WithoutCursor(g: Gpu): Gpu {
    if g.cursorBuf.None? then g
    else
      var id := g.cursorBuf.value;
      g.(stream := g.stream + [Detach(id), Unref(id)], cursorBuf := None, bits := Put(g.bits, id))
  }

  predicate CursorCreated(initOk: bool, attachOk: bool, colorOk: bool) {
    initOk && attachOk && colorOk
  }

  function WithCursor(g: Gpu, initOk: bool, attachOk: bool, colorOk: bool): Gpu {
    var resid := TakenId(g.bits);
    var g' := g.(bits := Taken(g.bits), stream := g.stream + [Create(resid)]);
    if !initOk || !attachOk then g'
    else
      g'.(stream := g'.stream + [Attach(resid)] + (if colorOk then [Transfer(resid)] else []),
          cursorBuf := Some(resid))
  }

  /** The source dereferences the buffer object in these operations. */
  predicate Allowed(g: Gpu, a: Action) {
    && (a.SetPointerPosition? ==> g.cursorBuf.Some?)
    && (a.Present? ==> g.frameBuf.Some?)
  }

  function Do(g: Gpu, a: Action): Gpu
    requires Allowed(g, a)
  {
    match a
    case SetMode(found, initOk, attachOk) =>
      if found then WithFrameBuffer(WithoutFrameBuffer(g), initOk, attachOk) else g
    case SetPointerShape(initOk, attachOk, colorOk) =>
      var g' := WithCursor(WithoutCursor(g), initOk, attachOk, colorOk);
      if CursorCreated(initOk, attachOk, colorOk) then g'.(stream := g'.stream + [UpdateCursor(g'.cursorBuf.value)])
      else g'
    case SetPointerPosition => g.(stream := g.stream + [MoveCursor(g.cursorBuf.value)])
    case Present => g.(stream := g.stream + [Transfer(g.frameBuf.value), Flush(g.frameBuf.value)])
  }

  function Start(start: nat): Gpu {
    Gpu(Reserved(start), None, None, [])
  }

  ghost predicate AllowedRun(g: Gpu, actions: seq<Action>)
    decreases |actions|
  {
    actions == [] || (Allowed(g, actions[0]) && AllowedRun(Do(g, actions[0]), actions[1..]))
  }

  ghost function After(g: Gpu, actions: seq<Action>): Gpu
    requires AllowedRun(g, actions)
    decreases |actions|
  {
    if actions == [] then g else After(Do(g, actions[0]), actions[1..])
  }

  // ------------------------------------------------------------- the operations on the device object

  class GpuDevice {
    const idr: VioGpuIdr
    var frameBuf: Option<nat>
    var cursorBuf: Option<nat>
    var stream: seq<Command>

    ghost predicate Valid()
      reads this, idr
    {
      idr.Valid() && idr.bitmap != null
    }

    ghost function State(): Gpu
      requires idr.bitmap != null
      reads this, idr, idr.bitmap
    {
      Gpu(idr.bitmap[..], frameBuf, cursorBuf, stream)
    }

    constructor (start: nat)
      requires start <= BITS
      ensures Valid() && fresh(idr) && fresh(idr.bitmap) && State() == Start(start)
    {
      idr := new VioGpuIdr();
      frameBuf, cursorBuf, stream := None, None, [];
      new;
      idr.Init(start);
    }

    /** The command goes to the control queue or the cursor queue. */
    method Issue(c: Command)
      modifies this`stream
      ensures stream == old(stream) + [c]
    {
      stream := stream + [c];
    }

    /** The id that the object has afterwards. */
    method GpuObjectAttach(resid: nat, attachOk: bool) returns (ok: bool, objId: nat)
      modifies this`stream
      ensures ok == attachOk && objId == (if attachOk then resid else 0)
      ensures stream == old(stream) + (if attachOk then [Attach(resid)] else [])
    {
      if !attachOk {
        return false, 0;
      }
      Issue(Attach(resid));
      return true, resid;
    }

    method CreateFrameBuffer(initOk: bool, attachOk: bool)
      requires Valid()
      modifies this`frameBuf, this`stream, idr.bitmap
      ensures Valid() && idr.bitmap == old(idr.bitmap) && State() == WithFrameBuffer(old(State()), initOk, attachOk)
      ensures |stream| > |old(stream)| && stream[|old(stream)|].Create?
      ensures var resid := stream[|old(stream)|].id;
        && stream == old(stream) + (if !initOk then [Create(resid)]
                                    else if attachOk then
                                      [Create(resid), Attach(resid), SetScanout(resid), Transfer(resid), Flush(resid)]
                                    else [Create(resid), SetScanout(resid), Transfer(resid), Flush(resid)])
        && frameBuf == (if !initOk then old(frameBuf) else if attachOk then Some(resid) else Some(0))
        && (resid < 0x8000 ==> !old(idr.bitmap[..])[resid] && idr.bitmap[..] == old(idr.bitmap[..])[resid := true])
    {
      var resid := idr.GetId();
      Issue(Create(resid));
      if !initOk {
        return;
      }
      var ok, id := GpuObjectAttach(resid, attachOk);
      Issue(SetScanout(resid));
      Issue(Transfer(resid));
      Issue(Flush(resid));
      frameBuf := Some(id);
      ghost var attached := if attachOk then [Attach(resid)] else [];
      assert stream == old(stream) + [Create(resid)] + attached + [SetScanout(resid), Transfer(resid), Flush(resid)];
    }

    method DestroyFrameBuffer()
      requires Valid()
      modifies this`frameBuf, this`stream, idr.bitmap
      ensures Valid() && idr.bitmap == old(idr.bitmap) && State() == WithoutFrameBuffer(old(State()))
      ensures frameBuf == None
      ensures old(frameBuf) == None ==> stream == old(stream) && idr.bitmap[..] == old(idr.bitmap[..])
      ensures old(frameBuf).Some? ==>
        var id := old(frameBuf).value;
        && stream == old(stream) + [Detach(id), Unref(id)]
        && idr.bitmap[..] == if id < 0x8000 then old(idr.bitmap[..])[id := false] else old(idr.bitmap[..])
    {
      if frameBuf.Some? {
        var id := frameBuf.value;
        Issue(Detach(id));
        Issue(Unref(id));
        frameBuf := None;
        idr.PutId(id);
        assert stream == old(stream) + [Detach(id), Unref(id)];
      }
    }

    method CreateCursor(initOk: bool, attachOk: bool, colorOk: bool) returns (created: bool)
      requires Valid()
      modifies this`cursorBuf, this`stream, idr.bitmap
      ensures Valid() && idr.bitmap == old(idr.bitmap) && State() == WithCursor(old(State()), initOk, attachOk, colorOk)
      ensures created <==> CursorCreated(initOk, attachOk, colorOk)
      ensures created <==> initOk && attachOk && colorOk
      ensures |stream| > |old(stream)| && stream[|old(stream)|].Create?
      ensures var resid := stream[|old(stream)|].id;
        && stream == old(stream) + (if !initOk || !attachOk then [Create(resid)]
                                    else if !colorOk then [Create(resid), Attach(resid)]
                                    else [Create(resid), Attach(resid), Transfer(resid)])
        && cursorBuf == (if initOk && attachOk then Some(resid) else old(cursorBuf))
        && (resid < 0x8000 ==> !old(idr.bitmap[..])[resid] && idr.bitmap[..] == old(idr.bitmap[..])[resid := true])
    {
      var resid := idr.GetId();
      Issue(Create(resid));
      if !initOk {
        return false;
      }
      var ok, id := GpuObjectAttach(resid, attachOk);
      if !ok {
        return false;
      }
      cursorBuf := Some(id);
      if !colorOk {
        assert stream == old(stream) + [Create(resid)] + [Attach(resid)] + [];
        return false;
      }
      Issue(Transfer(resid));
      return true;
    }

    method DestroyCursor()
      requires Valid()
      modifies this`cursorBuf, this`stream, idr.bitmap
      ensures Valid() && idr.bitmap == old(idr.bitmap) && State() == WithoutCursor(old(State()))
      ensures cursorBuf == None
      ensures old(cursorBuf) == None ==> stream == old(stream) && idr.bitmap[..] == old(idr.bitmap[..])
      ensures old(cursorBuf).Some? ==>
        var id := old(cursorBuf).value;
        && stream == old(stream) + [Detach(id), Unref(id)]
        && idr.bitmap[..] == if id < 0x8000 then old(idr.bitmap[..])[id := false] else old(idr.bitmap[..])
    {
      if cursorBuf.Some? {
        var id := cursorBuf.value;
        Issue(Detach(id));
        Issue(Unref(id));
        cursorBuf := None;
        idr.PutId(id);
        assert stream == old(stream) + [Detach(id), Unref(id)];
      }
    }

    /** SetCurrentMode, SetPointerShape, SetPointerPosition and the commands of a present. */
    method Perform(a: Action)
      requires Valid() && Allowed(State(), a)
      modifies this, idr.bitmap
      ensures Valid() && idr.bitmap == old(idr.bitmap) && State() == Do(old(State()), a)
      ensures old(stream) <= stream
      ensures a.SetMode? && !a.found ==> stream == old(stream)
      ensures a.SetMode? && a.found && a.initOk && a.attachOk ==>
        && frameBuf.Some? && |stream| >= 4
        && stream[|stream| - 4..]
           == [Attach(frameBuf.value), SetScanout(frameBuf.value), Transfer(frameBuf.value), Flush(frameBuf.value)]
      ensures a.SetPointerShape? && a.initOk && a.attachOk && a.colorOk ==>
        && cursorBuf.Some? && |stream| >= 2
        && stream[|stream| - 2..] == [Transfer(cursorBuf.value), UpdateCursor(cursorBuf.value)]
      ensures a.SetPointerPosition? ==> stream == old(stream) + [MoveCursor(old(cursorBuf).value)]
      ensures a.Present? ==> stream == old(stream) + [Transfer(old(frameBuf).value), Flush(old(frameBuf).value)]
    {
      hide TakenId, Taken, Put;
      match a {
        case SetMode(found, initOk, attachOk) =>
          if found {
            DestroyFrameBuffer();
            CreateFrameBuffer(initOk, attachOk);
          }
        case SetPointerShape(initOk, attachOk, colorOk) =>
          DestroyCursor();
          var created := CreateCursor(initOk, attachOk, colorOk);
          if created {
            Issue(UpdateCursor(cursorBuf.value));
          }
        case SetPointerPosition =>
          Issue(MoveCursor(cursorBuf.value));
        case Present =>
          Issue(Transfer(frameBuf.value));
          Issue(Flush(frameBuf.value));
          assert stream == old(stream) + [Transfer(frameBuf.value), Flush(frameBuf.value)];
      }
    }
  }
}
