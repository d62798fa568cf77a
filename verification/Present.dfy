/**
 The present path of the GPU device: blit into the frame buffer, find one
 bounding rectangle, have the device copy that rectangle to its own copy of the
 screen. The device's copy is compared with the frame buffer byte by byte.
 */
module Present {
  import opened Words
  import opened Bitops
  import opened Blit

  /** D3DKMT_MOVE_RECT. */
  datatype MoveRect = MoveRect(source: Point, dest: Rect)

  /** The fields of CURRENT_BDD_MODE that a present reads. */
  datatype Mode = Mode(pitch: nat, srcWidth: nat, srcHeight: nat)

  /** VIRTIO_GPU_CMD_TRANSFER_TO_HOST_2D and VIRTIO_GPU_CMD_RESOURCE_FLUSH. */
  datatype Transfer = Transfer(resid: nat, offset: nat, width: nat, height: nat, x: nat, y: nat)
  datatype Flush = Flush(resid: nat, width: nat, height: nat, x: nat, y: nat)

  // ------------------------------------------------------------- bounding rectangle

  function Min(a: int, b: int): int { if a < b then a else b }
  function Max(a: int, b: int): int { if a > b then a else b }

  function Dests(moves: seq<MoveRect>): (r: seq<Rect>)
    ensures |r| == |moves| && forall i :: 0 <= i < |r| ==> r[i] == moves[i].dest
  {
    seq(|moves|, i requires 0 <= i < |moves| => moves[i].dest)
  }

  predicate Encloses(h: Rect, r: Rect) {
    h.left <= r.left && h.top <= r.top && r.right <= h.right && r.bottom <= h.bottom
  }

  predicate EnclosesAll(h: Rect, rects: seq<Rect>) {
    forall i :: 0 <= i < |rects| ==> Encloses(h, rects[i])
  }

  /** The least rectangle that encloses the list. */
  ghost predicate IsHull(h: Rect, rects: seq<Rect>) {
    EnclosesAll(h, rects) && forall k: Rect :: EnclosesAll(k, rects) ==> Encloses(k, h)
  }

  /** The accumulation step of FindUpdateRect. */
  method Accumulate(updated: bool, upd: Rect, r: Rect, ghost seen: seq<Rect>) returns (upd': Rect)
    requires updated == (|seen| > 0) && (updated ==> IsHull(upd, seen))
    ensures IsHull(upd', seen + [r])
  {
    if !updated {
      upd' := r;
    } else {
      upd' := Rect(Min(r.left, upd.left), Min(r.top, upd.top), Max(r.right, upd.right), Max(r.bottom, upd.bottom));
    }
    forall k: Rect | EnclosesAll(k, seen + [r]) ensures Encloses(k, upd') {
      assert (seen + [r])[|seen|] == r;
      assert forall i :: 0 <= i < |seen| ==> (seen + [r])[i] == seen[i];
      assert EnclosesAll(k, seen);
    }
    assert EnclosesAll(upd', seen);
  }

  /** Each edge of the hull is that of some rectangle. */
  lemma HullEdges(h: Rect, rects: seq<Rect>)
    requires IsHull(h, rects) && rects != []
    ensures forall r :: r in rects ==> h.left <= r.left && h.top <= r.top && r.right <= h.right && r.bottom <= h.bottom
    ensures exists r :: r in rects && r.left == h.left
    ensures exists r :: r in rects && r.top == h.top
    ensures exists r :: r in rects && r.right == h.right
    ensures exists r :: r in rects && r.bottom == h.bottom
  {
    assert EnclosesAll(h, rects);
    if forall r :: r in rects ==> r.left != h.left {
      assert EnclosesAll(h.(left := h.left + 1), rects);
      assert false;
    }
    if forall r :: r in rects ==> r.top != h.top {
      assert EnclosesAll(h.(top := h.top + 1), rects);
      assert false;
    }
    if forall r :: r in rects ==> r.right != h.right {
      assert EnclosesAll(h.(right := h.right - 1), rects);
      assert false;
    }
    if forall r :: r in rects ==> r.bottom != h.bottom {
      assert EnclosesAll(h.(bottom := h.bottom - 1), rects);
      assert false;
    }
  }

  /** FindUpdateRect: the least rectangle around all destinations of moves and all dirty rectangles, if there is any. */
  method FindUpdateRect(moves: seq<MoveRect>, dirty: seq<Rect>) returns (updated: bool, upd: Rect)
    ensures updated <==> |moves| + |dirty| > 0
    ensures updated ==> IsHull(upd, Dests(moves) + dirty)
    ensures updated ==> forall r :: r in Dests(moves) + dirty ==>
      upd.left <= r.left && upd.top <= r.top && r.right <= upd.right && r.bottom <= upd.bottom
    ensures updated ==> exists r :: r in Dests(moves) + dirty && r.left == upd.left
    ensures updated ==> exists r :: r in Dests(moves) + dirty && r.top == upd.top
    ensures updated ==> exists r :: r in Dests(moves) + dirty && r.right == upd.right
    ensures updated ==> exists r :: r in Dests(moves) + dirty && r.bottom == upd.bottom
  {
    hide IsHull;
    updated, upd := false, Rect(0, 0, 0, 0);
    for i := 0 to |moves|
      invariant updated == (i > 0)
      invariant updated ==> IsHull(upd, Dests(moves)[..i])
    {
      upd := Accumulate(updated, upd, moves[i].dest, Dests(moves)[..i]);
      updated := true;
      assert Dests(moves)[..i + 1] == Dests(moves)[..i] + [moves[i].dest];
    }
    assert Dests(moves)[..|moves|] == Dests(moves) + dirty[..0];
    for i := 0 to |dirty|
      invariant updated == (|moves| + i > 0)
      invariant updated ==> IsHull(upd, Dests(moves) + dirty[..i])
    {
      upd := Accumulate(updated, upd, dirty[i], Dests(moves) + dirty[..i]);
      updated := true;
      assert Dests(moves) + dirty[..i + 1] == Dests(moves) + dirty[..i] + [dirty[i]];
    }
    assert dirty[..|dirty|] == dirty;
    if updated {
      HullEdges(upd, Dests(moves) + dirty);
    }
  }

  lemma {:induction false} HullCovers(h: Rect, rects: seq<Rect>)
    requires EnclosesAll(h, rects)
    ensures Covered(rects) <= RectPixels(h)
  {
    if rects != [] {
      HullCovers(h, rects[..|rects| - 1]);
      assert Encloses(h, rects[|rects| - 1]);
    }
  }

  // ------------------------------------------------------------- the present

  function DstInfo(mode: Mode, bpp: nat, rotation: Rotation): BltInfo {
    BltInfo(0, mode.pitch, bpp, 0, 0, rotation, mode.srcWidth, mode.srcHeight)
  }

  /** The source is never rotated; its sides are exchanged for a quarter turn of the destination. */
  function SrcInfo(mode: Mode, bytesPerPixel: nat, pitch: nat, rotation: Rotation): BltInfo {
    var turned := rotation == Rotate90 || rotation == Rotate270;
    BltInfo(0, pitch, bytesPerPixel * BITS_PER_BYTE, 0, 0, Identity,
            if turned then mode.srcHeight else mode.srcWidth, if turned then mode.srcWidth else mode.srcHeight)
  }

  /** Pixel (x, y) is in one of the rectangles. */
  ghost predicate InSome(rects: seq<Rect>, x: int, y: int) {
    exists i :: 0 <= i < |rects| && rects[i].left <= x < rects[i].right && rects[i].top <= y < rects[i].bottom
  }

  /** At one place stands the pixel that is at the other, in the format of the destination. */
  ghost predicate Shows(mem: seq<Byte>, at: int, bits: nat, sm: seq<Byte>, from: int, srcBytes: nat)
    requires Supported(bits, srcBytes * BITS_PER_BYTE)
  {
    var width := WrittenBytes(bits, srcBytes * BITS_PER_BYTE);
    && 0 <= at && at + width <= |mem| && 0 <= from && from + srcBytes <= |sm|
    && mem[at..at + width] == Converted(bits, srcBytes * BITS_PER_BYTE, sm[from..from + srcBytes])
    && (bits == 32 && srcBytes == 4 ==> at + 4 <= |mem| && mem[at..at + 4] == sm[from..from + 4])
  }

  lemma {:induction false} InSomeIsCovered(rects: seq<Rect>, x: int, y: int)
    ensures InSome(rects, x, y) <==> Point(x, y) in Covered(rects)
  {
    if InSome(rects, x, y) {
      var i :| 0 <= i < |rects| && rects[i].left <= x < rects[i].right && rects[i].top <= y < rects[i].bottom;
      CoveredHas(rects, i);
      assert Point(x, y) in RectPixels(rects[i]);
    }
    if rects != [] && Point(x, y) in Covered(rects) {
      var front := rects[..|rects| - 1];
      if Point(x, y) in Covered(front) {
        InSomeIsCovered(front, x, y);
        var i :| 0 <= i < |front| && front[i].left <= x < front[i].right && front[i].top <= y < front[i].bottom;
        assert rects[i] == front[i];
      } else {
        assert Point(x, y) in RectPixels(rects[|rects| - 1]);
      }
    }
  }

  /** Where a present puts a pixel, for each rotation. */
  lemma PresentedAt(before: seq<Byte>, after: seq<Byte>, mode: Mode, bits: nat, sm: seq<Byte>, srcBytes: nat,
                    srcPitch: nat, rotation: Rotation, rects: seq<Rect>, x: int, y: int)
    requires Copyable(DstInfo(mode, bits, rotation), |before|, SrcInfo(mode, srcBytes, srcPitch, rotation), |sm|,
                      Covered(rects))
    requires IsBlit(before, after, DstInfo(mode, bits, rotation), SrcInfo(mode, srcBytes, srcPitch, rotation), sm,
                    Covered(rects))
    requires InSome(rects, x, y)
    ensures rotation == Identity ==>
      Shows(after, y * mode.pitch + x * (bits / 8), bits, sm, y * srcPitch + x * srcBytes, srcBytes)
    ensures rotation == Rotate90 ==>
      Shows(after, (mode.srcHeight - 1 - x) * mode.pitch + y * (bits / 8), bits,
            sm, y * srcPitch + x * srcBytes, srcBytes)
    ensures rotation == Rotate180 ==>
      Shows(after, (mode.srcHeight - 1 - y) * mode.pitch + (mode.srcWidth - 1 - x) * (bits / 8), bits,
            sm, y * srcPitch + x * srcBytes, srcBytes)
    ensures rotation == Rotate270 ==>
      Shows(after, x * mode.pitch + (mode.srcWidth - 1 - y) * (bits / 8), bits,
            sm, y * srcPitch + x * srcBytes, srcBytes)
  {
    hide Shows, InSome, IsBlit, Copyable, Covered;
    var at, from := ShownAt(before, after, mode, bits, sm, srcBytes, srcPitch, rotation, rects, x, y);
  }

  lemma CopyableFormats(di: BltInfo, dLength: nat, si: BltInfo, sLength: nat, pixels: set<Point>)
    requires Copyable(di, dLength, si, sLength, pixels)
    ensures Supported(di.bpp, si.bpp)
  {
  }

  lemma ShownAt(before: seq<Byte>, after: seq<Byte>, mode: Mode, bits: nat, sm: seq<Byte>, srcBytes: nat,
                srcPitch: nat, rotation: Rotation, rects: seq<Rect>, x: int, y: int)
    returns (at: int, from: int)
    requires Copyable(DstInfo(mode, bits, rotation), |before|, SrcInfo(mode, srcBytes, srcPitch, rotation), |sm|,
                      Covered(rects))
    requires IsBlit(before, after, DstInfo(mode, bits, rotation), SrcInfo(mode, srcBytes, srcPitch, rotation), sm,
                    Covered(rects))
    requires InSome(rects, x, y)
    ensures at == match rotation
      case Identity => y * mode.pitch + x * (bits / 8)
      case Rotate90 => (mode.srcHeight - 1 - x) * mode.pitch + y * (bits / 8)
      case Rotate180 => (mode.srcHeight - 1 - y) * mode.pitch + (mode.srcWidth - 1 - x) * (bits / 8)
      case Rotate270 => x * mode.pitch + (mode.srcWidth - 1 - y) * (bits / 8)
    ensures from == y * srcPitch + x * srcBytes
    ensures Supported(bits, srcBytes * BITS_PER_BYTE) && Shows(after, at, bits, sm, from, srcBytes)
  {
    hide IsBlit, Copyable, Covered, Converted, WrittenBytes, InSome, Supported;
    InSomeIsCovered(rects, x, y);
    var di, si := DstInfo(mode, bits, rotation), SrcInfo(mode, srcBytes, srcPitch, rotation);
    CopyableFormats(di, |before|, si, |sm|, Covered(rects));
    at, from := PixelStandsAt(before, after, di, si, sm, Covered(rects), Point(x, y));
    assert si.bpp == srcBytes * 8 && si.bpp / 8 == srcBytes;
    SameFormat(seq(4, i => 0));
  }

  lemma PresentedAll(before: seq<Byte>, after: seq<Byte>, mode: Mode, bits: nat, sm: seq<Byte>, srcBytes: nat,
                     srcPitch: nat, rotation: Rotation, rects: seq<Rect>)
    requires Copyable(DstInfo(mode, bits, rotation), |before|, SrcInfo(mode, srcBytes, srcPitch, rotation), |sm|,
                      Covered(rects))
    requires IsBlit(before, after, DstInfo(mode, bits, rotation), SrcInfo(mode, srcBytes, srcPitch, rotation), sm,
                    Covered(rects))
    ensures Supported(bits, srcBytes * BITS_PER_BYTE)
    ensures rotation == Identity ==> forall x, y :: InSome(rects, x, y) ==>
      Shows(after, y * mode.pitch + x * (bits / 8), bits, sm, y * srcPitch + x * srcBytes, srcBytes)
    ensures rotation == Rotate90 ==> forall x, y :: InSome(rects, x, y) ==>
      Shows(after, (mode.srcHeight - 1 - x) * mode.pitch + y * (bits / 8), bits,
            sm, y * srcPitch + x * srcBytes, srcBytes)
    ensures rotation == Rotate180 ==> forall x, y :: InSome(rects, x, y) ==>
      Shows(after, (mode.srcHeight - 1 - y) * mode.pitch + (mode.srcWidth - 1 - x) * (bits / 8), bits,
            sm, y * srcPitch + x * srcBytes, srcBytes)
    ensures rotation == Rotate270 ==> forall x, y :: InSome(rects, x, y) ==>
      Shows(after, x * mode.pitch + (mode.srcWidth - 1 - y) * (bits / 8), bits,
            sm, y * srcPitch + x * srcBytes, srcBytes)
  {
    hide IsBlit, InSome, Shows, Covered;
    forall x, y | InSome(rects, x, y) {
      PresentedAt(before, after, mode, bits, sm, srcBytes, srcPitch, rotation, rects, x, y);
    }
  }

  predicate AllOrdered(rects: seq<Rect>) {
    forall i :: 0 <= i < |rects| ==> Ordered(rects[i])
  }

  /** The rectangle that a present transfers. */
  ghost predicate IsUpdate(upd: Rect, rects: seq<Rect>, mode: Mode) {
    if rects == [] then upd == Rect(0, 0, mode.srcWidth, mode.srcHeight) else IsHull(upd, rects)
  }

  /** The commands for an update rectangle, with 32-bit arithmetic. */
  function TransferOf(resid: nat, upd: Rect, pitch: nat, bpp: nat): Transfer {
    Transfer(resid, Wrap32(upd.top * pitch + upd.left * ((bpp + BITS_PER_BYTE - 1) / BITS_PER_BYTE)),
             Wrap32(upd.right - upd.left), Wrap32(upd.bottom - upd.top), Wrap32(upd.left), Wrap32(upd.top))
  }

  lemma WrapsTo32(resid: nat, upd: Rect, pitch: nat, bpp: nat)
    ensures TransferOf(resid, upd, pitch, bpp)
         == Transfer(resid, (upd.top * pitch + upd.left * ((bpp + 7) / 8)) % 0x1_0000_0000,
                     (upd.right - upd.left) % 0x1_0000_0000, (upd.bottom - upd.top) % 0x1_0000_0000,
                     upd.left % 0x1_0000_0000, upd.top % 0x1_0000_0000)
  {
  }

  /** BltBits once for each rectangle of a list. */
  method BltEach(dst: array<Byte>, di: BltInfo, src: array<Byte>, si: BltInfo, rects: seq<Rect>,
                 ghost before: seq<Byte>, ghost done: seq<Rect>)
    requires dst != src && AllOrdered(rects) && |before| == dst.Length
    requires Copyable(di, |before|, si, src.Length, Covered(done + rects))
    requires Copyable(di, |before|, si, src.Length, Covered(done))
    requires IsBlit(before, dst[..], di, si, src[..], Covered(done))
    modifies dst
    ensures IsBlit(before, dst[..], di, si, src[..], Covered(done + rects))
  {
    hide IsBlit, Copyable, Covered, RectPixels;
    assert done + rects[..0] == done;
    for i := 0 to |rects|
      invariant Copyable(di, |before|, si, src.Length, Covered(done + rects[..i]))
      invariant IsBlit(before, dst[..], di, si, src[..], Covered(done + rects[..i]))
    {
      ghost var mid, all := dst[..], done + rects;
      var r := rects[i];
      CoveredGrows(all, |done| + i);
      assert all[..|done| + i] == done + rects[..i] && all[..|done| + i + 1] == done + rects[..i + 1];
      CoversOne(r);
      CopyableFewer(di, |before|, si, src.Length, Covered(all), RectPixels(r));
      CopyableFewer(di, |before|, si, src.Length, Covered(all), Covered(all[..|done| + i + 1]));
      BltBits(dst, di, src, si, [r]);
      BlitThen(before, mid, dst[..], di, si, src[..], Covered(done + rects[..i]), RectPixels(r));
    }
    assert rects[..|rects|] == rects;
  }

  lemma NothingCovered()
    ensures Covered([]) == {}
  {
  }

  lemma CoversOne(r: Rect)
    ensures Covered([r]) == RectPixels(r)
  {
    assert [r][..0] == [];
  }

  lemma CopyableFewer(di: BltInfo, dLength: nat, si: BltInfo, sLength: nat, more: set<Point>, fewer: set<Point>)
    requires Copyable(di, dLength, si, sLength, more) && fewer <= more
    ensures Copyable(di, dLength, si, sLength, fewer)
  {
    hide Inside;
  }

  /**
   GpuDevice::ExecutePresentDisplayOnly: every covered pixel is blitted, and the
   commands name the bounding rectangle.
   */
  method ExecutePresentDisplayOnly(dst: array<Byte>, dstBitPerPixel: nat, src: array<Byte>, srcBytesPerPixel: nat,
                                   srcPitch: nat,
                                   moves: seq<MoveRect>, dirty: seq<Rect>, rotation: Rotation, mode: Mode, resid: nat)
    returns (transfer: Transfer, flush: Flush, ghost upd: Rect)
    requires dst != src && AllOrdered(Dests(moves)) && AllOrdered(dirty)
    requires Copyable(DstInfo(mode, dstBitPerPixel, rotation), dst.Length,
                      SrcInfo(mode, srcBytesPerPixel, srcPitch, rotation), src.Length,
                      Covered(Dests(moves) + dirty))
    modifies dst
    ensures IsBlit(old(dst[..]), dst[..], DstInfo(mode, dstBitPerPixel, rotation),
                   SrcInfo(mode, srcBytesPerPixel, srcPitch, rotation), src[..],
                   Covered(Dests(moves) + dirty))
    ensures rotation == Identity ==> forall x, y :: InSome(Dests(moves) + dirty, x, y) ==>
      Shows(dst[..], y * mode.pitch + x * (dstBitPerPixel / 8), dstBitPerPixel,
            src[..], y * srcPitch + x * srcBytesPerPixel, srcBytesPerPixel)
    ensures rotation == Rotate90 ==> forall x, y :: InSome(Dests(moves) + dirty, x, y) ==>
      Shows(dst[..], (mode.srcHeight - 1 - x) * mode.pitch + y * (dstBitPerPixel / 8), dstBitPerPixel,
            src[..], y * srcPitch + x * srcBytesPerPixel, srcBytesPerPixel)
    ensures rotation == Rotate180 ==> forall x, y :: InSome(Dests(moves) + dirty, x, y) ==>
      Shows(dst[..], (mode.srcHeight - 1 - y) * mode.pitch + (mode.srcWidth - 1 - x) * (dstBitPerPixel / 8),
            dstBitPerPixel, src[..], y * srcPitch + x * srcBytesPerPixel, srcBytesPerPixel)
    ensures rotation == Rotate270 ==> forall x, y :: InSome(Dests(moves) + dirty, x, y) ==>
      Shows(dst[..], x * mode.pitch + (mode.srcWidth - 1 - y) * (dstBitPerPixel / 8), dstBitPerPixel,
            src[..], y * srcPitch + x * srcBytesPerPixel, srcBytesPerPixel)
    ensures transfer == Transfer(resid, (upd.top * mode.pitch + upd.left * ((dstBitPerPixel + 7) / 8)) % 0x1_0000_0000,
                                 (upd.right - upd.left) % 0x1_0000_0000, (upd.bottom - upd.top) % 0x1_0000_0000,
                                 upd.left % 0x1_0000_0000, upd.top % 0x1_0000_0000)
    ensures |moves| == |dirty| == 0 ==> upd == Rect(0, 0, mode.srcWidth, mode.srcHeight)
    ensures |moves| + |dirty| > 0 ==>
      && (forall r :: r in Dests(moves) + dirty ==>
            upd.left <= r.left && upd.top <= r.top && r.right <= upd.right && r.bottom <= upd.bottom)
      && (exists r :: r in Dests(moves) + dirty && r.left == upd.left)
      && (exists r :: r in Dests(moves) + dirty && r.top == upd.top)
      && (exists r :: r in Dests(moves) + dirty && r.right == upd.right)
      && (exists r :: r in Dests(moves) + dirty && r.bottom == upd.bottom)
    ensures IsUpdate(upd, Dests(moves) + dirty, mode) && transfer == TransferOf(resid, upd, mode.pitch, dstBitPerPixel)
    ensures flush == Flush(resid, transfer.width, transfer.height, transfer.x, transfer.y)
  {
    hide IsBlit, Copyable, IsHull, RectPixels, Covered, TransferOf, Shows, InSome, Supported, DstInfo, SrcInfo;
    var dstBltInfo := DstInfo(mode, dstBitPerPixel, rotation);
    var srcBltInfo := SrcInfo(mode, srcBytesPerPixel, srcPitch, rotation);
    ghost var before, all := dst[..], Dests(moves) + dirty;
    assert all[..|moves|] == Dests(moves) && all[..0] == [];
    NothingCovered();
    CoveredPrefix(all, |moves|);
    CopyableFewer(dstBltInfo, |before|, srcBltInfo, src.Length, Covered(all), Covered(Dests(moves)));
    CopyableFewer(dstBltInfo, |before|, srcBltInfo, src.Length, Covered(all), {});
    BlitNothing(before, dstBltInfo, srcBltInfo, src[..]);
    assert [] + Dests(moves) == Dests(moves);
    BltEach(dst, dstBltInfo, src, srcBltInfo, Dests(moves), before, []);
    BltEach(dst, dstBltInfo, src, srcBltInfo, dirty, before, Dests(moves));
    PresentedAll(before, dst[..], mode, dstBitPerPixel, src[..], srcBytesPerPixel, srcPitch, rotation, all);
    var updated, updrect := FindUpdateRect(moves, dirty);
    if !updated {
      updrect := Rect(0, 0, mode.srcWidth, mode.srcHeight);
    }
    upd := updrect;
    WrapsTo32(resid, updrect, mode.pitch, dstBitPerPixel);
    var bytesPerPixel := (dstBitPerPixel + BITS_PER_BYTE - 1) / BITS_PER_BYTE;
    var offset := Wrap32(updrect.top * mode.pitch + updrect.left * bytesPerPixel);
    var width, height := Wrap32(updrect.right - updrect.left), Wrap32(updrect.bottom - updrect.top);
    transfer := Transfer(resid, offset, width, height, Wrap32(updrect.left), Wrap32(updrect.top));
    flush := Flush(resid, width, height, Wrap32(updrect.left), Wrap32(updrect.top));
  }

  lemma {:induction false} CoveredPrefix(rects: seq<Rect>, n: nat)
    requires n <= |rects|
    ensures Covered(rects[..n]) <= Covered(rects)
  {
    hide RectPixels;
    if n < |rects| {
      CoveredHas(rects, n);
    } else {
      assert rects[..n] == rects;
    }
  }

  // ------------------------------------------------------------- the device's copy

  /** A resource of width by height pixels of four bytes. */
  datatype Resource = Resource(width: nat, height: nat)

  function Stride(res: Resource): nat {
    res.width * 4
  }

  /** A transfer that leaves the resource is answered with an error. */
  predicate Accepted(res: Resource, t: Transfer) {
    t.x + t.width <= res.width && t.y + t.height <= res.height
  }

  predicate InTransfer(t: Transfer, col: int, row: int) {
    t.x <= col < t.x + t.width && t.y <= row < t.y + t.height
  }

  /** Section 5.7 of Virtio 1.1: pixel (x, y + h) of the resource is filled from offset + h * stride of the backing. */
  function HostByte(res: Resource, host: seq<Byte>, guest: seq<Byte>, t: Transfer, j: nat): Byte
    requires j < |host| && res.width > 0
  {
    var row, inRow := j / Stride(res), j % Stride(res);
    var from := t.offset + (row - t.y) * Stride(res) + inRow - t.x * 4;
    if Accepted(res, t) && InTransfer(t, inRow / 4, row) && 0 <= from < |guest| then guest[from] else host[j]
  }

  function HostAfter(res: Resource, host: seq<Byte>, guest: seq<Byte>, t: Transfer): (h: seq<Byte>)
    requires res.width > 0
    ensures |h| == |host| && forall j: nat :: j < |h| ==> h[j] == HostByte(res, host, guest, t, j)
  {
    seq(|host|, j requires 0 <= j < |host| => HostByte(res, host, guest, t, j))
  }

  /** The device shows what the frame buffer holds. */
  predicate Coherent(res: Resource, host: seq<Byte>, guest: seq<Byte>) {
    |host| == res.height * Stride(res) <= |guest| && host == guest[..|host|]
  }

  lemma DivMod(row: nat, inRow: nat, stride: nat)
    requires inRow < stride
    ensures (row * stride + inRow) / stride == row && (row * stride + inRow) % stride == inRow
  {
    ModuloUnique(row * stride + inRow, stride, row, inRow);
  }

  /** A transfer whose offset is the corner of its rectangle moves each byte to its own place. */
  lemma CornerOffset(res: Resource, host: seq<Byte>, guest: seq<Byte>, t: Transfer, j: nat)
    requires j < |host| <= |guest| && res.width > 0 && t.offset == t.y * Stride(res) + t.x * 4
    ensures HostByte(res, host, guest, t, j)
         == if Accepted(res, t) && InTransfer(t, j % Stride(res) / 4, j / Stride(res)) then guest[j] else host[j]
  {
    var s, row := Stride(res), j / Stride(res);
    assert (row - t.y) * s == row * s - t.y * s;
    assert j == row * s + j % s;
  }

  /** A transfer of everything moves every byte. */
  lemma EveryByteMoves(res: Resource, host: seq<Byte>, guest: seq<Byte>, resid: nat, j: nat)
    requires res.width > 0 && j < |host| == res.height * Stride(res) <= |guest|
    ensures HostByte(res, host, guest, Transfer(resid, 0, res.width, res.height, 0, 0), j) == guest[j]
  {
    hide HostByte, InTransfer, Stride;
    var t, s := Transfer(resid, 0, res.width, res.height, 0, 0), Stride(res);
    StrideIs(res);
    assert t.offset == t.y * s + t.x * 4;
    CornerOffset(res, host, guest, t, j);
    WholeRows(j, res.height, s);
    QuarterBelow(j % s, res.width);
    AllInTransfer(resid, res, j % s / 4, j / s);
  }

  /** The first transfer of a frame buffer, all of it from offset 0, makes the copy coherent whatever it was. */
  lemma FullTransferCoherent(res: Resource, host: seq<Byte>, guest: seq<Byte>, resid: nat)
    requires res.width > 0 && |host| == res.height * Stride(res) <= |guest|
    ensures Coherent(res, HostAfter(res, host, guest, Transfer(resid, 0, res.width, res.height, 0, 0)), guest)
  {
    hide HostByte, Stride;
    var t := Transfer(resid, 0, res.width, res.height, 0, 0);
    forall j: nat | j < |host| ensures HostByte(res, host, guest, t, j) == guest[j] {
      EveryByteMoves(res, host, guest, resid, j);
    }
  }

  lemma QuarterBelow(a: nat, w: nat)
    requires a < w * 4
    ensures 0 <= a / 4 < w
  {
  }

  lemma AllInTransfer(resid: nat, res: Resource, col: nat, row: nat)
    requires col < res.width && row < res.height
    ensures InTransfer(Transfer(resid, 0, res.width, res.height, 0, 0), col, row)
  {
  }

  lemma StrideIs(res: Resource)
    ensures Stride(res) == res.width * 4
  {
  }

  lemma WholeRows(j: nat, height: nat, stride: nat)
    requires stride > 0 && j < height * stride
    ensures 0 <= j / stride < height
  {
    assert j == (j / stride) * stride + j % stride;
    if j / stride >= height {
      TimesMonotone(height, j / stride, stride);
      assert false;
    }
  }

  // ------------------------------------------------------------- coherence

  /** The frame buffer of a mode, its resource, and a transfer that starts at its own corner. */
  predicate Matching(di: BltInfo, res: Resource, t: Transfer) {
    && di.bits == 0 && di.bpp == 32 && di.pitch == Stride(res) && res.width > 0
    && di.width <= res.width && di.height <= res.height
    && t.offset == t.y * di.pitch + t.x * 4
  }

  /** Every pixel, where rotation puts it, is part of what the device copies. */
  predicate Reached(di: BltInfo, res: Resource, t: Transfer, pixels: set<Point>) {
    forall p :: p in pixels ==> Accepted(res, t) && InTransfer(t, Column(di, p), Row(di, p))
  }

  /** Where byte k of a pixel lies. */
  lemma ByteOfPixel(di: BltInfo, res: Resource, t: Transfer, p: Point, j: nat)
    requires Matching(di, res, t) && Inside(di, p) && Touches(di, 4, p, j)
    ensures j / Stride(res) == Row(di, p) && j % Stride(res) / 4 == Column(di, p) && j < res.height * Stride(res)
  {
    var inRow := j - Row(di, p) * di.pitch;
    DivMod(Row(di, p), inRow, di.pitch);
    TimesMonotone(Row(di, p) + 1, res.height, di.pitch);
    assert (Row(di, p) + 1) * di.pitch == Row(di, p) * di.pitch + di.pitch;
  }

  /** If every blitted pixel is reached, the copy stays coherent. */
  lemma ReachedKeepsCoherent(before: seq<Byte>, after: seq<Byte>, di: BltInfo, si: BltInfo, sm: seq<Byte>,
                             pixels: set<Point>,
                             res: Resource, host: seq<Byte>, t: Transfer)
    requires Matching(di, res, t) && si.bpp == 32 && Copyable(di, |before|, si, |sm|, pixels)
    requires IsBlit(before, after, di, si, sm, pixels) && Coherent(res, host, before) && Reached(di, res, t, pixels)
    ensures Coherent(res, HostAfter(res, host, after, t), after)
  {
    hide HostByte, Row, Column, Addr, Accepted, InTransfer, Colour;
    forall j: nat | j < |host| ensures HostByte(res, host, after, t, j) == after[j] {
      CornerOffset(res, host, after, t, j);
      if Untouched(di, 4, pixels, j) {
        assert after[j] == before[j] == before[..|host|][j];
      } else {
        var p :| p in pixels && Touches(di, 4, p, j);
        ByteOfPixel(di, res, t, p, j);
      }
    }
  }

  /** A pixel that is not reached leaves a stale copy, if its colour changes. */
  lemma UnreachedGoesStale(before: seq<Byte>, after: seq<Byte>, di: BltInfo, si: BltInfo, sm: seq<Byte>,
                           pixels: set<Point>,
                           res: Resource, host: seq<Byte>, t: Transfer, p: Point)
    requires Matching(di, res, t) && si.bpp == 32 && Copyable(di, |before|, si, |sm|, pixels) && p in pixels
    requires IsBlit(before, after, di, si, sm, pixels) && Coherent(res, host, before)
    requires !(Accepted(res, t) && InTransfer(t, Column(di, p), Row(di, p)))
    requires 0 <= Addr(di, p) < |before| && before[Addr(di, p)] != Colour(sm, di, si, p)[0]
    ensures !Coherent(res, HostAfter(res, host, after, t), after)
  {
    hide HostByte, Row, Column, Addr, Accepted, InTransfer, Colour, IsBlit;
    var j, colour := Addr(di, p), Colour(sm, di, si, p);
    BlitPaints(before, after, di, si, sm, pixels, p);
    PaintedByte(after, di, colour, p, j);
    ByteOfPixel(di, res, t, p, j);
    CornerOffset(res, host, after, t, j);
    assert HostByte(res, host, after, t, j) == host[j] == before[..|host|][j];
    assert after[..|host|][j] == after[j];
  }

  /** There is always a memory that a blit leaves. */
  lemma {:induction false} BlitExists(before: seq<Byte>, di: BltInfo, si: BltInfo, sm: seq<Byte>, pixels: set<Point>)
    returns (after: seq<Byte>)
    requires Copyable(di, |before|, si, |sm|, pixels)
    ensures IsBlit(before, after, di, si, sm, pixels)
    decreases |pixels|
  {
    hide IsBlit, Copyable, Splice, Addr;
    if pixels == {} {
      BlitNothing(before, di, si, sm);
      after := before;
    } else {
      var p :| p in pixels;
      var rest := pixels - {p};
      assert rest + {p} == pixels;
      CopyableFewer(di, |before|, si, |sm|, pixels, rest);
      CopyableFewer(di, |before|, si, |sm|, pixels, {p});
      var mid := BlitExists(before, di, si, sm, rest);
      BlitLength(before, mid, di, si, sm, rest);
      after := PaintOne(mid, di, si, sm, p);
      BlitThen(before, mid, after, di, si, sm, rest, {p});
    }
  }

  lemma PaintOne(before: seq<Byte>, di: BltInfo, si: BltInfo, sm: seq<Byte>, p: Point) returns (after: seq<Byte>)
    requires Copyable(di, |before|, si, |sm|, {p})
    ensures IsBlit(before, after, di, si, sm, {p})
  {
    hide IsBlit, Addr, Splice, Inside, Supported;
    assert p in {p};
    BlitOne(before, di, si, sm, p);
    after := Splice(before, Addr(di, p), Colour(sm, di, si, p));
  }

  lemma BlitLength(before: seq<Byte>, after: seq<Byte>, di: BltInfo, si: BltInfo, sm: seq<Byte>, pixels: set<Point>)
    requires Copyable(di, |before|, si, |sm|, pixels) && IsBlit(before, after, di, si, sm, pixels)
    ensures |after| == |before|
  {
  }

  /** Whatever the contents, this present leaves the copy coherent. */
  ghost predicate KeepsCoherent(di: BltInfo, length: nat, si: BltInfo, sLength: nat, pixels: set<Point>, res: Resource,
                                t: Transfer)
    requires res.width > 0 && Copyable(di, length, si, sLength, pixels)
  {
    forall before: seq<Byte>, after: seq<Byte>, sm: seq<Byte>, host: seq<Byte> ::
      |before| == length && |sm| == sLength && Coherent(res, host, before) && IsBlit(before, after, di, si, sm, pixels)
      ==> Coherent(res, HostAfter(res, host, after, t), after)
  }

  /**
   Exactly when the copy stays coherent for every frame buffer and every source:
   when each written pixel is reached.
   */
  lemma CoherentExactlyWhenReached(di: BltInfo, length: nat, si: BltInfo, sLength: nat, pixels: set<Point>,
                                   res: Resource, t: Transfer)
    requires res.width > 0 && Matching(di, res, t) && si.bpp == 32 && res.height * Stride(res) <= length
    requires Copyable(di, length, si, sLength, pixels)
    ensures KeepsCoherent(di, length, si, sLength, pixels, res, t) <==> Reached(di, res, t, pixels)
  {
    hide Coherent, IsBlit, Copyable, Matching, HostByte;
    if Reached(di, res, t, pixels) {
      forall before: seq<Byte>, after: seq<Byte>, sm: seq<Byte>, host: seq<Byte> |
        && |before| == length && |sm| == sLength
        && Coherent(res, host, before) && IsBlit(before, after, di, si, sm, pixels)
        ensures Coherent(res, HostAfter(res, host, after, t), after)
      {
        ReachedKeepsCoherent(before, after, di, si, sm, pixels, res, host, t);
      }
    } else {
      var p :| p in pixels && !(Accepted(res, t) && InTransfer(t, Column(di, p), Row(di, p)));
      var before, after, sm, host := StalePicture(di, length, si, sLength, pixels, res, t, p);
    }
  }

  /** A black screen, and a white source. */
  lemma StalePicture(di: BltInfo, length: nat, si: BltInfo, sLength: nat, pixels: set<Point>, res: Resource,
                     t: Transfer, p: Point)
    returns (before: seq<Byte>, after: seq<Byte>, sm: seq<Byte>, host: seq<Byte>)
    requires Matching(di, res, t) && si.bpp == 32 && res.height * Stride(res) <= length
    requires Copyable(di, length, si, sLength, pixels)
    requires p in pixels && !(Accepted(res, t) && InTransfer(t, Column(di, p), Row(di, p)))
    ensures |before| == length && |sm| == sLength && Coherent(res, host, before)
    ensures IsBlit(before, after, di, si, sm, pixels)
    ensures !Coherent(res, HostAfter(res, host, after, t), after)
  {
    hide IsBlit, HostByte, Row, Column, Accepted, InTransfer, Addr;
    before, sm := seq(length, _ => 0), seq(sLength, _ => 0xff);
    host := before[..res.height * Stride(res)];
    after := BlitExists(before, di, si, sm, pixels);
    AddrInside(di, p, length);
    AddrInside(si, p, sLength);
    UnreachedGoesStale(before, after, di, si, sm, pixels, res, host, t, p);
  }

  // ------------------------------------------------------------- unrotated presents

  predicate InBounds(r: Rect, mode: Mode) {
    0 <= r.left <= r.right <= mode.srcWidth && 0 <= r.top <= r.bottom <= mode.srcHeight
  }

  predicate AllInBounds(rects: seq<Rect>, mode: Mode) {
    forall i :: 0 <= i < |rects| ==> InBounds(rects[i], mode)
  }

  /** A 32-bit mode that SetSourceModeAndPath and SetCurrentMode set up: pitch and resource width agree. */
  predicate ModeFits(mode: Mode, res: Resource, length: nat) {
    && 0 < mode.srcWidth <= res.width && 0 < mode.srcHeight <= res.height
    && mode.pitch == Stride(res) && res.height * mode.pitch < 0x8000_0000 && res.height * mode.pitch <= length
  }

  /** The source image is as large as the mode. */
  predicate SourceFits(mode: Mode, srcPitch: nat, length: nat) {
    mode.srcWidth * 4 <= srcPitch && mode.srcHeight * srcPitch < 0x8000_0000 && mode.srcHeight * srcPitch <= length
  }

  lemma InBoundsIsCopyable(rects: seq<Rect>, mode: Mode, res: Resource, dLength: nat, srcPitch: nat, sLength: nat)
    requires ModeFits(mode, res, dLength) && SourceFits(mode, srcPitch, sLength) && AllInBounds(rects, mode)
    ensures AllOrdered(rects)
    ensures Copyable(DstInfo(mode, 32, Identity), dLength, SrcInfo(mode, 4, srcPitch, Identity), sLength,
                     Covered(rects))
  {
    hide RectPixels;
    TimesMonotone(mode.srcHeight, res.height, mode.pitch);
    HullCovers(Rect(0, 0, mode.srcWidth, mode.srcHeight), rects);
    ScreenInside(mode, 32, mode.pitch);
    ScreenInside(mode, 32, srcPitch);
    hide Inside;
  }

  lemma ScreenInside(mode: Mode, bpp: nat, pitch: nat)
    ensures forall p :: p in RectPixels(Rect(0, 0, mode.srcWidth, mode.srcHeight)) ==>
                          Inside(BltInfo(0, pitch, bpp, 0, 0, Identity, mode.srcWidth, mode.srcHeight), p)
  {
  }

  lemma UpdateInBounds(upd: Rect, rects: seq<Rect>, mode: Mode)
    requires IsUpdate(upd, rects, mode) && AllInBounds(rects, mode)
    ensures InBounds(upd, mode)
  {
    if rects != [] {
      assert EnclosesAll(Rect(0, 0, mode.srcWidth, mode.srcHeight), rects);
      assert Encloses(upd, rects[0]);
    }
  }

  /** Without rotation the bounding rectangle reaches every written pixel, and its offset addresses its corner. */
  lemma UnrotatedIsReached(upd: Rect, rects: seq<Rect>, mode: Mode, res: Resource, length: nat, resid: nat)
    requires ModeFits(mode, res, length) && AllInBounds(rects, mode) && IsUpdate(upd, rects, mode)
    ensures Matching(DstInfo(mode, 32, Identity), res, TransferOf(resid, upd, mode.pitch, 32))
    ensures Reached(DstInfo(mode, 32, Identity), res, TransferOf(resid, upd, mode.pitch, 32), Covered(rects))
  {
    hide RectPixels, TransferOf, IsUpdate, Covered, AllInBounds;
    UpdateInBounds(upd, rects, mode);
    TransferExact(upd, mode, res, length, resid);
    CoveredInUpdate(upd, rects, mode);
    RectReached(DstInfo(mode, 32, Identity), res, TransferOf(resid, upd, mode.pitch, 32), upd, Covered(rects));
  }

  /** Nothing wraps. */
  lemma TransferExact(upd: Rect, mode: Mode, res: Resource, length: nat, resid: nat)
    requires ModeFits(mode, res, length) && InBounds(upd, mode)
    ensures upd.top * mode.pitch >= 0
    ensures TransferOf(resid, upd, mode.pitch, 32)
         == Transfer(resid, upd.top * mode.pitch + upd.left * 4, upd.right - upd.left, upd.bottom - upd.top,
                     upd.left, upd.top)
  {
    hide Wrap32;
    CornerFits(upd.top, res.height, upd.left, mode.pitch);
    WrapSmall32(upd.top * mode.pitch + upd.left * 4);
    WrapSmall32(upd.right - upd.left);
    WrapSmall32(upd.bottom - upd.top);
    WrapSmall32(upd.left);
    WrapSmall32(upd.top);
  }

  lemma CornerFits(top: nat, height: nat, left: nat, pitch: nat)
    requires top <= height && 0 < height && left * 4 <= pitch && height * pitch < 0x8000_0000
    ensures 0 <= top * pitch && top * pitch + left * 4 < U32_SIZE
  {
    TimesMonotone(top, height, pitch);
    TimesMonotone(1, height, pitch);
  }

  lemma RectReached(di: BltInfo, res: Resource, t: Transfer, upd: Rect, pixels: set<Point>)
    requires di.rotation == Identity && di.offX == 0 && di.offY == 0 && pixels <= RectPixels(upd)
    requires 0 <= upd.left <= upd.right <= res.width && 0 <= upd.top <= upd.bottom <= res.height
    requires t.x == upd.left && t.y == upd.top && t.width == upd.right - upd.left && t.height == upd.bottom - upd.top
    ensures Reached(di, res, t, pixels)
  {
  }

  lemma CoveredInUpdate(upd: Rect, rects: seq<Rect>, mode: Mode)
    requires IsUpdate(upd, rects, mode)
    ensures Covered(rects) <= RectPixels(upd)
  {
    if rects != [] {
      HullCovers(upd, rects);
    }
  }

  /** The frame buffer of an unrotated 32-bit present. */
  ghost predicate BlitOfFrame(before: seq<Byte>, after: seq<Byte>, mode: Mode, srcPitch: nat, sm: seq<Byte>,
                              rects: seq<Rect>) {
    && Copyable(DstInfo(mode, 32, Identity), |before|, SrcInfo(mode, 4, srcPitch, Identity), |sm|, Covered(rects))
    && IsBlit(before, after, DstInfo(mode, 32, Identity), SrcInfo(mode, 4, srcPitch, Identity), sm, Covered(rects))
  }

  /** One unrotated present: a coherent copy is coherent again once the device has executed the transfer. */
  method PresentUnrotated(dst: array<Byte>, src: array<Byte>, srcPitch: nat, moves: seq<MoveRect>, dirty: seq<Rect>,
                          mode: Mode,
                          ghost res: Resource, resid: nat, ghost host: seq<Byte>)
    returns (transfer: Transfer, flush: Flush, ghost host': seq<Byte>)
    requires dst != src && ModeFits(mode, res, dst.Length) && SourceFits(mode, srcPitch, src.Length)
    requires AllInBounds(Dests(moves) + dirty, mode) && Coherent(res, host, dst[..])
    modifies dst
    ensures BlitOfFrame(old(dst[..]), dst[..], mode, srcPitch, src[..], Dests(moves) + dirty)
    ensures forall x, y :: InSome(Dests(moves) + dirty, x, y) ==>
      Shows(dst[..], y * mode.pitch + x * 4, 32, src[..], y * srcPitch + x * 4, 4)
    ensures transfer.resid == flush.resid == resid
    ensures flush == Flush(resid, transfer.width, transfer.height, transfer.x, transfer.y)
    ensures host' == HostAfter(res, host, dst[..], transfer) && Coherent(res, host', dst[..])
  {
    hide InSome, Shows, IsBlit, Coherent, Matching, Reached, IsHull, IsUpdate, TransferOf, Stride;
    ghost var rects := Dests(moves) + dirty;
    assert forall i :: 0 <= i < |moves| ==> rects[i] == Dests(moves)[i];
    assert forall i :: 0 <= i < |dirty| ==> rects[|moves| + i] == dirty[i];
    InBoundsIsCopyable(rects, mode, res, dst.Length, srcPitch, src.Length);
    ghost var before, upd := dst[..], Rect(0, 0, 0, 0);
    transfer, flush, upd := ExecutePresentDisplayOnly(dst, 32, src, 4, srcPitch, moves, dirty, Identity, mode, resid);
    UnrotatedIsReached(upd, rects, mode, res, dst.Length, resid);
    ReachedKeepsCoherent(before, dst[..], DstInfo(mode, 32, Identity), SrcInfo(mode, 4, srcPitch, Identity), src[..],
                         Covered(rects), res, host, transfer);
    host' := HostAfter(res, host, dst[..], transfer);
    forall x, y | InSome(rects, x, y)
      ensures Shows(dst[..], y * mode.pitch + x * 4, 32, src[..], y * srcPitch + x * 4, 4)
    {
      FourBytesShow(dst[..], mode.pitch, src[..], srcPitch, x, y);
    }
  }

  lemma FourBytesShow(mem: seq<Byte>, pitch: nat, sm: seq<Byte>, srcPitch: nat, x: int, y: int)
    requires Shows(mem, y * pitch + x * (32 / 8), 32, sm, y * srcPitch + x * 4, 4)
    ensures Shows(mem, y * pitch + x * 4, 32, sm, y * srcPitch + x * 4, 4)
  {
    hide Shows;
    assert x * (32 / 8) == x * 4;
  }

  datatype Frame = Frame(src: array<Byte>, pitch: nat, moves: seq<MoveRect>, dirty: seq<Rect>)

  predicate FrameFits(f: Frame, dst: array<Byte>, mode: Mode) {
    f.src != dst && SourceFits(mode, f.pitch, f.src.Length) && AllInBounds(Dests(f.moves) + f.dirty, mode)
  }

  /** The device's copy after a run of transfers, each reading the frame buffer as it is at that time. */
  function HostRun(res: Resource, host: seq<Byte>, guests: seq<seq<Byte>>, transfers: seq<Transfer>): seq<Byte>
    requires res.width > 0 && |guests| == |transfers|
  {
    if guests == [] then host
    else
      var last := |guests| - 1;
      HostAfter(res, HostRun(res, host, guests[..last], transfers[..last]), guests[last], transfers[last])
  }

  /**
   From the creation of the frame buffer on, with its transfer of the whole
   screen, every present ends with a coherent copy, whatever the copy held first.
   */
  method PresentAll(dst: array<Byte>, frames: seq<Frame>, mode: Mode, res: Resource, resid: nat, ghost host: seq<Byte>)
    returns (transfers: seq<Transfer>, ghost guests: seq<seq<Byte>>)
    requires ModeFits(mode, res, dst.Length) && |host| == res.height * Stride(res)
    requires forall i :: 0 <= i < |frames| ==> FrameFits(frames[i], dst, mode)
    modifies dst
    ensures |transfers| == |guests| == |frames| + 1 && transfers[0] == Transfer(resid, 0, res.width, res.height, 0, 0)
    ensures guests[0] == old(dst[..]) && guests[|frames|] == dst[..]
    ensures forall i :: 0 <= i <= |frames| ==> transfers[i].resid == resid
    ensures |frames| > 0 ==>
      var f := frames[|frames| - 1];
      forall x, y :: InSome(Dests(f.moves) + f.dirty, x, y) ==>
        Shows(dst[..], y * mode.pitch + x * 4, 32, f.src[..], y * f.pitch + x * 4, 4)
    ensures forall i :: 0 <= i <= |frames| ==>
      Coherent(res, HostRun(res, host, guests[..i + 1], transfers[..i + 1]), guests[i])
  {
    hide Coherent, HostAfter, FrameFits, HostRun, InSome, Shows;
    FirstTransfer(mode, res, dst[..], host, resid);
    transfers, guests := [Transfer(resid, 0, res.width, res.height, 0, 0)], [dst[..]];
    OneTransfer(res, host, dst[..], transfers[0]);
    ghost var now := HostAfter(res, host, dst[..], transfers[0]);
    assert guests[..1] == guests && transfers[..1] == transfers;
    for i := 0 to |frames|
      invariant |transfers| == |guests| == i + 1 && transfers[0] == Transfer(resid, 0, res.width, res.height, 0, 0)
      invariant guests[0] == old(dst[..]) && guests[i] == dst[..]
      invariant forall k :: 0 <= k <= i ==> transfers[k].resid == resid
      invariant i > 0 ==>
        var f := frames[i - 1];
        forall x, y :: InSome(Dests(f.moves) + f.dirty, x, y) ==>
          Shows(dst[..], y * mode.pitch + x * 4, 32, f.src[..], y * f.pitch + x * 4, 4)
      invariant now == HostRun(res, host, guests, transfers) && Coherent(res, now, dst[..])
      invariant forall k :: 0 <= k <= i ==>
        Coherent(res, HostRun(res, host, guests[..k + 1], transfers[..k + 1]), guests[k])
    {
      var f := frames[i];
      FrameIsFit(f, dst, mode);
      var transfer, flush;
      transfer, flush, now := PresentUnrotated(dst, f.src, f.pitch, f.moves, f.dirty, mode, res, resid, now);
      NextTransfer(res, host, guests, transfers, dst[..], transfer);
      ghost var guests', transfers' := guests + [dst[..]], transfers + [transfer];
      forall k | 0 <= k <= i + 1
        ensures Coherent(res, HostRun(res, host, guests'[..k + 1], transfers'[..k + 1]), guests'[k])
      {
        if k <= i {
          assert guests'[..k + 1] == guests[..k + 1] && transfers'[..k + 1] == transfers[..k + 1];
        } else {
          assert guests'[..k + 1] == guests' && transfers'[..k + 1] == transfers';
        }
      }
      transfers, guests := transfers + [transfer], guests';
    }
  }

  lemma FrameIsFit(f: Frame, dst: array<Byte>, mode: Mode)
    requires FrameFits(f, dst, mode)
    ensures f.src != dst && SourceFits(mode, f.pitch, f.src.Length) && AllInBounds(Dests(f.moves) + f.dirty, mode)
  {
  }

  lemma OneTransfer(res: Resource, host: seq<Byte>, guest: seq<Byte>, t: Transfer)
    requires res.width > 0
    ensures HostRun(res, host, [guest], [t]) == HostAfter(res, host, guest, t)
  {
    assert [guest][..0] == [] && [t][..0] == [];
  }

  lemma NextTransfer(res: Resource, host: seq<Byte>, guests: seq<seq<Byte>>, transfers: seq<Transfer>, guest: seq<Byte>,
                     t: Transfer)
    requires res.width > 0 && |guests| == |transfers|
    ensures HostRun(res, host, guests + [guest], transfers + [t])
         == HostAfter(res, HostRun(res, host, guests, transfers), guest, t)
  {
    assert (guests + [guest])[..|guests|] == guests && (transfers + [t])[..|guests|] == transfers;
  }

  lemma FirstTransfer(mode: Mode, res: Resource, guest: seq<Byte>, host: seq<Byte>, resid: nat)
    requires ModeFits(mode, res, |guest|) && |host| == res.height * Stride(res)
    ensures res.width > 0
    ensures Coherent(res, HostAfter(res, host, guest, Transfer(resid, 0, res.width, res.height, 0, 0)), guest)
  {
    hide HostAfter;
    FullTransferCoherent(res, host, guest, resid);
  }

  /**
   Rotation breaks it: a half turn of the left of two pixels is drawn on the
   right, the left is transferred, and the copy of the right one goes stale.
   */
  lemma HalfTurnIsNotReached() returns (di: BltInfo, si: BltInfo, res: Resource, t: Transfer, rects: seq<Rect>)
    ensures rects == [Rect(0, 0, 1, 1)] && res == Resource(2, 1)
    ensures di == DstInfo(Mode(8, 2, 1), 32, Rotate180) && si == SrcInfo(Mode(8, 2, 1), 4, 8, Rotate180)
    ensures IsUpdate(Rect(0, 0, 1, 1), rects, Mode(8, 2, 1)) && t == TransferOf(1, Rect(0, 0, 1, 1), 8, 32)
    ensures Copyable(di, 8, si, 8, Covered(rects)) && !Reached(di, res, t, Covered(rects))
    ensures !KeepsCoherent(di, 8, si, 8, Covered(rects), res, t)
  {
    hide KeepsCoherent, Copyable, Matching, Reached, Covered;
    rects, res := [Rect(0, 0, 1, 1)], Resource(2, 1);
    di, si := DstInfo(Mode(8, 2, 1), 32, Rotate180), SrcInfo(Mode(8, 2, 1), 4, 8, Rotate180);
    t := TransferOf(1, Rect(0, 0, 1, 1), 8, 32);
    assert rects[0] == Rect(0, 0, 1, 1);
    CoversOne(rects[0]);
    LeftPixel(rects[0]);
    LeftPixelTurned(di, si, res, t);
    CoherentExactlyWhenReached(di, 8, si, 8, Covered(rects), res, t);
  }

  lemma LeftPixel(r: Rect)
    requires r == Rect(0, 0, 1, 1)
    ensures RectPixels(r) == {Point(0, 0)}
  {
  }

  lemma LeftPixelTurned(di: BltInfo, si: BltInfo, res: Resource, t: Transfer)
    requires di == DstInfo(Mode(8, 2, 1), 32, Rotate180) && si == SrcInfo(Mode(8, 2, 1), 4, 8, Rotate180)
    requires res == Resource(2, 1) && t == TransferOf(1, Rect(0, 0, 1, 1), 8, 32)
    ensures Copyable(di, 8, si, 8, {Point(0, 0)}) && Matching(di, res, t) && !Reached(di, res, t, {Point(0, 0)})
  {
    assert Point(0, 0) in {Point(0, 0)};
    assert t == Transfer(1, 0, 1, 1, 0, 0);
  }
}
