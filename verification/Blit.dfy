/**
 The copy loops of the blitter. IsBlit says what copying a set of pixels means,
 whatever the order; it determines the result, so the generic loop and the fast
 path, both proved to satisfy it, leave the same memory behind.
 */
module Blit {
  import opened Words
  import opened Bitops

  // ------------------------------------------------------------- meaning

  predicate AllInside(i: BltInfo, length: nat, pixels: set<Point>) {
    ImageFits(i, length) && forall p :: p in pixels ==> Inside(i, p)
  }

  /** Both images hold these pixels, in formats that can be converted. */
  predicate Copyable(di: BltInfo, dLength: nat, si: BltInfo, sLength: nat, pixels: set<Point>) {
    Supported(di.bpp, si.bpp) && AllInside(di, dLength, pixels) && AllInside(si, sLength, pixels)
  }

  /** The bytes of one pixel. */
  function PixelAt(mem: seq<Byte>, i: BltInfo, p: Point): (px: seq<Byte>)
    requires ImageFits(i, |mem|) && Inside(i, p)
    ensures |px| == BytesPerPixel(i)
  {
    AddrInside(i, p, |mem|);
    mem[Addr(i, p)..Addr(i, p) + BytesPerPixel(i)]
  }

  /** The source pixel in the format of the destination. */
  function Colour(sm: seq<Byte>, di: BltInfo, si: BltInfo, p: Point): (w: seq<Byte>)
    requires Supported(di.bpp, si.bpp) && ImageFits(si, |sm|) && Inside(si, p)
    ensures |w| == Width(di, si) <= BytesPerPixel(di)
  {
    Converted(di.bpp, si.bpp, PixelAt(sm, si, p))
  }

  function Width(di: BltInfo, si: BltInfo): nat {
    WrittenBytes(di.bpp, si.bpp)
  }

  /** Byte j belongs to what is written for pixel p. */
  predicate Touches(di: BltInfo, width: nat, p: Point, j: nat) {
    Addr(di, p) <= j < Addr(di, p) + width
  }

  predicate Painted(mem: seq<Byte>, di: BltInfo, colour: seq<Byte>, p: Point) {
    0 <= Addr(di, p) && Addr(di, p) + |colour| <= |mem| && mem[Addr(di, p)..Addr(di, p) + |colour|] == colour
  }

  predicate Untouched(di: BltInfo, width: nat, pixels: set<Point>, j: nat) {
    forall p :: p in pixels ==> !Touches(di, width, p, j)
  }

  /** Every pixel of the set has its colour, at its rotated place, and no other byte has changed. */
  predicate IsBlit(before: seq<Byte>, after: seq<Byte>, di: BltInfo, si: BltInfo, sm: seq<Byte>, pixels: set<Point>)
    requires Copyable(di, |before|, si, |sm|, pixels)
  {
    && |after| == |before|
    && (forall p :: p in pixels ==> Painted(after, di, Colour(sm, di, si, p), p))
    && (forall j: nat :: j < |before| && Untouched(di, Width(di, si), pixels, j) ==> after[j] == before[j])
  }

  /** The meaning leaves no choice. */
  lemma BlitIsUnique(before: seq<Byte>, a: seq<Byte>, b: seq<Byte>, di: BltInfo, si: BltInfo, sm: seq<Byte>,
                     pixels: set<Point>)
    requires Copyable(di, |before|, si, |sm|, pixels)
    requires IsBlit(before, a, di, si, sm, pixels) && IsBlit(before, b, di, si, sm, pixels)
    ensures a == b
  {
    hide Addr, Colour;
    forall j: nat | j < |before| ensures a[j] == b[j] {
      if !Untouched(di, Width(di, si), pixels, j) {
        var p :| p in pixels && Touches(di, Width(di, si), p, j);
        var colour := Colour(sm, di, si, p);
        PaintedByte(a, di, colour, p, j);
        PaintedByte(b, di, colour, p, j);
      }
    }
  }

  lemma PaintedByte(mem: seq<Byte>, di: BltInfo, colour: seq<Byte>, p: Point, j: nat)
    requires Painted(mem, di, colour, p) && Touches(di, |colour|, p, j)
    ensures mem[j] == colour[j - Addr(di, p)]
  {
    assert mem[Addr(di, p)..Addr(di, p) + |colour|][j - Addr(di, p)] == mem[j];
  }

  /** Nothing to copy. */
  lemma BlitNothing(before: seq<Byte>, di: BltInfo, si: BltInfo, sm: seq<Byte>)
    requires Copyable(di, |before|, si, |sm|, {})
    ensures IsBlit(before, before, di, si, sm, {})
  {
  }

  function Splice(mem: seq<Byte>, at: nat, part: seq<Byte>): (r: seq<Byte>)
    requires at + |part| <= |mem|
    ensures |r| == |mem|
  {
    mem[..at] + part + mem[at + |part|..]
  }

  /** Storing one colour is the blit of one pixel. */
  lemma BlitOne(before: seq<Byte>, di: BltInfo, si: BltInfo, sm: seq<Byte>, p: Point)
    requires Copyable(di, |before|, si, |sm|, {p})
    ensures 0 <= Addr(di, p) && Addr(di, p) + Width(di, si) <= |before|
    ensures IsBlit(before, Splice(before, Addr(di, p), Colour(sm, di, si, p)), di, si, sm, {p})
  {
    hide Colour, Width;
    assert p in {p};
    AddrInside(di, p, |before|);
    var colour := Colour(sm, di, si, p);
    var after := Splice(before, Addr(di, p), colour);
    hide Addr;
    forall j: nat | j < |before| && Untouched(di, Width(di, si), {p}, j) ensures after[j] == before[j] {
      assert !Touches(di, Width(di, si), p, j);
    }
  }

  /** Blits of pixel sets compose, overlapping or not. */
  lemma BlitThen(before: seq<Byte>, mid: seq<Byte>, after: seq<Byte>, di: BltInfo, si: BltInfo, sm: seq<Byte>,
                 P: set<Point>, Q: set<Point>)
    requires Copyable(di, |before|, si, |sm|, P + Q) && |mid| == |before|
    requires Copyable(di, |before|, si, |sm|, P) && IsBlit(before, mid, di, si, sm, P)
    requires Copyable(di, |mid|, si, |sm|, Q) && IsBlit(mid, after, di, si, sm, Q)
    ensures IsBlit(before, after, di, si, sm, P + Q)
  {
    hide Addr, Colour, Width;
    forall p | p in P + Q ensures Painted(after, di, Colour(sm, di, si, p), p) {
      if p !in Q {
        StaysPainted(mid, after, di, si, sm, Q, p);
      }
    }
    forall j: nat | j < |before| && Untouched(di, Width(di, si), P + Q, j) ensures after[j] == before[j] {
      assert forall p :: p in P ==> p in P + Q;
      assert forall p :: p in Q ==> p in P + Q;
      assert Untouched(di, Width(di, si), P, j) && Untouched(di, Width(di, si), Q, j);
    }
  }

  /** A pixel outside the set keeps its colour. */
  lemma StaysPainted(mid: seq<Byte>, after: seq<Byte>, di: BltInfo, si: BltInfo, sm: seq<Byte>, Q: set<Point>, p: Point)
    requires Copyable(di, |mid|, si, |sm|, Q) && IsBlit(mid, after, di, si, sm, Q)
    requires Inside(di, p) && Inside(si, p) && p !in Q
    requires Painted(mid, di, Colour(sm, di, si, p), p)
    ensures Painted(after, di, Colour(sm, di, si, p), p)
  {
    hide Addr, Colour, Width;
    var colour := Colour(sm, di, si, p);
    var at := Addr(di, p);
    forall j: nat | at <= j < at + |colour| ensures after[j] == mid[j] {
      forall q | q in Q ensures !Touches(di, Width(di, si), q, j) {
        AddrApart(di, p, q, |mid|);
      }
      assert Untouched(di, Width(di, si), Q, j);
    }
    assert after[at..at + |colour|] == mid[at..at + |colour|];
  }

  /**
   Where a blit puts a pixel, and where it takes it from, for every rotation on
   either side: the bytes at the one place are the converted bytes of the other.
   */
  lemma PixelStandsAt(before: seq<Byte>, after: seq<Byte>, di: BltInfo, si: BltInfo, sm: seq<Byte>, pixels: set<Point>,
                      p: Point)
    returns (at: nat, from: nat)
    requires Copyable(di, |before|, si, |sm|, pixels) && IsBlit(before, after, di, si, sm, pixels) && p in pixels
    ensures at == di.bits + match di.rotation
      case Identity => (p.y + di.offY) * di.pitch + (p.x + di.offX) * (di.bpp / 8)
      case Rotate90 => (di.height - 1 - (p.x + di.offX)) * di.pitch + (p.y + di.offY) * (di.bpp / 8)
      case Rotate180 => (di.height - 1 - (p.y + di.offY)) * di.pitch + (di.width - 1 - (p.x + di.offX)) * (di.bpp / 8)
      case Rotate270 => (p.x + di.offX) * di.pitch + (di.width - 1 - (p.y + di.offY)) * (di.bpp / 8)
    ensures from == si.bits + match si.rotation
      case Identity => (p.y + si.offY) * si.pitch + (p.x + si.offX) * (si.bpp / 8)
      case Rotate90 => (si.height - 1 - (p.x + si.offX)) * si.pitch + (p.y + si.offY) * (si.bpp / 8)
      case Rotate180 => (si.height - 1 - (p.y + si.offY)) * si.pitch + (si.width - 1 - (p.x + si.offX)) * (si.bpp / 8)
      case Rotate270 => (p.x + si.offX) * si.pitch + (si.width - 1 - (p.y + si.offY)) * (si.bpp / 8)
    ensures |after| == |before| && at + WrittenBytes(di.bpp, si.bpp) <= |after| && from + si.bpp / 8 <= |sm|
    ensures after[at..at + WrittenBytes(di.bpp, si.bpp)] == Converted(di.bpp, si.bpp, sm[from..from + si.bpp / 8])
    ensures di.bpp == si.bpp == 32 ==> after[at..at + 4] == sm[from..from + 4]
  {
    hide Converted, Inside;
    AddrInside(di, p, |before|);
    AddrInside(si, p, |sm|);
    at, from := Addr(di, p), Addr(si, p);
    assert Painted(after, di, Colour(sm, di, si, p), p);
    if di.bpp == 32 && si.bpp == 32 {
      SameFormat(sm[from..from + 4]);
    }
  }

  lemma SameFormat(px: seq<Byte>)
    requires |px| == 4
    ensures Converted(32, 32, px) == px && WrittenBytes(32, 32) == 4
  {
  }

  // ------------------------------------------------------------- pixel sets

  ghost function RowPixels(left: int, y: int, n: nat): set<Point> {
    set x: int | left <= x < left + n :: Point(x, y)
  }

  /** The first n rows of a rectangle. */
  ghost function RowsPixels(r: Rect, n: nat): set<Point> {
    set x: int, y: int | r.left <= x < r.right && r.top <= y < r.top + n :: Point(x, y)
  }

  ghost function RectPixels(r: Rect): set<Point> {
    set x: int, y: int | r.left <= x < r.right && r.top <= y < r.bottom :: Point(x, y)
  }

  /** All pixels covered by a list of rectangles. */
  ghost function Covered(rects: seq<Rect>): set<Point> {
    if rects == [] then {} else Covered(rects[..|rects| - 1]) + RectPixels(rects[|rects| - 1])
  }

  predicate Ordered(r: Rect) {
    r.left <= r.right && r.top <= r.bottom
  }

  // ------------------------------------------------------------- the loops

  /** A store of one, two, three or four bytes through a typed pointer, or RtlCopyMemory. */
  method Store(dst: array<Byte>, at: nat, part: seq<Byte>)
    requires at + |part| <= dst.Length
    modifies dst
    ensures dst[..] == Splice(old(dst[..]), at, part)
    ensures dst[at..at + |part|] == part
    ensures forall j :: 0 <= j < dst.Length && (j < at || j >= at + |part|) ==> dst[j] == old(dst[j])
  {
    for k := 0 to |part|
      invariant dst[..at] == old(dst[..at])
      invariant dst[at..at + k] == part[..k]
      invariant dst[at + |part|..] == old(dst[at + |part|..])
    {
      dst[at + k] := part[k];
    }
    assert dst[..] == dst[..at] + dst[at..at + |part|] + dst[at + |part|..];
  }

  lemma FirstBytes(mem: seq<Byte>, at: nat, n: nat)
    requires 1 <= n && at + n <= |mem|
    ensures mem[at] == mem[at..at + n][0] && (n >= 2 ==> mem[at + 1] == mem[at..at + n][1])
    ensures n == 4 ==> mem[at + 2] == mem[at..at + n][2] && mem[at + 3] == mem[at..at + n][3]
  {
  }

  /** The body of the inner loop of CopyBitsGeneric. */
  method CopyPixel(dst: array<Byte>, d: nat, dstBpp: nat, src: array<Byte>, s: nat, srcBpp: nat)
    requires Supported(dstBpp, srcBpp) && dst != src
    requires s + srcBpp / BITS_PER_BYTE <= src.Length && d + WrittenBytes(dstBpp, srcBpp) <= dst.Length
    modifies dst
    ensures dst[..] == Splice(old(dst[..]), d, Converted(dstBpp, srcBpp, src[s..s + srcBpp / BITS_PER_BYTE]))
    ensures dstBpp == 32 && srcBpp == 32 ==> dst[d..d + 4] == src[s..s + 4]
    ensures dstBpp == 24 || srcBpp == 24 ==> dst[d..d + 3] == src[s..s + 3]
    ensures dstBpp == 32 && srcBpp == 16 ==>
      dst[d] == (src[s] & 0x1f) << 3 && dst[d + 1] == ((src[s] >> 5) << 2) | ((src[s + 1] & 7) << 5)
      && dst[d + 2] == src[s + 1] & 0xf8 && dst[d + 3] == 0
    ensures dstBpp == 16 ==>
      dst[d] == (src[s] >> 3) | ((src[s + 1] & 0x1c) << 3) && dst[d + 1] == (src[s + 2] & 0xf8) | (src[s + 1] >> 5)
    ensures dstBpp == 8 ==>
      dst[d] / 36 == src[s + 2] / 43 && dst[d] / 6 % 6 == src[s + 1] / 43 && dst[d] % 6 == src[s] / 43
    ensures var width := if dstBpp == 24 || srcBpp == 24 then 3 else dstBpp / 8;
      forall j :: 0 <= j < dst.Length && (j < d || j >= d + width) ==> dst[j] == old(dst[j])
  {
    hide Pack565, Expand565, Pack8, Low8, Word16, Splice, Bytes32, Bytes16;
    ghost var px := src[s..s + srcBpp / BITS_PER_BYTE];
    if dstBpp == 24 || srcBpp == 24 {
      assert src[s..s + 3] == px[..3];
      Store(dst, d, src[s..s + 3]);
    } else if dstBpp == 32 {
      if srcBpp == 32 {
        Store(dst, d, src[s..s + 4]);
      } else {
        BytesWidened(src[s], src[s + 1]);
        Store(dst, d, Bytes32(Expand565(Word16(src[s], src[s + 1]))));
        FirstBytes(dst[..], d, 4);
      }
    } else if dstBpp == 16 {
      Bytes565(src[s], src[s + 1], src[s + 2]);
      Store(dst, d, Bytes16(Pack565(src[s], src[s + 1], src[s + 2])));
      FirstBytes(dst[..], d, 2);
    } else {
      Levels8(src[s], src[s + 1], src[s + 2]);
      Store(dst, d, [Pack8(src[s], src[s + 1], src[s + 2])]);
      FirstBytes(dst[..], d, 1);
    }
  }

  /** The loop over one row, moving both pointers by their pixel pitch. */
  method CopyRow(dst: array<Byte>, di: BltInfo, dstRow: int, src: array<Byte>, si: BltInfo, srcRow: int, left: int,
                 y: int, n: nat)
    requires dst != src && Copyable(di, dst.Length, si, src.Length, RowPixels(left, y, n))
    requires n > 0 ==> dstRow == Addr(di, Point(left, y)) && srcRow == Addr(si, Point(left, y))
    modifies dst
    ensures IsBlit(old(dst[..]), dst[..], di, si, src[..], RowPixels(left, y, n))
  {
    hide Addr, IsBlit, Supported, Splice, Inside;
    ghost var before := dst[..];
    var dstPitch, srcPitch := GetPitches(di).pixel, GetPitches(si).pixel;
    var dstPixel, srcPixel := dstRow, srcRow;
    assert RowPixels(left, y, 0) == {};
    BlitNothing(before, di, si, src[..]);
    for x := 0 to n
      invariant n > 0 ==> dstPixel == Addr(di, Point(left + x, y)) && srcPixel == Addr(si, Point(left + x, y))
      invariant Copyable(di, |before|, si, src.Length, RowPixels(left, y, x))
      invariant IsBlit(before, dst[..], di, si, src[..], RowPixels(left, y, x))
    {
      ghost var p, mid := Point(left + x, y), dst[..];
      assert p in RowPixels(left, y, n);
      assert RowPixels(left, y, x + 1) == RowPixels(left, y, x) + {p};
      AddrInside(di, p, dst.Length);
      AddrInside(si, p, src.Length);
      assert PixelAt(src[..], si, p) == src[srcPixel..srcPixel + BytesPerPixel(si)];
      BlitOne(mid, di, si, src[..], p);
      CopyPixel(dst, dstPixel, di.bpp, src, srcPixel, si.bpp);
      BlitThen(before, mid, dst[..], di, si, src[..], RowPixels(left, y, x), {p});
      PitchesStep(di, p);
      PitchesStep(si, p);
      dstPixel := dstPixel + dstPitch;
      srcPixel := srcPixel + srcPitch;
    }
  }

  /** The loop over the rows of one rectangle, moving both pointers by their row pitch. */
  method CopyRect(dst: array<Byte>, di: BltInfo, src: array<Byte>, si: BltInfo, r: Rect)
    requires Ordered(r) && dst != src && Copyable(di, dst.Length, si, src.Length, RectPixels(r))
    modifies dst
    ensures IsBlit(old(dst[..]), dst[..], di, si, src[..], RectPixels(r))
  {
    hide Addr, IsBlit, Supported, Inside, GetRowStart, GetPitches;
    ghost var before := dst[..];
    var numPixels, numRows := r.right - r.left, r.bottom - r.top;
    var dstRow, srcRow := GetRowStart(di, r), GetRowStart(si, r);
    if numPixels > 0 && numRows > 0 {
      assert Point(r.left, r.top) in RectPixels(r);
      RowStartIsAddr(di, r, dst.Length);
      RowStartIsAddr(si, r, src.Length);
    }
    assert RowsPixels(r, 0) == {} && RowsPixels(r, numRows) == RectPixels(r);
    BlitNothing(before, di, si, src[..]);
    for y := 0 to numRows
      invariant numPixels > 0 && numRows > 0 ==>
        dstRow == Addr(di, Point(r.left, r.top + y)) && srcRow == Addr(si, Point(r.left, r.top + y))
      invariant Copyable(di, |before|, si, src.Length, RowsPixels(r, y))
      invariant IsBlit(before, dst[..], di, si, src[..], RowsPixels(r, y))
    {
      ghost var mid := dst[..];
      RowsGrow(r, y);
      CopyRow(dst, di, dstRow, src, si, srcRow, r.left, r.top + y, numPixels);
      BlitThen(before, mid, dst[..], di, si, src[..], RowsPixels(r, y), RowPixels(r.left, r.top + y, numPixels));
      PitchesStep(di, Point(r.left, r.top + y));
      PitchesStep(si, Point(r.left, r.top + y));
      dstRow := dstRow + GetPitches(di).row;
      srcRow := srcRow + GetPitches(si).row;
    }
  }

  lemma RowsGrow(r: Rect, y: nat)
    requires Ordered(r) && r.top + y < r.bottom
    ensures RowsPixels(r, y + 1) == RowsPixels(r, y) + RowPixels(r.left, r.top + y, r.right - r.left)
    ensures RowPixels(r.left, r.top + y, r.right - r.left) <= RectPixels(r) && RowsPixels(r, y + 1) <= RectPixels(r)
  {
  }

  lemma {:induction false} CoveredHas(rects: seq<Rect>, i: nat)
    requires i < |rects|
    ensures RectPixels(rects[i]) <= Covered(rects) && Covered(rects[..i]) <= Covered(rects)
  {
    var front := rects[..|rects| - 1];
    if i < |front| {
      CoveredHas(front, i);
      assert front[..i] == rects[..i] && front[i] == rects[i];
    }
  }

  /** CopyBitsGeneric: any rotation on either side, any supported pair of formats. */
  method CopyBitsGeneric(dst: array<Byte>, di: BltInfo, src: array<Byte>, si: BltInfo, rects: seq<Rect>)
    requires dst != src && forall i :: 0 <= i < |rects| ==> Ordered(rects[i])
    requires Copyable(di, dst.Length, si, src.Length, Covered(rects))
    modifies dst
    ensures IsBlit(old(dst[..]), dst[..], di, si, src[..], Covered(rects))
  {
    hide Addr, IsBlit, Supported, Inside, RectPixels;
    ghost var before := dst[..];
    BlitNothing(before, di, si, src[..]);
    for i := 0 to |rects|
      invariant Copyable(di, |before|, si, src.Length, Covered(rects[..i]))
      invariant IsBlit(before, dst[..], di, si, src[..], Covered(rects[..i]))
    {
      ghost var mid := dst[..];
      CoveredGrows(rects, i);
      CopyRect(dst, di, src, si, rects[i]);
      BlitThen(before, mid, dst[..], di, si, src[..], Covered(rects[..i]), RectPixels(rects[i]));
    }
    assert rects[..|rects|] == rects;
  }

  lemma CoveredGrows(rects: seq<Rect>, i: nat)
    requires i < |rects|
    ensures Covered(rects[..i + 1]) == Covered(rects[..i]) + RectPixels(rects[i])
    ensures Covered(rects[..i + 1]) <= Covered(rects) && RectPixels(rects[i]) <= Covered(rects)
  {
    assert rects[..i + 1][..i] == rects[..i];
    CoveredHas(rects, i);
  }

  // ------------------------------------------------------------- the fast path

  predicate FastPath(di: BltInfo, si: BltInfo) {
    di.bpp == 32 && si.bpp == 32 && di.rotation == Identity && si.rotation == Identity
  }

  /** Copying the bytes of a row is the blit of its pixels. */
  lemma {:induction false} RowOfBytes(before: seq<Byte>, di: BltInfo, si: BltInfo, sm: seq<Byte>, left: int, y: int,
                                      n: nat)
    requires FastPath(di, si) && Copyable(di, |before|, si, |sm|, RowPixels(left, y, n)) && n > 0
    ensures 0 <= Addr(di, Point(left, y)) && Addr(di, Point(left, y)) + 4 * n <= |before|
    ensures 0 <= Addr(si, Point(left, y)) && Addr(si, Point(left, y)) + 4 * n <= |sm|
    ensures IsBlit(before,
                   Splice(before, Addr(di, Point(left, y)),
                          sm[Addr(si, Point(left, y))..Addr(si, Point(left, y)) + 4 * n]),
                   di, si, sm, RowPixels(left, y, n))
  {
    hide IsBlit;
    var p := Point(left + n - 1, y);
    assert p in RowPixels(left, y, n);
    assert RowPixels(left, y, n) == RowPixels(left, y, n - 1) + {p};
    var d, s := Addr(di, Point(left, y)), Addr(si, Point(left, y));
    AlongRow(di, left, y, n - 1);
    AlongRow(si, left, y, n - 1);
    AddrInside(di, p, |before|);
    AddrInside(si, p, |sm|);
    BlitOneWord(before, di, si, sm, p);
    hide Addr;
    if n == 1 {
      assert RowPixels(left, y, 0) == {};
      assert RowPixels(left, y, 1) == {p};
    } else {
      RowOfBytes(before, di, si, sm, left, y, n - 1);
      var mid := Splice(before, d, sm[s..s + 4 * (n - 1)]);
      BlitOneWord(mid, di, si, sm, p);
      assert sm[s..s + 4 * n] == sm[s..s + 4 * (n - 1)] + sm[s + 4 * (n - 1)..s + 4 * n];
      assert Splice(before, d, sm[s..s + 4 * n]) == Splice(mid, d + 4 * (n - 1), sm[s + 4 * (n - 1)..s + 4 * n]);
      BlitThen(before, mid, Splice(before, d, sm[s..s + 4 * n]), di, si, sm, RowPixels(left, y, n - 1), {p});
    }
  }

  lemma AlongRow(i: BltInfo, left: int, y: int, k: int)
    requires i.rotation == Identity && i.bpp == 32
    ensures Addr(i, Point(left + k, y)) == Addr(i, Point(left, y)) + 4 * k
  {
  }

  lemma BlitOneWord(before: seq<Byte>, di: BltInfo, si: BltInfo, sm: seq<Byte>, p: Point)
    requires FastPath(di, si) && Copyable(di, |before|, si, |sm|, {p})
    ensures 0 <= Addr(di, p) && Addr(di, p) + 4 <= |before| && 0 <= Addr(si, p) && Addr(si, p) + 4 <= |sm|
    ensures IsBlit(before, Splice(before, Addr(di, p), sm[Addr(si, p)..Addr(si, p) + 4]), di, si, sm, {p})
  {
    hide IsBlit, Addr;
    assert p in {p};
    AddrInside(si, p, |sm|);
    BlitOne(before, di, si, sm, p);
  }

  /** The rows of one rectangle in CopyBits32_32, one RtlCopyMemory a row. */
  method CopyRect32(dst: array<Byte>, di: BltInfo, src: array<Byte>, si: BltInfo, r: Rect)
    requires FastPath(di, si) && Ordered(r) && dst != src && Copyable(di, dst.Length, si, src.Length, RectPixels(r))
    modifies dst
    ensures IsBlit(old(dst[..]), dst[..], di, si, src[..], RectPixels(r))
  {
    hide Addr, IsBlit, Supported, Inside, GetRowStart, Splice, RowPixels;
    ghost var before := dst[..];
    var numPixels, numRows := r.right - r.left, r.bottom - r.top;
    var bytesToCopy := numPixels * 4;
    var startDst := di.bits + Wrap32((r.top + di.offY) * di.pitch) + (r.left + di.offX) * 4;
    var startSrc := si.bits + Wrap32((r.top + si.offY) * si.pitch) + (r.left + si.offX) * 4;
    if numPixels > 0 && numRows > 0 {
      assert Point(r.left, r.top) in RectPixels(r);
      FastRowStart(di, r, dst.Length);
      FastRowStart(si, r, src.Length);
    }
    assert RowsPixels(r, 0) == {} && RowsPixels(r, numRows) == RectPixels(r);
    BlitNothing(before, di, si, src[..]);
    for y := 0 to numRows
      invariant numPixels > 0 && numRows > 0 ==>
        startDst == Addr(di, Point(r.left, r.top + y)) && startSrc == Addr(si, Point(r.left, r.top + y))
      invariant Copyable(di, |before|, si, src.Length, RowsPixels(r, y))
      invariant IsBlit(before, dst[..], di, si, src[..], RowsPixels(r, y))
    {
      ghost var mid := dst[..];
      RowsGrow(r, y);
      if bytesToCopy > 0 {
        RowOfBytes(mid, di, si, src[..], r.left, r.top + y, numPixels);
        assert src[..][startSrc..startSrc + bytesToCopy] == src[startSrc..startSrc + bytesToCopy];
        Store(dst, startDst, src[startSrc..startSrc + bytesToCopy]);
      } else {
        NoPixels(r.left, r.top + y);
        BlitNothing(mid, di, si, src[..]);
      }
      BlitThen(before, mid, dst[..], di, si, src[..], RowsPixels(r, y), RowPixels(r.left, r.top + y, numPixels));
      PitchesStep(di, Point(r.left, r.top + y));
      PitchesStep(si, Point(r.left, r.top + y));
      startDst := startDst + di.pitch;
      startSrc := startSrc + si.pitch;
    }
  }

  lemma NoPixels(left: int, y: int)
    ensures RowPixels(left, y, 0) == {}
  {
  }

  lemma FastRowStart(i: BltInfo, r: Rect, length: nat)
    requires i.rotation == Identity && i.bpp == 32
    requires ImageFits(i, length) && Inside(i, Point(r.left, r.top))
    ensures i.bits + Wrap32((r.top + i.offY) * i.pitch) + (r.left + i.offX) * 4 == Addr(i, Point(r.left, r.top))
  {
    RowStartIsAddr(i, r, length);
  }

  /** CopyBits32_32, the fast path. */
  method CopyBits32_32(dst: array<Byte>, di: BltInfo, src: array<Byte>, si: BltInfo, rects: seq<Rect>)
    requires FastPath(di, si) && dst != src && forall i :: 0 <= i < |rects| ==> Ordered(rects[i])
    requires Copyable(di, dst.Length, si, src.Length, Covered(rects))
    modifies dst
    ensures IsBlit(old(dst[..]), dst[..], di, si, src[..], Covered(rects))
  {
    hide Addr, IsBlit, Supported, Inside, RectPixels;
    ghost var before := dst[..];
    BlitNothing(before, di, si, src[..]);
    for i := 0 to |rects|
      invariant Copyable(di, |before|, si, src.Length, Covered(rects[..i]))
      invariant IsBlit(before, dst[..], di, si, src[..], Covered(rects[..i]))
    {
      ghost var mid := dst[..];
      CoveredGrows(rects, i);
      CopyRect32(dst, di, src, si, rects[i]);
      BlitThen(before, mid, dst[..], di, si, src[..], Covered(rects[..i]), RectPixels(rects[i]));
    }
    assert rects[..|rects|] == rects;
  }

  /** BltBits: which path is taken cannot be told from the memory it leaves. */
  method BltBits(dst: array<Byte>, di: BltInfo, src: array<Byte>, si: BltInfo, rects: seq<Rect>)
    requires dst != src && forall i :: 0 <= i < |rects| ==> Ordered(rects[i])
    requires Copyable(di, dst.Length, si, src.Length, Covered(rects))
    modifies dst
    ensures IsBlit(old(dst[..]), dst[..], di, si, src[..], Covered(rects))
  {
    hide IsBlit, Copyable;
    if di.bpp == 32 && si.bpp == 32 && di.rotation == Identity && si.rotation == Identity {
      CopyBits32_32(dst, di, src, si, rects);
    } else {
      CopyBitsGeneric(dst, di, src, si, rects);
    }
  }

  /** The fast path refines the generic one: from equal memories they leave equal memories. */
  method FastEqualsGeneric(fast: array<Byte>, generic: array<Byte>, di: BltInfo, src: array<Byte>, si: BltInfo,
                           rects: seq<Rect>)
    requires FastPath(di, si) && fast != src && generic != src && fast != generic
    requires forall i :: 0 <= i < |rects| ==> Ordered(rects[i])
    requires fast[..] == generic[..] && Copyable(di, fast.Length, si, src.Length, Covered(rects))
    modifies fast, generic
    ensures fast[..] == generic[..]
    ensures src[..] == old(src[..])
  {
    hide IsBlit, Copyable;
    ghost var before := fast[..];
    assert |generic[..]| == |fast[..]|;
    CopyBits32_32(fast, di, src, si, rects);
    CopyBitsGeneric(generic, di, src, si, rects);
    BlitIsUnique(before, fast[..], generic[..], di, si, src[..], Covered(rects));
  }

  // ------------------------------------------------------------- there and back

  /** A pixel converted to the other format and back again has its written bytes restored, whatever padding it met. */
  ghost predicate ComesBack(here: nat, there: nat, px: seq<Byte>)
    requires Supported(there, here) && Supported(here, there) && |px| == here / BITS_PER_BYTE
  {
    forall mid: seq<Byte> ::
      |mid| == there / BITS_PER_BYTE && mid[..WrittenBytes(there, here)] == Converted(there, here, px)
      ==> Converted(here, there, mid) == px[..WrittenBytes(here, there)]
  }

  /** Every pixel comes back exactly when 32 bits are not squeezed into 16. */
  lemma ComesBackExact(here: nat, there: nat)
    requires Supported(there, here) && Supported(here, there)
    ensures !(here == 32 && there == 16) <==>
      (forall px: seq<Byte> :: |px| == here / BITS_PER_BYTE ==> ComesBack(here, there, px))
  {
    hide Converted, ComesBack;
    if here == 32 && there == 16 {
      SqueezedBlue();
    } else {
      forall px: seq<Byte> | |px| == here / BITS_PER_BYTE ensures ComesBack(here, there, px) {
        PixelComesBack(here, there, px);
      }
    }
  }

  lemma PixelComesBack(here: nat, there: nat, px: seq<Byte>)
    requires Supported(there, here) && Supported(here, there) && !(here == 32 && there == 16)
    requires |px| == here / BITS_PER_BYTE
    ensures ComesBack(here, there, px)
  {
    hide Converted;
    forall mid: seq<Byte> |
      |mid| == there / BITS_PER_BYTE && mid[..WrittenBytes(there, here)] == Converted(there, here, px)
      ensures Converted(here, there, mid) == px[..WrittenBytes(here, there)]
    {
      if here == 16 {
        assert mid == mid[..4];
        NarrowComesBack(px, mid);
      } else {
        BytesComeBack(here, there, px, mid);
      }
    }
  }

  lemma NarrowComesBack(px: seq<Byte>, mid: seq<Byte>)
    requires |px| == 2 && |mid| == 4 && mid == Converted(32, 16, px)
    ensures Converted(16, 32, mid) == px[..2]
  {
    hide Pack565, Expand565, Word16, Low8, Bytes16, Bytes32, Converted;
    var w := Word16(px[0], px[1]);
    ConvertedPairs(px, mid);
    StoredPacks(w);
    WordOfBytes(px[0], px[1]);
    assert px[..2] == [px[0], px[1]];
  }

  lemma ConvertedPairs(px: seq<Byte>, mid: seq<Byte>)
    requires |px| == 2 && |mid| == 4
    ensures Converted(32, 16, px) == Bytes32(Expand565(Word16(px[0], px[1])))
    ensures Converted(16, 32, mid) == Bytes16(Pack565(mid[0], mid[1], mid[2]))
  {
    hide Pack565, Expand565, Word16, Low8, Bytes16, Bytes32;
  }

  lemma StoredPacks(w: bv16)
    ensures |Bytes32(Expand565(w))| == 4
    ensures Pack565(Bytes32(Expand565(w))[0], Bytes32(Expand565(w))[1], Bytes32(Expand565(w))[2]) == w
  {
    hide Pack565, Expand565, Low8;
    Expand565Packs(w);
  }

  lemma BytesComeBack(here: nat, there: nat, px: seq<Byte>, mid: seq<Byte>)
    requires Supported(there, here) && Supported(here, there) && here != 16 && there != 16
    requires |px| == here / BITS_PER_BYTE && |mid| == there / BITS_PER_BYTE
    requires mid[..WrittenBytes(there, here)] == Converted(there, here, px)
    ensures Converted(here, there, mid) == px[..WrittenBytes(here, there)]
  {
    hide Pack565, Expand565, Word16, Low8, Bytes16, Bytes32, Pack8;
  }

  /** A blue of 7 is black after 565. */
  lemma SqueezedBlue()
    ensures !ComesBack(32, 16, [7, 0, 0, 0])
  {
    var px: seq<Byte> := [7, 0, 0, 0];
    var mid := Converted(16, 32, px);
    assert Pack565(7, 0, 0) == 0 && Expand565(0) == 0;
    assert mid == [0, 0] && Word16(0, 0) == 0;
    assert mid[..WrittenBytes(16, 32)] == mid;
    assert Converted(32, 16, mid) == [0, 0, 0, 0];
    assert px[..4][0] == 7;
  }

  /**
   Blit an image out and read it back through the same two images: over the
   original nothing changes, and over any other memory the pixels reappear.
   */
  lemma RoundTrip(a: seq<Byte>, b: seq<Byte>, b': seq<Byte>, a0: seq<Byte>, a': seq<Byte>, ai: BltInfo, bi: BltInfo,
                  pixels: set<Point>)
    requires |a0| == |a| && !(ai.bpp == 32 && bi.bpp == 16)
    requires Copyable(bi, |b|, ai, |a|, pixels) && IsBlit(b, b', bi, ai, a, pixels)
    requires Copyable(ai, |a|, bi, |b'|, pixels) && IsBlit(a0, a', ai, bi, b', pixels)
    ensures forall p :: p in pixels ==> Painted(a', ai, PixelAt(a, ai, p)[..Width(ai, bi)], p)
    ensures a0 == a ==> a' == a
  {
    hide Addr, IsBlit, ImageFits, Converted;
    forall p | p in pixels
      ensures Colour(b', ai, bi, p) == PixelAt(a, ai, p)[..Width(ai, bi)] && Painted(a', ai, Colour(b', ai, bi, p), p)
    {
      ColourReturns(a, b, b', ai, bi, pixels, p);
      BlitPaints(a0, a', ai, bi, b', pixels, p);
    }
    if a0 == a {
      SameIsBlit(a, b', ai, bi, pixels);
      BlitIsUnique(a, a', a, ai, bi, b', pixels);
    }
  }

  lemma BlitPaints(before: seq<Byte>, after: seq<Byte>, di: BltInfo, si: BltInfo, sm: seq<Byte>, pixels: set<Point>,
                   p: Point)
    requires Copyable(di, |before|, si, |sm|, pixels) && IsBlit(before, after, di, si, sm, pixels) && p in pixels
    ensures |after| == |before| && Painted(after, di, Colour(sm, di, si, p), p)
  {
  }

  lemma ColourReturns(a: seq<Byte>, b: seq<Byte>, b': seq<Byte>, ai: BltInfo, bi: BltInfo, pixels: set<Point>, p: Point)
    requires !(ai.bpp == 32 && bi.bpp == 16) && p in pixels
    requires Copyable(bi, |b|, ai, |a|, pixels) && IsBlit(b, b', bi, ai, a, pixels)
    requires Copyable(ai, |a|, bi, |b'|, pixels)
    ensures Colour(b', ai, bi, p) == PixelAt(a, ai, p)[..Width(ai, bi)]
  {
    hide Addr, IsBlit, Converted, Inside;
    BlitPaints(b, b', bi, ai, a, pixels, p);
    var px, mid := PixelAt(a, ai, p), PixelAt(b', bi, p);
    AddrInside(bi, p, |b'|);
    assert mid[..WrittenBytes(bi.bpp, ai.bpp)] == b'[Addr(bi, p)..Addr(bi, p) + WrittenBytes(bi.bpp, ai.bpp)];
    PixelComesBack(ai.bpp, bi.bpp, px);
  }

  /** An image whose pixels already have their colours is a blit of itself. */
  lemma SameIsBlit(a: seq<Byte>, b: seq<Byte>, ai: BltInfo, bi: BltInfo, pixels: set<Point>)
    requires Copyable(ai, |a|, bi, |b|, pixels)
    requires forall p :: p in pixels ==> Colour(b, ai, bi, p) == PixelAt(a, ai, p)[..Width(ai, bi)]
    ensures IsBlit(a, a, ai, bi, b, pixels)
  {
    hide Addr, Colour, Inside;
    forall p | p in pixels ensures Painted(a, ai, Colour(b, ai, bi, p), p) {
      AddrInside(ai, p, |a|);
      assert PixelAt(a, ai, p)[..Width(ai, bi)] == a[Addr(ai, p)..Addr(ai, p) + Width(ai, bi)];
    }
  }
}
