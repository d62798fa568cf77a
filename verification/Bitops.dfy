/**
 The blitter: copies rectangles between two images that may be rotated, pitched
 and of different pixel formats. The meaning of a blit is stated on sets of
 pixels; the loops with moving pointers and the fast path are proved against it.
 */
module Bitops {
  import opened Words

  type Byte = bv8

  datatype Rotation = Identity | Rotate90 | Rotate180 | Rotate270

  /** RECT. */
  datatype Rect = Rect(left: int, top: int, right: int, bottom: int)

  /** Unrotated coordinates of a pixel. */
  datatype Point = Point(x: int, y: int)

  /** BLT_INFO; bits is the place of pBits in its buffer, width and height are those of the stored image. */
  datatype BltInfo = BltInfo(bits: nat, pitch: nat, bpp: nat, offX: int, offY: int,
                             rotation: Rotation, width: nat, height: nat)

  const BITS_PER_BYTE := 8

  function BytesPerPixel(i: BltInfo): nat {
    i.bpp / BITS_PER_BYTE
  }

  // ------------------------------------------------------------- geometry

  /** Column of a pixel in the stored image. */
  function Column(i: BltInfo, p: Point): int {
    match i.rotation
    case Identity => p.x + i.offX
    case Rotate90 => p.y + i.offY
    case Rotate180 => i.width - 1 - (p.x + i.offX)
    case Rotate270 => i.width - 1 - (p.y + i.offY)
  }

  /** Row of a pixel in the stored image. */
  function Row(i: BltInfo, p: Point): int {
    match i.rotation
    case Identity => p.y + i.offY
    case Rotate90 => i.height - 1 - (p.x + i.offX)
    case Rotate180 => i.height - 1 - (p.y + i.offY)
    case Rotate270 => p.x + i.offX
  }

  /** First byte of a pixel. */
  function Addr(i: BltInfo, p: Point): int {
    i.bits + Row(i, p) * i.pitch + Column(i, p) * BytesPerPixel(i)
  }

  predicate Inside(i: BltInfo, p: Point) {
    0 <= Column(i, p) < i.width && 0 <= Row(i, p) < i.height
  }

  /** An image that fits its buffer, with rows at least as long as their pixels. */
  predicate ImageFits(i: BltInfo, length: nat) {
    && BytesPerPixel(i) >= 1
    && i.width * BytesPerPixel(i) <= i.pitch
    && i.height * i.pitch < 0x8000_0000
    && i.bits + i.height * i.pitch <= length
  }

  lemma TimesMonotone(a: nat, b: nat, k: nat)
    requires a <= b
    ensures a * k <= b * k
  {
  }

  /** A pixel of the image lies in the buffer. */
  lemma AddrInside(i: BltInfo, p: Point, length: nat)
    requires ImageFits(i, length) && Inside(i, p)
    ensures i.bits <= Addr(i, p)
    ensures Addr(i, p) + BytesPerPixel(i) <= i.bits + i.height * i.pitch <= length
  {
    hide Row, Column, BytesPerPixel;
    ByteInside(Row(i, p), Column(i, p), BytesPerPixel(i), i.width, i.height, i.pitch);
  }

  lemma ByteInside(r: nat, c: nat, b: nat, width: nat, height: nat, pitch: nat)
    requires r < height && c < width && width * b <= pitch
    ensures 0 <= r * pitch + c * b && r * pitch + c * b + b <= height * pitch
  {
    TimesMonotone(c + 1, width, b);
    TimesMonotone(r + 1, height, pitch);
    OneMoreOrLess(c, b);
    OneMoreOrLess(r, pitch);
    assert r * pitch >= 0 && c * b >= 0;
  }

  /** Different pixels of one image have disjoint bytes. */
  lemma AddrApart(i: BltInfo, p: Point, q: Point, length: nat)
    requires ImageFits(i, length) && Inside(i, p) && Inside(i, q) && p != q
    ensures Addr(i, p) + BytesPerPixel(i) <= Addr(i, q) || Addr(i, q) + BytesPerPixel(i) <= Addr(i, p)
  {
    var rp, cp, rq, cq := Row(i, p), Column(i, p), Row(i, q), Column(i, q);
    assert rp != rq || cp != cq;
    if rp < rq || (rp == rq && cp < cq) {
      AddrOrder(i, rp, cp, rq, cq);
    } else {
      AddrOrder(i, rq, cq, rp, cp);
    }
  }

  lemma AddrOrder(i: BltInfo, r: nat, c: nat, r': nat, c': nat)
    requires i.width * BytesPerPixel(i) <= i.pitch && c < i.width && c' < i.width
    requires r < r' || (r == r' && c < c')
    ensures r * i.pitch + c * BytesPerPixel(i) + BytesPerPixel(i) <= r' * i.pitch + c' * BytesPerPixel(i)
  {
    var b := BytesPerPixel(i);
    assert (c + 1) * b == c * b + b;
    if r < r' {
      TimesMonotone(c + 1, i.width, b);
      TimesMonotone(r + 1, r', i.pitch);
      assert (r + 1) * i.pitch == r * i.pitch + i.pitch;
      assert c' * b >= 0;
    } else {
      TimesMonotone(c + 1, c', b);
    }
  }

  /** An image turned into another one, whose sides are exchanged by a quarter turn. */
  predicate Turned(i: BltInfo, j: BltInfo) {
    i.offX == i.offY == j.offX == j.offY == 0 && j.width == i.height && j.height == i.width
  }

  function Stored(i: BltInfo, p: Point): Point {
    Point(Column(i, p), Row(i, p))
  }

  /** Two quarter turns are a half turn, and Rotate270 undoes Rotate90; four columns on, all is as it was. */
  lemma TurnsCompose(i: BltInfo, j: BltInfo, p: Point)
    requires Turned(i, j)
    ensures i.rotation == j.rotation == Rotate90 ==>
      Stored(j, Stored(i, p)) == Stored(j.(rotation := Rotate180), p) == Point(i.height - 1 - p.x, i.width - 1 - p.y)
    ensures i.rotation == j.rotation == Rotate270 ==>
      Stored(j, Stored(i, p)) == Stored(j.(rotation := Rotate180), p)
    ensures i.rotation == Rotate90 && j.rotation == Rotate270 ==> Stored(j, Stored(i, p)) == p
    ensures i.rotation == Rotate270 && j.rotation == Rotate90 ==> Stored(j, Stored(i, p)) == p
    ensures i.rotation == Rotate180 ==> Stored(i, Stored(i, p)) == p
  {
  }

  // ------------------------------------------------- pitches and row start

  /** GetPitches: step to the next pixel of a row and to the next row. */
  function GetPitches(i: BltInfo): Pitches {
    var bytes: int := BytesPerPixel(i);
    var pitch: int := i.pitch;
    match i.rotation
    case Identity => Pitches(bytes, pitch)
    case Rotate90 => Pitches(-pitch, bytes)
    case Rotate180 => Pitches(-bytes, -pitch)
    case Rotate270 => Pitches(pitch, -bytes)
  }

  datatype Pitches = Pitches(pixel: int, row: int)

  /** GetRowStart, with the products of UINT operands in 32 bits. */
  function GetRowStart(i: BltInfo, r: Rect): int {
    var offLeft, offTop := r.left + i.offX, r.top + i.offY;
    var b := BytesPerPixel(i);
    match i.rotation
    case Identity => i.bits + Wrap32(offTop * i.pitch) + offLeft * b
    case Rotate90 => i.bits + Wrap32(Wrap32(i.height - 1 - offLeft) * i.pitch) + offTop * b
    case Rotate180 =>
      i.bits + Wrap32(Wrap32(i.height - 1 - offTop) * i.pitch) + Wrap32(Wrap32(i.width - 1 - offLeft) * b)
    case Rotate270 => i.bits + Wrap32(offLeft * i.pitch) + Wrap32(Wrap32(i.width - 1 - offTop) * b)
  }

  lemma Wrap32Product(a: nat, k: nat, m: nat)
    requires a < m && m * k < 0x8000_0000 && m < U32_SIZE
    ensures 0 <= a * k < U32_SIZE && Wrap32(a * k) == a * k && Wrap32(a) == a
  {
    TimesMonotone(a, m, k);
    assert a * k >= 0;
  }

  /** GetRowStart points to the first pixel of the rectangle, wherever rotation puts it. */
  lemma RowStartIsAddr(i: BltInfo, r: Rect, length: nat)
    requires ImageFits(i, length) && Inside(i, Point(r.left, r.top))
    ensures GetRowStart(i, r) == Addr(i, Point(r.left, r.top))
  {
    var p := Point(r.left, r.top);
    var b := BytesPerPixel(i);
    TimesMonotone(1, i.height, i.pitch);
    TimesMonotone(1, b, i.width);
    TimesMonotone(1, i.pitch, i.height);
    Wrap32Product(Row(i, p), i.pitch, i.height);
    Wrap32Product(Column(i, p), b, i.width);
  }

  /** Stepping a pointer by the pitches follows the pixels. */
  lemma PitchesStep(i: BltInfo, p: Point)
    ensures Addr(i, Point(p.x + 1, p.y)) == Addr(i, p) + GetPitches(i).pixel
    ensures Addr(i, Point(p.x, p.y + 1)) == Addr(i, p) + GetPitches(i).row
  {
    OneMoreOrLess(Row(i, p), i.pitch);
    OneMoreOrLess(Column(i, p), BytesPerPixel(i));
    hide BytesPerPixel;
    match i.rotation {
      case Identity =>
      case Rotate90 =>
      case Rotate180 =>
      case Rotate270 =>
    }
  }

  lemma OneMoreOrLess(a: int, k: nat)
    ensures (a + 1) * k == a * k + k && (a - 1) * k == a * k - k
  {
  }

  // ------------------------------------------------------------ conversion

  /** CONVERT_32BPP_TO_16BPP on the bytes blue, green, red. */
  function Pack565(b: Byte, g: Byte, r: Byte): bv16 {
    ((((r & 0xf8) >> 3) as bv16) << 11) | ((((g & 0xfc) >> 2) as bv16) << 5) | (((b & 0xf8) >> 3) as bv16)
  }

  /** CONVERT_16BPP_TO_32BPP. */
  function Expand565(p: bv16): bv32 {
    ((((p >> 11) & 0x1f) as bv32) << 19) | ((((p >> 5) & 0x3f) as bv32) << 10) | (((p & 0x1f) as bv32) << 3)
  }

  /** CONVERT_32BPP_TO_8BPP. */
  function Pack8(b: Byte, g: Byte, r: Byte): Byte {
    (r / 43) * 36 + (g / 43) * 6 + b / 43
  }

  function Low8(x: bv32): Byte {
    (x & 0xff) as bv8
  }

  /** A UINT32 as it is stored. */
  function Bytes32(x: bv32): seq<Byte> {
    [Low8(x), Low8(x >> 8), Low8(x >> 16), Low8(x >> 24)]
  }

  /** A UINT16 as it is stored. */
  function Bytes16(x: bv16): seq<Byte> {
    [(x & 0xff) as bv8, (x >> 8) as bv8]
  }

  function Word16(lo: Byte, hi: Byte): bv16 {
    (lo as bv16) | ((hi as bv16) << 8)
  }

  /** The combinations that CopyBitsGeneric is documented for. */
  predicate Supported(dst: nat, src: nat) {
    || (dst == 32 && (src == 32 || src == 24 || src == 16))
    || ((dst == 24 || dst == 16 || dst == 8) && src == 32)
    || (dst == 24 && src == 24)
  }

  /** How many bytes of the destination pixel are written. */
  function WrittenBytes(dst: nat, src: nat): nat {
    if dst == 24 || src == 24 then 3 else dst / BITS_PER_BYTE
  }

  /** The bytes written for a source pixel. */
  function Converted(dst: nat, src: nat, px: seq<Byte>): (w: seq<Byte>)
    requires Supported(dst, src) && |px| == src / BITS_PER_BYTE
    ensures |w| == WrittenBytes(dst, src)
  {
    if dst == 24 || src == 24 then px[..3]
    else if dst == 32 then (if src == 32 then px else Bytes32(Expand565(Word16(px[0], px[1]))))
    else if dst == 16 then Bytes16(Pack565(px[0], px[1], px[2]))
    else [Pack8(px[0], px[1], px[2])]
  }

  /** The two bytes of a 565 pixel: blue below, red on top, green across both. */
  lemma Bytes565(b: Byte, g: Byte, r: Byte)
    ensures Bytes16(Pack565(b, g, r)) == [(b >> 3) | ((g & 0x1c) << 3), (r & 0xf8) | (g >> 5)]
  {
  }

  /** The four bytes of a widened pixel: blue, green, red and no alpha. */
  lemma BytesWidened(lo: Byte, hi: Byte)
    ensures Bytes32(Expand565(Word16(lo, hi)))
         == [(lo & 0x1f) << 3, ((lo >> 5) << 2) | ((hi & 7) << 5), hi & 0xf8, 0]
  {
  }

  /** A byte pixel tells the level of each channel, of six, with red most significant. */
  lemma Levels8(b: Byte, g: Byte, r: Byte)
    ensures Pack8(b, g, r) / 36 == r / 43 && Pack8(b, g, r) / 6 % 6 == g / 43 && Pack8(b, g, r) % 6 == b / 43
  {
  }

  /** Widening 565 and narrowing again loses nothing. */
  lemma Expand565Packs(p: bv16)
    ensures Pack565(Low8(Expand565(p)), Low8(Expand565(p) >> 8), Low8(Expand565(p) >> 16)) == p
  {
  }

  lemma WordOfBytes(lo: Byte, hi: Byte)
    ensures Bytes16(Word16(lo, hi)) == [lo, hi]
  {
  }
}
