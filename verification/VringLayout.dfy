/**
 Where the parts of a split ring lie in memory, and how long the whole is.
 */
module VringLayout {
  import opened Words

  const USED_ELEM_BYTES := 8    // sizeof(struct vring_used_elem)
  const WORD_BYTES := 2         // sizeof(__virtio16)

  /** struct vring. */
  datatype Layout = Layout(num: nat, desc: nat, avail: nat, used: nat)

  /** A part of the ring in memory. */
  datatype Region = Region(at: nat, bytes: nat)

  function RoundUp(x: nat, align: nat): nat
    requires align >= 1
  {
    AndNot(x + align - 1, align - 1)
  }

  /** vring_init on the memory at p. */
  function VringInit(num: nat, p: nat, align: nat): Layout
    requires align >= 1
  {
    var avail := p + num * DESC_BYTES;
    Layout(num, p, avail, RoundUp(AvailRing(avail, num) + WORD_BYTES, align))
  }

  /** vring_size, in 32 bits. */
  function VringSize(num: nat, align: nat): u32
    requires align >= 1
  {
    Wrap32(AndNot(Wrap32(DESC_BYTES * num + WORD_BYTES * (3 + num) + align - 1), align - 1)
           + WORD_BYTES * 3 + USED_ELEM_BYTES * num)
  }

  /** Address of avail->ring[i] and of used->ring[i], after two header words each. */
  function AvailRing(avail: nat, i: nat): nat {
    avail + 2 * WORD_BYTES + WORD_BYTES * i
  }

  function UsedRing(used: nat, i: nat): nat {
    used + 2 * WORD_BYTES + USED_ELEM_BYTES * i
  }

  /** The descriptor table, the available ring, its event word, the used ring and its event word. */
  function Regions(l: Layout): seq<Region> {
    [ Region(l.desc, l.num * DESC_BYTES),
      Region(l.avail, 2 * WORD_BYTES + l.num * WORD_BYTES),
      Region(AvailRing(l.avail, l.num), WORD_BYTES),
      Region(l.used, 2 * WORD_BYTES + l.num * USED_ELEM_BYTES),
      Region(UsedRing(l.used, l.num), WORD_BYTES) ]
  }

  function End(r: Region): nat {
    r.at + r.bytes
  }

  predicate Apart(a: Region, b: Region) {
    End(a) <= b.at || End(b) <= a.at
  }

  /** What sections 2.4.5 to 2.4.8 of Virtio 1.0 ask of the placement of the parts. */
  ghost predicate WellPlaced(l: Layout, p: nat, size: nat) {
    var parts := Regions(l);
    && l.desc % 16 == 0 && l.avail % 2 == 0 && l.used % 4 == 0
    && AvailRing(l.avail, l.num) % 2 == 0 && UsedRing(l.used, l.num) % 2 == 0
    && (forall i, j :: 0 <= i < j < |parts| ==> Apart(parts[i], parts[j]))
    && (forall i :: 0 <= i < |parts| ==> p <= parts[i].at && End(parts[i]) <= p + size)
  }

  lemma RoundUpIs(x: nat, align: nat)
    requires IsPow2(align)
    ensures RoundUp(x, align) == (x + align - 1) - (x + align - 1) % align
  {
    var k: nat :| align == Pow2(k);
    AndNotMask(x + align - 1, k);
  }

  lemma DivTimes(y: nat, align: nat)
    requires align >= 1
    ensures y / align * align == y - y % align
  {
  }

  lemma RoundUpBounds(x: nat, align: nat)
    requires IsPow2(align)
    ensures x <= RoundUp(x, align) < x + align && RoundUp(x, align) % align == 0
  {
    RoundUpIs(x, align);
    RoundedDown(x + align - 1, align);
  }

  lemma RoundedDown(y: nat, align: nat)
    requires align >= 1
    ensures y - align < y - y % align <= y && (y - y % align) % align == 0
  {
    var q := y / align;
    assert y - y % align == align * q;
    ModuloUnique(align * q, align, q, 0);
  }

  lemma MultipleApart(a: nat, b: nat, align: nat)
    requires align >= 1 && a % align == 0 && b % align == 0 && a < b
    ensures a + align <= b
  {
    assert a == align * (a / align) && b == align * (b / align);
    if a / align < b / align {
      Distribute(align, b / align, a / align);
    } else if a / align > b / align {
      Distribute(align, a / align, b / align);
    }
  }

  lemma SumIsMultiple(a: nat, b: nat, align: nat)
    requires align >= 1 && b % align == 0
    ensures (a + b) % align == 0 <==> a % align == 0
  {
    var qa, qb := a / align, b / align;
    assert a == align * qa + a % align && b == align * qb;
    assert a + b == align * (qa + qb) + a % align;
    ModuloUnique(a + b, align, qa + qb, a % align);
  }

  /** Rounding moves with the base exactly when the base is aligned. */
  lemma RoundUpShifts(p: nat, x: nat, align: nat)
    requires IsPow2(align)
    ensures RoundUp(p + x, align) == p + RoundUp(x, align) <==> p % align == 0
  {
    RoundUpBounds(x, align);
    RoundUpBounds(p + x, align);
    SumIsMultiple(p, RoundUp(x, align), align);
    var a, b := RoundUp(p + x, align), p + RoundUp(x, align);
    if p % align == 0 && a < b {
      MultipleApart(a, b, align);
    } else if p % align == 0 && b < a {
      MultipleApart(b, a, align);
    }
  }

  /** No 32-bit wrap for any ring and any alignment up to 2^31. */
  lemma SizeDoesNotWrap(num: nat, align: nat)
    requires RingSize(num) && IsPow2(align) && align <= 0x8000_0000
    ensures VringSize(num, align)
         == RoundUp(DESC_BYTES * num + WORD_BYTES * (3 + num), align) + WORD_BYTES * 3 + USED_ELEM_BYTES * num
    ensures VringSize(num, align) == (18 * num + 6 + align - 1) / align * align + 6 + 8 * num
  {
    hide Wrap32, AndNot, IsPow2;
    var x := DESC_BYTES * num + WORD_BYTES * (3 + num);
    RoundUpBounds(x, align);
    RoundUpIs(x, align);
    DivTimes(x + align - 1, align);
    WrapSmall32(x + align - 1);
    WrapSmall32(RoundUp(x, align) + WORD_BYTES * 3 + USED_ELEM_BYTES * num);
  }

  /** A power of two of at least 4 is a multiple of 4. */
  lemma FourDivides(align: nat)
    requires IsPow2(align) && align >= 4
    ensures align % 4 == 0
  {
    var k: nat :| align == Pow2(k);
    if k >= 2 {
      assert Pow2(k) == 4 * Pow2(k - 2);
    }
  }

  lemma MultipleOfFour(x: nat, align: nat)
    requires align >= 1 && x % align == 0 && align % 4 == 0
    ensures x % 4 == 0
  {
    var q, f := x / align, align / 4;
    assert x == align * q && align == 4 * f;
    assert x == 4 * (f * q);
  }

  /** The padding before the used ring is less than the alignment. */
  lemma UsedIsNext(num: nat, p: nat, align: nat)
    requires RingSize(num) && IsPow2(align) && align >= 4
    ensures var l := VringInit(num, p, align);
      && AvailRing(l.avail, num) + WORD_BYTES <= l.used < AvailRing(l.avail, num) + WORD_BYTES + align
      && l.used % align == 0 && l.used % 4 == 0
  {
    RoundUpBounds(AvailRing(p + num * DESC_BYTES, num) + WORD_BYTES, align);
    FourDivides(align);
    MultipleOfFour(VringInit(num, p, align).used, align);
  }

  /** The last event word ends at vring_size exactly when the base is aligned. */
  lemma EndsAtSize(num: nat, p: nat, align: nat)
    requires RingSize(num) && IsPow2(align) && 4 <= align <= 0x8000_0000
    ensures UsedRing(VringInit(num, p, align).used, num) + WORD_BYTES == p + VringSize(num, align) <==> p % align == 0
  {
    SizeDoesNotWrap(num, align);
    RoundUpShifts(p, DESC_BYTES * num + WORD_BYTES * (3 + num), align);
  }

  /**
   For every ring size and every alignment, on aligned memory, the five parts
   are aligned and disjoint, lie in the memory of vring_size bytes, and fill it
   to its last byte.
   */
  lemma LayoutIsWellPlaced(num: nat, p: nat, align: nat)
    requires RingSize(num) && IsPow2(align) && 4 <= align <= 0x8000_0000
    requires p % 16 == 0 && p % align == 0
    ensures WellPlaced(VringInit(num, p, align), p, VringSize(num, align))
    ensures End(Regions(VringInit(num, p, align))[4]) == p + VringSize(num, align)
  {
    hide VringSize, RoundUp, IsPow2;
    UsedIsNext(num, p, align);
    EndsAtSize(num, p, align);
    EvenAddresses(VringInit(num, p, align));
  }

  /**
   The five parts byte by byte: descriptors of 16 bytes, a ring of words behind
   two more, an event word, from the next multiple of the alignment on a ring of
   8-byte elements behind two words, and the other event word.
   */
  lemma PlacesInBytes(num: nat, p: nat, align: nat)
    requires RingSize(num) && align >= 1 && IsPow2(align) && p % align == 0
    ensures var used := p + (18 * num + 6 + align - 1) / align * align;
      && VringInit(num, p, align) == Layout(num, p, p + 16 * num, used)
      && Regions(VringInit(num, p, align))
         == [Region(p, 16 * num), Region(p + 16 * num, 4 + 2 * num), Region(p + 18 * num + 4, 2),
             Region(used, 4 + 8 * num), Region(used + 4 + 8 * num, 2)]
  {
    hide RoundUp, IsPow2;
    RoundUpShifts(p, 18 * num + 6, align);
    RoundUpIs(18 * num + 6, align);
    DivTimes(18 * num + 6 + align - 1, align);
  }

  lemma EvenAddresses(l: Layout)
    requires l.desc % 16 == 0 && l.avail == l.desc + l.num * DESC_BYTES && l.used % 4 == 0
    ensures l.avail % 2 == 0 && AvailRing(l.avail, l.num) % 2 == 0 && UsedRing(l.used, l.num) % 2 == 0
  {
    var d, u := l.desc / 16, l.used / 4;
    Even(l.avail, 8 * d + 8 * l.num);
    Even(AvailRing(l.avail, l.num), 8 * d + 9 * l.num + 2);
    Even(UsedRing(l.used, l.num), 2 * u + 2 + 4 * l.num);
  }

  lemma Even(x: nat, h: nat)
    requires x == 2 * h
    ensures x % 2 == 0
  {
  }

  // ------------------------------------------------------------- shutdown

  const PAGE_SIZE := 4096
  const SMP_CACHE_BYTES := 64
  const VIRTIO_PCI_VRING_ALIGN := 4096

  datatype Transport = Legacy | Modern

  function CreationAlign(t: Transport): nat {
    if t == Legacy then VIRTIO_PCI_VRING_ALIGN else SMP_CACHE_BYTES
  }

  /** virtqueue_shutdown recomputes the alignment from vdev->addr. */
  function ShutdownAlign(addr: nat): nat {
    if addr != 0 then PAGE_SIZE else SMP_CACHE_BYTES
  }

  /** The memory cleared at shutdown is the ring, and the ring is laid out again as before. */
  ghost predicate ShutdownMatches(t: Transport, addr: nat, num: nat, p: nat) {
    && VringSize(num, ShutdownAlign(addr)) == VringSize(num, CreationAlign(t))
    && VringInit(num, p, ShutdownAlign(addr)) == VringInit(num, p, CreationAlign(t))
  }

  /** It does so for every ring exactly when addr is set for the legacy transport and only for it. */
  lemma ShutdownExactlyWhenAddrTellsTransport(t: Transport, addr: nat)
    ensures (forall num: nat, p: nat :: RingSize(num) ==> ShutdownMatches(t, addr, num, p))
       <==> (addr != 0 <==> t == Legacy)
    ensures CreationAlign(Legacy) == 4096 && CreationAlign(Modern) == 64
    ensures ShutdownAlign(addr) == if addr == 0 then 64 else 4096
  {
    if !(addr != 0 <==> t == Legacy) {
      SizesDiffer();
      assert !ShutdownMatches(t, addr, 256, 0);
    }
  }

  lemma SizesDiffer()
    ensures RingSize(256) && VringSize(256, 64) != VringSize(256, 4096)
  {
    hide AndNot, Pow2;
    SmallPowers();
    AndNotMask(4614 + 63, 6);
    AndNotMask(4614 + 4095, 12);
  }

  lemma SmallPowers()
    ensures Pow2(6) == 64 && Pow2(8) == 256 && Pow2(12) == 4096 && IsPow2(256)
  {
    assert Pow2(4) == 16;
    assert Pow2(8) == 256;
    assert Pow2(10) == 1024;
  }
}
