/**
 The walk over the capability list of PCI configuration space that looks for
 the vendor capabilities of a virtio device: when it ends, and what it records.
 */
module PciCaps {
  import opened Gather
  import opened Options
  import opened Words

  /** The first 256 bytes of configuration space; a byte that cannot be read is None. */
  type Config = c: seq<Option<u8>> | |c| == 0x100 witness seq(0x100, i => None)

  const CAPABILITY_ID_VENDOR_SPECIFIC := 9
  const MAX_CAPABILITIES := 48
  const HEADER_TYPE := 0x0E
  const STATUS := 0x06
  const CAPABILITIES_POINTER := 0x34
  const BARS := 6                  // PCI_TYPE0_ADDRESSES

  /** pci_read_config_byte. */
  function ReadByte(c: Config, at: nat): Option<u8> {
    if at < 0x100 then c[at] else None
  }

  /** Where a capability header can stand. */
  predicate Header(n: u8) {
    0x40 <= n <= 0xFC && n % 4 == 0
  }

  predicate IsVendor(c: Config, n: u8) {
    c[n] == Some(CAPABILITY_ID_VENDOR_SPECIFIC)
  }

  // ------------------------------------------------------------- the search for the next one

  /** What the loop of find_next_pci_vendor_capability finds from a pointer on, in so many rounds. */
  function NextVendor(c: Config, pointer: Option<u8>, iterations: nat): (r: u8)
    ensures r != 0 ==> Header(r) && IsVendor(c, r)
    decreases iterations
  {
    if iterations == 0 || pointer.None? || pointer.value < 0x40 then 0
    else
      var offset := pointer.value - pointer.value % 4;
      match ReadByte(c, offset)
      case None => 0
      case Some(id) =>
        if id == 0xFF then 0
        else if id == CAPABILITY_ID_VENDOR_SPECIFIC then offset
        else NextVendor(c, ReadByte(c, offset + 1), iterations - 1)
  }

  /** The same from the place where the pointer is stored. */
  function VendorAfter(c: Config, at: nat): (r: u8)
    ensures r != 0 ==> Header(r) && IsVendor(c, r)
  {
    NextVendor(c, ReadByte(c, at), MAX_CAPABILITIES)
  }

  /** The first vendor capability of a list of headers, or 0 if there is none. */
  ghost predicate IsFirstVendor(c: Config, list: seq<u8>, r: u8) {
    if r == 0 then forall i :: 0 <= i < |list| ==> c[list[i]] != Some(9)
    else exists k :: 0 <= k < |list| && list[k] == r && c[r] == Some(9) && NoneBefore(c, list, k)
  }

  ghost predicate NoneBefore(c: Config, list: seq<u8>, k: nat)
    requires k <= |list|
  {
    forall j :: 0 <= j < k ==> c[list[j]] != Some(9)
  }

  method FindNextPciVendorCapability(c: Config, at: u8) returns (r: u8)
    ensures r == VendorAfter(c, at)
    ensures forall list :: Leads(c, c[at], list) ==> IsFirstVendor(c, list, r)
    ensures c[at].None? || c[at].value < 0x40 ==> r == 0
    ensures c[at].Some? && c[at].value >= 0x40 ==>
      var o := c[at].value / 4 * 4;
      && (c[o].None? || c[o].value == 0xFF ==> r == 0) && (c[o] == Some(9) ==> r == o)
      && (c[o].Some? && c[o].value != 0xFF && c[o].value != 9 && c[o + 1].Some? && c[o + 1].value >= 0x40 ==>
            c[c[o + 1].value / 4 * 4] == Some(9) ==> r == c[o + 1].value / 4 * 4)
  {
    hide AndNot, Header, Leads, IsFirstVendor;
    forall list | Leads(c, c[at], list) ensures IsFirstVendor(c, list, VendorAfter(c, at)) {
      SearchIsFirst(c, c[at], list);
    }
    var first := ReadByte(c, at);
    if first.None? {
      return 0;
    }
    var offset: u8, iterations: nat := first.value, MAX_CAPABILITIES;
    while iterations != 0 && offset >= 0x40
      invariant 0 <= iterations <= MAX_CAPABILITIES
      invariant NextVendor(c, Some(offset), iterations) == VendorAfter(c, at)
      decreases iterations
    {
      iterations := iterations - 1;
      LowBitsCleared(offset);
      offset := AndNot(offset, 3);
      var id := ReadByte(c, offset);
      if id.None? {
        break;
      }
      if id.value == 0xFF {
        break;
      }
      if id.value == CAPABILITY_ID_VENDOR_SPECIFIC {
        return offset;
      }
      var next := ReadByte(c, offset + 1);
      if next.None? {
        break;
      }
      offset := next.value;
    }
    return 0;
  }

  lemma LowBitsCleared(x: u8)
    ensures AndNot(x, 3) == x - x % 4
  {
    assert Pow2(2) == 4;
    AndNotMask(x, 2);
  }

  /** Where the list starts: the position of the capabilities pointer, if there is a list. */
  function ListPointer(c: Config): Option<nat> {
    if c[HEADER_TYPE].None? || c[STATUS].None? || c[STATUS + 1].None? then None
    else if And(c[STATUS].value + 0x100 * c[STATUS + 1].value, 0x10) == 0 then None
    else Some(if AndNot(c[HEADER_TYPE].value, 0x80) == 2 then 0x14 else CAPABILITIES_POINTER)
  }

  lemma NoPointer(c: Config)
    ensures NextVendor(c, None, MAX_CAPABILITIES) == 0
  {
  }

  /** The pointer stored there. */
  function ListStart(c: Config): Option<u8> {
    match ListPointer(c)
    case None => None
    case Some(at) => ReadByte(c, at)
  }

  /** The bits of the status word and of the header type that are looked at, in arithmetic. */
  lemma HeaderBits(hdrType: u8, low: u8, high: u8)
    ensures And(low + 0x100 * high, 0x10) == 0 <==> low / 16 % 2 == 0
    ensures AndNot(hdrType, 0x80) == hdrType % 0x80
  {
    hide And, AndNot;
    assert Pow2(4) == 0x10;
    assert Pow2(7) == 0x80;
    AndBit(low + 0x100 * high, 4);
    AndNotBit(hdrType, 7);
    assert (low + 0x100 * high) / 16 == low / 16 + 16 * high;
  }

  method FindFirstPciVendorCapability(c: Config) returns (r: u8)
    ensures c[0x0E].None? || c[0x06].None? || c[0x07].None? ==> r == 0
    ensures c[0x0E].Some? && c[0x06].Some? && c[0x07].Some? ==>
      if c[0x06].value / 16 % 2 == 0 then r == 0
      else
        var at := if c[0x0E].value % 0x80 == 2 then 0x14 else 0x34;
        r == VendorAfter(c, at) && forall list :: Leads(c, c[at], list) ==> IsFirstVendor(c, list, r)
    ensures r == NextVendor(c, ListStart(c), MAX_CAPABILITIES)
  {
    hide And, AndNot, NextVendor, Leads, IsFirstVendor;
    var hdrType := c[HEADER_TYPE];
    NoPointer(c);
    if hdrType.None? {
      return 0;
    }
    if c[STATUS].None? || c[STATUS + 1].None? {
      return 0;
    }
    var status := c[STATUS].value + 0x100 * c[STATUS + 1].value;
    HeaderBits(hdrType.value, c[STATUS].value, c[STATUS + 1].value);
    if And(status, 0x10) == 0 {
      return 0;
    }
    var kind := AndNot(hdrType.value, 0x80);
    var offset: u8 := if kind == 1 then 0x34 else if kind == 2 then 0x14 else 0x34;
    if offset != 0 {
      offset := FindNextPciVendorCapability(c, offset);
    }
    return offset;
  }

  // ------------------------------------------------------------- when the walk ends

  /** The offset that the outer loop holds before round k; 0 once it has ended. */
  function Visit(c: Config, k: nat): (o: u8)
    ensures o != 0 ==> Header(o) && IsVendor(c, o)
  {
    if k == 0 then NextVendor(c, ListStart(c), MAX_CAPABILITIES)
    else
      var o := Visit(c, k - 1);
      if o == 0 then 0 else VendorAfter(c, o + 1)
  }

  ghost predicate WalkEnds(c: Config) {
    exists k: nat :: Visit(c, k) == 0
  }

  /** No vendor capability is come to twice. */
  ghost predicate NothingTwice(c: Config) {
    forall i: nat, j: nat :: i < j && Visit(c, i) != 0 ==> Visit(c, i) != Visit(c, j)
  }

  lemma {:induction false} EndedStays(c: Config, k: nat, m: nat)
    requires Visit(c, k) == 0 && k <= m
    ensures Visit(c, m) == 0
    decreases m
  {
    if k < m {
      EndedStays(c, k, m - 1);
    }
  }

  /** From equal offsets the walk goes on equally. */
  lemma {:induction false} SameGoesOn(c: Config, i: nat, j: nat, m: nat)
    requires Visit(c, i) == Visit(c, j)
    ensures Visit(c, i + m) == Visit(c, j + m)
  {
    hide NextVendor, VendorAfter, ListStart, Header, IsVendor;
    if m > 0 {
      SameGoesOn(c, i, j, m - 1);
    }
  }

  /** A walk that comes back never ends. */
  lemma {:induction false} TwiceNeverEnds(c: Config, i: nat, j: nat, k: nat)
    requires i < j && Visit(c, i) == Visit(c, j) != 0
    ensures Visit(c, k) != 0
    decreases k
  {
    hide Visit;
    if k <= j {
      if Visit(c, k) == 0 {
        EndedStays(c, k, j);
      }
    } else {
      SameGoesOn(c, i, j, k - j);
      TwiceNeverEnds(c, i, j, i + (k - j));
    }
  }

  ghost function VisitsUpTo(c: Config, n: nat): (s: seq<u8>)
    ensures |s| == n && forall i :: 0 <= i < n ==> s[i] == Visit(c, i)
  {
    seq(n, i requires 0 <= i < n => Visit(c, i))
  }

  /** Pigeonhole: 49 different headers do not fit. */
  lemma EndsWithin48(c: Config)
    requires NothingTwice(c)
    ensures Visit(c, MAX_CAPABILITIES) == 0
  {
    hide Visit, Slots, SlotsOf;
    if Visit(c, MAX_CAPABILITIES) != 0 {
      var visits := VisitsUpTo(c, MAX_CAPABILITIES + 1);
      forall i | 0 <= i < |visits| ensures visits[i] != 0 && Header(visits[i]) {
        if Visit(c, i) == 0 {
          EndedStays(c, i, MAX_CAPABILITIES);
        }
        HeaderVisited(c, i);
      }
      SlotsOfCount(visits);
      Subset(SlotsOf(visits), Slots(MAX_CAPABILITIES));
    }
  }

  lemma HeaderVisited(c: Config, k: nat)
    ensures Visit(c, k) != 0 ==> Header(Visit(c, k))
  {
  }

  /**
   The walk ends exactly when no offset is come to twice, and that is decided
   by round 48: at most 48 vendor capabilities fit.
   */
  lemma WalkEndsExactly(c: Config)
    ensures WalkEnds(c) <==> NothingTwice(c)
    ensures WalkEnds(c) <==> Visit(c, MAX_CAPABILITIES) == 0
  {
    hide Visit;
    if WalkEnds(c) {
      var k: nat :| Visit(c, k) == 0;
      forall i: nat, j: nat | i < j && Visit(c, i) != 0 ensures Visit(c, i) != Visit(c, j) {
        if Visit(c, i) == Visit(c, j) {
          TwiceNeverEnds(c, i, j, k);
        }
      }
    }
    if NothingTwice(c) {
      EndsWithin48(c);
    }
  }

  /** A vendor capability that points to itself is found again, and a walk that reaches it never ends. */
  lemma SelfLoopIsFoundAgain(c: Config, o: u8)
    requires Header(o) && IsVendor(c, o) && c[o + 1] == Some(o)
    ensures VendorAfter(c, o + 1) == o
    ensures (exists k: nat :: Visit(c, k) == o) ==> !WalkEnds(c)
  {
    if k: nat :| Visit(c, k) == o {
      assert Visit(c, k + 1) == o;
      WalkEndsExactly(c);
    }
  }

  /** One readable configuration space whose only capability points to itself. */
  function LoopConfig(): Config {
    seq(0x100, i =>
      if i == STATUS then Some(0x10)
      else if i == CAPABILITIES_POINTER || i == 0x41 then Some(0x40)
      else if i == 0x40 then Some(CAPABILITY_ID_VENDOR_SPECIFIC)
      else Some(0))
  }

  /** On it the outer loop holds 0x40 before every round. */
  lemma {:induction false} LoopConfigNeverEnds(k: nat)
    ensures Visit(LoopConfig(), k) == 0x40 && !WalkEnds(LoopConfig())
  {
    hide LoopConfig, NextVendor, VendorAfter, ListStart, Header, IsVendor;
    var c := LoopConfig();
    LoopConfigStarts();
    SelfLoopIsFoundAgain(c, 0x40);
    if k > 0 {
      LoopConfigNeverEnds(k - 1);
    }
  }

  lemma LoopConfigStarts()
    ensures var c := LoopConfig(); Header(0x40) && IsVendor(c, 0x40) && c[0x41] == Some(0x40) && Visit(c, 0) == 0x40
  {
    hide And;
    AndSelf(0x10);
    var c := LoopConfig();
    assert c[STATUS] == Some(0x10) && c[STATUS + 1] == Some(0) && c[HEADER_TYPE] == Some(0);
    assert ListPointer(c) == Some(CAPABILITIES_POINTER);
    assert ListStart(c) == Some(0x40);
  }

  // ------------------------------------------------------------- headers

  function Slots(n: nat): (s: set<nat>)
    ensures forall k: nat :: k in s <==> k < n
    ensures |s| == n
  {
    if n == 0 then {} else Slots(n - 1) + {n - 1}
  }

  function Slot(n: u8): nat
    requires Header(n)
  {
    var above: int := n - 0x40;
    above / 4
  }

  ghost predicate AllHeaders(list: seq<u8>) {
    forall i :: 0 <= i < |list| ==> Header(list[i])
  }

  ghost function SlotsOf(list: seq<u8>): set<nat>
    requires AllHeaders(list)
  {
    if list == [] then {} else SlotsOf(list[1..]) + {Slot(list[0])}
  }

  lemma {:induction false} SlotFrom(list: seq<u8>, n: u8)
    requires AllHeaders(list) && Header(n) && Slot(n) in SlotsOf(list)
    ensures n in list
  {
    if Slot(n) != Slot(list[0]) {
      SlotFrom(list[1..], n);
    }
  }

  lemma {:induction false} SlotsOfCount(list: seq<u8>)
    requires AllHeaders(list) && forall i, j :: 0 <= i < j < |list| ==> list[i] != list[j]
    ensures |SlotsOf(list)| == |list| && SlotsOf(list) <= Slots(MAX_CAPABILITIES)
  {
    hide Slots;
    if list != [] {
      SlotsOfCount(list[1..]);
      if Slot(list[0]) in SlotsOf(list[1..]) {
        SlotFrom(list[1..], list[0]);
      }
    }
  }

  // ------------------------------------------------------------- lists without a cycle

  /**
   The headers that a pointer leads to, in order, until the list ends, be it
   by a small pointer, an unreadable byte or an absent device. Only a list
   without a cycle has such headers.
   */
  ghost predicate Leads(c: Config, pointer: Option<u8>, list: seq<u8>)
    decreases |list|
  {
    if pointer.None? || pointer.value < 0x40 then list == []
    else
      var offset := pointer.value - pointer.value % 4;
      if c[offset].None? || c[offset].value == 0xFF then list == []
      else list != [] && list[0] == offset && Leads(c, c[offset + 1], list[1..])
  }

  /** A pointer leads to one list only. */
  lemma {:induction false} LeadsOnce(c: Config, pointer: Option<u8>, a: seq<u8>, b: seq<u8>)
    requires Leads(c, pointer, a) && Leads(c, pointer, b)
    ensures a == b
    decreases |a|
  {
    if a != [] && b != [] {
      LeadsOnce(c, c[a[0] + 1], a[1..], b[1..]);
      assert a == [a[0]] + a[1..] && b == [b[0]] + b[1..];
    }
  }

  lemma LeadsStep(c: Config, pointer: Option<u8>, list: seq<u8>)
    requires Leads(c, pointer, list) && list != []
    ensures Header(list[0]) && Leads(c, c[list[0] + 1], list[1..])
  {
  }

  lemma {:induction false} LeadsFrom(c: Config, pointer: Option<u8>, list: seq<u8>, i: nat)
    requires Leads(c, pointer, list) && i < |list|
    ensures Header(list[i]) && Leads(c, c[list[i] + 1], list[i + 1..])
    decreases i
  {
    hide Leads;
    LeadsStep(c, pointer, list);
    if i > 0 {
      LeadsFrom(c, c[list[0] + 1], list[1..], i - 1);
      assert list[1..][i..] == list[i + 1..];
    }
  }

  /** No header occurs twice. */
  lemma LeadsDistinct(c: Config, pointer: Option<u8>, list: seq<u8>, i: nat, j: nat)
    requires Leads(c, pointer, list) && i < j < |list|
    ensures list[i] != list[j]
  {
    hide Leads;
    if list[i] == list[j] {
      LeadsFrom(c, pointer, list, i);
      LeadsFrom(c, pointer, list, j);
      LeadsOnce(c, c[list[i] + 1], list[i + 1..], list[j + 1..]);
    }
  }

  /** Pigeonhole on the aligned offsets from 0x40 to 0xFC: the bound of 48 cuts no list short. */
  lemma AtMost48(c: Config, pointer: Option<u8>, list: seq<u8>)
    requires Leads(c, pointer, list)
    ensures |list| <= MAX_CAPABILITIES
  {
    hide Leads, Header, Slots;
    forall i | 0 <= i < |list| ensures Header(list[i]) {
      LeadsFrom(c, pointer, list, i);
    }
    forall i, j | 0 <= i < j < |list| ensures list[i] != list[j] {
      LeadsDistinct(c, pointer, list, i, j);
    }
    SlotsOfCount(list);
    Subset(SlotsOf(list), Slots(MAX_CAPABILITIES));
  }

  /** Index of the first vendor capability, or the length. */
  function FirstVendor(c: Config, list: seq<u8>): (k: nat)
    ensures k <= |list|
    ensures k < |list| ==> IsVendor(c, list[k])
    ensures forall i :: 0 <= i < k ==> !IsVendor(c, list[i])
  {
    if list == [] || IsVendor(c, list[0]) then 0 else 1 + FirstVendor(c, list[1..])
  }

  /** With enough rounds the search returns the first vendor capability of the list, or 0. */
  lemma {:induction false} SearchFindsFirst(c: Config, pointer: Option<u8>, list: seq<u8>, iterations: nat)
    requires Leads(c, pointer, list) && |list| <= iterations
    ensures NextVendor(c, pointer, iterations)
         == if FirstVendor(c, list) < |list| then list[FirstVendor(c, list)] else 0
    decreases |list|
  {
    if list != [] && !IsVendor(c, list[0]) {
      SearchFindsFirst(c, c[list[0] + 1], list[1..], iterations - 1);
    }
  }

  /** The bound cuts no search short. */
  lemma SearchIsFirst(c: Config, pointer: Option<u8>, list: seq<u8>)
    requires Leads(c, pointer, list)
    ensures IsFirstVendor(c, list, NextVendor(c, pointer, MAX_CAPABILITIES))
  {
    hide Leads, NextVendor;
    AtMost48(c, pointer, list);
    SearchFindsFirst(c, pointer, list, MAX_CAPABILITIES);
    var k := FirstVendor(c, list);
    if k < |list| {
      LeadsFrom(c, pointer, list, k);
      assert NoneBefore(c, list, k);
    }
  }

  /** The vendor capabilities of a list, in order. */
  function Vendors(c: Config, list: seq<u8>): seq<u8> {
    if list == [] then []
    else (if IsVendor(c, list[0]) then [list[0]] else []) + Vendors(c, list[1..])
  }

  lemma {:induction false} VendorsAfterFirst(c: Config, list: seq<u8>)
    ensures var k := FirstVendor(c, list);
      Vendors(c, list) == if k < |list| then [list[k]] + Vendors(c, list[k + 1..]) else []
  {
    hide IsVendor;
    if list != [] {
      var rest := list[1..];
      if IsVendor(c, list[0]) {
        assert FirstVendor(c, list) == 0;
      } else {
        VendorsAfterFirst(c, rest);
        var k := FirstVendor(c, rest);
        assert FirstVendor(c, list) == k + 1;
        if k < |rest| {
          assert rest[k + 1..] == list[k + 2..];
        }
      }
    }
  }

  lemma {:induction false} VendorsFrom(c: Config, list: seq<u8>, k: nat)
    requires k < |Vendors(c, list)|
    ensures Vendors(c, list)[k] in list && IsVendor(c, Vendors(c, list)[k])
  {
    if IsVendor(c, list[0]) {
      if k > 0 {
        VendorsFrom(c, list[1..], k - 1);
      }
    } else {
      VendorsFrom(c, list[1..], k);
    }
  }

  /** Each vendor capability of the list is among them, once. */
  lemma {:induction false} VendorsOnce(c: Config, list: seq<u8>)
    requires forall i, j :: 0 <= i < j < |list| ==> list[i] != list[j]
    ensures forall i, j :: 0 <= i < j < |Vendors(c, list)| ==> Vendors(c, list)[i] != Vendors(c, list)[j]
    ensures forall n :: n in list && IsVendor(c, n) ==> n in Vendors(c, list)
  {
    hide IsVendor;
    if list != [] {
      var rest := list[1..];
      VendorsOnce(c, rest);
      forall k | 0 <= k < |Vendors(c, rest)| ensures Vendors(c, rest)[k] != list[0] {
        VendorsFrom(c, rest, k);
      }
    }
  }

  /** One search: it finds the next vendor capability of the list, and the rest of the list follows it. */
  lemma SearchAdvances(c: Config, pointer: Option<u8>, list: seq<u8>) returns (rest: seq<u8>)
    requires Leads(c, pointer, list)
    ensures var o := NextVendor(c, pointer, MAX_CAPABILITIES);
      && Vendors(c, list) == (if o == 0 then [] else [o] + Vendors(c, rest))
      && (o != 0 ==> |rest| < |list| && Leads(c, c[o + 1], rest))
  {
    hide Leads, NextVendor, Vendors, IsVendor;
    AtMost48(c, pointer, list);
    SearchFindsFirst(c, pointer, list, MAX_CAPABILITIES);
    VendorsAfterFirst(c, list);
    var k := FirstVendor(c, list);
    rest := [];
    if k < |list| {
      LeadsFrom(c, pointer, list, k);
      rest := list[k + 1..];
    }
  }

  /** From round k on the walk visits these offsets, and then ends. */
  ghost predicate VisitsThen(c: Config, k: nat, offsets: seq<u8>) {
    (forall i :: k <= i < k + |offsets| ==> Visit(c, i) == offsets[i - k]) && Visit(c, k + |offsets|) == 0
  }

  lemma {:induction false} WalkFollows(c: Config, k: nat, pointer: Option<u8>, list: seq<u8>)
    requires Leads(c, pointer, list) && Visit(c, k) == NextVendor(c, pointer, MAX_CAPABILITIES)
    ensures VisitsThen(c, k, Vendors(c, list))
    decreases |list|
  {
    hide Leads, NextVendor, Vendors;
    var o := Visit(c, k);
    var rest := SearchAdvances(c, pointer, list);
    if o != 0 {
      WalkFollows(c, k + 1, c[o + 1], rest);
      var all := Vendors(c, list);
      forall i | k <= i < k + |all| ensures Visit(c, i) == all[i - k] {
        if i > k {
          assert all[i - k] == Vendors(c, rest)[i - (k + 1)];
        }
      }
    }
  }

  /** On every list without a cycle the walk ends and visits the vendor capabilities in list order. */
  lemma ListedWalkEnds(c: Config, list: seq<u8>)
    requires Leads(c, ListStart(c), list)
    ensures WalkEnds(c) && VisitsThen(c, 0, Vendors(c, list))
  {
    hide Leads, NextVendor, Vendors, ListStart;
    FirstVisit(c);
    WalkFollows(c, 0, ListStart(c), list);
  }

  lemma FirstVisit(c: Config)
    ensures Visit(c, 0) == NextVendor(c, ListStart(c), MAX_CAPABILITIES)
  {
  }

  // ------------------------------------------------------------- what is recorded

  /** What the two local variables of the outer loop hold, for a capability whose fields cannot be read. */
  datatype Stale = Stale(cfgType: u8 -> u8, bar: u8 -> u8)

  function CfgType(c: Config, n: u8, stale: Stale): u8 {
    match ReadByte(c, n + 3)
    case None => stale.cfgType(n)
    case Some(cfgType) => cfgType
  }

  function Bar(c: Config, n: u8, stale: Stale): u8 {
    match ReadByte(c, n + 4)
    case None => stale.bar(n)
    case Some(bar) => bar
  }

  /** A capability for structure type t in a BAR that exists. */
  predicate UsableFor(c: Config, barLen: seq<nat>, stale: Stale, n: u8, t: int)
    requires |barLen| == BARS
  {
    CfgType(c, n, stale) == t && Bar(c, n, stale) < BARS && barLen[Bar(c, n, stale)] > 0
  }

  /** What is recorded for type t after these capabilities: the last usable one, or what was there. */
  function Recorded(c: Config, barLen: seq<nat>, stale: Stale, found: seq<u8>, t: int, was: int): int
    requires |barLen| == BARS
  {
    if found == [] then was
    else if UsableFor(c, barLen, stale, found[|found| - 1], t) then found[|found| - 1]
    else Recorded(c, barLen, stale, found[..|found| - 1], t, was)
  }

  lemma {:induction false} RecordedIsLast(c: Config, barLen: seq<nat>, stale: Stale, found: seq<u8>, t: int, was: int,
                                          k: nat)
    requires |barLen| == BARS && k < |found| && UsableFor(c, barLen, stale, found[k], t)
    requires forall i :: k < i < |found| ==> !UsableFor(c, barLen, stale, found[i], t)
    ensures Recorded(c, barLen, stale, found, t, was) == found[k]
    decreases |found|
  {
    if k < |found| - 1 {
      RecordedIsLast(c, barLen, stale, found[..|found| - 1], t, was, k);
    }
  }

  lemma {:induction false} RecordedNothing(c: Config, barLen: seq<nat>, stale: Stale, found: seq<u8>, t: int, was: int)
    requires |barLen| == BARS && forall i :: 0 <= i < |found| ==> !UsableFor(c, barLen, stale, found[i], t)
    ensures Recorded(c, barLen, stale, found, t, was) == was
  {
    if found != [] {
      RecordedNothing(c, barLen, stale, found[..|found| - 1], t, was);
    }
  }

  ghost predicate RecordedAll(c: Config, barLen: seq<nat>, stale: Stale, found: seq<u8>, now: seq<int>, was: seq<int>)
    requires |barLen| == BARS
  {
    |now| == |was| && forall t :: 0 <= t < |now| ==> now[t] == Recorded(c, barLen, stale, found, t, was[t])
  }

  lemma RecordedNone(c: Config, barLen: seq<nat>, stale: Stale, was: seq<int>)
    requires |barLen| == BARS
    ensures RecordedAll(c, barLen, stale, [], was, was)
  {
  }

  lemma RecordOne(c: Config, barLen: seq<nat>, stale: Stale, found: seq<u8>, offset: u8, now: seq<int>, now': seq<int>,
                  was: seq<int>)
    requires |barLen| == BARS && RecordedAll(c, barLen, stale, found, now, was)
    requires var t, bar := CfgType(c, offset, stale), Bar(c, offset, stale);
      now' == if bar < BARS && t < |now| && barLen[bar] > 0 then now[t := offset] else now
    ensures RecordedAll(c, barLen, stale, found + [offset], now', was)
  {
    hide CfgType, Bar;
    assert (found + [offset])[..|found|] == found;
  }

  /** All the bytes that are looked at can be read. */
  ghost predicate BytesReadable(c: Config, found: seq<u8>) {
    forall i :: 0 <= i < |found| ==> found[i] < 0xFC && c[found[i] + 3].Some? && c[found[i] + 4].Some?
  }

  /** The fourth byte of a capability is this type, and the fifth a BAR that exists. */
  ghost predicate Names(c: Config, barLen: seq<nat>, n: u8, t: int) {
    n < 0xFC && c[n + 3].Some? && c[n + 3].value == t
    && c[n + 4].Some? && c[n + 4].value < 6 && c[n + 4].value < |barLen| && barLen[c[n + 4].value] > 0
  }

  ghost predicate LastNaming(c: Config, barLen: seq<nat>, found: seq<u8>, k: nat, t: int)
    requires k < |found|
  {
    Names(c, barLen, found[k], t) && forall i :: k < i < |found| ==> !Names(c, barLen, found[i], t)
  }

  /** What is recorded, told from the bytes. */
  lemma RecordedBytes(c: Config, barLen: seq<nat>, stale: Stale, found: seq<u8>, now: seq<int>, was: seq<int>)
    requires |barLen| == BARS && RecordedAll(c, barLen, stale, found, now, was) && BytesReadable(c, found)
    ensures forall t, k :: 0 <= t < |now| && 0 <= k < |found| && LastNaming(c, barLen, found, k, t) ==>
      now[t] == found[k]
    ensures forall t :: 0 <= t < |now| && (forall i :: 0 <= i < |found| ==> !Names(c, barLen, found[i], t)) ==>
      now[t] == was[t]
  {
    hide Recorded;
    forall t, k | 0 <= t < |now| && 0 <= k < |found| && LastNaming(c, barLen, found, k, t) ensures now[t] == found[k] {
      RecordedIsLast(c, barLen, stale, found, t, was[t], k);
    }
    forall t | 0 <= t < |now| && (forall i :: 0 <= i < |found| ==> !Names(c, barLen, found[i], t))
      ensures now[t] == was[t]
    {
      RecordedNothing(c, barLen, stale, found, t, was[t]);
    }
  }

  /**
   Whenever the walk ends, the nested loops visit the offsets of the walk in
   order and leave for each type the last capability with a usable BAR.
   */
  method FindPciVendorCapabilities(c: Config, barLen: seq<nat>, stale: Stale, offsets: array<int>)
    returns (visited: seq<u8>)
    requires WalkEnds(c) && |barLen| == BARS
    modifies offsets
    ensures VisitsThen(c, 0, visited) && 0 !in visited
    ensures RecordedAll(c, barLen, stale, visited, offsets[..], old(offsets[..]))
    ensures BytesReadable(c, visited) ==> forall t :: 0 <= t < offsets.Length ==>
      && (forall k :: 0 <= k < |visited| && LastNaming(c, barLen, visited, k, t) ==> offsets[t] == visited[k])
      && ((forall i :: 0 <= i < |visited| ==> !Names(c, barLen, visited[i], t)) ==> offsets[t] == old(offsets[t]))
  {
    hide NextVendor, VendorAfter, ListStart, RecordedAll, CfgType, Bar, BytesReadable, LastNaming, Names, Leads,
         IsFirstVendor;
    ghost var end: nat :| Visit(c, end) == 0;
    visited := [];
    RecordedNone(c, barLen, stale, offsets[..]);
    FirstVisit(c);
    var offset := FindFirstPciVendorCapability(c);
    while offset > 0
      invariant offset == Visit(c, |visited|)
      invariant forall i :: 0 <= i < |visited| ==> visited[i] == Visit(c, i) != 0
      invariant RecordedAll(c, barLen, stale, visited, offsets[..], old(offsets[..]))
      decreases end - |visited|
    {
      if end <= |visited| {
        EndedStays(c, end, |visited|);
      }
      var cfgType, bar := CfgType(c, offset, stale), Bar(c, offset, stale);
      ghost var now := offsets[..];
      if bar < BARS && cfgType < offsets.Length && barLen[bar] > 0 {
        offsets[cfgType] := offset;
      }
      RecordOne(c, barLen, stale, visited, offset, now, offsets[..], old(offsets[..]));
      visited := visited + [offset];
      offset := FindNextPciVendorCapability(c, offset + 1);
    }
    if BytesReadable(c, visited) {
      RecordedBytes(c, barLen, stale, visited, offsets[..], old(offsets[..]));
    }
  }
}
