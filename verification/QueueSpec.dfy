/**
 What the driver side of a split virtqueue is meant to do, on values: the
 order of the free list, the buffers that are out, and the unbounded history
 behind the 16-bit indices. Vring.dfy is proved against these functions.
 */
module QueueSpec {
  import opened Words
  import opened Gather
  import opened Options

  /** A pointer value handed over by the caller; 0 is NULL. */
  type Token = nat
  const NULL: Token := 0

  /** One scatter/gather entry of the caller. */
  datatype Sg = Sg(addr: nat, len: nat)

  /** One buffer as the device sees it. */
  datatype Buf = Buf(addr: nat, len: nat, writable: bool)

  /** struct vring_desc, with one boolean per flag bit. */
  datatype Desc = Desc(addr: nat, len: nat, hasNext: bool, write: bool, indirect: bool, next: u16)

  /** struct vring_used_elem. */
  datatype UsedElem = UsedElem(id: u32, len: u32)

  /** What the driver reads from memory that the device writes. */
  datatype DeviceView = DeviceView(idx: u16, noNotify: bool, availEvent: u16, ring: seq<UsedElem>)

  /** An indirect table: its physical address and contents. */
  datatype Table = Table(phys: nat, entries: seq<Desc>)

  /** A buffer that was added and is not back yet. */
  datatype Entry = Entry(serial: nat, token: Token, path: seq<nat>, bufs: seq<Buf>, table: Option<Table>)

  datatype Submission = Submission(head: nat, token: Token)
  datatype Completion = Completion(serial: nat, head: nat, token: Token)

  datatype Queue = Queue(
    num: nat,
    free: seq<nat>,              // the free list, in list order
    pending: map<nat, Entry>,    // by head descriptor
    log: seq<Submission>,        // every buffer ever added
    returned: seq<Completion>,   // every buffer returned by get_buf
    withdrawn: seq<Completion>,  // every buffer taken back at shutdown
    kicked: nat,                 // |log| when the driver last synchronised
    callbacks: bool,             // interrupts wanted
    usedEvent: u16               // the event index published to the device
  )

  function Initial(num: nat): Queue {
    Queue(num, seq(num, i => i), map[], [], [], [], 0, true, 0)
  }

  // ------------------------------------------------------------ operations

  function Bufs(sg: seq<Sg>, out: nat): (b: seq<Buf>)
    ensures |b| == |sg|
  {
    seq(|sg|, k requires 0 <= k < |sg| => Buf(sg[k].addr, sg[k].len, k >= out))
  }

  /** Contents of an indirect table for these buffers. */
  function TableEntries(sg: seq<Sg>, out: nat): (t: seq<Desc>)
    ensures |t| == |sg|
  {
    seq(|sg|, k requires 0 <= k < |sg| =>
      Desc(sg[k].addr, sg[k].len, k < |sg| - 1, k >= out, false, if k < |sg| - 1 then Wrap16(Wrap16(k) + 1) else 0))
  }

  predicate GoesIndirect(q: Queue, n: nat, phys: Option<nat>) {
    phys.Some? && n > 1 && q.free != []
  }

  /** What BUG_ON asks of a caller of virtqueue_add_buf. */
  predicate MayAdd(q: Queue, n: nat, token: Token, phys: Option<nat>) {
    && token != NULL
    && (!GoesIndirect(q, n, phys) ==> 1 <= n <= q.num)
    && (GoesIndirect(q, n, phys) ==> n <= 0x1_0000)
  }

  /** Descriptors that adding n buffers takes from the free list. */
  function Cost(q: Queue, n: nat, phys: Option<nat>): nat {
    if GoesIndirect(q, n, phys) then 1 else n
  }

  predicate HasRoom(q: Queue, n: nat, phys: Option<nat>) {
    Cost(q, n, phys) <= |q.free|
  }

  function Submit(q: Queue, n: nat, token: Token, bufs: seq<Buf>, table: Option<Table>): Queue
    requires 1 <= n <= |q.free|
  {
    var path := q.free[..n];
    q.(free := q.free[n..],
       pending := q.pending[path[0] := Entry(|q.log|, token, path, bufs, table)],
       log := q.log + [Submission(path[0], token)])
  }

  /** The forced kick of a driver that has added 2^16 - 1 buffers since the last one. */
  predicate ForcesKick(q: Queue) {
    |q.log| - q.kicked == U16_SIZE - 1
  }

  function Added(q: Queue, sg: seq<Sg>, out: nat, token: Token, phys: Option<nat>): Queue
    requires MayAdd(q, |sg|, token, phys) && HasRoom(q, |sg|, phys)
  {
    if GoesIndirect(q, |sg|, phys) then
      Submit(q, 1, token, Bufs(sg, out), Some(Table(phys.value, TableEntries(sg, out))))
    else
      Submit(q, |sg|, token, Bufs(sg, out), None)
  }

  /** virtqueue_add_buf; without room nothing changes. */
  function Add(q: Queue, sg: seq<Sg>, out: nat, token: Token, phys: Option<nat>): Queue
    requires MayAdd(q, |sg|, token, phys)
  {
    if !HasRoom(q, |sg|, phys) then q
    else
      var q' := Added(q, sg, out, token, phys);
      if ForcesKick(q') then Kick(q') else q'
  }

  lemma AddIs(q: Queue, sg: seq<Sg>, out: nat, token: Token, phys: Option<nat>)
    requires MayAdd(q, |sg|, token, phys)
    ensures HasRoom(q, |sg|, phys) ==>
      Add(q, sg, out, token, phys)
      == if ForcesKick(Added(q, sg, out, token, phys)) then Kick(Added(q, sg, out, token, phys))
         else Added(q, sg, out, token, phys)
    ensures !HasRoom(q, |sg|, phys) ==> Add(q, sg, out, token, phys) == q
  {
  }

  /** virtqueue_kick_prepare and virtqueue_kick_always: everything added is exposed. */
  function Kick(q: Queue): Queue {
    q.(kicked := |q.log|)
  }

  /** The answer of virtqueue_kick_prepare. */
  predicate NeedsKick(q: Queue, eventMode: bool, dev: DeviceView) {
    if eventMode then NeedEvent(dev.availEvent, Wrap16(|q.log|), Wrap16(q.kicked)) else !dev.noNotify
  }

  /** The entry that the device offers next, if the driver accepts it. */
  function Offered(q: Queue, dev: DeviceView): Option<nat>
    requires |dev.ring| == q.num && q.num >= 1
  {
    if Wrap16(|q.returned|) == dev.idx then None
    else
      var id := dev.ring[|q.returned| % q.num].id;
      if id < q.num && id in q.pending then Some(id) else None
  }

  /** virtqueue_get_buf. */
  function Get(q: Queue, dev: DeviceView): Queue
    requires |dev.ring| == q.num && q.num >= 1
  {
    match Offered(q, dev)
    case None => q
    case Some(head) =>
      var q' := Release(q, head).(returned := q.returned + [CompletionOf(q, head)]);
      if q.callbacks then q'.(usedEvent := Wrap16(|q'.returned|)) else q'
  }

  /** detach_buf: the chain goes to the front of the free list. */
  function Release(q: Queue, head: nat): Queue
    requires head in q.pending
  {
    q.(free := q.pending[head].path + q.free, pending := q.pending - {head})
  }

  function EnableCb(q: Queue): Queue {
    q.(callbacks := true, usedEvent := Wrap16(|q.returned|))
  }

  function DisableCb(q: Queue): Queue {
    q.(callbacks := false)
  }

  /** Three quarters of the buffers that are out, in 16-bit arithmetic. */
  function DelayedBufs(avail: u16, lastUsed: u16): u16 {
    Wrap16(Wrap16(avail - lastUsed) * 3 / 4)
  }

  function Outstanding(q: Queue): int {
    |q.log| - |q.withdrawn| - |q.returned|
  }

  function EnableCbDelayed(q: Queue): Queue {
    q.(callbacks := true,
       usedEvent := Wrap16(|q.returned| + DelayedBufs(Wrap16(|q.log| - |q.withdrawn|), Wrap16(|q.returned|))))
  }

  /** The least head that is pending, or n. */
  function FirstPending(q: Queue, from: nat, n: nat): (h: nat)
    requires from <= n
    ensures from <= h <= n
    ensures h < n ==> h in q.pending
    ensures forall i :: from <= i < h ==> i !in q.pending
    decreases n - from
  {
    if from == n || from in q.pending then from else FirstPending(q, from + 1, n)
  }

  /** virtqueue_detach_unused_buf, when some buffer is left. */
  function Withdraw(q: Queue, head: nat): Queue
    requires head in q.pending
  {
    Release(q, head).(withdrawn := q.withdrawn + [CompletionOf(q, head)])
  }

  // ------------------------------------------------------------- invariant

  ghost function Chains(pending: map<nat, Entry>): map<nat, multiset<nat>> {
    map h | h in pending :: multiset(pending[h].path)
  }

  ghost function Serials(pending: map<nat, Entry>): map<nat, multiset<nat>> {
    map h | h in pending :: multiset{pending[h].serial}
  }

  ghost function SerialsOf(done: seq<Completion>): multiset<nat> {
    if done == [] then multiset{} else SerialsOf(done[..|done| - 1]) + multiset{done[|done| - 1].serial}
  }

  ghost predicate EntryOk(num: nat, log: seq<Submission>, h: nat, e: Entry) {
    && h < num
    && e.path != [] && e.path[0] == h
    && e.token != NULL
    && e.serial < |log| && log[e.serial] == Submission(h, e.token)
    && match e.table
       case None => |e.path| == |e.bufs|
       case Some(t) => |e.path| == 1 && 1 < |e.bufs| == |t.entries| <= 0x1_0000
  }

  ghost predicate EntriesOk(num: nat, log: seq<Submission>, pending: map<nat, Entry>) {
    forall h {:trigger pending[h]} :: h in pending ==> EntryOk(num, log, h, pending[h])
  }

  ghost predicate CompletionsOk(log: seq<Submission>, done: seq<Completion>) {
    forall r {:trigger done[r]} :: 0 <= r < |done| ==>
      done[r].serial < |log| && log[done[r].serial] == Submission(done[r].head, done[r].token)
  }

  /** Every descriptor is exactly once on the free list or in a chain. */
  ghost predicate DescriptorsConserved(num: nat, free: seq<nat>, pending: map<nat, Entry>) {
    multiset(free) + Gathered(Chains(pending), num) == AllBelow(num)
  }

  /** Every buffer ever added is exactly once returned, withdrawn or pending. */
  ghost predicate BuffersConserved(num: nat, added: nat, returned: seq<Completion>, withdrawn: seq<Completion>,
                                   pending: map<nat, Entry>) {
    SerialsOf(returned) + SerialsOf(withdrawn) + Gathered(Serials(pending), num) == AllBelow(added)
  }

  /** The descriptors and buffers are all accounted for. */
  ghost predicate Sound(q: Queue) {
    && RingSize(q.num)
    && EntriesOk(q.num, q.log, q.pending)
    && CompletionsOk(q.log, q.returned) && CompletionsOk(q.log, q.withdrawn)
    && DescriptorsConserved(q.num, q.free, q.pending)
    && BuffersConserved(q.num, |q.log|, q.returned, q.withdrawn, q.pending)
    && |q.pending| == Outstanding(q)
  }

  /** What holds between operations: also, a kick is never 2^16 - 1 buffers away. */
  ghost predicate Inv(q: Queue) {
    && Sound(q)
    && q.kicked <= |q.log| < q.kicked + U16_SIZE - 1
  }

  // ------------------------------------- what the invariant says of the ring

  /** One chain has distinct descriptors, none of them on the free list. */
  ghost predicate ChainDistinct(q: Queue, h: nat)
    requires h in q.pending
  {
    var path := q.pending[h].path;
    && (forall i, j :: 0 <= i < j < |path| ==> path[i] != path[j])
    && (forall i :: 0 <= i < |path| ==> path[i] < q.num && path[i] !in q.free)
  }

  /** The free list and the chains partition the descriptors. */
  ghost predicate Partitioned(q: Queue) {
    && (forall i, j :: 0 <= i < j < |q.free| ==> q.free[i] != q.free[j])
    && (forall i :: 0 <= i < |q.free| ==> q.free[i] < q.num)
    && (forall h :: h in q.pending ==> ChainDistinct(q, h))
    && (forall h, g, d :: h in q.pending && g in q.pending && h != g && d in q.pending[h].path ==>
          d !in q.pending[g].path)
    && (forall d: nat :: d < q.num ==> d in q.free || exists h :: h in q.pending && d in q.pending[h].path)
  }

  ghost predicate HeadsInRange(q: Queue) {
    forall h :: h in q.pending ==> h < q.num
  }

  lemma FreeListCounts(q: Queue, d: nat)
    requires DescriptorsConserved(q.num, q.free, q.pending) && d in q.free
    ensures d < q.num && multiset(q.free)[d] <= 1
  {
    AllBelowCounts(q.num);
    assert d in multiset(q.free);
    assert (multiset(q.free) + Gathered(Chains(q.pending), q.num))[d] == AllBelow(q.num)[d];
  }

  lemma ChainCounts(q: Queue, h: nat, d: nat)
    requires DescriptorsConserved(q.num, q.free, q.pending) && HeadsInRange(q) && h in q.pending
    requires d in q.pending[h].path
    ensures d < q.num && multiset(q.pending[h].path)[d] <= 1 && d !in q.free
  {
    AllBelowCounts(q.num);
    GatheredTake(Chains(q.pending), h, q.num);
    assert d in Chains(q.pending)[h];
    assert (multiset(q.free) + Gathered(Chains(q.pending), q.num))[d] == AllBelow(q.num)[d];
    assert multiset(q.free)[d] == 0;
  }

  lemma ChainIsDistinct(q: Queue, h: nat)
    requires DescriptorsConserved(q.num, q.free, q.pending) && HeadsInRange(q) && h in q.pending
    ensures ChainDistinct(q, h)
  {
    var path := q.pending[h].path;
    forall i | 0 <= i < |path| ensures path[i] < q.num && path[i] !in q.free && multiset(path)[path[i]] <= 1 {
      ChainCounts(q, h, path[i]);
    }
    NoDuplicates(path);
  }

  lemma ChainsApart(q: Queue, h: nat, g: nat, d: nat)
    requires DescriptorsConserved(q.num, q.free, q.pending) && HeadsInRange(q) && h in q.pending && g in q.pending
    requires h != g
    requires d in q.pending[h].path
    ensures d !in q.pending[g].path
  {
    AllBelowCounts(q.num);
    GatheredTwo(Chains(q.pending), h, g, q.num, d);
    assert d in Chains(q.pending)[h];
    assert (multiset(q.free) + Gathered(Chains(q.pending), q.num))[d] == AllBelow(q.num)[d];
    assert Chains(q.pending)[g][d] == 0;
  }

  lemma DescriptorCovered(q: Queue, d: nat)
    requires DescriptorsConserved(q.num, q.free, q.pending) && d < q.num && d !in q.free
    ensures exists h :: h in q.pending && d in q.pending[h].path
  {
    AllBelowCounts(q.num);
    assert multiset(q.free)[d] == 0;
    assert (multiset(q.free) + Gathered(Chains(q.pending), q.num))[d] == AllBelow(q.num)[d];
    GatheredSource(Chains(q.pending), q.num, d);
    var h :| h in Chains(q.pending) && h < q.num && d in Chains(q.pending)[h];
    assert h in q.pending && d in q.pending[h].path;
  }

  lemma InvPartitions(q: Queue)
    requires DescriptorsConserved(q.num, q.free, q.pending) && HeadsInRange(q)
    ensures Partitioned(q)
  {
    forall i | 0 <= i < |q.free| ensures q.free[i] < q.num && multiset(q.free)[q.free[i]] <= 1 {
      FreeListCounts(q, q.free[i]);
    }
    NoDuplicates(q.free);
    forall h | h in q.pending ensures ChainDistinct(q, h) {
      ChainIsDistinct(q, h);
    }
    forall h, g, d | h in q.pending && g in q.pending && h != g && d in q.pending[h].path
      ensures d !in q.pending[g].path
    {
      ChainsApart(q, h, g, d);
    }
    forall d: nat | d < q.num && d !in q.free ensures exists h :: h in q.pending && d in q.pending[h].path {
      DescriptorCovered(q, d);
    }
  }

  /** Total length of the pending chains. */
  ghost function ChainLengths(pending: map<nat, Entry>, n: nat): nat {
    if n == 0 then 0
    else ChainLengths(pending, n - 1) + (if n - 1 in pending then |pending[n - 1].path| else 0)
  }

  lemma {:induction false} ChainLengthsGathered(pending: map<nat, Entry>, n: nat)
    ensures |Gathered(Chains(pending), n)| == ChainLengths(pending, n)
  {
    if n > 0 {
      ChainLengthsGathered(pending, n - 1);
    }
  }

  /** num_free plus the chain lengths is always num. */
  lemma FreePlusChains(q: Queue)
    requires DescriptorsConserved(q.num, q.free, q.pending)
    ensures |q.free| + ChainLengths(q.pending, q.num) == q.num
  {
    AllBelowCounts(q.num);
    ChainLengthsGathered(q.pending, q.num);
    assert |multiset(q.free)| == |q.free|;
  }

  // ----------------------------------------------- every step keeps it

  lemma {:induction false} IdentityConserved(n: nat)
    ensures multiset(seq(n, i => i)) == AllBelow(n)
  {
    if n > 0 {
      IdentityConserved(n - 1);
      assert seq(n, i => i) == seq(n - 1, i => i) + [n - 1];
    }
  }

  lemma InitialInv(num: nat)
    requires RingSize(num)
    ensures Inv(Initial(num))
  {
    var q := Initial(num);
    IdentityConserved(num);
    GatheredEmpty(Chains(q.pending), num);
    GatheredEmpty(Serials(q.pending), num);
  }

  lemma ChainsPutMap(pending: map<nat, Entry>, h: nat, e: Entry)
    ensures Chains(pending[h := e]) == Chains(pending)[h := multiset(e.path)]
  {
  }

  lemma SerialsPutMap(pending: map<nat, Entry>, h: nat, e: Entry)
    ensures Serials(pending[h := e]) == Serials(pending)[h := multiset{e.serial}]
  {
  }

  lemma ChainsTakeMap(pending: map<nat, Entry>, h: nat)
    ensures Chains(pending - {h}) == Chains(pending) - {h}
  {
  }

  lemma SerialsTakeMap(pending: map<nat, Entry>, h: nat)
    ensures Serials(pending - {h}) == Serials(pending) - {h}
  {
  }

  lemma ChainsPut(pending: map<nat, Entry>, h: nat, e: Entry, n: nat)
    requires h !in pending && h < n
    ensures Gathered(Chains(pending[h := e]), n) == Gathered(Chains(pending), n) + multiset(e.path)
  {
    ChainsPutMap(pending, h, e);
    GatheredPut(Chains(pending), h, multiset(e.path), n);
  }

  lemma SerialsPut(pending: map<nat, Entry>, h: nat, e: Entry, n: nat)
    requires h !in pending && h < n
    ensures Gathered(Serials(pending[h := e]), n) == Gathered(Serials(pending), n) + multiset{e.serial}
  {
    SerialsPutMap(pending, h, e);
    GatheredPut(Serials(pending), h, multiset{e.serial}, n);
  }

  lemma ChainsTake(pending: map<nat, Entry>, h: nat, n: nat)
    requires h in pending && h < n
    ensures Gathered(Chains(pending), n) == Gathered(Chains(pending - {h}), n) + multiset(pending[h].path)
  {
    ChainsTakeMap(pending, h);
    GatheredTake(Chains(pending), h, n);
  }

  lemma SerialsTake(pending: map<nat, Entry>, h: nat, n: nat)
    requires h in pending && h < n
    ensures Gathered(Serials(pending), n) == Gathered(Serials(pending - {h}), n) + multiset{pending[h].serial}
  {
    SerialsTakeMap(pending, h);
    GatheredTake(Serials(pending), h, n);
  }

  lemma OneLess(pending: map<nat, Entry>, h: nat)
    requires h in pending
    ensures |pending - {h}| == |pending| - 1
  {
    assert (pending - {h}).Keys == pending.Keys - {h};
  }

  lemma OneMore(pending: map<nat, Entry>, h: nat, e: Entry)
    requires h !in pending
    ensures |pending[h := e]| == |pending| + 1
  {
    assert pending[h := e].Keys == pending.Keys + {h};
  }

  lemma SubmitConservesDescriptors(num: nat, free: seq<nat>, pending: map<nat, Entry>, n: nat, e: Entry)
    requires DescriptorsConserved(num, free, pending)
    requires 1 <= n <= |free| && free[0] !in pending && free[0] < num && e.path == free[..n]
    ensures DescriptorsConserved(num, free[n..], pending[free[0] := e])
  {
    ChainsPut(pending, free[0], e, num);
    SplitMultiset(free, n);
    Move(multiset(free[..n]), multiset(free[n..]), Gathered(Chains(pending), num));
  }

  lemma SplitMultiset(s: seq<nat>, n: nat)
    requires n <= |s|
    ensures multiset(s) == multiset(s[..n]) + multiset(s[n..])
  {
    assert s == s[..n] + s[n..];
  }

  lemma SubmitConservesBuffers(q: Queue, h: nat, e: Entry)
    requires BuffersConserved(q.num, |q.log|, q.returned, q.withdrawn, q.pending)
    requires h !in q.pending && h < q.num && e.serial == |q.log|
    ensures BuffersConserved(q.num, |q.log| + 1, q.returned, q.withdrawn, q.pending[h := e])
  {
    SerialsPut(q.pending, h, e, q.num);
    var done := SerialsOf(q.returned) + SerialsOf(q.withdrawn);
    assert done + (Gathered(Serials(q.pending), q.num) + multiset{|q.log|})
        == (done + Gathered(Serials(q.pending), q.num)) + multiset{|q.log|};
  }

  /** The head of the free list is not in use. */
  lemma FreeHeadIsFree(q: Queue)
    requires DescriptorsConserved(q.num, q.free, q.pending) && EntriesOk(q.num, q.log, q.pending) && q.free != []
    ensures q.free[0] < q.num && q.free[0] !in q.pending
  {
    var h := q.free[0];
    FreeListCounts(q, h);
    if h in q.pending {
      assert EntryOk(q.num, q.log, h, q.pending[h]);
      ChainCounts(q, h, h);
    }
  }

  lemma SubmitSound(q: Queue, n: nat, token: Token, bufs: seq<Buf>, table: Option<Table>)
    requires Sound(q) && 1 <= n <= |q.free| && token != NULL
    requires table.None? ==> |bufs| == n
    requires table.Some? ==> n == 1 && 1 < |bufs| == |table.value.entries| <= 0x1_0000
    ensures Sound(Submit(q, n, token, bufs, table))
  {
    hide DescriptorsConserved, BuffersConserved;
    var q' := Submit(q, n, token, bufs, table);
    var h := q.free[0];
    var e := Entry(|q.log|, token, q.free[..n], bufs, table);
    FreeHeadIsFree(q);
    SubmitConservesDescriptors(q.num, q.free, q.pending, n, e);
    SubmitConservesBuffers(q, h, e);
    OneMore(q.pending, h, e);
    SubmitKeepsEntries(q, h, e);
  }

  lemma SubmitKeepsEntries(q: Queue, h: nat, e: Entry)
    requires EntriesOk(q.num, q.log, q.pending)
    requires var log' := q.log + [Submission(h, e.token)]; EntryOk(q.num, log', h, e)
    ensures EntriesOk(q.num, q.log + [Submission(h, e.token)], q.pending[h := e])
  {
    var log' := q.log + [Submission(h, e.token)];
    var pending' := q.pending[h := e];
    forall g | g in pending' ensures EntryOk(q.num, log', g, pending'[g]) {
      if g != h {
        assert EntryOk(q.num, q.log, g, q.pending[g]);
      }
    }
  }

  /** Notification state has no part in the accounting. */
  lemma NotificationsKeepSound(q: Queue, q': Queue)
    requires Sound(q) && q' == q.(kicked := q'.kicked, callbacks := q'.callbacks, usedEvent := q'.usedEvent)
    ensures Sound(q')
  {
  }

  lemma AddInv(q: Queue, sg: seq<Sg>, out: nat, token: Token, phys: Option<nat>)
    requires Inv(q) && MayAdd(q, |sg|, token, phys)
    ensures Inv(Add(q, sg, out, token, phys))
  {
    hide Sound;
    if HasRoom(q, |sg|, phys) {
      if GoesIndirect(q, |sg|, phys) {
        SubmitSound(q, 1, token, Bufs(sg, out), Some(Table(phys.value, TableEntries(sg, out))));
      } else {
        SubmitSound(q, |sg|, token, Bufs(sg, out), None);
      }
      var q' := Added(q, sg, out, token, phys);
      NotificationsKeepSound(q', Kick(q'));
    }
  }

  /** Taking an entry out leaves the others as they were. */
  lemma ReleaseKeepsEntries(num: nat, log: seq<Submission>, pending: map<nat, Entry>, head: nat)
    requires EntriesOk(num, log, pending)
    ensures EntriesOk(num, log, pending - {head})
  {
  }

  lemma ReleaseConservesDescriptors(q: Queue, head: nat)
    requires DescriptorsConserved(q.num, q.free, q.pending) && head in q.pending && head < q.num
    ensures DescriptorsConserved(q.num, q.pending[head].path + q.free, q.pending - {head})
  {
    ChainsTake(q.pending, head, q.num);
    Move(multiset(q.pending[head].path), Gathered(Chains(q.pending - {head}), q.num), multiset(q.free));
  }

  lemma SerialsOfAppend(done: seq<Completion>, c: Completion)
    ensures SerialsOf(done + [c]) == SerialsOf(done) + multiset{c.serial}
  {
    assert (done + [c])[..|done|] == done;
  }

  function CompletionOf(q: Queue, head: nat): Completion
    requires head in q.pending
  {
    Completion(q.pending[head].serial, head, q.pending[head].token)
  }

  lemma ReturnConservesBuffers(q: Queue, head: nat)
    requires BuffersConserved(q.num, |q.log|, q.returned, q.withdrawn, q.pending) && head in q.pending && head < q.num
    ensures BuffersConserved(q.num, |q.log|, q.returned + [CompletionOf(q, head)], q.withdrawn, q.pending - {head})
    ensures BuffersConserved(q.num, |q.log|, q.returned, q.withdrawn + [CompletionOf(q, head)], q.pending - {head})
  {
    SerialsTake(q.pending, head, q.num);
    SerialsOfAppend(q.returned, CompletionOf(q, head));
    SerialsOfAppend(q.withdrawn, CompletionOf(q, head));
    var one := multiset{q.pending[head].serial};
    var rest := Gathered(Serials(q.pending - {head}), q.num);
    assert (SerialsOf(q.returned) + one) + SerialsOf(q.withdrawn) + rest
        == SerialsOf(q.returned) + SerialsOf(q.withdrawn) + (rest + one);
    assert SerialsOf(q.returned) + (SerialsOf(q.withdrawn) + one) + rest
        == SerialsOf(q.returned) + SerialsOf(q.withdrawn) + (rest + one);
  }

  lemma PendingIsOk(q: Queue, h: nat)
    requires EntriesOk(q.num, q.log, q.pending) && h in q.pending
    ensures EntryOk(q.num, q.log, h, q.pending[h])
  {
  }

  lemma CompletionAppended(q: Queue, done: seq<Completion>, h: nat)
    requires EntriesOk(q.num, q.log, q.pending) && h in q.pending && CompletionsOk(q.log, done)
    ensures CompletionsOk(q.log, done + [CompletionOf(q, h)])
  {
    PendingIsOk(q, h);
  }

  /** Taking a pending buffer back, for the caller or at shutdown. */
  lemma TakenBackSound(q: Queue, h: nat)
    requires Sound(q) && h in q.pending
    ensures Sound(Release(q, h).(returned := q.returned + [CompletionOf(q, h)]))
    ensures Sound(Withdraw(q, h))
  {
    hide DescriptorsConserved, BuffersConserved, CompletionsOk, EntriesOk, RingSize;
    PendingIsOk(q, h);
    ReleaseConservesDescriptors(q, h);
    ReturnConservesBuffers(q, h);
    OneLess(q.pending, h);
    ReleaseKeepsEntries(q.num, q.log, q.pending, h);
    CompletionAppended(q, q.returned, h);
    CompletionAppended(q, q.withdrawn, h);
  }

  lemma GetInv(q: Queue, dev: DeviceView)
    requires Inv(q) && |dev.ring| == q.num
    ensures Inv(Get(q, dev))
  {
    hide Sound, Offered;
    SoundSize(q);
    var o := Offered(q, dev);
    if o.Some? {
      var h := o.value;
      OfferedIsPending(q, dev);
      TakenBackSound(q, h);
      NotificationsKeepSound(Release(q, h).(returned := q.returned + [CompletionOf(q, h)]), Get(q, dev));
    }
  }

  lemma OfferedIsPending(q: Queue, dev: DeviceView)
    requires |dev.ring| == q.num && q.num >= 1 && Offered(q, dev).Some?
    ensures Offered(q, dev).value in q.pending
  {
  }

  lemma SoundSize(q: Queue)
    requires Sound(q)
    ensures q.num >= 1
  {
  }

  lemma WithdrawInv(q: Queue, head: nat)
    requires Inv(q) && head in q.pending
    ensures Inv(Withdraw(q, head))
  {
    hide Sound;
    TakenBackSound(q, head);
  }
}
