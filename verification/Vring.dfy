/**
 The driver side of the split virtqueue as the source keeps it: arrays that are
 updated in place, a free list threaded through the descriptors and 16-bit
 shadows of the ring indices. Every operation is proved against QueueSpec.
 */
module Vring {
  import opened Options
  import opened Words
  import opened QueueSpec
  import opened ChainMeaning
  import opened QueueRuns

  const ENOSPC := 1
  const ZERO_DESC := Desc(0, 0, false, false, false, 0)

  /** The part of the ring that only the device writes. */
  class UsedRing {
    var noNotify: bool
    var idx: u16
    var availEvent: u16
    const ring: array<UsedElem>

    constructor (num: nat)
      ensures fresh(ring) && ring.Length == num
      ensures View() == DeviceView(0, false, 0, seq(num, i => UsedElem(0, 0)))
    {
      noNotify, idx, availEvent := false, 0, 0;
      ring := new UsedElem[num](_ => UsedElem(0, 0));
    }

    function View(): DeviceView
      reads this, ring
    {
      DeviceView(idx, noNotify, availEvent, ring[..])
    }

    /** Anything at all may be written here. */
    method Write(view: DeviceView)
      requires |view.ring| == ring.Length
      modifies this, ring
      ensures View() == view
    {
      noNotify, idx, availEvent := view.noNotify, view.idx, view.availEvent;
      for i := 0 to ring.Length
        modifies ring
        invariant ring[..i] == view.ring[..i]
      {
        ring[i] := view.ring[i];
      }
      assert ring[..] == view.ring;
    }
  }

  /** data[i] is the token of the entry headed by i, or NULL. */
  ghost predicate TokensMatch(data: seq<Token>, pending: map<nat, Entry>) {
    forall i :: 0 <= i < |data| ==> data[i] == if i in pending then pending[i].token else NULL
  }

  /** The arrays of an empty queue. */
  lemma NothingPending(desc: seq<Desc>, avail: seq<u16>, data: seq<Token>, num: nat)
    requires 1 <= num <= |avail| && forall k :: 0 <= k < |data| ==> data[k] == NULL
    ensures AllWritten(desc, map[]) && AvailMatches(avail, num, []) && TokensMatch(data, map[])
  {
  }

  /** The last num heads added stand in the avail ring, each in its slot. */
  ghost predicate AvailMatches(avail: seq<u16>, num: nat, log: seq<Submission>)
    requires 1 <= num <= |avail|
  {
    forall k {:trigger log[k]} :: 0 <= k < |log| && |log| - num <= k ==> avail[k % num] == log[k].head
  }

  ghost predicate AllWritten(desc: seq<Desc>, pending: map<nat, Entry>) {
    forall h {:trigger pending[h]} :: h in pending ==> Written(desc, pending[h])
  }

  lemma AvailAppend(avail: seq<u16>, avail': seq<u16>, num: nat, log: seq<Submission>, s: Submission)
    requires 1 <= num <= |avail| == |avail'| && AvailMatches(avail, num, log) && s.head < num <= 0x8000
    requires avail'[|log| % num] == s.head
    requires forall i :: 0 <= i < num && i != |log| % num ==> avail'[i] == avail[i]
    ensures AvailMatches(avail', num, log + [s])
  {
    var log' := log + [s];
    forall k | 0 <= k < |log'| && |log'| - num <= k ensures avail'[k % num] == log'[k].head {
      if k < |log| {
        SlotsDiffer(k, |log|, num);
        assert log'[k] == log[k];
      }
    }
  }

  /** The event index behind the ring is not one of its slots. */
  lemma AvailFrame(avail: seq<u16>, num: nat, log: seq<Submission>, event: u16)
    requires 1 <= num < |avail| && AvailMatches(avail, num, log)
    ensures AvailMatches(avail[num := event], num, log)
  {
  }

  /** Two counters less than num apart use different slots. */
  lemma SlotsDiffer(j: nat, k: nat, num: nat)
    requires j < k < j + num
    ensures j % num != k % num
  {
    if j % num == k % num {
      var a, b := k / num, j / num;
      assert k - j == num * a - num * b;
      if a > b {
        Distribute(num, a, b);
      } else if a < b {
        Distribute(num, b, a);
      }
    }
  }

  predicate Distinct(s: seq<nat>) {
    forall i, j :: 0 <= i < j < |s| ==> s[i] != s[j]
  }

  /** One entry of an indirect table before the chain is ended. */
  function TableEntry(sg: seq<Sg>, out: nat, k: nat): Desc
    requires k < |sg|
  {
    Desc(sg[k].addr, sg[k].len, true, k >= out, false, Wrap16(Wrap16(k) + 1))
  }

  /** The descriptor table after k buffers were written along the free list. */
  ghost function Filled(before: seq<Desc>, free: seq<nat>, sg: seq<Sg>, out: nat, k: nat): (d: seq<Desc>)
    requires k <= |sg| && k <= |free| && forall j :: 0 <= j < |free| ==> free[j] < |before|
    ensures |d| == |before|
  {
    if k == 0 then before
    else
      var d := Filled(before, free, sg, out, k - 1);
      d[free[k - 1] := Desc(sg[k - 1].addr, sg[k - 1].len, true, k - 1 >= out, false, d[free[k - 1]].next)]
  }

  /** The descriptor table after the whole chain was written and ended. */
  ghost function Chained(before: seq<Desc>, free: seq<nat>, sg: seq<Sg>, out: nat): (d: seq<Desc>)
    requires 1 <= |sg| <= |free| && forall j :: 0 <= j < |free| ==> free[j] < |before|
    ensures |d| == |before|
  {
    var d := Filled(before, free, sg, out, |sg|);
    d[free[|sg| - 1] := d[free[|sg| - 1]].(hasNext := false)]
  }

  lemma {:induction false} FilledKeepsNext(before: seq<Desc>, free: seq<nat>, sg: seq<Sg>, out: nat, k: nat)
    requires k <= |sg| && k <= |free| && forall j :: 0 <= j < |free| ==> free[j] < |before|
    ensures forall d :: 0 <= d < |before| ==> Filled(before, free, sg, out, k)[d].next == before[d].next
  {
    if k > 0 {
      FilledKeepsNext(before, free, sg, out, k - 1);
    }
  }

  /** The free list as initialize_virtqueue threads it. */
  lemma ThreadedIsFree(desc: seq<Desc>, num: nat)
    requires 1 <= num == |desc| && forall k :: 0 <= k < num - 1 ==> desc[k].next == k + 1
    ensures FreeLinked(desc, Initial(num).free, 0)
  {
    var free := Initial(num).free;
    forall k | 0 <= k < num - 1 ensures desc[free[k]].next == free[k + 1] {
      assert free[k] == k && free[k + 1] == k + 1;
    }
    assert free[0] == 0;
  }

  lemma {:induction false} FilledOutside(before: seq<Desc>, free: seq<nat>, sg: seq<Sg>, out: nat, k: nat)
    requires k <= |sg| && k <= |free| && forall j :: 0 <= j < |free| ==> free[j] < |before|
    ensures forall d :: 0 <= d < |before| && d !in free[..k] ==> Filled(before, free, sg, out, k)[d] == before[d]
  {
    if k > 0 {
      FilledOutside(before, free, sg, out, k - 1);
      assert free[..k] == free[..k - 1] + [free[k - 1]];
    }
  }

  lemma {:induction false} FilledInside(before: seq<Desc>, free: seq<nat>, sg: seq<Sg>, out: nat, k: nat)
    requires k <= |sg| && k <= |free| && forall j :: 0 <= j < |free| ==> free[j] < |before|
    requires Distinct(free)
    ensures forall j :: 0 <= j < k ==>
      Filled(before, free, sg, out, k)[free[j]]
      == Desc(sg[j].addr, sg[j].len, true, j >= out, false, before[free[j]].next)
  {
    if k > 0 {
      FilledInside(before, free, sg, out, k - 1);
      FilledKeepsNext(before, free, sg, out, k - 1);
    }
  }

  /** The new chain carries the buffers of the caller. */
  lemma ChainedWritten(before: seq<Desc>, free: seq<nat>, head: nat, sg: seq<Sg>, out: nat, e: Entry)
    requires FreeLinked(before, free, head) && Distinct(free) && 1 <= |sg| <= |free|
    requires e.path == free[..|sg|] && e.bufs == Bufs(sg, out) && e.table == None
    ensures Written(Chained(before, free, sg, out), e)
  {
    FilledInside(before, free, sg, out, |sg|);
  }

  /** What stands in the descriptors of the new chain. */
  lemma ChainedInside(before: seq<Desc>, free: seq<nat>, sg: seq<Sg>, out: nat)
    requires 1 <= |sg| <= |free| && Distinct(free) && forall j :: 0 <= j < |free| ==> free[j] < |before|
    ensures forall k :: 0 <= k < |sg| ==>
      Chained(before, free, sg, out)[free[k]]
      == Desc(sg[k].addr, sg[k].len, k < |sg| - 1, k >= out, false, before[free[k]].next)
  {
    FilledInside(before, free, sg, out, |sg|);
  }

  lemma ChainedOutside(before: seq<Desc>, free: seq<nat>, sg: seq<Sg>, out: nat)
    requires 1 <= |sg| <= |free| && forall j :: 0 <= j < |free| ==> free[j] < |before|
    ensures var after := Chained(before, free, sg, out);
      && (forall d :: 0 <= d < |before| ==> after[d].next == before[d].next)
      && (forall d :: 0 <= d < |before| && d !in free[..|sg|] ==> after[d] == before[d])
  {
    FilledKeepsNext(before, free, sg, out, |sg|);
    FilledOutside(before, free, sg, out, |sg|);
    assert free[|sg| - 1] == free[..|sg|][|sg| - 1];
  }

  /** The delayed event index lies three quarters of the pending buffers ahead. */
  lemma ThreeQuarters(q: Queue)
    requires Inv(q)
    ensures DelayedBufs(Wrap16(|q.log| - |q.withdrawn|), Wrap16(|q.returned|)) == 3 * |q.pending| / 4
  {
    hide DescriptorsConserved, BuffersConserved, EntriesOk, CompletionsOk, Wrap16, DelayedBufs;
    IndexDistance(q);
    PendingAtMostNum(q);
    QuartersOf(Wrap16(|q.log| - |q.withdrawn|), Wrap16(|q.returned|), |q.pending|);
  }

  lemma QuartersOf(avail: u16, lastUsed: u16, n: nat)
    requires Wrap16(avail - lastUsed) == n <= 0x8000
    ensures DelayedBufs(avail, lastUsed) == 3 * n / 4
  {
    hide Wrap16;
    WrapSmall(n * 3 / 4);
  }

  lemma SoundIsPartitioned(q: Queue)
    requires Sound(q)
    ensures HeadsInRange(q) && Partitioned(q) && Distinct(q.free)
  {
    forall h | h in q.pending ensures EntryOk(q.num, q.log, h, q.pending[h]) {}
    InvPartitions(q);
  }

  /** Writing into free descriptors leaves every pending chain as it was. */
  lemma OthersStayWritten(before: seq<Desc>, after: seq<Desc>, q: Queue, n: nat, e: Entry)
    requires Partitioned(q) && AllWritten(before, q.pending) && 1 <= n <= |q.free| && |after| == |before|
    requires forall d :: 0 <= d < |before| && d !in q.free[..n] ==> after[d] == before[d]
    requires Written(after, e)
    ensures AllWritten(after, q.pending[q.free[0] := e])
  {
    forall h | h in q.pending ensures Written(after, q.pending[h]) {
      assert ChainDistinct(q, h);
      WrittenFrame(before, after, q.pending[h]);
    }
  }

  /** The rest of the free list is threaded as before. */
  lemma RestStaysLinked(before: seq<Desc>, after: seq<Desc>, free: seq<nat>, head: nat, n: nat)
    requires FreeLinked(before, free, head) && 1 <= n <= |free| && |after| == |before|
    requires forall d :: 0 <= d < |before| ==> after[d].next == before[d].next
    ensures FreeLinked(after, free[n..], before[free[n - 1]].next)
  {
    var rest := free[n..];
    forall k | 0 <= k < |rest| - 1 ensures after[rest[k]].next == rest[k + 1] {
      assert rest[k] == free[n + k] && rest[k + 1] == free[n + k + 1];
    }
    if rest != [] {
      assert before[free[n - 1]].next == free[n];
    }
  }

  lemma TokenPut(data: seq<Token>, pending: map<nat, Entry>, h: nat, e: Entry)
    requires TokensMatch(data, pending) && h < |data|
    ensures TokensMatch(data[h := e.token], pending[h := e])
  {
  }

  /** An indirect table chains the whole list in order, readable buffers first, and ends it. */
  lemma TableEntriesAre(sg: seq<Sg>, out: nat)
    requires |sg| <= 0x1_0000
    ensures forall k :: 0 <= k < |sg| ==>
      TableEntries(sg, out)[k]
      == Desc(sg[k].addr, sg[k].len, k < |sg| - 1, k >= out, false, if k < |sg| - 1 then k + 1 else 0)
  {
    hide Wrap16;
    forall k | 0 <= k < |sg| - 1 ensures Wrap16(Wrap16(k) + 1) == k + 1 {
      WrapSmall(k);
      WrapSmall(k + 1);
    }
  }

  /** The one descriptor that points to an indirect table. */
  lemma IndirectWritten(before: seq<Desc>, free: seq<nat>, head: nat, sg: seq<Sg>, out: nat, phys: nat, e: Entry)
    requires FreeLinked(before, free, head) && free != [] && 1 < |sg| <= 0x1_0000
    requires e.path == free[..1] && e.bufs == Bufs(sg, out) && e.table == Some(Table(phys, TableEntries(sg, out)))
    ensures Written(before[head := Desc(phys, DESC_BYTES * |sg|, false, false, true, before[head].next)], e)
  {
    TableEntriesWritten(sg, out);
  }

  /** The effect of the direct form on the free list and the chains. */
  lemma DirectSubmitted(before: seq<Desc>, q: Queue, freeHead: nat, sg: seq<Sg>, out: nat, token: Token)
    requires Sound(q) && FreeLinked(before, q.free, freeHead) && AllWritten(before, q.pending)
    requires out <= |sg| && 1 <= |sg| <= |q.free| && token != NULL
    ensures var r := Submit(q, |sg|, token, Bufs(sg, out), None);
      var after := Chained(before, q.free, sg, out);
      && Distinct(q.free) && freeHead == q.free[0] && freeHead < q.num
      && Sound(r) && FreeLinked(after, r.free, before[q.free[|sg| - 1]].next) && AllWritten(after, r.pending)
  {
    hide Sound, Chained, Written, Partitioned, AllWritten, Bufs;
    SubmitSound(q, |sg|, token, Bufs(sg, out), None);
    SoundIsPartitioned(q);
    var e := Entry(|q.log|, token, q.free[..|sg|], Bufs(sg, out), None);
    var after := Chained(before, q.free, sg, out);
    ChainedOutside(before, q.free, sg, out);
    ChainedWritten(before, q.free, freeHead, sg, out, e);
    OthersStayWritten(before, after, q, |sg|, e);
    RestStaysLinked(before, after, q.free, freeHead, |sg|);
  }

  /** The effect of the indirect form on the free list and the chains. */
  lemma IndirectSubmitted(before: seq<Desc>, q: Queue, freeHead: nat, sg: seq<Sg>, out: nat, token: Token, phys: nat)
    requires Sound(q) && FreeLinked(before, q.free, freeHead) && AllWritten(before, q.pending)
    requires out <= |sg| && 1 < |sg| <= 0x1_0000 && q.free != [] && token != NULL
    ensures freeHead == q.free[0] && freeHead < q.num && freeHead < |before|
    ensures var r := Submit(q, 1, token, Bufs(sg, out), Some(Table(phys, TableEntries(sg, out))));
      var after := before[freeHead := Desc(phys, DESC_BYTES * |sg|, false, false, true, before[freeHead].next)];
      && Sound(r) && FreeLinked(after, r.free, before[freeHead].next) && AllWritten(after, r.pending)
  {
    var t := Some(Table(phys, TableEntries(sg, out)));
    hide Sound, Written, Partitioned, AllWritten, Bufs, TableEntries;
    SubmitSound(q, 1, token, Bufs(sg, out), t);
    SoundIsPartitioned(q);
    var e := Entry(|q.log|, token, q.free[..1], Bufs(sg, out), t);
    var after := before[freeHead := Desc(phys, DESC_BYTES * |sg|, false, false, true, before[freeHead].next)];
    IndirectWritten(before, q.free, freeHead, sg, out, phys, e);
    assert q.free[0] == q.free[..1][0];
    OthersStayWritten(before, after, q, 1, e);
    RestStaysLinked(before, after, q.free, freeHead, 1);
  }

  /** detach_buf ends the chain at the old free list. */
  lemma DetachedFree(before: seq<Desc>, q: Queue, head: nat, freeHead: nat)
    requires Partitioned(q) && FreeLinked(before, q.free, freeHead) && head in q.pending && |before| == q.num <= 0x8000
    requires Written(before, q.pending[head]) && q.pending[head].path != [] && q.pending[head].path[0] == head
    ensures var path := q.pending[head].path;
      var last := path[|path| - 1];
      FreeLinked(before[last := before[last].(next := Wrap16(freeHead))], path + q.free, head)
  {
    var path := q.pending[head].path;
    var last := path[|path| - 1];
    var after := before[last := before[last].(next := Wrap16(freeHead))];
    var all := path + q.free;
    assert ChainDistinct(q, head);
    hide Partitioned, ChainDistinct;
    forall k | 0 <= k < |all| - 1 ensures after[all[k]].next == all[k + 1] {
      if k < |path| - 1 {
        assert all[k] == path[k] && all[k + 1] == path[k + 1];
      } else if k == |path| - 1 {
        assert all[k + 1] == q.free[0];
      } else {
        var j := k - |path|;
        assert all[k] == q.free[j] && all[k + 1] == q.free[j + 1];
      }
    }
  }

  lemma DetachedOthers(before: seq<Desc>, after: seq<Desc>, q: Queue, head: nat, last: nat)
    requires Partitioned(q) && AllWritten(before, q.pending) && head in q.pending && last in q.pending[head].path
    requires |after| == |before| && forall d :: 0 <= d < |before| && d != last ==> after[d] == before[d]
    ensures AllWritten(after, q.pending - {head})
  {
    forall h | h in q.pending - {head} ensures Written(after, q.pending[h]) {
      WrittenFrame(before, after, q.pending[h]);
    }
  }

  /** One detached buffer: the pending one with the least head. */
  ghost predicate Withdrawn(q: Queue, q': Queue, token: Token) {
    var h := FirstPending(q, 0, q.num);
    h < q.num && token == q.pending[h].token != NULL && q' == Withdraw(q, h)
  }

  lemma WithdrawnDrains(q: Queue, q': Queue, token: Token)
    requires Inv(q) && Withdrawn(q, q', token)
    ensures Drain(q) == Drain(q') && |q'.pending| < |q.pending|
    ensures TokensOf(PendingFrom(q, 0)) == [token] + TokensOf(PendingFrom(q', 0))
  {
    hide PendingFrom, Inv;
    var h := FirstPending(q, 0, q.num);
    WithdrawTakesFirst(q, h);
    OneLess(q.pending, h);
    TokensJoin(CompletionOf(q, h), PendingFrom(q', 0));
  }

  lemma TokensJoin(c: Completion, rest: seq<Completion>)
    ensures TokensOf([c] + rest) == [c.token] + TokensOf(rest)
  {
  }

  lemma NothingDrains(q: Queue)
    requires q.pending == map[]
    ensures Drain(q) == q && TokensOf(PendingFrom(q, 0)) == []
  {
    PendingFromFirst(q, 0, q.num);
  }

  /** Some head is pending exactly when a search from 0 finds one. */
  lemma SomePending(q: Queue)
    requires Sound(q)
    ensures FirstPending(q, 0, q.num) == q.num <==> q.pending == map[]
  {
    SoundIsPartitioned(q);
    if q.pending != map[] {
      var h :| h in q.pending;
    }
  }

  function TokensOf(done: seq<Completion>): seq<Token> {
    seq(|done|, i requires 0 <= i < |done| => done[i].token)
  }

  /** A non-NULL token marks a head. */
  lemma TokenIsPending(data: seq<Token>, q: Queue, i: nat)
    requires TokensMatch(data, q.pending) && Sound(q) && i < |data|
    ensures data[i] != NULL <==> i in q.pending
    ensures i in q.pending ==> data[i] == q.pending[i].token
  {
    if i in q.pending {
      assert EntryOk(q.num, q.log, i, q.pending[i]);
    }
  }

  /** A chain that ends exactly at the end of the path. */
  ghost predicate PathEnds(desc: seq<Desc>, path: seq<nat>) {
    && path != []
    && (forall k :: 0 <= k < |path| ==> path[k] < |desc| && desc[path[k]].hasNext == (k < |path| - 1))
    && (forall k :: 0 <= k < |path| - 1 ==> desc[path[k]].next == path[k + 1])
  }

  lemma WrittenEnds(desc: seq<Desc>, e: Entry)
    requires Written(desc, e) && e.path != []
    ensures PathEnds(desc, e.path)
  {
    if e.table.None? {
      forall k | 0 <= k < |e.path| ensures desc[e.path[k]].hasNext == (k < |e.path| - 1) {
        assert Carries(desc[e.path[k]], e.bufs[k], k < |e.path| - 1);
      }
    }
  }

  /** What the last link of detach_buf does to the free list and the chains. */
  lemma Detached(before: seq<Desc>, q: Queue, head: nat, freeHead: nat)
    requires Sound(q) && FreeLinked(before, q.free, freeHead) && AllWritten(before, q.pending)
    requires head in q.pending && |before| == q.num
    ensures var e := q.pending[head];
      && e.path != [] && e.path[0] == head && PathEnds(before, e.path)
      && var last := e.path[|e.path| - 1];
      && last < q.num
      && var after := before[last := before[last].(next := Wrap16(freeHead))];
      && FreeLinked(after, e.path + q.free, head) && AllWritten(after, q.pending - {head})
  {
    SoundIsPartitioned(q);
    var e := q.pending[head];
    assert EntryOk(q.num, q.log, head, e);
    WrittenEnds(before, e);
    var last := e.path[|e.path| - 1];
    DetachedFree(before, q, head, freeHead);
    DetachedOthers(before, before[last := before[last].(next := Wrap16(freeHead))], q, head, last);
  }

  lemma TokenTake(data: seq<Token>, pending: map<nat, Entry>, h: nat)
    requires TokensMatch(data, pending) && h < |data|
    ensures TokensMatch(data[h := NULL], pending - {h})
  {
  }

  /** The indirect argument of virtqueue_add_buf. */
  function PhysOf(va: array?<Desc>, phys: nat): Option<nat> {
    if va == null then None else Some(phys)
  }

  class Virtqueue {
    const num: nat
    const event: bool            // publish and honour event indices
    const desc: array<Desc>
    const avail: array<u16>      // avail->ring, with used_event at index num
    const data: array<Token>
    const used: UsedRing
    var availIdx: u16            // avail->idx
    var availNoInterrupt: bool   // avail->flags
    var numFree: nat
    var freeHead: nat
    var numAdded: nat
    var lastUsedIdx: u16
    var noInterruptShadow: bool
    var availIdxShadow: u16
    var notifications: nat       // calls of the notify callback
    ghost var q: Queue

    ghost predicate Shape() {
      && RingSize(num)
      && desc.Length == num && data.Length == num && avail.Length == num + 1 && used.ring.Length == num
      && avail as object != data as object
      && used.ring as object != avail as object && used.ring as object != data as object
      && used.ring as object != desc as object
    }

    /** The descriptor table holds the free list and the chains of r. */
    ghost predicate DescTied(r: Queue)
      reads this, desc
    {
      && numFree == |r.free|
      && FreeLinked(desc[..], r.free, freeHead)
      && AllWritten(desc[..], r.pending)
    }

    /** The avail ring and all indices are those of r. */
    ghost predicate RingTied(r: Queue)
      requires 1 <= num < avail.Length
      reads this, avail
    {
      && (r.withdrawn == [] ==> AvailMatches(avail[..], num, r.log))
      && avail[num] == r.usedEvent
      && availIdxShadow == Wrap16(|r.log| - |r.withdrawn|) && availIdx == availIdxShadow
      && lastUsedIdx == Wrap16(|r.returned|)
      && numAdded == |r.log| - r.kicked
      && noInterruptShadow == !r.callbacks && availNoInterrupt == noInterruptShadow
    }

    /** The arrays and indices represent q. */
    ghost predicate Tied()
      reads this, desc, avail, data
    {
      && Shape() && Sound(q) && q.num == num
      && DescTied(q) && RingTied(q) && TokensMatch(data[..], q.pending)
    }

    ghost predicate Valid()
      reads this, desc, avail, data
    {
      Tied() && Inv(q)
    }

    /**
     vring_new_virtqueue on zeroed memory, for a size of 16 bits that is not 0;
     null unless it is a power of two.
     */
    static method New(num: u16, event: bool) returns (vq: Virtqueue?)
      requires num >= 1
      ensures vq != null <==> IsPow2(num)
      ensures vq != null ==> fresh(vq) && vq.Valid() && vq.num == num && vq.event == event && vq.q == Initial(num)
      ensures vq != null ==>
        fresh(vq.desc) && fresh(vq.avail) && fresh(vq.data) && fresh(vq.used) && fresh(vq.used.ring)
      ensures vq != null ==> vq.notifications == 0
      ensures vq != null ==> vq.numFree == num && vq.freeHead == vq.numAdded == vq.availIdx == vq.lastUsedIdx == 0
      ensures vq != null ==> !vq.noInterruptShadow && !vq.availNoInterrupt && vq.avail[num] == 0
      ensures vq != null ==>
        forall k :: 0 <= k < num ==> vq.data[k] == NULL && (k < num - 1 ==> vq.desc[k].next == k + 1)
    {
      PowerOfTwoTestExact(num);
      if !PassesPowerOfTwoTest(num) {
        return null;
      }
      Pow2Below(num);
      vq := new Virtqueue(num, event);
    }

    constructor (num: nat, event: bool)
      requires RingSize(num)
      ensures Valid() && this.num == num && this.event == event && q == Initial(num)
      ensures fresh(desc) && fresh(avail) && fresh(data) && fresh(used) && fresh(used.ring)
      ensures notifications == 0
      ensures numFree == num && freeHead == numAdded == availIdx == lastUsedIdx == 0
      ensures !noInterruptShadow && !availNoInterrupt && avail[num] == 0
      ensures forall k :: 0 <= k < num ==> data[k] == NULL && (k < num - 1 ==> desc[k].next == k + 1)
    {
      this.num, this.event := num, event;
      desc := new Desc[num](_ => ZERO_DESC);
      avail := new u16[num + 1](_ => 0);
      data := new Token[num];
      used := new UsedRing(num);
      availIdx, availNoInterrupt := 0, false;
      notifications := 0;
      numFree, freeHead, numAdded, lastUsedIdx := 0, 0, 0, 0;
      noInterruptShadow, availIdxShadow := false, 0;
      q := Initial(num);
      new;
      Initialize();
    }

    /** The loop of initialize_virtqueue: everything on the free list, no tokens. */
    method ThreadFreeList()
      requires 1 <= num <= 0x8000 && desc.Length == num == data.Length
      modifies desc, data
      ensures forall k :: 0 <= k < num - 1 ==> desc[k].next == k + 1
      ensures forall k :: 0 <= k < num ==> data[k] == NULL
    {
      for i := 0 to num - 1
        invariant forall k :: 0 <= k < i ==> desc[k].next == k + 1 && data[k] == NULL
      {
        desc[i] := desc[i].(next := i + 1);
        data[i] := NULL;
      }
      data[num - 1] := NULL;
    }

    /** initialize_virtqueue, after the pages were cleared. */
    method Initialize()
      requires Shape() && avail[num] == 0 && availIdx == 0 && !availNoInterrupt
      modifies this, desc, data
      ensures Valid() && q == Initial(num)
      ensures availIdx == old(availIdx) && availNoInterrupt == old(availNoInterrupt)
      ensures notifications == old(notifications)
      ensures numFree == num && freeHead == numAdded == lastUsedIdx == 0 && !noInterruptShadow
      ensures forall k :: 0 <= k < num ==> data[k] == NULL && (k < num - 1 ==> desc[k].next == k + 1)
    {
      hide Sound, FreeLinked, AllWritten, AvailMatches, TokensMatch;
      lastUsedIdx, noInterruptShadow, availIdxShadow, numAdded := 0, false, 0, 0;
      numFree, freeHead := num, 0;
      ThreadFreeList();
      q := Initial(num);
      InitialInv(num);
      ThreadedIsFree(desc[..], num);
      NothingPending(desc[..], avail[..], data[..], num);
      assert DescTied(q);
      assert RingTied(q);
    }

    /** virtqueue_notify. */
    method Notify()
      modifies this`notifications
      ensures notifications == old(notifications) + 1
    {
      notifications := notifications + 1;
    }

    // ------------------------------------------------------------- adding

    /** Fill the first descriptors of the free list with the buffers and end the chain there. */
    method WriteChain(sg: seq<Sg>, out: nat, ghost free: seq<nat>)
      requires FreeLinked(desc[..], free, freeHead) && Distinct(free)
      requires out <= |sg| && 1 <= |sg| <= |free|
      modifies this`freeHead, desc
      ensures desc[..] == Chained(old(desc[..]), free, sg, out)
      ensures freeHead == old(desc[free[|sg| - 1]].next)
    {
      ghost var before := desc[..];
      var i, prev, k := freeHead, 0, 0;
      while k < out
        invariant 0 <= k <= out
        invariant k < |free| ==> i == free[k]
        invariant k > 0 ==> prev == free[k - 1] && i == before[prev].next
        invariant desc[..] == Filled(before, free, sg, out, k)
      {
        FilledKeepsNext(before, free, sg, out, k);
        desc[i] := Desc(sg[k].addr, sg[k].len, true, false, false, desc[i].next);
        prev := i;
        i := desc[i].next;
        k := k + 1;
      }
      while k < |sg|
        invariant out <= k <= |sg|
        invariant k < |free| ==> i == free[k]
        invariant k > 0 ==> prev == free[k - 1] && i == before[prev].next
        invariant desc[..] == Filled(before, free, sg, out, k)
      {
        FilledKeepsNext(before, free, sg, out, k);
        desc[i] := Desc(sg[k].addr, sg[k].len, true, true, false, desc[i].next);
        prev := i;
        i := desc[i].next;
        k := k + 1;
      }
      desc[prev] := desc[prev].(hasNext := false);
      freeHead := i;
    }

    /** The loops of vring_add_indirect over the indirect page. */
    static method WriteTable(sg: seq<Sg>, out: nat, va: array<Desc>)
      requires out <= |sg| && 1 < |sg| <= 0x1_0000 && |sg| <= va.Length
      modifies va
      ensures va[..|sg|] == TableEntries(sg, out)
      ensures forall k :: |sg| <= k < va.Length ==> va[k] == old(va[k])
    {
      hide Wrap16;
      var i := 0;
      while i < out
        invariant 0 <= i <= out
        invariant forall k :: 0 <= k < i ==> va[k] == TableEntry(sg, out, k)
        invariant forall k :: |sg| <= k < va.Length ==> va[k] == old(va[k])
      {
        va[i] := Desc(sg[i].addr, sg[i].len, true, false, false, Wrap16(Wrap16(i) + 1));
        i := i + 1;
      }
      while i < |sg|
        invariant out <= i <= |sg|
        invariant forall k :: 0 <= k < i ==> va[k] == TableEntry(sg, out, k)
        invariant forall k :: |sg| <= k < va.Length ==> va[k] == old(va[k])
      {
        va[i] := Desc(sg[i].addr, sg[i].len, true, true, false, Wrap16(Wrap16(i) + 1));
        i := i + 1;
      }
      va[i - 1] := va[i - 1].(hasNext := false, next := 0);
      forall k | 0 <= k < |sg| ensures va[k] == TableEntries(sg, out)[k] {
        if k < |sg| - 1 {
          assert va[k] == TableEntry(sg, out, k);
        }
      }
    }

    /** vring_add_indirect. */
    method AddIndirect(sg: seq<Sg>, out: nat, va: array<Desc>, phys: nat) returns (head: nat)
      requires freeHead < desc.Length && numFree >= 1
      requires out <= |sg| && 1 < |sg| <= 0x1_0000 && |sg| <= va.Length && va != desc
      modifies this`freeHead, this`numFree, desc, va
      ensures head == old(freeHead)
      ensures va[..|sg|] == TableEntries(sg, out)
      ensures forall k :: 0 <= k < |sg| ==>
        va[k] == Desc(sg[k].addr, sg[k].len, k < |sg| - 1, k >= out, false, if k < |sg| - 1 then k + 1 else 0)
      ensures forall k :: |sg| <= k < va.Length ==> va[k] == old(va[k])
      ensures desc[..] == old(desc[..])[head := Desc(phys, 16 * |sg|, false, false, true, old(desc[freeHead].next))]
      ensures numFree == old(numFree) - 1 && freeHead == old(desc[freeHead].next)
    {
      hide TableEntries;
      TableEntriesAre(sg, out);
      WriteTable(sg, out, va);
      assert forall k :: 0 <= k < |sg| ==> va[k] == va[..|sg|][k];
      numFree := numFree - 1;
      head := freeHead;
      desc[head] := Desc(phys, DESC_BYTES * |sg|, false, false, true, desc[head].next);
      freeHead := desc[head].next;
    }
  
    /** The part of virtqueue_add_buf after the label add_head, but for the forced kick. */
    method Publish(head: nat, token: Token, ghost r: Queue)
      requires Shape() && Sound(q) && q.num == num && RingTied(q) && TokensMatch(data[..], q.pending)
      requires q.withdrawn == []
      requires head < num && head in r.pending && r.pending[head].token == token
      requires r == q.(free := r.free, pending := q.pending[head := r.pending[head]],
                       log := q.log + [Submission(head, token)])
      requires Sound(r) && DescTied(r)
      modifies this`availIdxShadow, this`availIdx, this`numAdded, this`q, avail, data
      ensures Tied() && q == r
      ensures availIdx == (old(availIdx) + 1) % 0x1_0000 && numAdded == old(numAdded) + 1
      ensures avail[..] == old(avail[..])[old(availIdx) % num := head] && data[..] == old(data[..])[head := token]
    {
      hide Sound, FreeLinked, AllWritten;
      ghost var log, pending, before := q.log, q.pending, avail[..];
      assert Wrap16(|log|) == availIdxShadow;
      SlotOfCounter(|log|, num);
      TokenPut(data[..], pending, head, r.pending[head]);
      data[head] := token;
      var slot := And(availIdxShadow, num - 1);
      avail[slot] := head;
      AvailAppend(before, avail[..], num, log, Submission(head, token));
      WrapNext(|log|);
      availIdxShadow := Wrap16(availIdxShadow + 1);
      availIdx := availIdxShadow;
      numAdded := numAdded + 1;
      assert avail[num] == before[num];
      q := r;
      assert RingTied(q);
    }
  
    /** All that follows the label add_head. */
    method AddHead(head: nat, token: Token, ghost r: Queue)
      requires Shape() && Inv(q) && q.num == num && RingTied(q) && TokensMatch(data[..], q.pending)
      requires q.withdrawn == []
      requires head < num && head in r.pending && r.pending[head].token == token
      requires r == q.(free := r.free, pending := q.pending[head := r.pending[head]],
                       log := q.log + [Submission(head, token)])
      requires Sound(r) && DescTied(r)
      modifies this`availIdxShadow, this`availIdx, this`numAdded, this`notifications, this`q, avail, data
      ensures Valid() && q == if ForcesKick(r) then QueueSpec.Kick(r) else r
      ensures availIdx == (old(availIdx) + 1) % 0x1_0000
      ensures numAdded == if old(numAdded) + 1 == 0xFFFF then 0 else old(numAdded) + 1
      ensures avail[..] == old(avail[..])[old(availIdx) % num := head] && data[..] == old(data[..])[head := token]
      ensures
        var kicks := old(numAdded) + 1 == 0xFFFF
                     && if event then (availIdx - used.availEvent - 1) % 0x1_0000 < 0xFFFF else !used.noNotify;
        notifications == old(notifications) + if kicks then 1 else 0
    {
      hide Sound, FreeLinked, AllWritten, AvailMatches, TokensMatch;
      Publish(head, token, r);
      if numAdded == 0xFFFF {
        Kick();
      }
    }

    /** The direct form: the chain is written along the free list. */
    method TakeDirect(sg: seq<Sg>, out: nat, token: Token) returns (head: nat, ghost r: Queue)
      requires Tied() && out <= |sg| && 1 <= |sg| <= numFree && token != NULL
      modifies this`numFree, this`freeHead, desc
      ensures r == Submit(q, |sg|, token, Bufs(sg, out), None) && Sound(r) && DescTied(r)
      ensures head == q.free[0] && head < num
      ensures head == old(freeHead) && numFree == old(numFree) - |sg|
      ensures forall k :: 0 <= k < |q.free| ==> q.free[k] < desc.Length
      ensures forall k :: 0 <= k < |sg| ==>
        desc[q.free[k]] == Desc(sg[k].addr, sg[k].len, k < |sg| - 1, k >= out, false, old(desc[..])[q.free[k]].next)
      ensures forall d :: 0 <= d < desc.Length && d !in q.free[..|sg|] ==> desc[d] == old(desc[d])
    {
      hide Sound, Chained, AllWritten, AvailMatches, TokensMatch, Bufs;
      ghost var before := desc[..];
      assert forall j :: 0 <= j < |q.free| ==> q.free[j] < |before|;
      r := Submit(q, |sg|, token, Bufs(sg, out), None);
      DirectSubmitted(before, q, freeHead, sg, out, token);
      numFree := numFree - |sg|;
      head := freeHead;
      WriteChain(sg, out, q.free);
      ChainedOutside(before, q.free, sg, out);
      ChainedInside(before, q.free, sg, out);
      assert freeHead == before[q.free[|sg| - 1]].next;
      assert desc[..] == Chained(before, q.free, sg, out);
    }
  
    /** The indirect form: one descriptor that points to a table. */
    method TakeIndirect(sg: seq<Sg>, out: nat, token: Token, va: array<Desc>, phys: nat)
      returns (head: nat, ghost r: Queue)
      requires Tied() && out <= |sg| && 1 < |sg| <= 0x1_0000 && numFree > 0 && token != NULL
      requires |sg| <= va.Length && va != desc
      modifies this`numFree, this`freeHead, desc, va
      ensures r == Submit(q, 1, token, Bufs(sg, out), Some(Table(phys, TableEntries(sg, out)))) && Sound(r)
      ensures DescTied(r)
      ensures head == q.free[0] && head < num
      ensures head == old(freeHead) && numFree == old(numFree) - 1
      ensures va[..|sg|] == TableEntries(sg, out)
      ensures forall k :: 0 <= k < |sg| ==>
        va[k] == Desc(sg[k].addr, sg[k].len, k < |sg| - 1, k >= out, false, if k < |sg| - 1 then k + 1 else 0)
      ensures desc[..] == old(desc[..])[head := Desc(phys, 16 * |sg|, false, false, true, old(desc[..])[head].next)]
      ensures forall k :: |sg| <= k < va.Length ==> va[k] == old(va[k])
    {
      hide Sound, AllWritten, AvailMatches, TokensMatch, Bufs, TableEntries;
      ghost var before := desc[..];
      r := Submit(q, 1, token, Bufs(sg, out), Some(Table(phys, TableEntries(sg, out))));
      IndirectSubmitted(before, q, freeHead, sg, out, token, phys);
      head := AddIndirect(sg, out, va, phys);
      assert freeHead == before[head].next;
    }

    lemma CountsFree()
      requires Tied()
      ensures numFree == |q.free| && (q.free != [] ==> freeHead == q.free[0])
      ensures q.num == num == used.ring.Length == desc.Length && 1 <= num <= 0x8000
    {
    }

    /** virtqueue_add_buf: 0, or -ENOSPC when there is no room. */
    method AddBuf(sg: seq<Sg>, out: nat, token: Token, va: array?<Desc>, phys: nat) returns (r: int)
      requires Valid() && q.withdrawn == [] && out <= |sg| && token != NULL
      requires if va != null && |sg| > 1 && numFree > 0 then |sg| <= 0x1_0000 && |sg| <= va.Length && va != desc
               else 1 <= |sg| <= num
      modifies this`numFree, this`freeHead, this`availIdx, this`availIdxShadow, this`numAdded, this`notifications,
               this`q, desc, avail, data, if va == null then {} else {va}
      ensures r == if |sg| <= old(numFree) || (va != null && |sg| > 1 && old(numFree) > 0) then 0 else -1
      ensures r != 0 ==> unchanged(desc, avail, data) && q == old(q)
      ensures r != 0 ==> unchanged(this`numFree, this`freeHead, this`availIdx, this`numAdded)
      ensures r != 0 ==> notifications == old(notifications) + if out > 0 then 1 else 0
      ensures r == 0 ==> numFree == old(numFree) - if va != null && |sg| > 1 then 1 else |sg|
      ensures r == 0 ==> availIdx == (old(availIdx) + 1) % 0x1_0000
      ensures r == 0 ==> numAdded == if old(numAdded) + 1 == 0xFFFF then 0 else old(numAdded) + 1
      ensures r == 0 ==> old(freeHead) < num && avail[..] == old(avail[..])[old(availIdx) % num := old(freeHead)]
      ensures r == 0 ==> data[..] == old(data[..])[old(freeHead) := token]
      ensures r == 0 && va != null && |sg| > 1 ==>
        desc[..] == old(desc[..])[old(freeHead) := Desc(phys, 16 * |sg|, false, false, true, old(desc[freeHead].next))]
      ensures r == 0 && va != null && |sg| > 1 ==> forall k :: 0 <= k < |sg| ==>
        va[k] == Desc(sg[k].addr, sg[k].len, k < |sg| - 1, k >= out, false, if k < |sg| - 1 then k + 1 else 0)
      ensures r == 0 && (va == null || |sg| == 1) ==> |sg| <= |old(q).free| && forall k :: 0 <= k < |sg| ==>
        old(q).free[k] < desc.Length && desc[old(q).free[k]] ==
          Desc(sg[k].addr, sg[k].len, k < |sg| - 1, k >= out, false, old(desc[..])[old(q).free[k]].next)
      ensures r == 0 && (va == null || |sg| == 1) ==>
        forall d :: 0 <= d < desc.Length && d !in old(q).free[..|sg|] ==> desc[d] == old(desc[d])
      ensures r == 0 ==>
        var kicks := old(numAdded) + 1 == 0xFFFF
                     && if event then (availIdx - used.availEvent - 1) % 0x1_0000 < 0xFFFF else !used.noNotify;
        notifications == old(notifications) + if kicks then 1 else 0
      ensures Valid() && q == Add(old(q), sg, out, token, PhysOf(va, phys))
      ensures r == if HasRoom(old(q), |sg|, PhysOf(va, phys)) then 0 else -ENOSPC
      ensures GoesIndirect(old(q), |sg|, PhysOf(va, phys)) ==> va[..|sg|] == TableEntries(sg, out)
      ensures va != null && va != desc && !GoesIndirect(old(q), |sg|, PhysOf(va, phys)) ==> va[..] == old(va[..])
    {
      hide Sound, FreeLinked, AllWritten, AvailMatches, TokensMatch, Bufs, TableEntries, NeedEvent, Add;
      AddInv(q, sg, out, token, PhysOf(va, phys));
      AddIs(q, sg, out, token, PhysOf(va, phys));
      var head;
      ghost var added;
      if va != null && |sg| > 1 && numFree > 0 {
        head, added := TakeIndirect(sg, out, token, va, phys);
      } else {
        if numFree < |sg| {
          if out > 0 {
            Notify();
          }
          return -ENOSPC;
        }
        head, added := TakeDirect(sg, out, token);
      }
      AddHead(head, token, added);
      r := 0;
    }

    // ------------------------------------------------------------ kicking

    /** virtqueue_kick_prepare. */
    method KickPrepare() returns (needsKick: bool)
      requires Tied() && q.kicked <= |q.log| < q.kicked + U16_SIZE && q.withdrawn == []
      modifies this`numAdded, this`q
      ensures Valid() && q == QueueSpec.Kick(old(q))
      ensures needsKick == NeedsKick(old(q), event, used.View())
      ensures event ==> (needsKick <==> InWindow(used.availEvent, old(q.kicked), |q.log|))
      ensures event ==> (needsKick <==> (availIdx - used.availEvent - 1) % 0x1_0000 < old(numAdded))
      ensures !event ==> (needsKick <==> !used.noNotify)
      ensures numAdded == 0
    {
      hide Sound, FreeLinked, AllWritten, AvailMatches, TokensMatch;
      var from := Wrap16(availIdxShadow - numAdded);
      WrapShift(availIdxShadow - numAdded, |q.log| / U16_SIZE);
      assert from == Wrap16(q.kicked);
      NeedEventExact(used.availEvent, q.kicked, |q.log|);
      WrapDifference(|q.log|, q.kicked);
      WrapSmall(numAdded);
      var to := availIdxShadow;
      numAdded := 0;
      if event {
        needsKick := NeedEvent(used.availEvent, to, from);
      } else {
        needsKick := !used.noNotify;
      }
      NotificationsKeepSound(q, QueueSpec.Kick(q));
      q := QueueSpec.Kick(q);
    }

    /** virtqueue_kick. */
    method Kick()
      requires Tied() && q.kicked <= |q.log| < q.kicked + U16_SIZE && q.withdrawn == []
      modifies this`numAdded, this`q, this`notifications
      ensures Valid() && q == QueueSpec.Kick(old(q))
      ensures notifications == old(notifications) + (if NeedsKick(old(q), event, used.View()) then 1 else 0)
      ensures
        var asked := if event then (availIdx - used.availEvent - 1) % 0x1_0000 < old(numAdded) else !used.noNotify;
        notifications == old(notifications) + if asked then 1 else 0
      ensures numAdded == 0
    {
      hide Sound, FreeLinked, AllWritten, AvailMatches, TokensMatch, NeedEvent, InWindow;
      var needsKick := KickPrepare();
      if needsKick {
        Notify();
      }
    }

    /** virtqueue_kick_always. */
    method KickAlways()
      requires Tied() && q.withdrawn == []
      modifies this`numAdded, this`q, this`notifications
      ensures Valid() && q == QueueSpec.Kick(old(q)) && notifications == old(notifications) + 1 && numAdded == 0
    {
      hide Sound, FreeLinked, AllWritten, AvailMatches, TokensMatch;
      numAdded := 0;
      NotificationsKeepSound(q, QueueSpec.Kick(q));
      q := QueueSpec.Kick(q);
      Notify();
    }

    // ------------------------------------------------------------ getting

    /** detach_buf: walk to the end of the chain and put it on the free list. */
    method DetachBuf(head: nat)
      requires Tied() && head in q.pending
      modifies this`numFree, this`freeHead, desc, data
      ensures DescTied(Release(q, head)) && TokensMatch(data[..], q.pending - {head})
      ensures head < num && freeHead == head && numFree == old(numFree) + |q.pending[head].path| > old(numFree)
      ensures data[..] == old(data[..])[head := NULL]
    {
      hide Sound, AvailMatches, TokensMatch, FreeLinked, AllWritten;
      ghost var before, path := desc[..], q.pending[head].path;
      Detached(before, q, head, freeHead);
      TokenTake(data[..], q.pending, head);
      data[head] := NULL;
      var i := FindEnd(head, path);
      desc[i] := desc[i].(next := Wrap16(freeHead));
      freeHead := head;
      numFree := numFree + 1;
    }

    /** The loop of detach_buf, counting the descriptors before the last one. */
    method FindEnd(head: nat, ghost path: seq<nat>) returns (i: nat)
      requires PathEnds(desc[..], path) && path[0] == head
      modifies this`numFree
      ensures i == path[|path| - 1] && numFree == old(numFree) + |path| - 1
    {
      i := head;
      ghost var k := 0;
      while desc[i].hasNext
        invariant 0 <= k < |path| && i == path[k]
        invariant numFree == old(numFree) + k
        decreases |path| - k
      {
        i := desc[i].next;
        numFree := numFree + 1;
        k := k + 1;
      }
    }

    predicate MoreUsed()
      reads this, used
    {
      lastUsedIdx != used.idx
    }

    /** virtqueue_get_buf: the token and, when an element was read, its length. */
    method GetBuf() returns (ret: Token, len: Option<u32>)
      requires Valid()
      modifies this`numFree, this`freeHead, this`lastUsedIdx, this`q, desc, data, avail
      ensures lastUsedIdx == old(lastUsedIdx) <==> ret == NULL
      ensures ret == NULL ==> unchanged(desc, data, avail) && unchanged(this`numFree, this`freeHead, this`q)
      ensures old(lastUsedIdx) == used.idx ==> ret == NULL
      ensures old(lastUsedIdx) != used.idx ==>
        var i := used.ring[old(lastUsedIdx) % num].id; ret == if i < num then old(data[..])[i] else NULL
      ensures ret != NULL ==> lastUsedIdx == (old(lastUsedIdx) + 1) % 0x1_0000
      ensures ret != NULL ==> var i := used.ring[old(lastUsedIdx) % num].id;
        && i < num && data[..] == old(data[..])[i := NULL]
        && freeHead == i && i in old(q.pending) && numFree == old(numFree) + |old(q).pending[i].path|
      ensures ret != NULL ==>
        avail[..] == if noInterruptShadow then old(avail[..]) else old(avail[..])[num := lastUsedIdx]
      ensures len == if old(lastUsedIdx) == used.idx then None else Some(used.ring[old(lastUsedIdx) % num].len)
      ensures Valid() && q == Get(old(q), used.View()) && notifications == old(notifications)
      ensures ret == match Offered(old(q), used.View())
                     case None => NULL
                     case Some(head) => old(q).pending[head].token
      ensures len == if old(MoreUsed()) then Some(used.ring[|old(q).returned| % num].len) else None
    {
      hide Sound, FreeLinked, AllWritten, AvailMatches;
      SlotOfCounter(|q.returned|, num);
      if !MoreUsed() {
        return NULL, None;
      }
      var slot := And(lastUsedIdx, num - 1);
      var i := used.ring[slot].id;
      len := Some(used.ring[slot].len);
      if i >= num {
        return NULL, len;
      }
      TokenIsPending(data[..], q, i);
      if data[i] == NULL {
        return NULL, len;
      }
      ret := data[i];
      TakeBack(i);
    }

    /** The rest of virtqueue_get_buf, for the head of a pending buffer. */
    method TakeBack(head: nat)
      requires Valid() && head in q.pending && Offered(q, used.View()) == Some(head)
      modifies this`numFree, this`freeHead, this`lastUsedIdx, this`q, desc, data, avail
      ensures Valid() && q == Get(old(q), used.View())
      ensures head < num && freeHead == head && numFree == old(numFree) + |old(q).pending[head].path|
      ensures lastUsedIdx == (old(lastUsedIdx) + 1) % 0x1_0000 && data[..] == old(data[..])[head := NULL]
      ensures avail[..] == if noInterruptShadow then old(avail[..]) else old(avail[..])[num := lastUsedIdx]
    {
      hide Sound, FreeLinked, AllWritten, AvailMatches, TokensMatch, Offered;
      ghost var after := Get(q, used.View());
      GetInv(q, used.View());
      DetachBuf(head);
      WrapNext(|q.returned|);
      lastUsedIdx := Wrap16(lastUsedIdx + 1);
      if !noInterruptShadow {
        PublishEvent(lastUsedIdx);
      }
      q := after;
    }

    /** vring_used_event: the slot behind the avail ring. */
    method PublishEvent(event: u16)
      requires 1 <= num < avail.Length
      modifies avail
      ensures avail[..] == old(avail[..])[num := event]
      ensures forall log :: old(AvailMatches(avail[..], num, log)) ==> AvailMatches(avail[..], num, log)
    {
      ghost var before := avail[..];
      avail[num] := event;
      forall log | AvailMatches(before, num, log) ensures AvailMatches(avail[..], num, log) {
        AvailFrame(before, num, log, event);
      }
    }
  
    // ------------------------------------------------------------ callbacks

    /** Clear the no-interrupt flag if it is set. */
    method ClearNoInterrupt()
      modifies this`noInterruptShadow, this`availNoInterrupt
      ensures !noInterruptShadow && (old(noInterruptShadow) ==> !availNoInterrupt)
      ensures !old(noInterruptShadow) ==> availNoInterrupt == old(availNoInterrupt)
    {
      if noInterruptShadow {
        noInterruptShadow := false;
        availNoInterrupt := noInterruptShadow;
      }
    }

    /** virtqueue_enable_cb: false if a buffer is already waiting. */
    method EnableCallbacks() returns (none: bool)
      requires Valid()
      modifies this`noInterruptShadow, this`availNoInterrupt, this`q, avail
      ensures Valid() && q == EnableCb(old(q))
      ensures !noInterruptShadow && !availNoInterrupt && avail[..] == old(avail[..])[num := lastUsedIdx]
      ensures none <==> used.idx == lastUsedIdx
      ensures none <==> used.idx == Wrap16(|q.returned|)
    {
      hide Sound, FreeLinked, AllWritten, AvailMatches, TokensMatch;
      NotificationsKeepSound(q, EnableCb(q));
      ClearNoInterrupt();
      PublishEvent(lastUsedIdx);
      q := EnableCb(q);
      none := !MoreUsed();
    }

    /** virtqueue_enable_cb_delayed: false if most buffers are already waiting. */
    method EnableCallbacksDelayed() returns (few: bool)
      requires Valid()
      modifies this`noInterruptShadow, this`availNoInterrupt, this`q, avail
      ensures Valid() && q == EnableCbDelayed(old(q))
      ensures !noInterruptShadow && !availNoInterrupt
      ensures avail[..] == old(avail[..])[num := (lastUsedIdx + 3 * |q.pending| / 4) % 0x1_0000]
      ensures few <==> (used.idx - lastUsedIdx) % 0x1_0000 <= 3 * |q.pending| / 4
      ensures few <==>
        Wrap16(used.idx - Wrap16(|q.returned|)) <= DelayedBufs(Wrap16(|q.log| - |q.withdrawn|), Wrap16(|q.returned|))
    {
      hide Sound, FreeLinked, AllWritten, AvailMatches, TokensMatch, DelayedBufs;
      ThreeQuarters(q);
      NotificationsKeepSound(q, EnableCbDelayed(q));
      ClearNoInterrupt();
      var bufs := DelayedBufs(availIdxShadow, lastUsedIdx);
      WrapAdd(|q.returned|, bufs);
      PublishEvent(Wrap16(lastUsedIdx + bufs));
      q := EnableCbDelayed(q);
      few := Wrap16(used.idx - lastUsedIdx) <= bufs;
    }

    /** virtqueue_disable_cb. */
    method DisableCallbacks()
      requires Valid()
      modifies this`noInterruptShadow, this`availNoInterrupt, this`q
      ensures Valid() && q == DisableCb(old(q)) && noInterruptShadow && availNoInterrupt
    {
      hide Sound, FreeLinked, AllWritten, AvailMatches, TokensMatch;
      NotificationsKeepSound(q, DisableCb(q));
      if !noInterruptShadow {
        noInterruptShadow := true;
        availNoInterrupt := noInterruptShadow;
      }
      q := DisableCb(q);
    }

    // ------------------------------------------------------------ shutdown

    /** The search loop of virtqueue_detach_unused_buf. */
    method FirstToken() returns (i: nat)
      requires Tied()
      ensures i == FirstPending(q, 0, num)
      ensures (forall k :: 0 <= k < i ==> data[k] == NULL) && (i < num ==> data[i] != NULL)
    {
      hide FreeLinked, AllWritten, AvailMatches;
      i := 0;
      while i < num && data[i] == NULL
        invariant i <= num && FirstPending(q, 0, num) == FirstPending(q, i, num)
        invariant forall k :: 0 <= k < i ==> data[k] == NULL
      {
        TokenIsPending(data[..], q, i);
        i := i + 1;
      }
      if i < num {
        TokenIsPending(data[..], q, i);
      }
    }

    /** virtqueue_detach_unused_buf. */
    method DetachUnusedBuf() returns (buf: Token)
      requires Valid()
      modifies this, desc, data
      ensures buf == NULL <==> forall i :: 0 <= i < num ==> old(data[i]) == NULL
      ensures buf == NULL ==> unchanged(this, desc, data)
      ensures buf != NULL ==> freeHead < num && buf == old(data[..])[freeHead]
      ensures buf != NULL ==> data[..] == old(data[..])[freeHead := NULL]
      ensures buf != NULL ==> forall i :: 0 <= i < freeHead ==> old(data[i]) == NULL
      ensures buf != NULL ==> availIdx == (old(availIdx) - 1) % 0x1_0000 && numFree > old(numFree)
      ensures Valid()
      ensures old(q.pending) == map[] ==> buf == NULL && q == old(q) && numFree == num
      ensures old(q.pending) != map[] ==> Withdrawn(old(q), q, buf)
    {
      hide Sound, FreeLinked, AllWritten, AvailMatches, TokensMatch;
      SomePending(q);
      var i := FirstToken();
      if i < num {
        TokenIsPending(data[..], q, i);
        buf := data[i];
        ghost var after := Withdraw(q, i);
        WithdrawInv(q, i);
        DetachBuf(i);
        WrapPrevious(|q.log| - |q.withdrawn|);
        availIdxShadow := Wrap16(availIdxShadow - 1);
        availIdx := availIdxShadow;
        q := after;
      } else {
        NothingLeft(q);
        assert numFree == num;  // the BUG_ON
        buf := NULL;
      }
    }

    /** The caller's loop at shutdown: detach until NULL. */
    method DrainAll() returns (tokens: seq<Token>)
      requires Valid()
      modifies this, desc, data
      ensures Valid() && q == Drain(old(q)) && numFree == num
      ensures tokens == TokensOf(PendingFrom(old(q), 0))
    {
      hide Tied, Inv, PendingFrom, Drain, Withdrawn, TokensOf;
      ghost var start, last := q, q;
      tokens := [];
      var buf := DetachUnusedBuf();
      while buf != NULL
        invariant Valid() && Inv(last) && Drain(start) == Drain(last)
        invariant last.pending == map[] ==> buf == NULL && q == last && numFree == num
        invariant last.pending != map[] ==> Withdrawn(last, q, buf)
        invariant TokensOf(PendingFrom(start, 0)) == tokens + TokensOf(PendingFrom(last, 0))
        decreases |last.pending|
      {
        WithdrawnDrains(last, q, buf);
        tokens := tokens + [buf];
        last := q;
        buf := DetachUnusedBuf();
      }
      EndsEmpty(last, q, buf);
      NothingDrains(last);
    }

    lemma EndsEmpty(q: Queue, q': Queue, buf: Token)
      requires buf == NULL && (q.pending != map[] ==> Withdrawn(q, q', buf))
      ensures q.pending == map[]
    {
    }

    /** virtqueue_shutdown: clear the pages and start again. */
    method Shutdown()
      requires Shape()
      modifies this, desc, avail, data, used, used.ring
      ensures Valid() && q == Initial(num) && notifications == old(notifications)
      ensures used.View() == DeviceView(0, false, 0, seq(num, i => UsedElem(0, 0)))
      ensures numFree == num && freeHead == numAdded == availIdx == lastUsedIdx == 0
      ensures !noInterruptShadow && !availNoInterrupt && avail[num] == 0
      ensures forall k :: 0 <= k < num ==> data[k] == NULL && (k < num - 1 ==> desc[k].next == k + 1)
    {
      hide Sound, FreeLinked, AllWritten, AvailMatches, TokensMatch;
      forall i | 0 <= i < num {
        desc[i] := ZERO_DESC;
      }
      forall i | 0 <= i <= num {
        avail[i] := 0;
      }
      availIdx, availNoInterrupt := 0, false;
      used.Write(DeviceView(0, false, 0, seq(num, i => UsedElem(0, 0))));
      Initialize();
    }
  
    // ------------------------------------------------------------ whole runs

    /** One operation of a run, after the device has written what it likes. */
    method Perform(e: Event) returns (token: Token)
      requires Valid() && q.withdrawn == [] && Legal(q, e)
      modifies this, desc, avail, data, used, used.ring
      ensures Valid() && q == Step(old(q), e)
      ensures token == if e.op.GetBuf? && Offered(old(q), e.dev).Some?
                       then old(q).pending[Offered(old(q), e.dev).value].token else NULL
      ensures used.View() == e.dev
      ensures e.op.AddBuf? ==>
        var n, indirect := |e.op.sg|, e.op.phys.Some? && |e.op.sg| > 1 && old(numFree) > 0;
        availIdx == if n <= old(numFree) || indirect then (old(availIdx) + 1) % 0x1_0000 else old(availIdx)
      ensures token != NULL <==> lastUsedIdx != old(lastUsedIdx)
      ensures token != NULL ==> e.op.GetBuf? && lastUsedIdx == (old(lastUsedIdx) + 1) % 0x1_0000
      ensures e.op.KickBuf? ==> numAdded == 0
      ensures e.op.EnableCallbacks? ==> !noInterruptShadow && avail[num] == lastUsedIdx
      ensures e.op.EnableCallbacksDelayed? ==>
        !noInterruptShadow && avail[num] == (lastUsedIdx + 3 * |q.pending| / 4) % 0x1_0000
      ensures e.op.DisableCallbacks? ==> noInterruptShadow
    {
      hide Sound, DescTied, RingTied, TokensMatch, Add, Get, EnableCb, EnableCbDelayed, DisableCb, Offered;
      used.Write(e.dev);
      token := NULL;
      match e.op {
        case AddBuf(sg, out, t, phys) =>
          CountsFree();
          var va: array?<Desc> := null;
          if phys.Some? {
            va := new Desc[|sg|](_ => ZERO_DESC);
          }
          var r := AddBuf(sg, out, t, va, if phys.Some? then phys.value else 0);
        case GetBuf =>
          var len;
          token, len := GetBuf();
        case KickBuf =>
          Kick();
        case EnableCallbacks =>
          var none := EnableCallbacks();
        case EnableCallbacksDelayed =>
          var few := EnableCallbacksDelayed();
        case DisableCallbacks =>
          DisableCallbacks();
      }
    }

    /** A whole run: the arrays do exactly what the specification says. */
    method Execute(events: seq<Event>) returns (tokens: seq<Token>)
      requires Valid() && q.withdrawn == [] && LegalRun(q, events)
      modifies this, desc, avail, data, used, used.ring
      ensures Valid() && q == Run(old(q), events)
      ensures TokensOf(q.returned) == TokensOf(old(q).returned) + tokens
    {
      hide Tied, Inv, Step, Legal, TokensOf;
      ghost var start := q;
      tokens := [];
      for i := 0 to |events|
        invariant Valid() && q.withdrawn == []
        invariant LegalRun(q, events[i..]) && Run(q, events[i..]) == Run(start, events)
        invariant TokensOf(q.returned) == TokensOf(start.returned) + tokens
      {
        assert events[i..][0] == events[i] && events[i..][1..] == events[i + 1..];
        StepInv(q, events[i]);
        StepReturns(q, events[i]);
        var token := Perform(events[i]);
        if token != NULL {
          tokens := tokens + [token];
        }
      }
    }
  }

  /** A step of a run returns at most one more buffer, and never one without a token. */
  lemma StepReturns(q: Queue, e: Event)
    requires Inv(q) && Legal(q, e)
    ensures if e.op.GetBuf? && Offered(q, e.dev).Some? then
              var token := q.pending[Offered(q, e.dev).value].token;
              token != NULL && TokensOf(Step(q, e).returned) == TokensOf(q.returned) + [token]
            else Step(q, e).returned == q.returned
  {
    hide DescriptorsConserved, BuffersConserved, CompletionsOk, RingSize;
    if e.op.GetBuf? && Offered(q, e.dev).Some? {
      var h := Offered(q, e.dev).value;
      assert EntryOk(q.num, q.log, h, q.pending[h]);
    }
  }

  /**
   In a valid virtqueue every buffer that is out reads back, from the head in
   the avail ring, as exactly the list that the caller gave, whether it was
   added directly or through a table that is still in memory.
   */
  lemma PendingMeansBufs(vq: Virtqueue, memory: map<nat, seq<Desc>>, head: nat)
    requires vq.Valid() && head in vq.q.pending && TableInMemory(vq.q.pending[head], memory)
    ensures DeviceReads(vq.desc[..], memory, head) == Some(vq.q.pending[head].bufs)
  {
    var e := vq.q.pending[head];
    assert EntryOk(vq.q.num, vq.q.log, head, e);
    PathAtMostNum(vq.q, head);
    assert Written(vq.desc[..], e);
    WrittenMeansBufs(vq.desc[..], memory, e);
  }

  lemma PathAtMostNum(q: Queue, head: nat)
    requires Inv(q) && head in q.pending
    ensures |q.pending[head].path| <= q.num
  {
    HeadsBelow(q);
    FreePlusChains(q);
    LengthOfOne(q.pending, head, q.num);
  }

  lemma {:induction false} LengthOfOne(pending: map<nat, Entry>, head: nat, n: nat)
    requires head in pending && head < n
    ensures |pending[head].path| <= ChainLengths(pending, n)
  {
    if head < n - 1 {
      LengthOfOne(pending, head, n - 1);
    }
  }
}
