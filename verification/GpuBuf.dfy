/**
 The command buffers of the GPU device: one pool, two rings that carry the
 buffers as tokens, and the callers that hold one in between.
 */
module GpuBuf {
  import opened Options
  import opened QueueSpec
  import opened Vring

  /** The fields of GPU_VBUFFER that decide what happens to it. */
  datatype VBuffer = VBuffer(size: int, respSize: int, dataSize: nat, hasEvent: bool, asksDisplayInfo: bool)

  function NonNull(allocs: seq<Token>): (r: seq<Token>)
    ensures |r| <= |allocs| && forall b :: b in r <==> b in allocs && b != NULL
  {
    if allocs == [] then []
    else NonNull(allocs[..|allocs| - 1]) + (if allocs[|allocs| - 1] != NULL then [allocs[|allocs| - 1]] else [])
  }

  /** Each allocation is there as often as it was made. */
  lemma {:induction false} NonNullTimes(allocs: seq<Token>, b: Token)
    ensures multiset(NonNull(allocs))[b] == if b == NULL then 0 else multiset(allocs)[b]
  {
    if allocs != [] {
      var front, last := allocs[..|allocs| - 1], allocs[|allocs| - 1];
      assert allocs == front + [last];
      NonNullTimes(front, b);
    }
  }

  class VioGpuBuf {
    var freeBufs: seq<Token>           // m_FreeBufs, in list order
    var count: nat                     // m_uCount
    var vbufs: map<Token, VBuffer>     // what the buffers contain

    constructor ()
      ensures freeBufs == [] && count == 0
    {
      freeBufs, count, vbufs := [], 0, map[];
    }

    /** Every successful allocation enters the pool. */
    method Init(allocs: seq<Token>) returns (any: bool)
      requires freeBufs == [] && count == 0
      modifies this`freeBufs, this`count
      ensures freeBufs == NonNull(allocs) && count == |freeBufs| && (any <==> freeBufs != [])
      ensures forall b :: multiset(freeBufs)[b] == if b == NULL then 0 else multiset(allocs)[b]
    {
      for i := 0 to |allocs|
        invariant freeBufs == NonNull(allocs[..i]) && count == |freeBufs|
      {
        assert allocs[..i + 1][..i] == allocs[..i];
        var pvbuf := allocs[i];
        if pvbuf != NULL {
          freeBufs := freeBufs + [pvbuf];
          count := count + 1;
        }
      }
      assert allocs[..|allocs|] == allocs;
      forall b ensures multiset(freeBufs)[b] == if b == NULL then 0 else multiset(allocs)[b] {
        NonNullTimes(allocs, b);
      }
      return count > 0;
    }

    /** The head of the list, wiped: a recycled buffer never carries an old event or old data. */
    method GetBuf(size: int, respSize: int) returns (pbuf: Token)
      requires NULL !in freeBufs
      modifies this`freeBufs, this`vbufs
      ensures pbuf == NULL <==> old(freeBufs) == []
      ensures pbuf != NULL ==>
        old(freeBufs) == [pbuf] + freeBufs && vbufs == old(vbufs)[pbuf := VBuffer(size, respSize, 0, false, false)]
      ensures pbuf == NULL ==> freeBufs == [] && vbufs == old(vbufs)
    {
      pbuf := NULL;
      if freeBufs != [] {
        pbuf := freeBufs[0];
        freeBufs := freeBufs[1..];
        vbufs := vbufs[pbuf := VBuffer(size, respSize, 0, false, false)];
      }
    }

    /** Back to the tail of the list; attached data is freed with it. */
    method FreeBuf(pbuf: Token)
      requires pbuf in vbufs
      modifies this`freeBufs, this`vbufs
      ensures freeBufs == old(freeBufs) + [pbuf]
      ensures vbufs == old(vbufs)[pbuf := old(vbufs)[pbuf].(dataSize := 0)]
    {
      vbufs := vbufs[pbuf := vbufs[pbuf].(dataSize := 0)];
      freeBufs := freeBufs + [pbuf];
    }

    /** What remains in m_uCount is the number of buffers that were not in the pool. */
    method Close()
      requires |freeBufs| <= count
      modifies this`freeBufs, this`count
      ensures freeBufs == [] && count == old(count) - old(|freeBufs|)
    {
      while freeBufs != []
        invariant |freeBufs| <= count && count - |freeBufs| == old(count) - old(|freeBufs|)
      {
        freeBufs := freeBufs[1..];
        count := count - 1;
      }
    }
  }

  // ------------------------------------------------------------- the two queues

  /** CtrlQueue::QueueBufferLocked: kicks only if the buffer was accepted. */
  function QueueBuffer(q: Queue, sg: seq<Sg>, out: nat, buf: Token): Queue
    requires MayAdd(q, |sg|, buf, None)
  {
    if HasRoom(q, |sg|, None) then Kick(Add(q, sg, out, buf, None)) else q
  }

  /** CrsrQueue::QueueCursor: kicks either way. */
  function QueueOne(q: Queue, sg: Sg, buf: Token): Queue
    requires MayAdd(q, 1, buf, None)
  {
    Kick(Add(q, [sg], 1, buf, None))
  }

  lemma MaySend(vq: Virtqueue, n: nat, buf: Token)
    requires vq.Valid() && 1 <= n <= vq.num && buf != NULL
    ensures MayAdd(vq.q, n, buf, None) && (HasRoom(vq.q, n, None) <==> n <= vq.numFree)
    ensures vq.numFree == |vq.q.free| && (vq.q.free != [] ==> vq.freeHead == vq.q.free[0])
  {
    hide Inv, Virtqueue.Tied;
    vq.CountsFree();
  }

  method QueueBufferLocked(vq: Virtqueue, sg: seq<Sg>, out: nat, buf: Token) returns (ret: int)
    requires vq.Valid() && vq.q.withdrawn == [] && out <= |sg| && 1 <= |sg| <= vq.num && buf != NULL
    modifies vq, vq.desc, vq.avail, vq.data
    ensures vq.Valid() && vq.q == QueueBuffer(old(vq.q), sg, out, buf)
    ensures ret == 0 <==> HasRoom(old(vq.q), |sg|, None)
    ensures ret == if |sg| <= old(vq.numFree) then 0 else -1
    ensures ret != 0 ==> unchanged(vq.desc, vq.avail, vq.data) && unchanged(vq`numFree, vq`availIdx, vq`numAdded)
    ensures ret != 0 ==> vq.notifications == old(vq.notifications) + if out > 0 then 1 else 0
    ensures ret == 0 ==> vq.numFree == old(vq.numFree) - |sg| && vq.availIdx == (old(vq.availIdx) + 1) % 0x1_0000
    ensures ret == 0 ==> vq.numAdded == 0 && 0 <= old(vq.freeHead) < vq.num
    ensures ret == 0 ==> vq.avail[..] == old(vq.avail[..])[old(vq.availIdx) % vq.num := old(vq.freeHead)]
    ensures ret == 0 ==> vq.data[..] == old(vq.data[..])[old(vq.freeHead) := buf]
    ensures ret == 0 ==> |sg| <= |old(vq.q).free| && forall k :: 0 <= k < |sg| ==>
      old(vq.q).free[k] < vq.desc.Length && vq.desc[old(vq.q).free[k]] ==
        Desc(sg[k].addr, sg[k].len, k < |sg| - 1, k >= out, false, old(vq.desc[..])[old(vq.q).free[k]].next)
    ensures ret == 0 ==>
      var asked := if vq.event then (vq.availIdx - vq.used.availEvent - 1) % 0x1_0000 < 0xFFFF else !vq.used.noNotify;
      var kicks := old(vq.numAdded) + 1 == 0xFFFF && asked;
      vq.notifications == old(vq.notifications) + 1 + if kicks then 1 else 0
  {
    hide Inv, Add, Virtqueue.Tied, MayAdd, HasRoom, Bufs;
    MaySend(vq, |sg|, buf);
    AddShape(vq.q, sg, out, buf);
    ret := vq.AddBuf(sg, out, buf, null, 0);
    if ret == 0 {
      vq.KickAlways();
    }
  }

  method QueueCursor(vq: Virtqueue, sg: Sg, buf: Token) returns (ret: int)
    requires vq.Valid() && vq.q.withdrawn == [] && buf != NULL
    modifies vq, vq.desc, vq.avail, vq.data
    ensures vq.Valid() && vq.q == QueueOne(old(vq.q), sg, buf)
    ensures ret == 0
    ensures old(vq.numFree) == 0 ==> unchanged(vq.desc, vq.avail, vq.data) && unchanged(vq`numFree, vq`availIdx)
    ensures old(vq.numFree) == 0 ==> vq.notifications == old(vq.notifications) + 2
    ensures vq.numAdded == 0
    ensures old(vq.numFree) > 0 ==>
      && vq.numFree == old(vq.numFree) - 1 && vq.availIdx == (old(vq.availIdx) + 1) % 0x1_0000
      && 0 <= old(vq.freeHead) < vq.num
      && vq.avail[..] == old(vq.avail[..])[old(vq.availIdx) % vq.num := old(vq.freeHead)]
      && vq.data[..] == old(vq.data[..])[old(vq.freeHead) := buf]
      && vq.desc[old(vq.freeHead)] == Desc(sg.addr, sg.len, false, false, false, old(vq.desc[vq.freeHead].next))
    ensures old(vq.numFree) > 0 ==>
      var asked := if vq.event then (vq.availIdx - vq.used.availEvent - 1) % 0x1_0000 < 0xFFFF else !vq.used.noNotify;
      var kicks := old(vq.numAdded) + 1 == 0xFFFF && asked;
      vq.notifications == old(vq.notifications) + 1 + if kicks then 1 else 0
  {
    hide Inv, Add, Virtqueue.Tied, MayAdd, HasRoom, Bufs;
    vq.CountsFree();
    MaySend(vq, 1, buf);
    AddShape(vq.q, [sg], 1, buf);
    ret := 0;
    var added := vq.AddBuf([sg], 1, buf, null, 0);
    vq.KickAlways();
    if added == 0 {
      added := vq.numFree;
    }
  }

  lemma AddShape(q: Queue, sg: seq<Sg>, out: nat, buf: Token)
    requires MayAdd(q, |sg|, buf, None)
    ensures Add(q, sg, out, buf, None).withdrawn == q.withdrawn && Add(q, sg, out, buf, None).num == q.num
    ensures !HasRoom(q, |sg|, None) ==> Add(q, sg, out, buf, None) == q
  {
  }

  // ------------------------------------------------------------- the drain loops

  lemma GetTakesOne(q: Queue, dev: DeviceView)
    requires |dev.ring| == q.num && q.num >= 1 && Offered(q, dev).Some?
    ensures |Get(q, dev).pending| < |q.pending| && Get(q, dev).num == q.num
  {
    OneLess(q.pending, Offered(q, dev).value);
  }

  /** What the device has written by each round of a loop: it goes on completing while the driver drains. */
  ghost predicate ViewsFit(num: nat, views: nat -> DeviceView) {
    num >= 1 && forall k: nat :: |views(k).ring| == num
  }

  /** Calling get_buf until it returns NULL, from round k on: the queue then, and the buffers that came. */
  ghost function Drained(q: Queue, views: nat -> DeviceView, k: nat): (r: (Queue, seq<Token>))
    requires ViewsFit(q.num, views)
    ensures r.0.num == q.num && Offered(r.0, views(k + |r.1|)) == None
    decreases |q.pending|
  {
    match Offered(q, views(k))
    case None => (q, [])
    case Some(head) =>
      GetTakesOne(q, views(k));
      var rest := Drained(Get(q, views(k)), views, k + 1);
      (rest.0, [q.pending[head].token] + rest.1)
  }

  /** The buffers that nobody waits for. */
  ghost function Unawaited(tokens: seq<Token>, awaited: set<Token>): seq<Token> {
    if tokens == [] then []
    else
      Unawaited(tokens[..|tokens| - 1], awaited)
      + (if tokens[|tokens| - 1] in awaited then [] else [tokens[|tokens| - 1]])
  }

  /** The buffers whose waiters the loop wakes. */
  ghost function Woken(tokens: seq<Token>, woken: set<Token>): seq<Token> {
    if tokens == [] then []
    else Woken(tokens[..|tokens| - 1], woken) + (if tokens[|tokens| - 1] in woken then [tokens[|tokens| - 1]] else [])
  }

  /** Those that wait for the answer of GET_DISPLAY_INFO; an event with any other command is left alone. */
  ghost function Wakes(vbufs: map<Token, VBuffer>): set<Token> {
    set b | b in vbufs && vbufs[b].hasEvent && vbufs[b].asksDisplayInfo
  }

  ghost function Awaited(vbufs: map<Token, VBuffer>): set<Token> {
    set b | b in vbufs && vbufs[b].hasEvent
  }

  /** Freeing attached data changes no buffer's event and no command. */
  ghost predicate SameRules(before: map<Token, VBuffer>, after: map<Token, VBuffer>) {
    && before.Keys == after.Keys
    && forall b :: b in before ==>
         before[b].hasEvent == after[b].hasEvent && before[b].asksDisplayInfo == after[b].asksDisplayInfo
  }

  /** Which of the drained buffers were released, and whose waiters were woken. */
  ghost predicate Sorted(vbufs: map<Token, VBuffer>, drained: seq<Token>, released: seq<Token>, woken: seq<Token>) {
    && (forall b :: b in drained ==> b in vbufs)
    && (forall b :: b in released || b in woken ==> b in drained)
    && (forall b :: b in drained ==>
          && multiset(released)[b] == (if vbufs[b].hasEvent then 0 else multiset(drained)[b])
          && multiset(woken)[b] == if vbufs[b].hasEvent && vbufs[b].asksDisplayInfo then multiset(drained)[b] else 0)
  }

  lemma SortNone(vbufs: map<Token, VBuffer>)
    ensures Sorted(vbufs, [], [], []) && SameRules(vbufs, vbufs)
  {
  }

  lemma SortedMeans(vbufs: map<Token, VBuffer>, drained: seq<Token>, released: seq<Token>, woken: seq<Token>)
    requires Sorted(vbufs, drained, released, woken)
    ensures forall b :: b in drained ==> b in vbufs
    ensures forall b :: b in released || b in woken ==> b in drained
    ensures forall b :: b in drained ==>
      multiset(released)[b] == if vbufs[b].hasEvent then 0 else multiset(drained)[b]
    ensures forall b :: b in drained ==>
      multiset(woken)[b] == if vbufs[b].hasEvent && vbufs[b].asksDisplayInfo then multiset(drained)[b] else 0
  {
  }

  lemma SortOne(vbufs: map<Token, VBuffer>, now: map<Token, VBuffer>, drained: seq<Token>, released: seq<Token>,
                woken: seq<Token>, b: Token)
    requires Sorted(vbufs, drained, released, woken) && SameRules(vbufs, now) && b in now
    ensures !now[b].hasEvent ==> Sorted(vbufs, drained + [b], released + [b], woken)
    ensures !now[b].hasEvent ==> SameRules(vbufs, now[b := now[b].(dataSize := 0)])
    ensures now[b].hasEvent && now[b].asksDisplayInfo ==> Sorted(vbufs, drained + [b], released, woken + [b])
    ensures now[b].hasEvent && !now[b].asksDisplayInfo ==> Sorted(vbufs, drained + [b], released, woken)
  {
    assert multiset(drained + [b]) == multiset(drained) + multiset{b};
    assert multiset(released + [b]) == multiset(released) + multiset{b};
    assert multiset(woken + [b]) == multiset(woken) + multiset{b};
  }

  lemma InAwaited(vbufs: map<Token, VBuffer>, b: Token)
    requires b in vbufs
    ensures b in Awaited(vbufs) <==> vbufs[b].hasEvent
    ensures b in Wakes(vbufs) <==> vbufs[b].hasEvent && vbufs[b].asksDisplayInfo
  {
  }

  ghost predicate TokensKnown(pending: map<nat, Entry>, vbufs: map<Token, VBuffer>) {
    forall h :: h in pending ==> pending[h].token in vbufs
  }

  /** The token that the next get_buf returns. */
  function NextToken(q: Queue, dev: DeviceView): Token
    requires |dev.ring| == q.num && q.num >= 1
  {
    match Offered(q, dev)
    case None => NULL
    case Some(head) => q.pending[head].token
  }

  lemma DrainedUnfolds(q: Queue, views: nat -> DeviceView, k: nat)
    requires ViewsFit(q.num, views)
    ensures |views(k).ring| == q.num && Get(q, views(k)).num == q.num
    ensures Offered(q, views(k)) == None ==> Drained(q, views, k) == (q, [])
    ensures Offered(q, views(k)) != None ==> Drained(q, views, k).0 == Drained(Get(q, views(k)), views, k + 1).0
    ensures Offered(q, views(k)) != None ==>
      Drained(q, views, k).1 == [NextToken(q, views(k))] + Drained(Get(q, views(k)), views, k + 1).1
  {
    GetNum(q, views(k));
    hide Get;
  }

  /** The loop has these buffers, and what is left to drain makes up the rest. */
  ghost predicate DrainsTo(q: Queue, views: nat -> DeviceView, done: seq<Token>, all: (Queue, seq<Token>)) {
    && ViewsFit(q.num, views)
    && all.0 == Drained(q, views, |done|).0 && all.1 == done + Drained(q, views, |done|).1
  }

  lemma DrainedStep(q: Queue, views: nat -> DeviceView, done: seq<Token>, all: (Queue, seq<Token>))
    requires DrainsTo(q, views, done, all)
    ensures |views(|done|).ring| == q.num >= 1
    ensures Offered(q, views(|done|)) == None ==> all.0 == q && all.1 == done
    ensures Offered(q, views(|done|)) != None ==>
      DrainsTo(Get(q, views(|done|)), views, done + [NextToken(q, views(|done|))], all)
  {
    hide Offered, Get, Drained, NextToken;
    var k := |done|;
    DrainedUnfolds(q, views, k);
    assert done + [] == done;
    if Offered(q, views(k)) != None {
      var t, rest := NextToken(q, views(k)), Drained(Get(q, views(k)), views, k + 1).1;
      assert done + ([t] + rest) == (done + [t]) + rest;
    }
  }

  lemma DrainedStart(q: Queue, views: nat -> DeviceView)
    requires ViewsFit(q.num, views)
    ensures DrainsTo(q, views, [], Drained(q, views, 0))
  {
    hide Drained;
    assert [] + Drained(q, views, 0).1 == Drained(q, views, 0).1;
  }

  /** What one round of the loop needs to know of the buffer it gets. */
  lemma NextIsKnown(q: Queue, dev: DeviceView, vbufs: map<Token, VBuffer>)
    requires Inv(q) && |dev.ring| == q.num && Offered(q, dev) != None && TokensKnown(q.pending, vbufs)
    ensures NextToken(q, dev) != NULL && NextToken(q, dev) in vbufs
    ensures TokensKnown(Get(q, dev).pending, vbufs) && |Get(q, dev).pending| < |q.pending|
  {
    var h := Offered(q, dev).value;
    assert EntryOk(q.num, q.log, h, q.pending[h]);
    GetTakesOne(q, dev);
  }

  lemma GetNum(q: Queue, dev: DeviceView)
    requires |dev.ring| == q.num && q.num >= 1
    ensures Get(q, dev).num == q.num
  {
  }

  /**
   The control loop of DpcRoutine, while the device goes on completing: before
   each round the used ring is as the device has it by then. Everything offered
   is taken off the ring; what nobody waits for goes back to the pool, and the
   waiters for display information are woken.
   */
  method DrainControl(vq: Virtqueue, pool: VioGpuBuf, views: nat -> DeviceView) returns (woken: seq<Token>)
    requires vq.Valid() && TokensKnown(vq.q.pending, pool.vbufs)
    requires ViewsFit(vq.q.num, views) && vq.used.ring.Length == vq.q.num
    modifies vq, vq.desc, vq.data, vq.avail, vq.used, vq.used.ring, pool`freeBufs, pool`vbufs
    ensures vq.Valid() && vq.q == Drained(old(vq.q), views, 0).0
    ensures vq.used.View() == views(|Drained(old(vq.q), views, 0).1|) && Offered(vq.q, vq.used.View()) == None
    ensures old(pool.freeBufs) <= pool.freeBufs
    ensures var drained, appended := Drained(old(vq.q), views, 0).1, pool.freeBufs[|old(pool.freeBufs)|..];
      && (forall b :: b in drained ==> b in old(pool.vbufs))
      && (forall b :: b in appended ==> b in drained)
      && (forall b :: b in drained ==>
            multiset(appended)[b] == if old(pool.vbufs)[b].hasEvent then 0 else multiset(drained)[b])
      && (forall b :: b in woken ==> b in drained)
      && (forall b :: b in drained ==>
            var v := old(pool.vbufs)[b];
            multiset(woken)[b] == if v.hasEvent && v.asksDisplayInfo then multiset(drained)[b] else 0)
    ensures pool.freeBufs == old(pool.freeBufs) + Unawaited(Drained(old(vq.q), views, 0).1, Awaited(old(pool.vbufs)))
    ensures woken == Woken(Drained(old(vq.q), views, 0).1, Wakes(old(pool.vbufs)))
  {
    hide Inv, Offered, Get, TokensKnown, Virtqueue.Tied, Drained, DrainsTo, Sorted, SameRules, Awaited, Wakes;
    ghost var all, awaited, wakes := Drained(vq.q, views, 0), Awaited(pool.vbufs), Wakes(pool.vbufs);
    ghost var done: seq<Token> := [];
    ghost var appended: seq<Token> := [];
    var round: nat := 0;
    woken := [];
    DrainedStart(vq.q, views);
    SortNone(pool.vbufs);
    while true
      invariant round == |done| && vq.used.ring.Length == vq.q.num && ViewsFit(vq.q.num, views)
      invariant vq.Valid() && TokensKnown(vq.q.pending, pool.vbufs)
      invariant Awaited(pool.vbufs) == awaited && Wakes(pool.vbufs) == wakes
      invariant DrainsTo(vq.q, views, done, all)
      invariant pool.freeBufs == old(pool.freeBufs) + Unawaited(done, awaited) && woken == Woken(done, wakes)
      invariant pool.freeBufs == old(pool.freeBufs) + appended
      invariant SameRules(old(pool.vbufs), pool.vbufs) && Sorted(old(pool.vbufs), done, appended, woken)
      decreases |vq.q.pending|
    {
      vq.used.Write(views(round));
      DrainedStep(vq.q, views, done, all);
      GetNum(vq.q, views(round));
      if Offered(vq.q, views(round)) != None {
        NextIsKnown(vq.q, views(round), pool.vbufs);
      }
      var pvbuf, len := Dequeue(vq);
      if pvbuf == NULL {
        SortedMeans(old(pool.vbufs), done, appended, woken);
        assert pool.freeBufs[|old(pool.freeBufs)|..] == appended;
        return;
      }
      assert (done + [pvbuf])[..|done|] == done;
      InAwaited(pool.vbufs, pvbuf);
      SortOne(old(pool.vbufs), pool.vbufs, done, appended, woken, pvbuf);
      done := done + [pvbuf];
      round := round + 1;
      if !pool.vbufs[pvbuf].hasEvent {
        FreedIsKnown(vq.q.pending, pool.vbufs, pvbuf);
        pool.FreeBuf(pvbuf);
        appended := appended + [pvbuf];
      } else if pool.vbufs[pvbuf].asksDisplayInfo {
        woken := woken + [pvbuf];
      }
    }
  }

  /** The cursor loop of DpcRoutine, likewise: everything offered goes back to the pool. */
  method DrainCursor(vq: Virtqueue, pool: VioGpuBuf, views: nat -> DeviceView)
    requires vq.Valid() && TokensKnown(vq.q.pending, pool.vbufs)
    requires ViewsFit(vq.q.num, views) && vq.used.ring.Length == vq.q.num
    modifies vq, vq.desc, vq.data, vq.avail, vq.used, vq.used.ring, pool`freeBufs, pool`vbufs
    ensures vq.Valid() && vq.q == Drained(old(vq.q), views, 0).0
    ensures vq.used.View() == views(|Drained(old(vq.q), views, 0).1|) && Offered(vq.q, vq.used.View()) == None
    ensures pool.freeBufs == old(pool.freeBufs) + Drained(old(vq.q), views, 0).1
  {
    hide Inv, Offered, Get, TokensKnown, Virtqueue.Tied, Drained, DrainsTo;
    ghost var all := Drained(vq.q, views, 0);
    ghost var done: seq<Token> := [];
    var round: nat := 0;
    DrainedStart(vq.q, views);
    while true
      invariant round == |done| && vq.used.ring.Length == vq.q.num && ViewsFit(vq.q.num, views)
      invariant vq.Valid() && TokensKnown(vq.q.pending, pool.vbufs)
      invariant DrainsTo(vq.q, views, done, all)
      invariant pool.freeBufs == old(pool.freeBufs) + done
      decreases |vq.q.pending|
    {
      vq.used.Write(views(round));
      DrainedStep(vq.q, views, done, all);
      GetNum(vq.q, views(round));
      if Offered(vq.q, views(round)) != None {
        NextIsKnown(vq.q, views(round), pool.vbufs);
      }
      var pvbuf, len := Dequeue(vq);
      if pvbuf == NULL {
        return;
      }
      done := done + [pvbuf];
      round := round + 1;
      FreedIsKnown(vq.q.pending, pool.vbufs, pvbuf);
      pool.FreeBuf(pvbuf);
    }
  }

  lemma FreedIsKnown(pending: map<nat, Entry>, vbufs: map<Token, VBuffer>, b: Token)
    requires b in vbufs && TokensKnown(pending, vbufs)
    ensures TokensKnown(pending, vbufs[b := vbufs[b].(dataSize := 0)])
    ensures Awaited(vbufs[b := vbufs[b].(dataSize := 0)]) == Awaited(vbufs)
    ensures Wakes(vbufs[b := vbufs[b].(dataSize := 0)]) == Wakes(vbufs)
  {
  }

  /** DequeueBuffer and DequeueCursor. */
  method Dequeue(vq: Virtqueue) returns (ret: Token, len: nat)
    requires vq.Valid() && |vq.used.View().ring| == vq.q.num && vq.q.num >= 1
    modifies vq, vq.desc, vq.data, vq.avail
    ensures vq.used.ring.Length == vq.num
    ensures old(vq.lastUsedIdx) == vq.used.idx ==> ret == NULL
    ensures old(vq.lastUsedIdx) != vq.used.idx ==>
      var i := vq.used.ring[old(vq.lastUsedIdx) % vq.num].id; ret == if i < vq.num then old(vq.data[..])[i] else NULL
    ensures len == if ret == NULL then 0 else vq.used.ring[old(vq.lastUsedIdx) % vq.num].len
    ensures vq.Valid() && vq.q == Get(old(vq.q), vq.used.View())
    ensures ret == NextToken(old(vq.q), vq.used.View()) && (ret == NULL ==> len == 0)
    ensures Offered(old(vq.q), vq.used.View()) == None ==> vq.q == old(vq.q)
    ensures vq.used.View() == old(vq.used.View())
  {
    hide Inv, Virtqueue.Tied;
    var l;
    vq.CountsFree();
    ret, l := vq.GetBuf();
    len := if ret == NULL then 0 else l.value;
  }

  /**
   A command builder: AllocCmd and QueueBuffer, with an event for
   GET_DISPLAY_INFO. The buffer is written to, so the pool must have one; a
   refused one is forgotten.
   */
  method IssueCommand(vq: Virtqueue, pool: VioGpuBuf, size: int, respSize: int, asks: bool, sg: seq<Sg>, out: nat)
    requires vq.Valid() && vq.q.withdrawn == [] && NULL !in pool.freeBufs && pool.freeBufs != []
    requires out <= |sg| && 1 <= |sg| <= vq.num
    modifies vq, vq.desc, vq.avail, vq.data, pool`freeBufs, pool`vbufs
    ensures |sg| <= old(vq.numFree) ==>
      && 0 <= old(vq.freeHead) < vq.num && vq.data[..] == old(vq.data[..])[old(vq.freeHead) := old(pool.freeBufs[0])]
      && vq.avail[..] == old(vq.avail[..])[old(vq.availIdx) % vq.num := old(vq.freeHead)]
    ensures |sg| > old(vq.numFree) ==> unchanged(vq.desc, vq.avail, vq.data) && unchanged(vq`numFree, vq`availIdx)
    ensures MayAdd(old(vq.q), |sg|, old(pool.freeBufs[0]), None)
    ensures vq.Valid() && vq.q == QueueBuffer(old(vq.q), sg, out, old(pool.freeBufs[0]))
    ensures pool.freeBufs == old(pool.freeBufs[1..])
    ensures pool.vbufs == old(pool.vbufs)[old(pool.freeBufs[0]) := VBuffer(size, respSize, 0, asks, asks)]
  {
    hide Inv, Virtqueue.Tied, Add, QueueBuffer;
    MaySend(vq, |sg|, pool.freeBufs[0]);
    var vbuf := pool.GetBuf(size, respSize);
    pool.vbufs := pool.vbufs[vbuf := pool.vbufs[vbuf].(hasEvent := asks, asksDisplayInfo := asks)];
    var ret := QueueBufferLocked(vq, sg, out, vbuf);
  }
}
