/**
 Whole runs of a virtqueue: any sequence of driver operations, each of which
 meets arbitrary contents in the memory that the device writes.
 */
module QueueRuns {
  import opened Words
  import opened Gather
  import opened Options
  import opened QueueSpec

  datatype Op =
    | AddBuf(sg: seq<Sg>, out: nat, token: Token, phys: Option<nat>)
    | GetBuf
    | KickBuf
    | EnableCallbacks
    | EnableCallbacksDelayed
    | DisableCallbacks

  /** An operation together with what it finds in device-written memory. */
  datatype Event = Event(op: Op, dev: DeviceView)

  predicate Legal(q: Queue, e: Event) {
    && q.num >= 1 && |e.dev.ring| == q.num
    && (e.op.AddBuf? ==> e.op.out <= |e.op.sg| && MayAdd(q, |e.op.sg|, e.op.token, e.op.phys))
  }

  function Step(q: Queue, e: Event): Queue
    requires Legal(q, e)
  {
    match e.op
    case AddBuf(sg, out, token, phys) => Add(q, sg, out, token, phys)
    case GetBuf => Get(q, e.dev)
    case KickBuf => Kick(q)
    case EnableCallbacks => EnableCb(q)
    case EnableCallbacksDelayed => EnableCbDelayed(q)
    case DisableCallbacks => DisableCb(q)
  }

  ghost predicate LegalRun(q: Queue, events: seq<Event>)
    decreases |events|
  {
    events == [] || (Legal(q, events[0]) && LegalRun(Step(q, events[0]), events[1..]))
  }

  ghost function Run(q: Queue, events: seq<Event>): Queue
    requires LegalRun(q, events)
    decreases |events|
  {
    if events == [] then q else Run(Step(q, events[0]), events[1..])
  }

  lemma StepInv(q: Queue, e: Event)
    requires Inv(q) && Legal(q, e)
    ensures Inv(Step(q, e)) && Step(q, e).num == q.num && Step(q, e).withdrawn == q.withdrawn
  {
    hide Sound;
    match e.op
    case AddBuf(sg, out, token, phys) => AddInv(q, sg, out, token, phys);
    case GetBuf => GetInv(q, e.dev);
    case _ => NotificationsKeepSound(q, Step(q, e));
  }

  lemma {:induction false} RunInv(q: Queue, events: seq<Event>)
    requires Inv(q) && LegalRun(q, events)
    ensures Inv(Run(q, events)) && Run(q, events).num == q.num && Run(q, events).withdrawn == q.withdrawn
    decreases |events|
  {
    hide Inv;
    if events != [] {
      StepInv(q, events[0]);
      RunInv(Step(q, events[0]), events[1..]);
    }
  }

  /**
   In every run, whatever the device writes, the descriptors 0..num-1 are split
   into a free list of distinct nodes and disjoint chains headed by the pending
   heads, and the lengths add up to num.
   */
  lemma EveryRunPartitions(num: nat, events: seq<Event>)
    requires RingSize(num) && LegalRun(Initial(num), events)
    ensures var q := Run(Initial(num), events);
      && Partitioned(q)
      && |q.free| + ChainLengths(q.pending, num) == num
      && forall h :: h in q.pending ==> q.pending[h].path != [] && q.pending[h].path[0] == h && h < num
  {
    InitialInv(num);
    RunInv(Initial(num), events);
    var q := Run(Initial(num), events);
    HeadsBelow(q);
    InvPartitions(q);
    FreePlusChains(q);
  }

  lemma HeadsBelow(q: Queue)
    requires Inv(q)
    ensures HeadsInRange(q)
    ensures forall h :: h in q.pending ==> q.pending[h].path != [] && q.pending[h].path[0] == h
  {
    forall h | h in q.pending ensures EntryOk(q.num, q.log, h, q.pending[h]) {}
  }

  /**
   A buffer that is out stays as it was added, through any other operation,
   until get_buf returns that very head.
   */
  lemma StepKeepsPending(q: Queue, e: Event, h: nat)
    requires Inv(q) && Legal(q, e) && h in q.pending
    ensures (h in Step(q, e).pending && Step(q, e).pending[h] == q.pending[h])
         <==> !(e.op.GetBuf? && Offered(q, e.dev) == Some(h))
  {
    hide Sound;
    match e.op {
      case AddBuf(sg, out, token, phys) =>
        FreeHeadIsOut(q);
        AddKeepsPending(q, sg, out, token, phys, h);
      case _ =>
    }
  }

  lemma AddKeepsPending(q: Queue, sg: seq<Sg>, out: nat, token: Token, phys: Option<nat>, h: nat)
    requires MayAdd(q, |sg|, token, phys) && h in q.pending && (q.free != [] ==> q.free[0] !in q.pending)
    ensures h in Add(q, sg, out, token, phys).pending && Add(q, sg, out, token, phys).pending[h] == q.pending[h]
  {
    hide Bufs, TableEntries;
  }

  lemma FreeHeadIsOut(q: Queue)
    requires Inv(q)
    ensures q.free != [] ==> q.free[0] !in q.pending
  {
    if q.free != [] {
      FreeHeadIsFree(q);
    }
  }

  // ------------------------------------------------------------ refusals

  /**
   After any run, an add is refused exactly when the descriptors it asks for and
   those of the buffers that are out are more than the ring has: one for a list
   in a table, one for each buffer otherwise. An add that is not refused has its
   list pending, with the readable buffers first.
   */
  lemma EveryRefusalByCount(num: nat, events: seq<Event>, sg: seq<Sg>, out: nat, token: Token, phys: Option<nat>)
    requires RingSize(num) && LegalRun(Initial(num), events)
    requires MayAdd(Run(Initial(num), events), |sg|, token, phys)
    ensures var q := Run(Initial(num), events);
      var asked := if phys.Some? && |sg| > 1 then 1 else |sg|;
      && (Add(q, sg, out, token, phys) == q <==> asked + ChainLengths(q.pending, num) > num)
      && (asked + ChainLengths(q.pending, num) <= num ==>
            HasAdded(q, Add(q, sg, out, token, phys), sg, out, token, asked))
  {
    hide LegalRun, Run, Inv, HasAdded;
    InitialInv(num);
    RunInv(Initial(num), events);
    RefusedByCount(Run(Initial(num), events), sg, out, token, phys);
  }

  /** One more buffer is out, as the caller gave it, on so many more descriptors. */
  ghost predicate HasAdded(q: Queue, q': Queue, sg: seq<Sg>, out: nat, token: Token, taken: nat) {
    && |q'.log| == |q.log| + 1 && q'.log[..|q.log|] == q.log
    && q'.returned == q.returned && |q'.free| == |q.free| - taken
    && var h := q'.log[|q.log|].head;
    && h !in q.pending && h in q'.pending && q'.pending.Keys == q.pending.Keys + {h}
    && q'.pending[h].token == token && q'.pending[h].path + q'.free == q.free
    && |q'.pending[h].bufs| == |sg|
    && forall k :: 0 <= k < |sg| ==>
         var b := q'.pending[h].bufs[k];
         b.addr == sg[k].addr && b.len == sg[k].len && (b.writable <==> k >= out)
  }

  lemma RefusedByCount(q: Queue, sg: seq<Sg>, out: nat, token: Token, phys: Option<nat>)
    requires Inv(q) && MayAdd(q, |sg|, token, phys)
    ensures var asked := if phys.Some? && |sg| > 1 then 1 else |sg|;
      && (Add(q, sg, out, token, phys) == q <==> asked + ChainLengths(q.pending, q.num) > q.num)
      && (asked + ChainLengths(q.pending, q.num) <= q.num ==>
            HasAdded(q, Add(q, sg, out, token, phys), sg, out, token, asked))
  {
    FreePlusChains(q);
    FreeHeadIsOut(q);
    hide Inv, ChainLengths, HasAdded, Submit, TableEntries, Bufs;
    AddIs(q, sg, out, token, phys);
    if HasRoom(q, |sg|, phys) {
      if GoesIndirect(q, |sg|, phys) {
        SubmitHasAdded(q, 1, sg, out, token, Some(Table(phys.value, TableEntries(sg, out))));
      } else {
        SubmitHasAdded(q, |sg|, sg, out, token, None);
      }
    }
  }

  lemma SubmitHasAdded(q: Queue, n: nat, sg: seq<Sg>, out: nat, token: Token, table: Option<Table>)
    requires 1 <= n <= |q.free| && q.free[0] !in q.pending
    ensures var r := Submit(q, n, token, Bufs(sg, out), table);
      HasAdded(q, r, sg, out, token, n) && HasAdded(q, Kick(r), sg, out, token, n) && r.log != q.log
  {
    var r := Submit(q, n, token, Bufs(sg, out), table);
    assert r.pending.Keys == q.pending.Keys + {q.free[0]};
    assert q.free[..n] + q.free[n..] == q.free;
  }

  // ------------------------------------------------------------ exactly once

  lemma {:induction false} SerialsOfCounts(done: seq<Completion>, r: nat)
    requires r < |done|
    ensures SerialsOf(done)[done[r].serial] >= 1
    ensures forall i :: 0 <= i < r && done[i].serial == done[r].serial ==> SerialsOf(done)[done[r].serial] >= 2
    decreases |done|
  {
    var front := done[..|done| - 1];
    if r < |done| - 1 {
      SerialsOfCounts(front, r);
    } else {
      forall i | 0 <= i < r && done[i].serial == done[r].serial
        ensures SerialsOf(done)[done[r].serial] >= 2
      {
        SerialsOfCounts(front, i);
      }
    }
  }

  lemma {:induction false} SerialsOfSource(done: seq<Completion>, s: nat)
    requires SerialsOf(done)[s] > 0
    ensures exists r :: 0 <= r < |done| && done[r].serial == s
  {
    var last := |done| - 1;
    if done[last].serial == s {
    } else {
      SerialsOfSource(done[..last], s);
      var r :| 0 <= r < last && done[..last][r].serial == s;
      assert done[r].serial == s;
    }
  }

  /** Each buffer ever added went exactly one way: returned, withdrawn or still pending. */
  ghost predicate ExactlyOnce(q: Queue) {
    && (forall i, j :: 0 <= i < j < |q.returned| ==> q.returned[i].serial != q.returned[j].serial)
    && CompletionsOk(q.log, q.returned)
    && (forall i, j :: 0 <= i < j < |q.withdrawn| ==> q.withdrawn[i].serial != q.withdrawn[j].serial)
    && CompletionsOk(q.log, q.withdrawn)
    && (forall i, j :: 0 <= i < |q.returned| && 0 <= j < |q.withdrawn| ==>
          q.returned[i].serial != q.withdrawn[j].serial)
    && (forall i, h :: 0 <= i < |q.returned| && h in q.pending ==> q.returned[i].serial != q.pending[h].serial)
    && (forall i, h :: 0 <= i < |q.withdrawn| && h in q.pending ==> q.withdrawn[i].serial != q.pending[h].serial)
    && (forall g, h :: g in q.pending && h in q.pending && g != h ==> q.pending[g].serial != q.pending[h].serial)
    && (forall s: nat :: s < |q.log| ==> HasPlace(q, s))
  }

  ghost predicate HasPlace(q: Queue, s: nat) {
    || (exists i :: 0 <= i < |q.returned| && q.returned[i].serial == s)
    || (exists i :: 0 <= i < |q.withdrawn| && q.withdrawn[i].serial == s)
    || (exists h :: h in q.pending && q.pending[h].serial == s)
  }

  lemma SerialCount(q: Queue, s: nat)
    requires BuffersConserved(q.num, |q.log|, q.returned, q.withdrawn, q.pending)
    ensures SerialsOf(q.returned)[s] + SerialsOf(q.withdrawn)[s] + Gathered(Serials(q.pending), q.num)[s]
         == if s < |q.log| then 1 else 0
  {
    AllBelowCounts(|q.log|);
    assert (SerialsOf(q.returned) + SerialsOf(q.withdrawn) + Gathered(Serials(q.pending), q.num))[s]
        == AllBelow(|q.log|)[s];
  }

  lemma PendingSerialCount(q: Queue, h: nat)
    requires HeadsInRange(q) && h in q.pending
    ensures Gathered(Serials(q.pending), q.num)[q.pending[h].serial] >= 1
    ensures forall g :: g in q.pending && g != h && q.pending[g].serial == q.pending[h].serial ==>
      Gathered(Serials(q.pending), q.num)[q.pending[h].serial] >= 2
  {
    GatheredTake(Serials(q.pending), h, q.num);
    forall g | g in q.pending && g != h && q.pending[g].serial == q.pending[h].serial
      ensures Gathered(Serials(q.pending), q.num)[q.pending[h].serial] >= 2
    {
      GatheredTwo(Serials(q.pending), h, g, q.num, q.pending[h].serial);
    }
  }

  lemma SerialHasPlace(q: Queue, s: nat)
    requires BuffersConserved(q.num, |q.log|, q.returned, q.withdrawn, q.pending) && s < |q.log|
    ensures HasPlace(q, s)
  {
    SerialCount(q, s);
    if SerialsOf(q.returned)[s] > 0 {
      SerialsOfSource(q.returned, s);
    } else if SerialsOf(q.withdrawn)[s] > 0 {
      SerialsOfSource(q.withdrawn, s);
    } else {
      GatheredSource(Serials(q.pending), q.num, s);
      var h :| h in Serials(q.pending) && h < q.num && s in Serials(q.pending)[h];
      assert h in q.pending && q.pending[h].serial == s;
    }
  }

  /** Withdrawn buffers are distinct, and neither returned nor pending. */
  lemma WithdrawnOnce(q: Queue)
    requires BuffersConserved(q.num, |q.log|, q.returned, q.withdrawn, q.pending) && HeadsInRange(q)
    ensures forall i, j :: 0 <= i < j < |q.withdrawn| ==> q.withdrawn[i].serial != q.withdrawn[j].serial
    ensures forall i, j :: 0 <= i < |q.returned| && 0 <= j < |q.withdrawn| ==>
      q.returned[i].serial != q.withdrawn[j].serial
    ensures forall i, h :: 0 <= i < |q.withdrawn| && h in q.pending ==> q.withdrawn[i].serial != q.pending[h].serial
  {
    hide BuffersConserved, HeadsInRange;
    forall i, j | 0 <= i < j < |q.withdrawn| ensures q.withdrawn[i].serial != q.withdrawn[j].serial {
      SerialsOfCounts(q.withdrawn, j);
      SerialCount(q, q.withdrawn[j].serial);
    }
    forall i, j | 0 <= i < |q.returned| && 0 <= j < |q.withdrawn|
      ensures q.returned[i].serial != q.withdrawn[j].serial
    {
      SerialsOfCounts(q.returned, i);
      SerialsOfCounts(q.withdrawn, j);
      SerialCount(q, q.withdrawn[j].serial);
    }
    forall i, h | 0 <= i < |q.withdrawn| && h in q.pending ensures q.withdrawn[i].serial != q.pending[h].serial {
      SerialsOfCounts(q.withdrawn, i);
      SerialCount(q, q.withdrawn[i].serial);
      PendingSerialCount(q, h);
    }
  }

  lemma InvExactlyOnce(q: Queue)
    requires Inv(q)
    ensures ExactlyOnce(q)
  {
    HeadsBelow(q);
    hide BuffersConserved, HeadsInRange;
    WithdrawnOnce(q);
    forall i, j | 0 <= i < j < |q.returned| ensures q.returned[i].serial != q.returned[j].serial {
      SerialsOfCounts(q.returned, j);
      SerialCount(q, q.returned[j].serial);
    }
    forall i, h | 0 <= i < |q.returned| && h in q.pending ensures q.returned[i].serial != q.pending[h].serial {
      SerialsOfCounts(q.returned, i);
      SerialCount(q, q.returned[i].serial);
      PendingSerialCount(q, h);
    }
    forall g, h | g in q.pending && h in q.pending && g != h ensures q.pending[g].serial != q.pending[h].serial {
      SerialCount(q, q.pending[h].serial);
      PendingSerialCount(q, h);
    }
    forall s: nat | s < |q.log| ensures HasPlace(q, s) {
      SerialHasPlace(q, s);
    }
  }

  /**
   In every run each accepted token comes back at most once, under the head it
   was queued for, is never lost, and the 16-bit difference of the two indices
   is the number of buffers that are out.
   */
  lemma EveryRunReturnsOnce(num: nat, events: seq<Event>)
    requires RingSize(num) && LegalRun(Initial(num), events)
    ensures var q := Run(Initial(num), events);
      && ExactlyOnce(q) && q.withdrawn == []
      && Wrap16(Wrap16(|q.log|) - Wrap16(|q.returned|)) == |q.pending|
  {
    hide Inv, ExactlyOnce;
    InitialInv(num);
    RunInv(Initial(num), events);
    var q := Run(Initial(num), events);
    InvExactlyOnce(q);
    IndexDistance(q);
  }

  lemma IndexDistance(q: Queue)
    requires Inv(q)
    ensures Wrap16(Wrap16(|q.log| - |q.withdrawn|) - Wrap16(|q.returned|)) == |q.pending|
  {
    PendingAtMostNum(q);
    WrapDifference(|q.log| - |q.withdrawn|, |q.returned|);
    WrapSmall(|q.pending|);
  }

  /** Each buffer that is out holds at least its head descriptor. */
  lemma PendingAtMostNum(q: Queue)
    requires Inv(q)
    ensures |q.pending| + |q.free| <= q.num
  {
    HeadsBelow(q);
    FreePlusChains(q);
    CountEntries(q.pending, q.num);
  }

  lemma {:induction false} CountEntries(pending: map<nat, Entry>, n: nat)
    requires forall h :: h in pending ==> pending[h].path != [] && h < n
    ensures |pending| <= ChainLengths(pending, n)
    decreases n
  {
    if n == 0 {
      assert pending == map[];
    } else if n - 1 in pending {
      var rest := pending - {n - 1};
      CountEntries(rest, n - 1);
      OneLess(pending, n - 1);
      ChainLengthsSame(pending, rest, n - 1);
    } else {
      CountEntries(pending, n - 1);
    }
  }

  lemma {:induction false} ChainLengthsSame(p: map<nat, Entry>, r: map<nat, Entry>, n: nat)
    requires forall h :: h < n ==> (h in p <==> h in r) && (h in p ==> p[h] == r[h])
    ensures ChainLengths(p, n) == ChainLengths(r, n)
  {
    if n > 0 {
      ChainLengthsSame(p, r, n - 1);
    }
  }

  // ------------------------------------------------------------ kicks

  /**
   After any run, virtqueue_kick_prepare in event mode answers yes exactly when
   the event index of the device lies among the entries added since the last
   synchronisation: the forced kick keeps the 16-bit window from closing.
   */
  lemma EveryKickIsExact(num: nat, events: seq<Event>, dev: DeviceView)
    requires RingSize(num) && LegalRun(Initial(num), events)
    ensures var q := Run(Initial(num), events);
      NeedsKick(q, true, dev) <==> InWindow(dev.availEvent, q.kicked, |q.log|)
  {
    InitialInv(num);
    RunInv(Initial(num), events);
    var q := Run(Initial(num), events);
    NeedEventExact(dev.availEvent, q.kicked, |q.log|);
  }

  // ------------------------------------------------------------ shutdown

  /** Calling virtqueue_detach_unused_buf until it returns NULL. */
  ghost function Drain(q: Queue): Queue
    decreases |q.pending|
  {
    var h := FirstPending(q, 0, q.num);
    if h == q.num then q
    else
      OneLess(q.pending, h);
      Drain(Withdraw(q, h))
  }

  /** The pending buffers in the order of their heads. */
  function PendingFrom(q: Queue, from: nat): seq<Completion>
    requires from <= q.num
    decreases q.num - from
  {
    if from == q.num then []
    else (if from in q.pending then [CompletionOf(q, from)] else []) + PendingFrom(q, from + 1)
  }

  lemma {:induction false} PendingFromFirst(q: Queue, from: nat, h: nat)
    requires from <= h <= q.num && forall i :: from <= i < h ==> i !in q.pending
    ensures PendingFrom(q, from) == PendingFrom(q, h)
    decreases h - from
  {
    if from < h {
      PendingFromFirst(q, from + 1, h);
    }
  }

  lemma {:induction false} PendingFromSame(q: Queue, r: Queue, from: nat)
    requires from <= q.num == r.num
    requires forall h :: from <= h < q.num ==>
      (h in q.pending <==> h in r.pending) && (h in q.pending ==> q.pending[h] == r.pending[h])
    ensures PendingFrom(q, from) == PendingFrom(r, from)
    decreases q.num - from
  {
    if from < q.num {
      PendingFromSame(q, r, from + 1);
    }
  }

  lemma WithdrawTakesFirst(q: Queue, h: nat)
    requires h < q.num && h in q.pending && forall i :: 0 <= i < h ==> i !in q.pending
    ensures PendingFrom(q, 0) == [CompletionOf(q, h)] + PendingFrom(Withdraw(q, h), 0)
  {
    var r := Withdraw(q, h);
    PendingFromFirst(q, 0, h);
    PendingFromFirst(r, 0, h + 1);
    PendingFromSame(q, r, h + 1);
  }

  /**
   From any state of any run the drain ends, hands out every pending token
   exactly once in the order of the heads, and leaves all descriptors free, so
   the check num_free == num at the end of virtqueue_detach_unused_buf passes.
   */
  lemma {:induction false} DrainReturnsAll(q: Queue)
    requires Inv(q)
    ensures Inv(Drain(q)) && Drain(q).pending == map[] && |Drain(q).free| == q.num
    ensures Drain(q).withdrawn == q.withdrawn + PendingFrom(q, 0)
    ensures Drain(q).returned == q.returned && Drain(q).num == q.num
    decreases |q.pending|
  {
    hide Sound;
    var h := FirstPending(q, 0, q.num);
    if h == q.num {
      NothingLeft(q);
      PendingFromFirst(q, 0, q.num);
    } else {
      OneLess(q.pending, h);
      WithdrawInv(q, h);
      WithdrawTakesFirst(q, h);
      DrainReturnsAll(Withdraw(q, h));
    }
  }

  lemma NothingLeft(q: Queue)
    requires Inv(q) && forall h :: 0 <= h < q.num ==> h !in q.pending
    ensures q.pending == map[] && |q.free| == q.num
  {
    HeadsBelow(q);
    assert q.pending == map[];
    FreePlusChains(q);
    NoChains(q.pending, q.num);
  }

  lemma {:induction false} NoChains(pending: map<nat, Entry>, n: nat)
    requires pending == map[]
    ensures ChainLengths(pending, n) == 0
  {
    if n > 0 {
      NoChains(pending, n - 1);
    }
  }
}
