/**
 What a device reads when it follows a published descriptor chain, directly or
 through an indirect table (sections 2.4.5 and 2.4.5.3 of Virtio 1.0).
 */
module ChainMeaning {
  import opened Words
  import opened Options
  import opened QueueSpec

  /** The free list as it is threaded through desc[].next. */
  ghost predicate FreeLinked(desc: seq<Desc>, free: seq<nat>, head: nat) {
    && (forall k :: 0 <= k < |free| ==> free[k] < |desc|)
    && (free != [] ==> head == free[0])
    && (forall k :: 0 <= k < |free| - 1 ==> desc[free[k]].next == free[k + 1])
  }

  /** The descriptors of a pending entry as they stand in the table. */
  ghost predicate Written(desc: seq<Desc>, e: Entry) {
    && (forall k :: 0 <= k < |e.path| ==> e.path[k] < |desc|)
    && match e.table
       case None =>
         && |e.path| == |e.bufs|
         && (forall k :: 0 <= k < |e.path| ==> Carries(desc[e.path[k]], e.bufs[k], k < |e.path| - 1))
         && (forall k :: 0 <= k < |e.path| - 1 ==> desc[e.path[k]].next == e.path[k + 1])
       case Some(t) =>
         && |e.path| == 1
         && desc[e.path[0]] == Desc(t.phys, DESC_BYTES * |t.entries|, false, false, true, desc[e.path[0]].next)
         && TableWritten(t.entries, e.bufs)
  }

  ghost predicate Carries(d: Desc, b: Buf, more: bool) {
    d == Desc(b.addr, b.len, more, b.writable, false, d.next)
  }

  ghost predicate TableWritten(table: seq<Desc>, bufs: seq<Buf>) {
    && |table| == |bufs|
    && (forall k :: 0 <= k < |table| ==> Carries(table[k], bufs[k], k < |table| - 1))
    && (forall k :: 0 <= k < |table| - 1 ==> table[k].next == k + 1)
  }

  /** Follow NEXT from entry i of a table; None if the chain is not well formed. */
  function Walk(table: seq<Desc>, i: nat, fuel: nat): Option<seq<Buf>>
    decreases fuel
  {
    if fuel == 0 || i >= |table| || table[i].indirect then None
    else
      var d := table[i];
      var b := Buf(d.addr, d.len, d.write);
      if !d.hasNext then Some([b])
      else match Walk(table, d.next, fuel - 1)
           case None => None
           case Some(rest) => Some([b] + rest)
  }

  /** The buffer list behind a head, given the tables found in guest memory. */
  function DeviceReads(desc: seq<Desc>, memory: map<nat, seq<Desc>>, head: nat): Option<seq<Buf>> {
    if head < |desc| && desc[head].indirect then
      var d := desc[head];
      if d.addr in memory && d.len == DESC_BYTES * |memory[d.addr]| && !d.hasNext then
        Walk(memory[d.addr], 0, |memory[d.addr]|)
      else None
    else Walk(desc, head, |desc|)
  }

  lemma {:induction false} WalkPath(table: seq<Desc>, path: seq<nat>, bufs: seq<Buf>, k: nat, fuel: nat)
    requires k < |path| == |bufs| && fuel >= |path| - k
    requires forall i :: 0 <= i < |path| ==> path[i] < |table| && Carries(table[path[i]], bufs[i], i < |path| - 1)
    requires forall i :: 0 <= i < |path| - 1 ==> table[path[i]].next == path[i + 1]
    ensures Walk(table, path[k], fuel) == Some(bufs[k..])
    decreases |path| - k
  {
    assert Carries(table[path[k]], bufs[k], k < |path| - 1);
    if k < |path| - 1 {
      WalkPath(table, path, bufs, k + 1, fuel - 1);
      assert bufs[k..] == [bufs[k]] + bufs[k + 1..];
    } else {
      assert bufs[k..] == [bufs[k]];
    }
  }

  /** The table that an indirect entry needs is in memory. */
  ghost predicate TableInMemory(e: Entry, memory: map<nat, seq<Desc>>) {
    e.table.Some? ==> e.table.value.phys in memory && memory[e.table.value.phys] == e.table.value.entries
  }

  /**
   Whatever form was used to publish it, a pending entry denotes exactly the
   buffers that the caller gave, in order.
   */
  lemma WrittenMeansBufs(desc: seq<Desc>, memory: map<nat, seq<Desc>>, e: Entry)
    requires Written(desc, e) && TableInMemory(e, memory) && e.path != [] && |e.path| <= |desc|
    requires e.table.Some? ==> e.bufs != []
    ensures DeviceReads(desc, memory, e.path[0]) == Some(e.bufs)
  {
    match e.table
    case None =>
      assert Carries(desc[e.path[0]], e.bufs[0], 0 < |e.path| - 1);
      WalkPath(desc, e.path, e.bufs, 0, |desc|);
      assert e.bufs[0..] == e.bufs;
    case Some(t) =>
      var path := seq(|t.entries|, i => i);
      WalkPath(t.entries, path, e.bufs, 0, |t.entries|);
      assert e.bufs[0..] == e.bufs;
  }

  /** Direct and indirect publication of the same list mean the same. */
  lemma IndirectMeansDirect(
      desc: seq<Desc>, memory: map<nat, seq<Desc>>, direct: Entry,
      desc': seq<Desc>, memory': map<nat, seq<Desc>>, indirect: Entry)
    requires Written(desc, direct) && direct.path != [] && |direct.path| <= |desc| && direct.table.None?
    requires Written(desc', indirect) && indirect.path != [] && |indirect.path| <= |desc'|
    requires indirect.table.Some? && TableInMemory(indirect, memory') && indirect.bufs == direct.bufs
    ensures DeviceReads(desc, memory, direct.path[0]) == DeviceReads(desc', memory', indirect.path[0])
  {
    WrittenMeansBufs(desc, memory, direct);
    WrittenMeansBufs(desc', memory', indirect);
  }

  /** The contents that vring_add_indirect writes form such a table. */
  lemma TableEntriesWritten(sg: seq<Sg>, out: nat)
    requires |sg| <= 0x1_0000
    ensures TableWritten(TableEntries(sg, out), Bufs(sg, out))
  {
    var t := TableEntries(sg, out);
    forall k | 0 <= k < |t| - 1 ensures t[k].next == k + 1 {
      WrapSmall(k);
      WrapSmall(k + 1);
    }
  }

  /** Changing descriptors outside a chain does not change the chain. */
  lemma WrittenFrame(desc: seq<Desc>, desc': seq<Desc>, e: Entry)
    requires Written(desc, e) && |desc'| == |desc|
    requires forall k :: 0 <= k < |e.path| ==> desc'[e.path[k]] == desc[e.path[k]]
    ensures Written(desc', e)
  {
  }
}
