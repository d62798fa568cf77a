/**
 Driver and device on one ring, step by step. The driver is the queue of
 QueueSpec with its writes split at the publication of avail->idx; the device
 follows sections 2.4.6 and 2.4.8 of Virtio 1.0: it takes heads in order,
 completes what it has taken in any order, and publishes used->idx later.
 Both sides compute slots by masking 16-bit indices.
 */
module RingProtocol {
  import opened Words
  import opened Gather
  import opened Options
  import opened QueueSpec
  import opened QueueRuns
  import opened Vring

  datatype System = System(
    q: Queue,                   // the driver
    published: nat,             // counter behind the visible avail->idx
    availRing: seq<nat>,
    fetched: nat,               // entries the device has taken
    inFlight: multiset<nat>,    // heads taken and not completed
    usedRing: seq<UsedElem>,
    done: seq<nat>,             // heads completed, in completion order
    usedPublished: nat          // counter behind the visible used->idx
  )

  datatype Action =
    | DriverAdd(sg: seq<Sg>, out: nat, token: Token, phys: Option<nat>)
    | DriverPublish(entries: nat)
    | DriverGet
    | DeviceFetch
    | DeviceComplete(head: nat, len: u32)
    | DevicePublish(elements: nat)

  /** The slot of a counter, computed from its 16-bit index. */
  ghost function Slot(c: nat, num: nat): (slot: nat)
    requires RingSize(num)
    ensures slot == c % num < num
  {
    SlotOfCounter(c, num);
    And(Wrap16(c), num - 1)
  }

  function Start(num: nat): System {
    System(Initial(num), 0, seq(num, i => 0), 0, multiset{}, seq(num, i => UsedElem(0, 0)), [], 0)
  }

  /** What the driver sees of the device. */
  function View(s: System): DeviceView {
    DeviceView(Wrap16(s.usedPublished), false, 0, s.usedRing)
  }

  ghost predicate Shape(s: System) {
    RingSize(s.q.num) && |s.availRing| == s.q.num && |s.usedRing| == s.q.num
  }

  ghost predicate Enabled(s: System, a: Action)
    requires Shape(s)
  {
    match a
    case DriverAdd(sg, out, token, phys) => out <= |sg| && MayAdd(s.q, |sg|, token, phys) && HasRoom(s.q, |sg|, phys)
    case DriverPublish(entries) => s.published <= entries <= |s.q.log|
    case DriverGet => true
    case DeviceFetch => Wrap16(s.fetched) != Wrap16(s.published)
    case DeviceComplete(head, len) => head in s.inFlight && head < U32_SIZE
    case DevicePublish(elements) => s.usedPublished <= elements <= |s.done|
  }

  ghost function Apply(s: System, a: Action): System
    requires Shape(s) && Enabled(s, a)
  {
    match a
    case DriverAdd(sg, out, token, phys) =>
      var q' := Add(s.q, sg, out, token, phys);
      s.(q := q', availRing := s.availRing[Slot(|s.q.log|, s.q.num) := q'.log[|s.q.log|].head])
    case DriverPublish(entries) => s.(published := entries)
    case DriverGet => s.(q := Get(s.q, View(s)))
    case DeviceFetch =>
      s.(inFlight := s.inFlight + multiset{s.availRing[Slot(s.fetched, s.q.num)]}, fetched := s.fetched + 1)
    case DeviceComplete(head, len) =>
      s.(inFlight := s.inFlight - multiset{head}, done := s.done + [head],
         usedRing := s.usedRing[Slot(|s.done|, s.q.num) := UsedElem(head, len)])
    case DevicePublish(elements) => s.(usedPublished := elements)
  }

  function Heads(log: seq<Submission>): seq<nat> {
    seq(|log|, i requires 0 <= i < |log| => log[i].head)
  }

  /** Avail slots not yet taken hold the heads that were added. */
  ghost predicate AvailAhead(s: System)
    requires Shape(s)
  {
    forall k {:trigger s.q.log[k]} :: s.fetched <= k < |s.q.log| ==> s.availRing[k % s.q.num] == s.q.log[k].head
  }

  /** Used slots not yet read by the driver hold the heads that were completed. */
  ghost predicate UsedAhead(s: System)
    requires Shape(s)
  {
    forall k {:trigger s.done[k]} :: |s.q.returned| <= k < |s.done| ==> s.usedRing[k % s.q.num].id == s.done[k]
  }

  ghost predicate Ordered(s: System) {
    |s.q.returned| <= s.usedPublished <= |s.done| <= s.fetched <= s.published <= |s.q.log| <= |s.q.returned| + s.q.num
  }

  /** The pending heads are those still ahead of the device, with it, or behind it. */
  ghost predicate HeadsConserved(s: System)
    requires Ordered(s)
  {
    multiset(Heads(s.q.log[s.fetched..])) + s.inFlight + multiset(s.done[|s.q.returned|..])
    == multiset(s.q.pending.Keys)
  }

  ghost predicate SystemInv(s: System) {
    && Shape(s) && Inv(s.q) && s.q.withdrawn == []
    && Ordered(s)
    && |s.done| + |s.inFlight| == s.fetched
    && AvailAhead(s) && UsedAhead(s) && HeadsConserved(s)
  }

  // ------------------------------------------------------- safety of one step

  /** add_buf writes into a slot that holds no head the device has yet to take. */
  lemma AddOverwritesNothing(s: System, a: Action)
    requires SystemInv(s) && a.DriverAdd? && Enabled(s, a)
    ensures forall k: nat :: s.fetched <= k < |s.q.log| ==> Slot(k, s.q.num) != Slot(|s.q.log|, s.q.num)
    ensures |s.q.log| < |s.q.returned| + s.q.num
  {
    RoomForOne(s.q);
    forall k: nat | s.fetched <= k < |s.q.log| ensures Slot(k, s.q.num) != Slot(|s.q.log|, s.q.num) {
      SlotsDiffer(k, |s.q.log|, s.q.num);
    }
  }

  lemma RoomForOne(q: Queue)
    requires Inv(q) && q.free != [] && q.withdrawn == []
    ensures |q.log| < |q.returned| + q.num
  {
    PendingAtMostNum(q);
  }

  /** The device writes into a slot that the driver has already read. */
  lemma CompleteOverwritesNothing(s: System, a: Action)
    requires SystemInv(s) && a.DeviceComplete? && Enabled(s, a)
    ensures forall k: nat :: |s.q.returned| <= k < |s.done| ==> Slot(k, s.q.num) != Slot(|s.done|, s.q.num)
  {
    assert |s.inFlight| >= 1 by {
      assert s.inFlight == (s.inFlight - multiset{a.head}) + multiset{a.head};
    }
    forall k: nat | |s.q.returned| <= k < |s.done| ensures Slot(k, s.q.num) != Slot(|s.done|, s.q.num) {
      SlotsDiffer(k, |s.done|, s.q.num);
    }
  }

  /** The head taken by the device is the next one added, is pending, and is not with the device yet. */
  lemma FetchTakesNext(s: System)
    requires SystemInv(s) && Enabled(s, DeviceFetch)
    ensures s.fetched < |s.q.log| && s.availRing[Slot(s.fetched, s.q.num)] == s.q.log[s.fetched].head
    ensures s.q.log[s.fetched].head in s.q.pending && s.q.log[s.fetched].head !in s.inFlight
  {
    hide Inv, UsedAhead, HeadsConserved;
    SameIndex(s.fetched, s.published);
    assert s.q.log[s.fetched].head == s.availRing[s.fetched % s.q.num];
    NextHeadIsOut(s);
  }

  lemma NextHeadIsOut(s: System)
    requires Ordered(s) && HeadsConserved(s) && s.fetched < |s.q.log|
    ensures s.q.log[s.fetched].head in s.q.pending && s.q.log[s.fetched].head !in s.inFlight
  {
    var h := s.q.log[s.fetched].head;
    var ahead := Heads(s.q.log[s.fetched..]);
    assert ahead[0] == h;
    OneOfKeys(multiset(ahead), s.inFlight, multiset(s.done[|s.q.returned|..]), s.q.pending.Keys, h);
  }

  lemma OneOfKeys(a: multiset<nat>, b: multiset<nat>, c: multiset<nat>, keys: set<nat>, h: nat)
    requires a + b + c == multiset(keys) && h in a
    ensures h in keys && h !in b
  {
    assert multiset(keys)[h] == a[h] + b[h] + c[h];
  }

  /**
   Whenever used->idx differs from the last index seen, get_buf finds the next
   completed head in its slot and accepts it: no id is out of range or unknown.
   */
  lemma GetAcceptsNext(s: System)
    requires SystemInv(s)
    ensures Wrap16(|s.q.returned|) != Wrap16(s.usedPublished) <==> |s.q.returned| < s.usedPublished
    ensures |s.q.returned| < s.usedPublished ==> Offered(s.q, View(s)) == Some(s.done[|s.q.returned|])
    ensures |s.q.returned| == s.usedPublished ==> Offered(s.q, View(s)) == None
  {
    SameIndex(|s.q.returned|, s.usedPublished);
    if |s.q.returned| < s.usedPublished {
      var r := |s.q.returned|;
      assert s.done[r] == s.done[r..][0];
      assert s.done[r] in multiset(s.done[r..]);
      assert s.done[r] in multiset(s.q.pending.Keys);
      assert s.usedRing[r % s.q.num].id == s.done[r];
      assert EntryOk(s.q.num, s.q.log, s.done[r], s.q.pending[s.done[r]]);
    }
  }

  // ------------------------------------------------------- every step keeps it

  lemma StartInv(num: nat)
    requires RingSize(num)
    ensures SystemInv(Start(num))
  {
    InitialInv(num);
  }

  lemma AddKeeps(s: System, a: Action)
    requires SystemInv(s) && a.DriverAdd? && Enabled(s, a)
    ensures SystemInv(Apply(s, a))
  {
    hide Inv, AvailAhead, UsedAhead, HeadsConserved, Add;
    AddOverwritesNothing(s, a);
    AddInv(s.q, a.sg, a.out, a.token, a.phys);
    AddedShape(s.q, a.sg, a.out, a.token, a.phys);
    AddKeepsRings(s, a);
    AddKeepsHeads(s, a);
  }

  lemma AddedShape(q: Queue, sg: seq<Sg>, out: nat, token: Token, phys: Option<nat>)
    requires Inv(q) && MayAdd(q, |sg|, token, phys) && HasRoom(q, |sg|, phys)
    ensures var q' := Add(q, sg, out, token, phys);
      && |q'.log| == |q.log| + 1 && q'.log[..|q.log|] == q.log && q'.num == q.num
      && q'.returned == q.returned && q'.withdrawn == q.withdrawn
      && q'.log[|q.log|].head !in q.pending
      && q'.pending.Keys == q.pending.Keys + {q'.log[|q.log|].head}
  {
    hide Sound, Bufs, TableEntries, Submit;
    FreeHeadOfSound(q);
    if GoesIndirect(q, |sg|, phys) {
      SubmittedShape(q, 1, token, Bufs(sg, out), Some(Table(phys.value, TableEntries(sg, out))));
    } else {
      SubmittedShape(q, |sg|, token, Bufs(sg, out), None);
    }
  }

  lemma FreeHeadOfSound(q: Queue)
    requires Sound(q) && q.free != []
    ensures q.free[0] !in q.pending
  {
    FreeHeadIsFree(q);
  }

  lemma SubmittedShape(q: Queue, n: nat, token: Token, bufs: seq<Buf>, table: Option<Table>)
    requires 1 <= n <= |q.free|
    ensures var q' := Submit(q, n, token, bufs, table);
      && q'.log == q.log + [Submission(q.free[0], token)] && q'.num == q.num
      && q'.returned == q.returned && q'.withdrawn == q.withdrawn && q'.kicked == q.kicked
      && q'.pending.Keys == q.pending.Keys + {q.free[0]}
  {
  }

  lemma AddKeepsRings(s: System, a: Action)
    requires SystemInv(s) && a.DriverAdd? && Enabled(s, a)
    ensures AvailAhead(Apply(s, a)) && UsedAhead(Apply(s, a))
  {
    hide Inv, HeadsConserved, Add, Slot, MayAdd, HasRoom;
    AddOverwritesNothing(s, a);
    AddedShape(s.q, a.sg, a.out, a.token, a.phys);
    var s' := Apply(s, a);
    forall k | s'.fetched <= k < |s'.q.log| ensures s'.availRing[k % s.q.num] == s'.q.log[k].head {
      if k < |s.q.log| {
        assert Slot(k, s.q.num) == k % s.q.num;
        assert s'.q.log[k] == s'.q.log[..|s.q.log|][k] == s.q.log[k];
      }
    }
  }

  lemma AddKeepsHeads(s: System, a: Action)
    requires SystemInv(s) && a.DriverAdd? && Enabled(s, a)
    ensures Ordered(Apply(s, a)) && HeadsConserved(Apply(s, a))
  {
    hide Inv, AvailAhead, UsedAhead, Add, Slot;
    AddOverwritesNothing(s, a);
    AddedShape(s.q, a.sg, a.out, a.token, a.phys);
    var s' := Apply(s, a);
    var h := s'.q.log[|s.q.log|].head;
    assert Heads(s'.q.log[s.fetched..]) == Heads(s.q.log[s.fetched..]) + [h] by {
      assert s'.q.log == s.q.log + [s'.q.log[|s.q.log|]];
    }
    KeysPlus(s.q.pending.Keys, h);
  }

  lemma KeysPlus(keys: set<nat>, h: nat)
    requires h !in keys
    ensures multiset(keys + {h}) == multiset(keys) + multiset{h}
  {
  }

  lemma KeysMinus(keys: set<nat>, h: nat)
    requires h in keys
    ensures multiset(keys) == multiset(keys - {h}) + multiset{h}
  {
  }

  lemma GetKeeps(s: System)
    requires SystemInv(s)
    ensures SystemInv(Apply(s, DriverGet))
  {
    hide Inv, AvailAhead, UsedAhead, HeadsConserved;
    GetInv(s.q, View(s));
    GetAcceptsNext(s);
    hide Inv;
    var s' := Apply(s, DriverGet);
    if |s.q.returned| < s.usedPublished {
      GetKeepsHeads(s);
      GetKeepsRings(s);
    }
  }

  lemma GetKeepsRings(s: System)
    requires SystemInv(s) && |s.q.returned| < s.usedPublished
    ensures AvailAhead(Apply(s, DriverGet)) && UsedAhead(Apply(s, DriverGet))
  {
    hide Inv, HeadsConserved;
    GetAcceptsNext(s);
  }

  lemma GetKeepsHeads(s: System)
    requires SystemInv(s) && |s.q.returned| < s.usedPublished
    ensures Ordered(Apply(s, DriverGet)) && HeadsConserved(Apply(s, DriverGet))
  {
    hide Inv, AvailAhead, UsedAhead;
    GetAcceptsNext(s);
    var r := |s.q.returned|;
    var h := s.done[r];
    var s' := Apply(s, DriverGet);
    assert s.done[r..] == [h] + s.done[r + 1..];
    assert s'.q.pending.Keys == s.q.pending.Keys - {h};
    KeysMinus(s.q.pending.Keys, h);
    TakeOne(multiset(Heads(s.q.log[s.fetched..])) + s.inFlight, multiset(s.done[r + 1..]), h,
            multiset(s.q.pending.Keys - {h}));
  }

  lemma TakeOne(rest: multiset<nat>, behind: multiset<nat>, h: nat, keys: multiset<nat>)
    requires rest + (multiset{h} + behind) == keys + multiset{h}
    ensures rest + behind == keys
  {
    assert rest + behind == (rest + (multiset{h} + behind)) - multiset{h};
    assert keys == (keys + multiset{h}) - multiset{h};
  }

  lemma FetchKeeps(s: System)
    requires SystemInv(s) && Enabled(s, DeviceFetch)
    ensures SystemInv(Apply(s, DeviceFetch))
  {
    hide Inv, UsedAhead, HeadsConserved;
    FetchTakesNext(s);
    FetchKeepsHeads(s);
    SameUsed(s, Apply(s, DeviceFetch));
  }

  lemma FetchKeepsHeads(s: System)
    requires SystemInv(s) && Enabled(s, DeviceFetch)
    ensures Ordered(Apply(s, DeviceFetch)) && HeadsConserved(Apply(s, DeviceFetch))
  {
    hide Inv, AvailAhead, UsedAhead;
    FetchTakesNext(s);
    SameIndex(s.fetched, s.published);
    var h := s.q.log[s.fetched].head;
    var ahead := multiset(Heads(s.q.log[s.fetched + 1..]));
    assert Heads(s.q.log[s.fetched..]) == [h] + Heads(s.q.log[s.fetched + 1..]);
    Move(multiset{h}, ahead, s.inFlight);
  }

  lemma SameUsed(s: System, s': System)
    requires Shape(s) && Shape(s') && UsedAhead(s) && s'.q == s.q && s'.usedRing == s.usedRing && s'.done == s.done
    ensures UsedAhead(s')
  {
  }

  lemma CompleteKeeps(s: System, a: Action)
    requires SystemInv(s) && a.DeviceComplete? && Enabled(s, a)
    ensures SystemInv(Apply(s, a))
  {
    hide Inv, AvailAhead, UsedAhead, HeadsConserved;
    var one := multiset{a.head};
    assert s.inFlight == (s.inFlight - one) + one;
    CompleteKeepsUsed(s, a);
    CompleteKeepsHeads(s, a);
    SameAvail(s, Apply(s, a));
  }

  lemma SameAvail(s: System, s': System)
    requires Shape(s) && Shape(s') && AvailAhead(s) && s'.q == s.q && s'.availRing == s.availRing
    requires s'.fetched == s.fetched
    ensures AvailAhead(s')
  {
  }

  lemma CompleteKeepsUsed(s: System, a: Action)
    requires SystemInv(s) && a.DeviceComplete? && Enabled(s, a)
    ensures UsedAhead(Apply(s, a))
  {
    hide Inv, HeadsConserved, AvailAhead, Slot;
    CompleteOverwritesNothing(s, a);
    var s' := Apply(s, a);
    forall k | |s'.q.returned| <= k < |s'.done| ensures s'.usedRing[k % s.q.num].id == s'.done[k] {
      if k < |s.done| {
        assert Slot(k, s.q.num) == k % s.q.num;
        assert s'.done[k] == s.done[k];
      }
    }
  }

  lemma CompleteKeepsHeads(s: System, a: Action)
    requires SystemInv(s) && a.DeviceComplete? && Enabled(s, a)
    requires s.inFlight == (s.inFlight - multiset{a.head}) + multiset{a.head}
    ensures Ordered(Apply(s, a)) && HeadsConserved(Apply(s, a))
  {
    hide Inv, AvailAhead, UsedAhead, Slot;
    var s' := Apply(s, a);
    var r := |s.q.returned|;
    var one := multiset{a.head};
    assert s'.done[r..] == s.done[r..] + [a.head];
    Move(one, s.inFlight - one, multiset(s.done[r..]));
    var ahead := multiset(Heads(s.q.log[s.fetched..]));
    assert ahead + (s.inFlight - one) + (multiset(s.done[r..]) + one) == ahead + s.inFlight + multiset(s.done[r..]);
  }

  lemma ActionKeeps(s: System, a: Action)
    requires SystemInv(s) && Enabled(s, a)
    ensures SystemInv(Apply(s, a)) && Apply(s, a).q.num == s.q.num
  {
    match a
    case DriverAdd(_, _, _, _) => AddKeeps(s, a);
    case DriverGet => GetKeeps(s);
    case DeviceFetch => FetchKeeps(s);
    case DeviceComplete(_, _) => CompleteKeeps(s, a);
    case _ =>
  }

  // ------------------------------------------------------------ whole runs

  ghost predicate EnabledRun(s: System, actions: seq<Action>)
    decreases |actions|
  {
    && Shape(s)
    && (actions == [] || (Enabled(s, actions[0]) && EnabledRun(Apply(s, actions[0]), actions[1..])))
  }

  ghost function RunOf(s: System, actions: seq<Action>): System
    requires EnabledRun(s, actions)
    decreases |actions|
  {
    if actions == [] then s else RunOf(Apply(s, actions[0]), actions[1..])
  }

  lemma {:induction false} RunKeeps(s: System, actions: seq<Action>)
    requires SystemInv(s) && EnabledRun(s, actions)
    ensures SystemInv(RunOf(s, actions))
    decreases |actions|
  {
    hide SystemInv, Enabled;
    if actions != [] {
      ActionKeeps(s, actions[0]);
      RunKeeps(Apply(s, actions[0]), actions[1..]);
    }
  }

  /** What a reachable state promises whichever side moves next. */
  ghost predicate Safe(s: System) {
    && Shape(s) && Ordered(s)
    && (forall a: Action :: a.DriverAdd? && Enabled(s, a) ==>
          forall k: nat :: s.fetched <= k < |s.q.log| ==> Slot(k, s.q.num) != Slot(|s.q.log|, s.q.num))
    && (forall a: Action :: a.DeviceComplete? && Enabled(s, a) ==>
          forall k: nat :: |s.q.returned| <= k < |s.done| ==> Slot(k, s.q.num) != Slot(|s.done|, s.q.num))
    && (Enabled(s, DeviceFetch) ==>
          s.fetched < |s.q.log| && s.availRing[Slot(s.fetched, s.q.num)] == s.q.log[s.fetched].head)
    && (|s.q.returned| < s.usedPublished ==> Offered(s.q, View(s)) == Some(s.done[|s.q.returned|]))
  }

  /**
   In every interleaving neither side overwrites a slot that the other has not
   read, and each side reads exactly what the other meant, across all wraps.
   */
  lemma EveryInterleavingIsSafe(num: nat, actions: seq<Action>)
    requires RingSize(num) && EnabledRun(Start(num), actions)
    ensures Safe(RunOf(Start(num), actions))
  {
    hide SystemInv, Safe;
    StartInv(num);
    RunKeeps(Start(num), actions);
    InvIsSafe(RunOf(Start(num), actions));
  }

  lemma InvIsSafe(s: System)
    requires SystemInv(s)
    ensures Safe(s)
  {
    hide Inv, AvailAhead, UsedAhead, HeadsConserved, Enabled, Offered, Slot;
    forall a: Action | a.DriverAdd? && Enabled(s, a)
      ensures forall k: nat :: s.fetched <= k < |s.q.log| ==> Slot(k, s.q.num) != Slot(|s.q.log|, s.q.num)
    {
      AddOverwritesNothing(s, a);
    }
    forall a: Action | a.DeviceComplete? && Enabled(s, a)
      ensures forall k: nat :: |s.q.returned| <= k < |s.done| ==> Slot(k, s.q.num) != Slot(|s.done|, s.q.num)
    {
      CompleteOverwritesNothing(s, a);
    }
    if Enabled(s, DeviceFetch) {
      FetchTakesNext(s);
    }
    GetAcceptsNext(s);
  }

  /**
   No buffer is lost: once the device holds nothing, has taken everything and
   the driver has read every completion, nothing is pending, and each token
   added was returned exactly once.
   */
  lemma QuietMeansAllReturned(num: nat, actions: seq<Action>)
    requires RingSize(num) && EnabledRun(Start(num), actions)
    ensures var s := RunOf(Start(num), actions);
      s.fetched == |s.q.log| && s.inFlight == multiset{} && |s.q.returned| == |s.done| ==>
        s.q.pending == map[] && |s.q.returned| == |s.q.log| && ExactlyOnce(s.q)
  {
    hide SystemInv, ExactlyOnce;
    StartInv(num);
    RunKeeps(Start(num), actions);
    QuietIsEmpty(RunOf(Start(num), actions));
  }

  lemma QuietIsEmpty(s: System)
    requires SystemInv(s)
    ensures ExactlyOnce(s.q)
    ensures s.fetched == |s.q.log| && s.inFlight == multiset{} && |s.q.returned| == |s.done| ==>
      s.q.pending == map[] && |s.q.returned| == |s.q.log|
  {
    hide ExactlyOnce, AvailAhead, UsedAhead, HeadsConserved, DescriptorsConserved, BuffersConserved, EntriesOk,
         CompletionsOk;
    InvExactlyOnce(s.q);
    if s.fetched == |s.q.log| && s.inFlight == multiset{} && |s.q.returned| == |s.done| {
      assert |s.inFlight| == 0;
    }
  }
}
