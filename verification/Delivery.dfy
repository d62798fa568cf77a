/**
 Ring protocol and drain loop together: what the device has completed is what
 the driver gets back.
 */
module Delivery {
  import opened Gather
  import opened GpuBuf
  import opened Options
  import opened QueueRuns
  import opened QueueSpec
  import opened Words
  import B = BufferRuns
  import R = RingProtocol

  /** The device has taken, completed and published everything that was added. */
  predicate AllCompleted(s: R.System) {
    s.fetched == |s.q.log| && s.inFlight == multiset{} && s.usedPublished == |s.done|
  }

  /** One get of the drain loop is a step of the ring protocol. */
  lemma DrainStep(s: R.System)
    requires R.SystemInv(s) && AllCompleted(s) && |s.usedRing| == s.q.num && s.q.num >= 1
    requires Offered(s.q, R.View(s)) != None
    ensures var s' := s.(q := Get(s.q, R.View(s)));
      && R.SystemInv(s') && AllCompleted(s') && R.View(s') == R.View(s)
      && |s'.q.pending| < |s.q.pending| && s'.q.num == s.q.num
      && NextToken(s.q, R.View(s)) != NULL
      && B.Tokens(s.q) == B.Tokens(s'.q) + multiset{NextToken(s.q, R.View(s))}
  {
    hide Inv, R.AvailAhead, R.UsedAhead, R.HeadsConserved, Offered, Get, B.Tokens, NextToken;
    assert R.Enabled(s, R.DriverGet);
    R.ActionKeeps(s, R.DriverGet);
    GetTakesOne(s.q, R.View(s));
    GetNum(s.q, R.View(s));
    GetKeepsLog(s.q, R.View(s));
    OfferedToken(s.q, R.View(s));
    B.GetMovesToken(s.q, R.View(s));
  }

  lemma GetKeepsLog(q: Queue, dev: DeviceView)
    requires |dev.ring| == q.num && q.num >= 1
    ensures Get(q, dev).log == q.log
  {
  }

  lemma OfferedToken(q: Queue, dev: DeviceView)
    requires Inv(q) && |dev.ring| == q.num && Offered(q, dev) != None
    ensures NextToken(q, dev) != NULL
  {
    var h := Offered(q, dev).value;
    assert EntryOk(q.num, q.log, h, q.pending[h]);
  }

  lemma NothingOffered(s: R.System)
    requires R.SystemInv(s) && AllCompleted(s) && |s.usedRing| == s.q.num && s.q.num >= 1
    requires Offered(s.q, R.View(s)) == None
    ensures s.q.pending == map[] && B.Tokens(s.q) == multiset{}
  {
    hide Inv, R.AvailAhead, R.UsedAhead, R.HeadsConserved, Offered, ExactlyOnce;
    R.GetAcceptsNext(s);
    R.QuietIsEmpty(s);
    GatheredEmpty(B.TokenMap(s.q.pending), s.q.num);
  }

  /** A device that has nothing more to write. */
  function Steady(dev: DeviceView): nat -> DeviceView {
    (k: nat) => dev
  }

  lemma {:induction false} CompletedDrains(s: R.System, views: nat -> DeviceView, k: nat)
    requires R.SystemInv(s) && AllCompleted(s) && |s.usedRing| == s.q.num && s.q.num >= 1
    requires forall i: nat :: views(i) == R.View(s)
    ensures ViewsFit(s.q.num, views) && Drained(s.q, views, k).0.pending == map[]
    ensures multiset(Drained(s.q, views, k).1) == B.Tokens(s.q)
    decreases |s.q.pending|
  {
    hide R.SystemInv, AllCompleted, Offered, Get, Drained, B.Tokens, NextToken;
    DrainedUnfolds(s.q, views, k);
    if Offered(s.q, views(k)) == None {
      NothingOffered(s);
    } else {
      DrainStep(s);
      CompletedDrains(s.(q := Get(s.q, views(k))), views, k + 1);
    }
  }

  /**
   In every interleaving of driver and device: once the device has completed
   and published everything, one drain empties the ring and returns each
   outstanding buffer exactly once.
   */
  lemma EveryBufferComesBack(num: nat, actions: seq<R.Action>)
    requires RingSize(num) && R.EnabledRun(R.Start(num), actions)
    ensures var s := R.RunOf(R.Start(num), actions);
      ViewsFit(s.q.num, Steady(R.View(s))) && (AllCompleted(s) ==>
        && Drained(s.q, Steady(R.View(s)), 0).0.pending == map[]
        && multiset(Drained(s.q, Steady(R.View(s)), 0).1) == B.Tokens(s.q))
  {
    R.StartInv(num);
    R.RunKeeps(R.Start(num), actions);
    var s := R.RunOf(R.Start(num), actions);
    hide R.RunOf, R.EnabledRun;
    assert |s.usedRing| == s.q.num && s.q.num >= 1;
    if AllCompleted(s) {
      CompletedDrains(s, Steady(R.View(s)), 0);
    }
  }
}
