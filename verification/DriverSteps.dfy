/**
 The driver steps of NotifyProtocol are the operations of QueueSpec, which the
 arrays of Vring implement: same counters, same stored flag and event index,
 same decisions.
 */
module DriverSteps {
  import opened Options
  import opened Words
  import opened QueueSpec
  import opened QueueRuns
  import P = NotifyProtocol

  /** The queue as the driver of the protocol sees it, and the device memory as the queue sees it. */
  predicate Matches(q: Queue, dev: DeviceView, s: P.State) {
    && s.added == |q.log| && s.kicked == q.kicked && s.got == |q.returned|
    && s.flagStored == !q.callbacks && s.eventStored == q.usedEvent
    && dev.idx == Wrap16(s.usedVisible) && dev.noNotify == s.noNotifyVisible && dev.availEvent == s.availEventVisible
  }

  /** A queue and a protocol start together. */
  lemma StartMatches(num: nat, dev: DeviceView)
    requires dev.idx == 0 && !dev.noNotify && dev.availEvent == 0
    ensures Matches(Initial(num), dev, P.Start())
  {
  }

  /** virtqueue_add_buf: a step of the protocol is possible, and the forced kick starts in the same state. */
  lemma AddMatches(c: P.Config, q: Queue, dev: DeviceView, s: P.State, sg: seq<Sg>, out: nat, token: Token,
                   phys: Option<nat>)
    requires Inv(q) && q.withdrawn == [] && c.num == q.num && Matches(q, dev, s) && s.pc == P.Idle
    requires MayAdd(q, |sg|, token, phys) && HasRoom(q, |sg|, phys)
    ensures P.Enabled(c, s, P.Add)
    ensures Matches(Added(q, sg, out, token, phys), dev, P.Apply(c, s, P.Add))
    ensures !c.always ==> (P.Apply(c, s, P.Add).pc == P.Kicking(false) <==> ForcesKick(Added(q, sg, out, token, phys)))
    ensures Add(q, sg, out, token, phys)
         == if ForcesKick(Added(q, sg, out, token, phys)) then Kick(Added(q, sg, out, token, phys))
            else Added(q, sg, out, token, phys)
  {
    PendingAtMostNum(q);
    hide Inv;
    assert |Added(q, sg, out, token, phys).log| == |q.log| + 1;
  }

  /** virtqueue_kick_prepare decides as the protocol does. */
  lemma KickMatches(c: P.Config, q: Queue, dev: DeviceView, s: P.State)
    requires Matches(q, dev, s) && P.Enabled(c, s, P.KickRead)
    ensures Matches(Kick(q), dev, P.Apply(c, s, P.KickRead))
    ensures NeedsKick(q, c.driverEvent, dev) <==> P.KickNeeded(c, s)
  {
    hide NeedEvent;
  }

  /** virtqueue_get_buf, on a device that offers only heads that are out whenever used->idx has moved. */
  lemma GetMatches(c: P.Config, q: Queue, dev: DeviceView, s: P.State)
    requires q.num >= 1 && |dev.ring| == q.num && Matches(q, dev, s) && s.pc == P.Idle
    requires Wrap16(s.got) != Wrap16(s.usedVisible) ==> Offered(q, dev).Some?
    ensures P.Enabled(c, s, P.Get)
    ensures Matches(Get(q, dev), dev, P.Apply(c, s, P.Get))
    ensures Offered(q, dev).Some? <==> P.Apply(c, s, P.Get).got == s.got + 1
  {
    hide P.KickNeeded, P.InterruptNeeded, P.WaitFor;
  }

  /** virtqueue_enable_cb, virtqueue_enable_cb_delayed and virtqueue_disable_cb. */
  lemma CallbacksMatch(c: P.Config, q: Queue, dev: DeviceView, s: P.State)
    requires q.withdrawn == [] && Matches(q, dev, s) && s.pc == P.Idle
    ensures P.Enabled(c, s, P.Enable(false)) && Matches(EnableCb(q), dev, P.Apply(c, s, P.Enable(false)))
    ensures P.Enabled(c, s, P.Enable(true)) && Matches(EnableCbDelayed(q), dev, P.Apply(c, s, P.Enable(true)))
    ensures P.Enabled(c, s, P.Disable) && Matches(DisableCb(q), dev, P.Apply(c, s, P.Disable))
  {
    hide P.KickNeeded, P.InterruptNeeded;
  }

  /** Both report whether more than the awaited buffers have come back meanwhile. */
  lemma EnableAnswerMatches(c: P.Config, q: Queue, dev: DeviceView, s: P.State)
    requires Matches(q, dev, s) && P.Enabled(c, s, P.EnableRead) && s.armed == None
    ensures P.Apply(c, s, P.EnableRead).armed.Some? <==> Wrap16(dev.idx - Wrap16(|q.returned|)) <= s.pc.bufs
    ensures s.pc.bufs == 0 ==> (P.Apply(c, s, P.EnableRead).armed.Some? <==> dev.idx == Wrap16(|q.returned|))
    ensures Matches(q, dev, P.Apply(c, s, P.EnableRead))
  {
    hide P.KickNeeded, P.InterruptNeeded, P.WaitFor;
  }
}
