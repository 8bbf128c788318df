/** Who goes next: the priority among lanes, priority reads, read-backs, and what a poll pass queues. */
module HubOrder {
  import opened Basics
  import opened RingBuffers
  import opened AddressSpaces
  import opened PollSchedule
  import opened HubModel
  import opened HubInvariants
  import opened HubBus

  // --- lanes -------------------------------------------------------------------------------------

  predicate Identifying(h: Hub) {
    !h.ident.IdentIdle? && !h.ident.IdentDone?
  }

  /**
   Strict priority. What an offer sends comes from the first of these that has something to
   send: the armed merge, identification, the raw lane, the write lane, the read lane; and
   from the head of that lane, reads after their affinity move.
   */
  lemma DispatchPriority(c: Config, h: Hub, now: u32, v: Verdict, reqs: seq<Request>)
    requires Dispatch(c, h, now, v, reqs).telegram.Some?
    ensures var k := Dispatch(c, h, now, v, reqs).telegram.value.kind;
            && SlotFree(h)
            && (h.rmwPending.Some? <==> k.MergedWrite?)
            && (k.MergedWrite? ==> k.e == h.rmwPending.value)
            && (k.IdentRead? <==> h.rmwPending.None? && Identifying(h))
            && (k.RawTelegram? <==> h.rmwPending.None? && !Identifying(h) && h.rawLane != [])
            && (k.PlainWrite? || k.RmwRead? <==>
                  h.rmwPending.None? && !Identifying(h) && h.rawLane == [] && h.writeLane != [])
            && (k.PlainWrite? || k.RmwRead? ==> k.e == h.writeLane[0] && (k.RmwRead? <==> NeedsRmw(c, k.e)))
            && (k.PollRead? ==> h.writeLane == [] && AffineLane(c, h) != [] && k.e == AffineLane(c, h)[0])
  {}

  /** A read asked for with priority is the next one, and every read that was waiting still waits. */
  lemma PriorityReadIsNext(c: Config, h: Hub, e: nat)
    requires Inv(c, h) && e < |c.entities| && !ReadFlying(h, e)
    ensures var r := RequestPriorityRead(c, h, e);
            && r.ok && Inv(c, r.hub) && r.hub.readLane != [] && r.hub.readLane[0] == e
            && (forall x :: x in r.hub.readLane <==> x == e || x in h.readLane)
            && SlotSame(h, r.hub)
  {
    RequestPriorityReadInv(c, h, e);
    assert FlagsOk(h, e);
    if Get(h, e).readQueued {
      MoveFirstIfKeepsMembers(h.readLane, Is(e));
      HeadIs(h.readLane, e);
    }
  }

  lemma HeadIs(lane: seq<nat>, e: nat)
    requires e in lane
    ensures MoveFirst(lane, e) != [] && MoveFirst(lane, e)[0] == e
  {
    var i :| 0 <= i < |lane| && lane[i] == e;
    assert Is(e)(lane[i]);
  }

  // --- read-backs --------------------------------------------------------------------------------------

  /** Its state is read at the register another entity wrote, and in that space: polled, not computed on demand. */
  predicate ShowsRegister(c: Config, writer: nat, s: nat)
    requires writer < |c.entities|
  {
    && s < |c.entities| && s != writer
    && c.entities[s].polled && (c.clock.Some? ==> c.clock.value.id != s)
    && c.entities[s].readAddr == c.entities[writer].writeAddr
    && c.entities[s].space == c.entities[writer].space && c.entities[s].space != RPC
  }

  lemma PriorityReadAdds(c: Config, h: Hub, e: nat, s: nat)
    requires Inv(c, h) && SlotFree(h) && e < |c.entities|
    ensures var r := RequestPriorityRead(c, h, e).hub;
            Inv(c, r) && SlotFree(r) && (s in r.readLane <==> s in h.readLane || s == e)
  {
    PriorityReadIsNext(c, h, e);
  }

  lemma {:induction false} RefreshAdds(c: Config, h: Hub, writer: nat, n: nat, s: nat)
    requires Inv(c, h) && SlotFree(h) && n <= |c.entities| && writer < |c.entities|
    ensures var r := RefreshBelow(c, h, writer, n);
            Inv(c, r) && SlotFree(r) && (s in r.readLane <==> s in h.readLane || (s < n && ShowsRegister(c, writer, s)))
    decreases n
  {
    if n > 0 {
      RefreshAdds(c, h, writer, n - 1, s);
      PriorityReadAdds(c, RefreshBelow(c, h, writer, n - 1), n - 1, s);
    }
  }

  lemma ReadBacksAdd(c: Config, h: Hub, e: nat, s: nat)
    requires Inv(c, h) && SlotFree(h) && e < |c.entities|
    ensures var r := ReadBacks(c, h, e);
            && (s in r.readLane <==> s in h.readLane || ShowsRegister(c, e, s) || (s == e && c.entities[e].readBack))
            && (c.entities[e].readBack ==> r.readLane != [] && r.readLane[0] == e)
  {
    var checked := if !Of(c, e).readBack then DropVerify(h, e) else h;
    DropVerifyInv(c, h, e);
    RefreshAdds(c, checked, e, |c.entities|, s);
    var siblings := RefreshBelow(c, checked, e, |c.entities|);
    PriorityReadAdds(c, siblings, e, s);
    PriorityReadIsNext(c, siblings, e);
  }

  /**
   After an acknowledgement that is not superseded, whatever the write's handler asked for
   first, the reads that wait are exactly those that waited then, the writer's own read-back,
   in front of all, and those of every other polled entity shown at the register written.
   */
  lemma AcknowledgedWriteReadsBack(c: Config, h: Hub, reqs: seq<Request>, s: nat)
    requires ValidConfig(c) && Inv(c, h) && ValidRequests(c, reqs) && h.inFlight.Some? && h.op == WriteOp
    requires !Get(h, h.inFlight.value).writeQueued
    ensures var e := h.inFlight.value;
            var handled := HandleWriteResponse(c, EndWrite(FreeSlot(h), e), e, reqs);
            var r := Acknowledge(c, FreeSlot(h), e, reqs);
            && (s in r.readLane <==>
                  s in handled.readLane || ShowsRegister(c, e, s) || (s == e && c.entities[e].readBack))
            && (reqs == [] ==> handled.readLane == h.readLane)
            && (c.entities[e].readBack ==> r.readLane != [] && r.readLane[0] == e)
  {
    var e := h.inFlight.value;
    var ended := EndWrite(FreeSlot(h), e);
    FlownWriteInv(c, h);
    HandleWriteResponseInv(c, ended, e, reqs);
    CallbacksSlot(c, ended, e, [], NoSource, reqs);
    ReadBacksAdd(c, HandleWriteResponse(c, ended, e, reqs), e, s);
  }

  /** A superseded write reads nothing back: the newer one will. */
  lemma SupersededReadsNothing(c: Config, h: Hub, reqs: seq<Request>)
    requires Inv(c, h) && h.inFlight.Some? && h.op == WriteOp && Get(h, h.inFlight.value).writeQueued
    ensures var r := Acknowledge(c, FreeSlot(h), h.inFlight.value, reqs);
            r.readLane == h.readLane && r.writeLane == h.writeLane && r.verify != h.inFlight
  {
    assert FlagsOk(h, h.inFlight.value);
  }

  // --- polling ------------------------------------------------------------------------------------------

  function Poll(c: Config, h: Hub, now: u32, e: nat): PollDecision {
    PollStep(now, Get(h, e).nextDue, Of(c, e).pollInterval, c.hubInterval / 2)
  }

  /** Queued by this pass: due, in the poll rotation, and not already waiting or in flight. */
  predicate NewlyDue(c: Config, h: Hub, now: u32, e: nat) {
    WantsPolling(c, e) && !Get(h, e).readQueued && Poll(c, h, now, e).due
  }

  /** One entity after a poll pass that reached it. */
  predicate Polled(c: Config, h: Hub, r: Hub, now: u32, e: nat) {
    && (Get(r, e).readQueued <==> Get(h, e).readQueued || NewlyDue(c, h, now, e))
    && Get(r, e).nextDue == (if NewlyDue(c, h, now, e) && Of(c, e).pollInterval != 0
                             then Poll(c, h, now, e).nextDue else Get(h, e).nextDue)
  }

  lemma ScheduleOnePolls(c: Config, h: Hub, now: u32, e: nat, f: nat)
    requires Inv(c, h) && e < |c.entities|
    ensures f == e ==> Polled(c, h, ScheduleOne(c, h, now, e), now, e)
    ensures f != e ==> Get(ScheduleOne(c, h, now, e), f) == Get(h, f)
  {
    LanesHaveRoom(c, h, e);
  }

  /**
   A poll pass queues exactly the entities that are due and not already waiting, and moves
   exactly their deadlines: the lane's bound never makes it skip one.
   */
  lemma {:induction false} PassPollsExactly(c: Config, h: Hub, now: u32, n: nat, e: nat)
    requires Inv(c, h) && n <= |c.entities|
    ensures e < n ==> Polled(c, h, ScheduleBelow(c, h, now, n), now, e)
    ensures e >= n ==> Get(ScheduleBelow(c, h, now, n), e) == Get(h, e)
    decreases n
  {
    if n > 0 {
      PassPollsExactly(c, h, now, n - 1, e);
      ScheduleBelowInv(c, h, now, n - 1);
      ScheduleOnePolls(c, ScheduleBelow(c, h, now, n - 1), now, n - 1, e);
    }
  }

  lemma TickSparesOthers(c: Config, h: Hub, now: u32, source: TimeSource, e: nat)
    requires c.clock.Some? ==> c.clock.value.id != e
    ensures Get(Tick(c, h, now, source), e) == Get(h, e)
  {}

  /** An update polls so every entity but the clock, whatever the clock's own tick does. */
  lemma UpdatePollsExactly(c: Config, h: Hub, now: u32, source: TimeSource, e: nat)
    requires ValidConfig(c) && Inv(c, h) && e < |c.entities| && (c.clock.Some? ==> c.clock.value.id != e)
    ensures Polled(c, h, External(c, h, Update(now, source)), now, e)
  {
    TickInv(c, h, now, source);
    TickSparesOthers(c, h, now, source, e);
    PassPollsExactly(c, Tick(c, h, now, source), now, |c.entities|, e);
  }

  /**
   A refresh makes exactly the entities of the poll rotation due at once. Another within five
   seconds, whatever was polled since, changes nothing, unless the first came at 0 ms, which
   stands for none.
   */
  lemma RefreshOnce(c: Config, h: Hub, now: u32, since: Hub, later: u32, e: nat)
    requires h.lastRefreshMs == 0 || Wrap32(now - h.lastRefreshMs) >= 5000
    requires e < |h.ent| == |c.entities| && since.lastRefreshMs == External(c, h, RefreshAll(now)).lastRefreshMs
    ensures var r := External(c, h, RefreshAll(now));
            && r.ent[e] == h.ent[e].(nextDue := if c.entities[e].polled && (c.clock.Some? ==> c.clock.value.id != e)
                                                then 0 else h.ent[e].nextDue)
            && r.readLane == h.readLane && r.writeLane == h.writeLane
    ensures now != 0 && Wrap32(later - now) < 5000 ==> External(c, since, RefreshAll(later)) == since
  {}

  /** A refresh that is not throttled makes the next pass queue every entity that is polled at all, and no other. */
  lemma RefreshAllReachesEveryone(c: Config, h: Hub, now: u32, later: u32, e: nat)
    requires ValidConfig(c) && Inv(c, h) && e < |c.entities|
    requires h.lastRefreshMs == 0 || Wrap32(now - h.lastRefreshMs) >= REFRESH_ALL_MIN_INTERVAL_MS
    ensures var r := External(c, h, RefreshAll(now));
            Get(ScheduleBelow(c, r, later, |c.entities|), e).readQueued
            <==> Get(h, e).readQueued || (WantsPolling(c, e) && Of(c, e).pollInterval != 0xFFFF_FFFF)
  {
    var r := External(c, h, RefreshAll(now));
    ExternalInv(c, h, RefreshAll(now));
    PassPollsExactly(c, r, later, |c.entities|, e);
    assert WantsPolling(c, e) ==> Get(r, e).nextDue == 0;
  }
}
