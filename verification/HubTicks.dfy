/**
 When the clock is synchronised: over any sequence of ticks, one sync at boot, then one at
 the first tick at or after each interval, in wrapping 32-bit time.
 */
module HubTicks {
  import opened Basics
  import opened BitFields
  import opened CivilDate
  import opened HubModel
  import opened HubInvariants
  import DeviceClock
  import PollSchedule

  /** A tick at a time counted without end, from a synchronised source, on the hub as it then is. */
  datatype Tick = Tick(hub: Hub, t: nat, now: DeviceClock.EspTime)

  function Ticked(c: Config, k: Tick): Hub {
    HubModel.Tick(c, k.hub, Wrap32(k.t), Source(true, Some(k.now)))
  }

  /** No chain is under way. */
  predicate Free(k: Tick) {
    k.hub.clock.phase == Idle
  }

  predicate Starts(c: Config, k: Tick) {
    Free(k) && Ticked(c, k).clock.phase == Reading
  }

  /** The last tick before the `k`-th that set the next one's time: the first free one, or one that started a sync. */
  function LastSet(c: Config, ticks: seq<Tick>, k: nat): (j: int)
    requires k <= |ticks|
    ensures -1 <= j < k
  {
    if k == 0 then -1
    else
      var before := LastSet(c, ticks, k - 1);
      if Free(ticks[k - 1]) && (before < 0 || Starts(c, ticks[k - 1])) then k - 1 else before
  }

  /** Between two ticks anything may happen to the hub but to the schedule, which only a tick moves. */
  ghost predicate TickSequence(c: Config, ticks: seq<Tick>) {
    && (forall k :: 0 <= k < |ticks| ==> Inv(c, ticks[k].hub))
    && (ticks != [] ==> !ticks[0].hub.clock.didBoot)
    && (forall k :: 0 < k < |ticks| ==>
          && ticks[k].t >= ticks[k - 1].t
          && ticks[k].hub.clock.didBoot == Ticked(c, ticks[k - 1]).clock.didBoot
          && ticks[k].hub.clock.nextSync == Ticked(c, ticks[k - 1]).clock.nextSync)
  }

  /** No free tick comes later than 2^31 ms, some 24 days, after it was due. */
  predicate Timely(c: Config, ticks: seq<Tick>, interval: nat) {
    forall k :: 0 <= k < |ticks| && Free(ticks[k]) && LastSet(c, ticks, k) >= 0 ==>
      ticks[k].t < ticks[LastSet(c, ticks, k)].t + interval + 0x8000_0000
  }

  /** The schedule after the ticks before the `k`-th. */
  predicate ScheduleAt(c: Config, ticks: seq<Tick>, k: nat, clock: ClockState)
    requires k <= |ticks| && c.clock.Some?
  {
    var j := LastSet(c, ticks, k);
    && (clock.didBoot <==> j >= 0)
    && (j >= 0 ==> clock.nextSync == Wrap32(ticks[j].t + c.clock.value.config.interval))
  }

  /** Whether a free tick starts a sync, given the tick that set its time. */
  predicate StartsAsDue(c: Config, ticks: seq<Tick>, k: nat)
    requires k < |ticks| && c.clock.Some?
  {
    var j, config := LastSet(c, ticks, k), c.clock.value.config;
    Starts(c, ticks[k]) <==> if j < 0 then config.syncOnBoot else ticks[k].t >= ticks[j].t + config.interval
  }

  lemma {:induction false} NotEarlier(c: Config, ticks: seq<Tick>, j: nat, k: nat)
    requires TickSequence(c, ticks) && j <= k < |ticks|
    ensures ticks[j].t <= ticks[k].t
    decreases k
  {
    if j < k { NotEarlier(c, ticks, j, k - 1); }
  }

  lemma WrapAgain(t: nat, interval: nat)
    ensures Wrap32(Wrap32(t) + interval) == Wrap32(t + interval)
  {
    WrapIs(Wrap32(t) + interval, Wrap32(t + interval), Turns(t + interval) - Turns(t));
  }

  lemma TickOf(c: Config, k: Tick)
    requires ValidConfig(c) && Inv(c, k.hub) && c.clock.Some?
    ensures var r, old_, config := Ticked(c, k).clock, k.hub.clock, c.clock.value.config;
            var late := config.interval != 0 && Signed32(Wrap32(k.t) - old_.nextSync) >= 0;
            var sets := Free(k) && (!old_.didBoot || late);
            && (Starts(c, k) <==> Free(k) && if old_.didBoot then late else config.syncOnBoot)
            && r.didBoot == (old_.didBoot || Free(k))
            && r.nextSync == if sets then Wrap32(Wrap32(k.t) + config.interval) else old_.nextSync
  {
    RequestPriorityReadInv(c, k.hub, c.clock.value.id);
  }

  lemma StartsOnTime(c: Config, ticks: seq<Tick>, k: nat)
    requires ValidConfig(c) && c.clock.Some? && 0 < c.clock.value.config.interval < 0x8000_0000
    requires TickSequence(c, ticks) && Timely(c, ticks, c.clock.value.config.interval)
    requires k < |ticks| && ScheduleAt(c, ticks, k, ticks[k].hub.clock) && Free(ticks[k])
    ensures StartsAsDue(c, ticks, k)
  {
    var j := LastSet(c, ticks, k);
    TickOf(c, ticks[k]);
    if j >= 0 { LateIsLate(c, ticks, j, k, c.clock.value.config.interval); }
  }

  lemma ScheduleMoves(c: Config, ticks: seq<Tick>, k: nat)
    requires ValidConfig(c) && c.clock.Some? && k < |ticks| && Inv(c, ticks[k].hub)
    requires ScheduleAt(c, ticks, k, ticks[k].hub.clock)
    ensures ScheduleAt(c, ticks, k + 1, Ticked(c, ticks[k]).clock)
  {
    TickOf(c, ticks[k]);
    WrapAgain(ticks[k].t, c.clock.value.config.interval);
  }

  lemma LateIsLate(c: Config, ticks: seq<Tick>, j: nat, k: nat, interval: nat)
    requires TickSequence(c, ticks) && j <= k < |ticks| && interval < 0x8000_0000
    requires ticks[k].t < ticks[j].t + interval + 0x8000_0000
    ensures Signed32(Wrap32(ticks[k].t) - Wrap32(ticks[j].t + interval)) >= 0 <==> ticks[k].t >= ticks[j].t + interval
  {
    NotEarlier(c, ticks, j, k);
    PollSchedule.SignedDifference(ticks[k].t, ticks[j].t + interval);
  }

  /**
   The first free tick starts a sync exactly when one is wanted at boot; after that a free
   tick starts one exactly when it comes at or after a whole interval since the tick that
   booted or started the last, across wrap-around, whatever the hub does in between.
   */
  lemma SyncsAsDue(c: Config, ticks: seq<Tick>, k: nat)
    requires ValidConfig(c) && c.clock.Some? && 0 < c.clock.value.config.interval < 0x8000_0000
    requires TickSequence(c, ticks) && Timely(c, ticks, c.clock.value.config.interval) && k < |ticks| && Free(ticks[k])
    ensures var j, config := LastSet(c, ticks, k), c.clock.value.config;
            Starts(c, ticks[k]) <==> if j < 0 then config.syncOnBoot else ticks[k].t >= ticks[j].t + config.interval
  {
    ScheduleHolds(c, ticks, k);
    StartsOnTime(c, ticks, k);
  }

  lemma {:induction false} ScheduleHolds(c: Config, ticks: seq<Tick>, k: nat)
    requires ValidConfig(c) && c.clock.Some? && TickSequence(c, ticks) && k < |ticks|
    ensures ScheduleAt(c, ticks, k, ticks[k].hub.clock)
    decreases k
  {
    if k > 0 {
      ScheduleHolds(c, ticks, k - 1);
      ScheduleMoves(c, ticks, k - 1);
    }
  }

  /** Without a usable time nothing starts; before boot, and where syncs are not repeated, nothing is moved either. */
  lemma NothingStarts(c: Config, h: Hub, now: u32, source: TimeSource)
    requires c.clock.Some? ==> source.NoSource? || source.now.None? || (!h.clock.didBoot && !source.synced)
                               || (h.clock.didBoot && c.clock.value.config.interval == 0) || h.clock.phase != Idle
    ensures var r := HubModel.Tick(c, h, now, source);
            && r.clock.phase == h.clock.phase && r.readLane == h.readLane && r.ent == h.ent
            && (c.clock.None? || source.NoSource? || !h.clock.didBoot || c.clock.value.config.interval == 0 ==> r == h)
  {}

  // --- what the opening read leads to ----------------------------------------------------------------------

  /** The device's time is unreadable or more than the threshold away from the source's. */
  predicate Off(c: Config, device: Option<DateTime>, now: DateTime)
    requires c.clock.Some?
  {
    var limit := c.clock.value.config.threshold;
    device.None? || CivilSeconds(now) > CivilSeconds(device.value) + limit
                 || CivilSeconds(device.value) > CivilSeconds(now) + limit
  }

  predicate OffEnough(c: Config, device: Option<DateTime>, now: DateTime)
    requires c.clock.Some?
  {
    DeviceClock.Encodable(now) && Off(c, device, now)
  }

  /** The block's weekday byte tells one convention from the others. */
  predicate ShowsConvention(data: seq<u8>) {
    var shown := DeviceClock.ClockWeekdayBase(data, 0);
    shown.Some? && shown.value != DeviceClock.Sunday0OrMonday1
  }

  /**
   The answer to a sync's opening read queues a write exactly when it is about the clock's
   register, the source has a time, and the device's is off by more than the threshold; what
   is staged decodes to that time. On every other path the chain ends. A weekday convention
   the read decides is remembered when the time is off.
   */
  lemma OpeningReadDecides(c: Config, h: Hub, addr: nat, data: seq<byte>, unserved: bool, source: TimeSource,
                           reqs: seq<Request>)
    requires ValidConfig(c) && Inv(c, h) && c.clock.Some? && h.inFlight == Some(c.clock.value.id) && h.op == ReadOp
    requires h.clock.phase == Reading && c.clock.value.id !in h.writeLane
    ensures var k, r := c.clock.value.id, Respond(c, h, addr, data, unserved, source, reqs);
            var usable := addr == c.entities[k].readAddr && source.Source? && source.now.Some?;
            if usable && OffEnough(c, DeviceClock.DecodeDateTime(ToInts(data), 0), source.now.value.t)
            then && r.clock.phase == Writing && r.writeLane == h.writeLane + [k]
                 && (source.now.value.t.year >= 1990 ==>
                       DeviceClock.DecodeDateTime(ToInts(r.ent[k].staged), 0) == Some(source.now.value.t))
            else r.clock.phase == Idle && r.writeLane == h.writeLane
    ensures var k, r := c.clock.value.id, Respond(c, h, addr, data, unserved, source, reqs);
            var usable := addr == c.entities[k].readAddr && source.Source? && source.now.Some?;
            r.clock.learned == if usable && Off(c, DeviceClock.DecodeDateTime(ToInts(data), 0), source.now.value.t)
                                  && ShowsConvention(ToInts(data))
                               then DeviceClock.ClockWeekdayBase(ToInts(data), 0) else h.clock.learned
  {
    var k := c.clock.value.id;
    var ended := DropVerify(EndRead(FreeSlot(h), k), k);
    EndReadInv(c, h);
    DropVerifyInv(c, EndRead(FreeSlot(h), k), k);
    if addr == c.entities[k].readAddr {
      AnsweredDecides(c, ended, data, source);
      AnsweredLearns(c, ended, data, source);
    }
  }

  lemma AnsweredDecides(c: Config, h: Hub, data: seq<byte>, source: TimeSource)
    requires ValidConfig(c) && Inv(c, h) && c.clock.Some? && c.clock.value.id !in h.writeLane
    ensures var k, r := c.clock.value.id, ClockRead(c, h, data, source);
            if source.Source? && source.now.Some?
               && OffEnough(c, DeviceClock.DecodeDateTime(ToInts(data), 0), source.now.value.t)
            then && r.clock.phase == Writing && r.writeLane == h.writeLane + [k]
                 && (source.now.value.t.year >= 1990 ==>
                       DeviceClock.DecodeDateTime(ToInts(r.ent[k].staged), 0) == Some(source.now.value.t))
            else r.clock.phase == Idle && r.writeLane == h.writeLane
  {
    var k := c.clock.value.id;
    if source.Source? && source.now.Some? {
      DeviceClock.DecideWritesTheTime(c.clock.value.config, h.clock.learned, ToInts(data), source.now.value);
      var d := DeviceClock.Decide(c.clock.value.config, h.clock.learned, ToInts(data), source.now);
      var idle := h.(clock := h.clock.(phase := Idle, learned := d.learned));
      InvFrame(c, h, idle);
      if d.payload.Some? {
        OctetsSurvive(d.payload.value);
        StageInv(c, idle, k, ToBytes(d.payload.value));
        RequestWriteInv(c, Stage(idle, k, ToBytes(d.payload.value)), k);
        assert FlagsOk(h, k);
        LanesHaveRoom(c, h, k);
      }
    }
  }

  lemma AnsweredLearns(c: Config, h: Hub, data: seq<byte>, source: TimeSource)
    requires c.clock.Some?
    ensures ClockRead(c, h, data, source).clock.learned
            == if source.Source? && source.now.Some?
                  && Off(c, DeviceClock.DecodeDateTime(ToInts(data), 0), source.now.value.t)
                  && ShowsConvention(ToInts(data))
               then DeviceClock.ClockWeekdayBase(ToInts(data), 0) else h.clock.learned
  {
    if source.Source? && source.now.Some? {
      var k := c.clock.value.id;
      var d := DeviceClock.Decide(c.clock.value.config, h.clock.learned, ToInts(data), source.now);
      var idle := h.(clock := h.clock.(phase := Idle, learned := d.learned));
      if d.payload.Some? {
        assert RequestWrite(c, Stage(idle, k, ToBytes(d.payload.value)), k).hub.clock == idle.clock;
      }
    }
  }
}
