/** What the bus invariants need to know about each hub step, apart from lanes and flags. */
module HubBus {
  import opened Basics
  import opened BitFields
  import opened HubModel
  import opened HubInvariants

  /** Requests, whoever makes them, leave the slot and the read-modify-write stage alone. */
  predicate SlotSame(a: Hub, b: Hub) {
    && a.inFlight == b.inFlight && a.op == b.op && a.identInFlight == b.identInFlight && a.rawInFlight == b.rawInFlight
    && a.rmwPending == b.rmwPending && a.rmwBuf == b.rmwBuf
    && a.verify == b.verify && a.verifyBuf == b.verifyBuf
  }

  lemma {:induction false} ScheduleSlot(c: Config, h: Hub, now: u32, n: nat)
    ensures SlotSame(h, ScheduleBelow(c, h, now, n))
  {
    if n > 0 { ScheduleSlot(c, h, now, n - 1); }
  }

  lemma StartSyncSlot(c: Config, h: Hub, source: TimeSource)
    requires source.Source?
    ensures SlotSame(h, StartSync(c, h, source))
  {}

  lemma TickSlot(c: Config, h: Hub, now: u32, source: TimeSource)
    ensures SlotSame(h, Tick(c, h, now, source))
  {
    if c.clock.Some? && source.Source? && h.clock.phase == Idle {
      var armed := h.(clock := h.clock.(didBoot := true, nextSync := Wrap32(now + c.clock.value.config.interval)));
      StartSyncSlot(c, armed, source);
      var r := Tick(c, h, now, source);
      assert r == h || r == armed || r == StartSync(c, armed, source);
    }
  }

  lemma ExternalSlot(c: Config, h: Hub, r: Request)
    ensures SlotSame(h, External(c, h, r))
  {
    match r
    case Control(_, _) =>
    case Press(_) =>
    case QueueRaw(_) =>
    case RefreshAll(_) =>
    case Update(now, source) =>
      TickSlot(c, h, now, source);
      ScheduleSlot(c, Tick(c, h, now, source), now, |c.entities|);
  }

  lemma {:induction false} HandlersSlot(c: Config, h: Hub, reqs: seq<Request>)
    ensures SlotSame(h, Handlers(c, h, reqs))
  {
    if reqs != [] {
      HandlersSlot(c, h, reqs[..|reqs| - 1]);
      ExternalSlot(c, Handlers(c, h, reqs[..|reqs| - 1]), reqs[|reqs| - 1]);
    }
  }

  /** Nor do they move the identification. */
  lemma {:induction false} ScheduleIdent(c: Config, h: Hub, now: u32, n: nat)
    ensures ScheduleBelow(c, h, now, n).ident == h.ident
  {
    if n > 0 { ScheduleIdent(c, h, now, n - 1); }
  }

  lemma ExternalIdent(c: Config, h: Hub, r: Request)
    ensures External(c, h, r).ident == h.ident
  {
    if r.Update? { ScheduleIdent(c, Tick(c, h, r.now, r.source), r.now, |c.entities|); }
  }

  lemma {:induction false} HandlersIdent(c: Config, h: Hub, reqs: seq<Request>)
    ensures Handlers(c, h, reqs).ident == h.ident
  {
    if reqs != [] {
      HandlersIdent(c, h, reqs[..|reqs| - 1]);
      ExternalIdent(c, Handlers(c, h, reqs[..|reqs| - 1]), reqs[|reqs| - 1]);
    }
  }

  lemma ClockReadSlot(c: Config, h: Hub, data: seq<byte>, source: TimeSource)
    ensures SlotSame(h, ClockRead(c, h, data, source))
  {
    if c.clock.Some? && source.Source? {
      var k := c.clock.value.id;
      var d := DeviceClock.Decide(c.clock.value.config, h.clock.learned, ToInts(data), source.now);
      var idle := h.(clock := h.clock.(phase := Idle, learned := d.learned));
      if d.payload.Some? {
        var a := RequestWrite(c, Stage(idle, k, ToBytes(d.payload.value)), k);
        assert SlotSame(h, a.hub);
      }
    }
  }

  lemma CallbacksSlot(c: Config, h: Hub, e: nat, data: seq<byte>, source: TimeSource, reqs: seq<Request>)
    ensures SlotSame(h, HandleResponse(c, h, e, data, source, reqs))
    ensures SlotSame(h, HandleFailure(c, h, e, reqs))
    ensures SlotSame(h, HandleWriteResponse(c, h, e, reqs))
  {
    HandlersSlot(c, h, reqs);
    ClockReadSlot(c, h, data, source);
  }

  lemma {:induction false} RefreshSlot(c: Config, h: Hub, writer: nat, n: nat)
    ensures SlotSame(h, RefreshBelow(c, h, writer, n))
  {
    if n > 0 { RefreshSlot(c, h, writer, n - 1); }
  }

  lemma ReadBacksSlot(c: Config, h: Hub, e: nat)
    ensures SlotSame(if Of(c, e).readBack then h else DropVerify(h, e), ReadBacks(c, h, e))
  {
    RefreshSlot(c, if !Of(c, e).readBack then DropVerify(h, e) else h, e, |c.entities|);
  }

  // --- dispatch -----------------------------------------------------------------------------------

  /** The slot holds the operation this telegram belongs to. */
  predicate SlotIs(h: Hub, k: Kind) {
    && (h.inFlight.Some? ==>
          match h.op
          case ReadOp => k == PollRead(h.inFlight.value)
          case WriteOp => k == PlainWrite(h.inFlight.value) || k == MergedWrite(h.inFlight.value)
          case RmwReadOp => k == RmwRead(h.inFlight.value)
          case NoOp => false)
    && (h.identInFlight ==> k == IdentRead)
    && (h.rawInFlight ==> k.RawTelegram?)
  }

  /** A merged write is the armed merge, whole, to the entity's own register, and arms the check. */
  predicate MergedAsArmed(c: Config, h: Hub, r: Hub, t: Telegram) {
    t.kind.MergedWrite? ==>
      && h.rmwPending == Some(t.kind.e) && t.bytes == h.rmwBuf
      && t.space == Of(c, t.kind.e).space && t.addr == Of(c, t.kind.e).writeAddr
      && r.verify == Some(t.kind.e) && r.verifyBuf == h.rmwBuf
  }

  predicate RmwReadOfRegister(c: Config, t: Telegram) {
    t.kind.RmwRead? ==>
      && NeedsRmw(c, t.kind.e) && t.kind.e < |c.entities|
      && t.space == Of(c, t.kind.e).space && t.addr == Of(c, t.kind.e).writeAddr && t.len == Of(c, t.kind.e).writeLen
  }

  /** A telegram goes out only from a free slot, and only as the armed merge while one is armed. */
  predicate SentWell(c: Config, h: Hub, s: Sent) {
    match s.telegram
    case None =>
      && s.hub.inFlight == h.inFlight && s.hub.op == h.op
      && s.hub.identInFlight == h.identInFlight && s.hub.rawInFlight == h.rawInFlight
      && (s.hub.rmwPending == h.rmwPending || s.hub.rmwPending.None?) && s.hub.rmwBuf == h.rmwBuf
      && s.hub.verify == h.verify && s.hub.verifyBuf == h.verifyBuf
    case Some(t) =>
      && SlotFree(h) && !SlotFree(s.hub) && SlotIs(s.hub, t.kind) && s.hub.rmwPending.None?
      && MergedAsArmed(c, h, s.hub, t) && RmwReadOfRegister(c, t)
      && (h.rmwPending.Some? <==> t.kind.MergedWrite?)
      && (!t.kind.MergedWrite? ==> s.hub.verify == h.verify && s.hub.verifyBuf == h.verifyBuf)
  }

  lemma DispatchSlot(c: Config, h: Hub, now: u32, v: Verdict, reqs: seq<Request>)
    requires Inv(c, h)
    ensures SentWell(c, h, Dispatch(c, h, now, v, reqs))
    ensures Dispatch(c, h, now, v, reqs).telegram.Some? ==> v.Taken?
  {
    if !SlotFree(h) {
    } else if h.rmwPending.Some? {
      DispatchMergedSlot(c, h, now, v, reqs);
    } else if !h.ident.IdentIdle? && !h.ident.IdentDone? {
      HandlersSlot(c, h.(ident := IdentNext(c.protocol, h.ident, false)), reqs);
    } else if h.rawLane != [] {
      DispatchRawSlot(c, h, now, v, reqs);
    } else if h.writeLane != [] {
      DispatchWriteSlot(c, h, now, v, reqs);
    } else {
      DispatchReadSlot(c, h, now, v);
    }
  }

  lemma DispatchMergedSlot(c: Config, h: Hub, now: u32, v: Verdict, reqs: seq<Request>)
    requires Inv(c, h) && h.rmwPending.Some?
    ensures SentWell(c, h, DispatchMerged(c, h, now, v, reqs))
    ensures DispatchMerged(c, h, now, v, reqs).telegram.Some? ==> v.Taken?
  {
    var e := h.rmwPending.value;
    CallbacksSlot(c, EndWrite(h.(rmwPending := None), e), e, [], NoSource, reqs);
  }

  lemma DispatchRawSlot(c: Config, h: Hub, now: u32, v: Verdict, reqs: seq<Request>)
    requires Inv(c, h) && SlotFree(h) && h.rmwPending.None? && h.rawLane != []
    ensures SentWell(c, h, DispatchRaw(c, h, now, v, reqs))
    ensures DispatchRaw(c, h, now, v, reqs).telegram.Some? ==> v.Taken?
  {
    HandlersSlot(c, h.(rawAddr := h.rawLane[0].addr, rawLane := h.rawLane[1..]), reqs);
  }

  lemma DispatchWriteSlot(c: Config, h: Hub, now: u32, v: Verdict, reqs: seq<Request>)
    requires Inv(c, h) && SlotFree(h) && h.rmwPending.None? && h.writeLane != []
    ensures SentWell(c, h, DispatchWrite(c, h, now, v, reqs))
    ensures DispatchWrite(c, h, now, v, reqs).telegram.Some? ==> v.Taken?
  {
    var e := h.writeLane[0];
    CallbacksSlot(c, DropWrite(h, e), e, [], NoSource, reqs);
    assert e in h.writeLane;
  }

  lemma DispatchReadSlot(c: Config, h: Hub, now: u32, v: Verdict)
    requires Inv(c, h) && SlotFree(h) && h.rmwPending.None?
    ensures SentWell(c, h, DispatchRead(c, h, now, v))
    ensures DispatchRead(c, h, now, v).telegram.Some? ==> v.Taken?
  {}

  // --- completion -------------------------------------------------------------------------------------

  lemma FailOpSlot(c: Config, h: Hub, reqs: seq<Request>)
    requires Inv(c, h) && h.inFlight.Some?
    ensures var r := FailOp(c, FreeSlot(h), h.inFlight.value, h.op, reqs);
            && SlotFree(r) && r.verifyBuf == h.verifyBuf && r.rmwPending == h.rmwPending && r.rmwBuf == h.rmwBuf
            && r.verify == if h.op == RmwReadOp then h.verify else DropVerify(h, h.inFlight.value).verify
  {
    var e, free := h.inFlight.value, FreeSlot(h);
    match h.op
    case ReadOp => CallbacksSlot(c, EndRead(DropVerify(free, e), e), e, [], NoSource, reqs);
    case WriteOp => CallbacksSlot(c, EndWrite(DropVerify(free, e), e), e, [], NoSource, reqs);
    case RmwReadOp => CallbacksSlot(c, EndWrite(free, e), e, [], NoSource, reqs);
  }

  /** A failed operation of any kind merges nothing. */
  lemma FailSlot(c: Config, h: Hub, reqs: seq<Request>)
    requires Inv(c, h)
    ensures var r := Fail(c, h, reqs);
            && SlotFree(r) && r.verifyBuf == h.verifyBuf && r.rmwPending == h.rmwPending && r.rmwBuf == h.rmwBuf
            && r.verify == if h.inFlight.Some? && h.op != RmwReadOp
                           then DropVerify(h, h.inFlight.value).verify else h.verify
  {
    if h.identInFlight {
      HandlersSlot(c, h.(identInFlight := false, ident := IdentNext(c.protocol, h.ident, false)), reqs);
    } else if h.rawInFlight {
      HandlersSlot(c, h.(rawInFlight := false), reqs);
    } else if h.inFlight.Some? {
      FailOpSlot(c, h, reqs);
    }
  }

  /** The merge is armed exactly from a sufficient answer, and then equals the merge of that answer. */
  predicate ArmedFrom(c: Config, h: Hub, e: nat, addr: nat, data: seq<byte>, r: Hub) {
    && r.rmwPending == Some(e) && addr == Of(c, e).writeAddr && |data| >= Of(c, e).writeLen
    && |Get(h, e).staged| >= FieldWidth(c, e)
    && MergeBlock(data[..Of(c, e).writeLen], FieldOffset(c, e), FieldWidth(c, e), Of(c, e).mask, Get(h, e).staged)
       == Some(r.rmwBuf)
  }

  lemma RmwHandleReadSlot(c: Config, h: Hub, data: seq<byte>, unserved: bool, reqs: seq<Request>)
    requires Inv(c, h) && h.inFlight.Some? && h.op == RmwReadOp
    ensures var e := h.inFlight.value;
            var r := RmwHandleRead(c, FreeSlot(h), e, data, unserved, reqs);
            && SlotFree(r) && r.verifyBuf == h.verifyBuf && r.verify == h.verify
            && (r.rmwPending.None? || ArmedFrom(c, h, e, Of(c, e).writeAddr, data, r))
  {
    var e, free := h.inFlight.value, FreeSlot(h);
    CallbacksSlot(c, EndWrite(free, e), e, [], NoSource, reqs);
  }

  lemma AcknowledgeSlot(c: Config, h: Hub, reqs: seq<Request>)
    requires Inv(c, h) && h.inFlight.Some? && h.op == WriteOp
    ensures var e := h.inFlight.value;
            var r := Acknowledge(c, FreeSlot(h), e, reqs);
            && SlotFree(r) && r.verifyBuf == h.verifyBuf && r.rmwPending.None? && r.rmwBuf == h.rmwBuf
            && (r.verify == h.verify || (r.verify.None? && h.verify == Some(e)))
  {
    var e, ended := h.inFlight.value, EndWrite(FreeSlot(h), h.inFlight.value);
    CallbacksSlot(c, ended, e, [], NoSource, reqs);
    ReadBacksSlot(c, HandleWriteResponse(c, ended, e, reqs), e);
  }

  lemma ReadDoneSlot(c: Config, h: Hub, data: seq<byte>, source: TimeSource, reqs: seq<Request>)
    requires Inv(c, h) && h.inFlight.Some? && h.op == ReadOp
    ensures var e := h.inFlight.value;
            var r := ReadDone(c, FreeSlot(h), e, data, source, reqs);
            && SlotFree(r) && r.verifyBuf == h.verifyBuf && r.rmwPending.None? && r.rmwBuf == h.rmwBuf
            && r.verify == DropVerify(h, e).verify
  {
    var e, free := h.inFlight.value, FreeSlot(h);
    CallbacksSlot(c, DropVerify(EndRead(free, e), e), e, data, source, reqs);
  }

  lemma RespondSlot(c: Config, h: Hub, addr: nat, data: seq<byte>, unserved: bool, source: TimeSource,
                    reqs: seq<Request>)
    requires Inv(c, h)
    ensures var r := Respond(c, h, addr, data, unserved, source, reqs);
            && SlotFree(r) && r.verifyBuf == h.verifyBuf
            && (if h.inFlight.Some? && h.op == RmwReadOp
                then r.verify == h.verify && (r.rmwPending.None? || ArmedFrom(c, h, h.inFlight.value, addr, data, r))
                else r.rmwPending == h.rmwPending && r.rmwBuf == h.rmwBuf)
            && (r.verify == h.verify || (r.verify.None? && h.verify == h.inFlight))
            && (h.inFlight.Some? && h.verify == h.inFlight && h.op == ReadOp ==> r.verify.None?)
            && (h.inFlight.Some? && h.verify == h.inFlight && h.op == WriteOp && r.verify.Some? ==>
                  addr == Of(c, h.inFlight.value).writeAddr)
  {
    if h.identInFlight {
      var full := addr == IdentAddr(h.ident) && |data| >= 4;
      HandlersSlot(c, h.(identInFlight := false, ident := IdentNext(c.protocol, h.ident, full)), reqs);
    } else if h.rawInFlight {
      HandlersSlot(c, h.(rawInFlight := false), reqs);
    } else if h.inFlight.Some? {
      var e := h.inFlight.value;
      if addr != ExpectedAddr(c, e, h.op) {
        FailOpSlot(c, h, reqs);
      } else {
        match h.op
        case RmwReadOp => RmwHandleReadSlot(c, h, data, unserved, reqs);
        case WriteOp => AcknowledgeSlot(c, h, reqs);
        case ReadOp => ReadDoneSlot(c, h, data, source, reqs);
      }
    }
  }
}
