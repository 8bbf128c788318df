/** First in, first out: the write lane and the raw lane, over whole runs. */
module HubQueues {
  import opened Basics
  import opened BitFields
  import opened HubModel
  import opened HubInvariants
  import opened HubWorld
  import opened HubOrder

  // --- lanes only grow at their end ------------------------------------------------------------

  predicate Grows(h: Hub, r: Hub) {
    h.writeLane <= r.writeLane && h.rawLane <= r.rawLane
  }

  lemma {:induction false} ScheduleGrows(c: Config, h: Hub, now: u32, n: nat)
    ensures Grows(h, ScheduleBelow(c, h, now, n))
  {
    if n > 0 { ScheduleGrows(c, h, now, n - 1); }
  }

  lemma TickGrows(c: Config, h: Hub, now: u32, source: TimeSource)
    ensures Grows(h, Tick(c, h, now, source))
  {}

  lemma ExternalGrows(c: Config, h: Hub, r: Request)
    ensures Grows(h, External(c, h, r))
  {
    match r
    case Control(_, _) =>
    case Press(_) =>
    case QueueRaw(_) =>
    case RefreshAll(_) =>
    case Update(now, source) =>
      TickGrows(c, h, now, source);
      ScheduleGrows(c, Tick(c, h, now, source), now, |c.entities|);
  }

  /**
   What joins: the entity of a value of one to eight bytes, or of a press that has something to
   send, once at a time; a raw operation with something to move, while there is room.
   */
  lemma RequestJoins(c: Config, h: Hub, r: Request)
    requires Inv(c, h) && ValidRequest(c, r)
    ensures var after := External(c, h, r);
            match r
            case Control(e, payload) =>
              var joins := 1 <= |payload| <= 8 && e !in h.writeLane;
              && after.writeLane == (if joins then h.writeLane + [e] else h.writeLane) && after.rawLane == h.rawLane
              && after.ent[e].staged == (if 1 <= |payload| <= 8 then payload else h.ent[e].staged)
            case Press(e) =>
              var joins := (h.ent[e].staged != [] || c.entities[e].space.RPC?) && e !in h.writeLane;
              after.writeLane == (if joins then h.writeLane + [e] else h.writeLane) && after.rawLane == h.rawLane
            case QueueRaw(op) =>
              && after.writeLane == h.writeLane
              && after.rawLane == (if RawAccepted(c, op) && |h.rawLane| != c.rawCapacity then h.rawLane + [op]
                                   else h.rawLane)
            case _ => after.writeLane == h.writeLane && after.rawLane == h.rawLane
  {
    match r
    case Control(e, payload) =>
      assert FlagsOk(h, e);
      LanesHaveRoom(c, h, e);
    case Press(e) =>
      assert FlagsOk(h, e);
      LanesHaveRoom(c, h, e);
    case QueueRaw(_) =>
    case RefreshAll(_) =>
    case Update(now, source) => UpdateKeepsWrites(c, h, now, source);
  }

  lemma UpdateKeepsWrites(c: Config, h: Hub, now: u32, source: TimeSource)
    ensures var r := External(c, h, Update(now, source)); r.writeLane == h.writeLane && r.rawLane == h.rawLane
  {
    ScheduleKeepsWrites(c, Tick(c, h, now, source), now, |c.entities|);
  }

  lemma {:induction false} ScheduleKeepsWrites(c: Config, h: Hub, now: u32, n: nat)
    ensures var r := ScheduleBelow(c, h, now, n); r.writeLane == h.writeLane && r.rawLane == h.rawLane
  {
    if n > 0 { ScheduleKeepsWrites(c, h, now, n - 1); }
  }

  lemma {:induction false} HandlersGrow(c: Config, h: Hub, reqs: seq<Request>)
    ensures Grows(h, Handlers(c, h, reqs))
  {
    if reqs != [] {
      HandlersGrow(c, h, reqs[..|reqs| - 1]);
      ExternalGrows(c, Handlers(c, h, reqs[..|reqs| - 1]), reqs[|reqs| - 1]);
    }
  }

  lemma ClockReadGrows(c: Config, h: Hub, data: seq<byte>, source: TimeSource)
    ensures Grows(h, ClockRead(c, h, data, source))
  {}

  lemma CallbacksGrow(c: Config, h: Hub, e: nat, data: seq<byte>, source: TimeSource, reqs: seq<Request>)
    ensures Grows(h, HandleResponse(c, h, e, data, source, reqs))
    ensures Grows(h, HandleFailure(c, h, e, reqs))
    ensures Grows(h, HandleWriteResponse(c, h, e, reqs))
  {
    HandlersGrow(c, h, reqs);
    ClockReadGrows(c, h, data, source);
  }

  lemma IdentGrows(c: Config, h: Hub, full: bool, reqs: seq<Request>)
    ensures Grows(h, IdentAdvance(c, h, full, reqs))
  {
    HandlersGrow(c, h.(ident := IdentNext(c.protocol, h.ident, full)), reqs);
  }

  lemma {:induction false} RefreshGrows(c: Config, h: Hub, writer: nat, n: nat)
    ensures Grows(h, RefreshBelow(c, h, writer, n))
  {
    if n > 0 { RefreshGrows(c, h, writer, n - 1); }
  }

  lemma AcknowledgeGrows(c: Config, h: Hub, e: nat, reqs: seq<Request>)
    ensures Grows(h, Acknowledge(c, h, e, reqs))
  {
    CallbacksGrow(c, EndWrite(h, e), e, [], NoSource, reqs);
    ReadBacksGrow(c, HandleWriteResponse(c, EndWrite(h, e), e, reqs), e);
  }

  lemma ReadBacksGrow(c: Config, h: Hub, e: nat)
    ensures Grows(h, ReadBacks(c, h, e))
  {
    RefreshGrows(c, if !Of(c, e).readBack then DropVerify(h, e) else h, e, |c.entities|);
  }

  lemma FailOpGrows(c: Config, h: Hub, e: nat, op: OpType, reqs: seq<Request>)
    ensures Grows(h, FailOp(c, h, e, op, reqs))
  {
    match op
    case ReadOp => CallbacksGrow(c, EndRead(DropVerify(h, e), e), e, [], NoSource, reqs);
    case WriteOp => CallbacksGrow(c, EndWrite(DropVerify(h, e), e), e, [], NoSource, reqs);
    case RmwReadOp => CallbacksGrow(c, EndWrite(h, e), e, [], NoSource, reqs);
    case NoOp =>
  }

  lemma FailGrows(c: Config, h: Hub, reqs: seq<Request>)
    ensures Grows(h, Fail(c, h, reqs))
  {
    if h.identInFlight {
      IdentGrows(c, h.(identInFlight := false), false, reqs);
    } else if h.rawInFlight {
      HandlersGrow(c, h.(rawInFlight := false), reqs);
    } else if h.inFlight.Some? {
      FailOpGrows(c, FreeSlot(h), h.inFlight.value, h.op, reqs);
    }
  }

  lemma RespondGrows(c: Config, h: Hub, addr: nat, data: seq<byte>, unserved: bool, source: TimeSource,
                     reqs: seq<Request>)
    ensures Grows(h, Respond(c, h, addr, data, unserved, source, reqs))
  {
    if h.identInFlight {
      IdentGrows(c, h.(identInFlight := false), addr == IdentAddr(h.ident) && |data| >= 4, reqs);
    } else if h.rawInFlight {
      HandlersGrow(c, h.(rawInFlight := false), reqs);
    } else if h.inFlight.Some? {
      var e, free := h.inFlight.value, FreeSlot(h);
      FailOpGrows(c, free, e, h.op, reqs);
      if addr == ExpectedAddr(c, e, h.op) {
        match h.op
        case RmwReadOp => FailOpGrows(c, free, e, RmwReadOp, reqs);
        case WriteOp => AcknowledgeGrows(c, free, e, reqs);
        case ReadOp => CallbacksGrow(c, DropVerify(EndRead(free, e), e), e, data, source, reqs);
        case NoOp =>
      }
    }
  }

  // --- an offer takes at most the head of one lane -------------------------------------------------------

  /** The writes an event sends or gives up: at most one. */
  function WriteLeft(c: Config, w: World, ev: Event): seq<nat> {
    if !ev.Offering? then []
    else
      match Dispatch(c, w.hub, ev.now, ev.v, ev.reqs).telegram
      case Some(t) => if t.kind.PlainWrite? || t.kind.RmwRead? then [t.kind.e] else []
      case None => if HeadDropped(c, w.hub, ev.v) then [w.hub.writeLane[0]] else []
  }

  predicate RawTurn(h: Hub) {
    SlotFree(h) && h.rmwPending.None? && !Identifying(h) && h.rawLane != []
  }

  function RawLeft(c: Config, w: World, ev: Event): seq<RawOp> {
    if ev.Offering? && RawTurn(w.hub) && !Offer(RawAvailable(c, w.hub.rawLane[0]), ev.v).Busy?
    then [w.hub.rawLane[0]] else []
  }

  /** `left` is taken from the front of the lane, and what is kept stays in front of what joins. */
  predicate Fifo<T(==)>(before: seq<T>, left: seq<T>, after: seq<T>) {
    left <= before && before[|left|..] <= after
  }

  lemma RawFifo(c: Config, h: Hub, now: u32, v: Verdict, reqs: seq<Request>)
    requires RawTurn(h)
    ensures var r := Dispatch(c, h, now, v, reqs).hub;
            && h.writeLane <= r.writeLane
            && (if Offer(RawAvailable(c, h.rawLane[0]), v).Busy? then r.rawLane == h.rawLane
                else h.rawLane[1..] <= r.rawLane)
  {
    HandlersGrow(c, h.(rawAddr := h.rawLane[0].addr, rawLane := h.rawLane[1..]), reqs);
  }

  lemma WriteFifo(c: Config, h: Hub, now: u32, v: Verdict, reqs: seq<Request>)
    requires WriteTurn(h)
    ensures var s := Dispatch(c, h, now, v, reqs);
            && h.rawLane <= s.hub.rawLane
            && (if s.telegram.None? && !HeadDropped(c, h, v) then s.hub.writeLane == h.writeLane
                else h.writeLane[1..] <= s.hub.writeLane)
            && (s.telegram.Some? ==> s.telegram.value.kind in {PlainWrite(h.writeLane[0]), RmwRead(h.writeLane[0])}
                                     && !HeadDropped(c, h, v))
  {
    var e := h.writeLane[0];
    CallbacksGrow(c, DropWrite(h, e), e, [], NoSource, reqs);
  }

  lemma OfferFifo(c: Config, w: World, ev: Event)
    requires ev.Offering?
    ensures var r := Dispatch(c, w.hub, ev.now, ev.v, ev.reqs).hub;
            Fifo(w.hub.writeLane, WriteLeft(c, w, ev), r.writeLane) && Fifo(w.hub.rawLane, RawLeft(c, w, ev), r.rawLane)
  {
    var h := w.hub;
    if !SlotFree(h) {
    } else if h.rmwPending.Some? {
      CallbacksGrow(c, EndWrite(h.(rmwPending := None), h.rmwPending.value), h.rmwPending.value, [], NoSource, ev.reqs);
    } else if Identifying(h) {
      IdentGrows(c, h, false, ev.reqs);
    } else if h.rawLane != [] {
      RawFifo(c, h, ev.now, ev.v, ev.reqs);
    } else if h.writeLane != [] {
      WriteFifo(c, h, ev.now, ev.v, ev.reqs);
    }
  }

  lemma StepFifo(c: Config, w: World, ev: Event)
    requires ValidConfig(c) && Inv(c, w.hub) && Enabled(c, w, ev)
    ensures var n := Step(c, w, ev);
            && Fifo(w.hub.writeLane, WriteLeft(c, w, ev), n.hub.writeLane)
            && Fifo(w.hub.rawLane, RawLeft(c, w, ev), n.hub.rawLane)
  {
    match ev
    case Ask(r) => ExternalGrows(c, w.hub, r);
    case Offering(_, _, _) => OfferFifo(c, w, ev);
    case Guard(now, reqs) =>
      WatchdogInv(c, w.hub, now, reqs);
      FailGrows(c, w.hub, reqs);
    case Answer(addr, data, _, _, unserved, source, reqs) =>
      RespondGrows(c, w.hub, addr, data, unserved, source, reqs);
    case Error(_, _, reqs) => FailGrows(c, w.hub, reqs);
    case Silence(_, _) =>
  }

  // --- over runs ---------------------------------------------------------------------------------------------

  /** The writes that leave the lane over a run, in order. */
  ghost function WritesLeft(c: Config, w: World, evs: seq<Event>): seq<nat>
    requires ValidRun(c, w, evs)
    decreases |evs|
  {
    if evs == [] then [] else WriteLeft(c, w, evs[0]) + WritesLeft(c, Step(c, w, evs[0]), evs[1..])
  }

  ghost function RawsLeft(c: Config, w: World, evs: seq<Event>): seq<RawOp>
    requires ValidRun(c, w, evs)
    decreases |evs|
  {
    if evs == [] then [] else RawLeft(c, w, evs[0]) + RawsLeft(c, Step(c, w, evs[0]), evs[1..])
  }

  /** What a lane held, then what joined it, is what left it, then what it holds. */
  ghost predicate Queue<T(!new)>(before: seq<T>, left: seq<T>, after: seq<T>) {
    exists joined :: before + joined == left + after
  }

  lemma QueueStays<T(!new)>(lane: seq<T>)
    ensures Queue(lane, [], lane)
  {
    var none: seq<T> := [];
    assert lane + none == none + lane;
  }

  lemma QueueOn<T(!new)>(before: seq<T>, left: seq<T>, mid: seq<T>, later: seq<T>, after: seq<T>)
    requires Fifo(before, left, mid) && Queue(mid, later, after)
    ensures Queue(before, left + later, after)
  {
    var joined :| mid + joined == later + after;
    var kept := before[|left|..];
    assert before == left + kept && mid == kept + mid[|kept|..];
    calc {
      before + (mid[|kept|..] + joined);
      left + (kept + mid[|kept|..] + joined);
      left + (mid + joined);
      left + later + after;
    }
  }

  /**
   Over every run both lanes are first in, first out: whatever fails, is refused or is asked
   for by automations, operations leave in the order they joined, none is lost and none
   overtakes another.
   */
  lemma {:induction false} LanesAreFifo(c: Config, w: World, evs: seq<Event>)
    requires ValidConfig(c) && Inv(c, w.hub) && ValidRun(c, w, evs)
    ensures var n := Run(c, w, evs);
            && Queue(w.hub.writeLane, WritesLeft(c, w, evs), n.hub.writeLane)
            && Queue(w.hub.rawLane, RawsLeft(c, w, evs), n.hub.rawLane)
    decreases |evs|
  {
    if evs == [] {
      QueueStays(w.hub.writeLane);
      QueueStays(w.hub.rawLane);
    } else {
      var mid, n := Step(c, w, evs[0]), Run(c, w, evs);
      StepInv(c, w, evs[0]);
      StepFifo(c, w, evs[0]);
      LanesAreFifo(c, mid, evs[1..]);
      QueueOn(w.hub.writeLane, WriteLeft(c, w, evs[0]), mid.hub.writeLane, WritesLeft(c, mid, evs[1..]),
              n.hub.writeLane);
      QueueOn(w.hub.rawLane, RawLeft(c, w, evs[0]), mid.hub.rawLane, RawsLeft(c, mid, evs[1..]), n.hub.rawLane);
    }
  }
}
