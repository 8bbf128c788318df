/**
 When a read before a write leads to its merged write: the answers that arm the merge are
 exactly the complete ones, and what is armed is the next telegram on the bus.
 */
module HubMerge {
  import opened Basics
  import opened AddressSpaces
  import opened BitFields
  import opened HubModel
  import opened HubInvariants
  import opened HubWorld
  import opened HubBus

  // --- an answer arms the merge -------------------------------------------------------------------

  /**
   The answer is about the register, complete, and not a place the device does not serve;
   the block fits the buffer, and the field the block, its mask and its staged value.
   */
  predicate Mergeable(c: Config, h: Hub, e: nat, addr: nat, data: seq<byte>, unserved: bool)
    requires e < |c.entities| == |h.ent|
  {
    var w, staged := c.entities[e], h.ent[e].staged;
    var offset, width := if w.blockWidth == 0 then 0 else w.blockOffset, if w.blockWidth == 0 then 1 else w.blockWidth;
    && addr == w.writeAddr && |data| >= w.writeLen && !(c.protocol == GWG && unserved)
    && 1 <= w.writeLen <= 16 && 1 <= width <= 4 && offset + width <= w.writeLen && |staged| >= width
    && (w.mask != 0 ==> width == 1 && Contiguous(w.mask) && staged[0] <= FieldMax(w.mask))
  }

  /** `buf` is the block as answered, with the field, and nothing else, taken over from the staged payload. */
  ghost predicate MergedInto(c: Config, h: Hub, e: nat, data: seq<byte>, buf: seq<byte>)
    requires e < |c.entities| == |h.ent|
  {
    var w, staged := c.entities[e], h.ent[e].staged;
    var offset, width := if w.blockWidth == 0 then 0 else w.blockOffset, if w.blockWidth == 0 then 1 else w.blockWidth;
    && w.writeLen <= |data| && width <= |staged| && FieldFits(w.writeLen, offset, width, w.mask, staged)
    && OnlyFieldReplaced(data[..w.writeLen], buf, offset, width, w.mask, staged)
  }

  /** A complete answer arms the merge of it, and no other answer arms anything. */
  lemma AnswerArms(c: Config, h: Hub, addr: nat, data: seq<byte>, unserved: bool, source: TimeSource,
                   reqs: seq<Request>)
    requires Inv(c, h) && h.inFlight.Some? && h.op == RmwReadOp
    ensures var e, r := h.inFlight.value, Respond(c, h, addr, data, unserved, source, reqs);
            && (r.rmwPending == Some(e) <==> Mergeable(c, h, e, addr, data, unserved))
            && (r.rmwPending.Some? ==> r.rmwPending == Some(e) && MergedInto(c, h, e, data, r.rmwBuf))
  {
    var e := h.inFlight.value;
    if addr == c.entities[e].writeAddr {
      CompleteArms(c, h, e, data, unserved, reqs);
    } else {
      FailOpSlot(c, h, reqs);
    }
  }

  lemma CompleteArms(c: Config, h: Hub, e: nat, data: seq<byte>, unserved: bool, reqs: seq<Request>)
    requires Inv(c, h) && h.inFlight == Some(e) && h.op == RmwReadOp
    ensures var r := RmwHandleRead(c, FreeSlot(h), e, data, unserved, reqs);
            && (r.rmwPending == Some(e) <==> Mergeable(c, h, e, c.entities[e].writeAddr, data, unserved))
            && (r.rmwPending.Some? ==> r.rmwPending == Some(e) && MergedInto(c, h, e, data, r.rmwBuf))
  {
    var w, free := c.entities[e], FreeSlot(h);
    CallbacksSlot(c, EndWrite(free, e), e, [], NoSource, reqs);
    var r := RmwHandleRead(c, free, e, data, unserved, reqs);
    if r.rmwPending.Some? {
      MergeBlockExact(data[..w.writeLen], FieldOffset(c, e), FieldWidth(c, e), w.mask, h.ent[e].staged, r.rmwBuf);
    }
  }

  // --- the armed merge is the next telegram ------------------------------------------------------------

  /** The engine decides: it takes what it is offered, or refuses it for good. */
  predicate Decides(ev: Event) {
    ev.Offering? && !ev.v.Busy?
  }

  predicate HasWriteTelegram(p: Protocol, s: Space) {
    if p == GWG then s in {OWN, GWG_VIRTUAL, GWG_EEPROM, GWG_XRAM, GWG_PORT, GWG_BE}
    else s == OWN || (s == RPC && p == P300)
  }

  predicate RefusesMerge(c: Config, w: World, ev: Event) {
    && w.hub.rmwPending.Some? && Decides(ev)
    && (ev.v.Never? || !HasWriteTelegram(c.protocol, Of(c, w.hub.rmwPending.value).space))
  }

  ghost predicate Armed(w: World, e: nat, buf: seq<byte>, sent: nat) {
    w.hub.rmwPending == Some(e) && w.hub.rmwBuf == buf && |w.trace| == sent
  }

  function MergedTelegram(c: Config, e: nat, buf: seq<byte>): Telegram {
    Telegram(MergedWrite(e), Of(c, e).space, Of(c, e).writeAddr, |buf|, buf)
  }

  /** Until the engine decides, the merge stays armed and nothing is sent; then it is sent, or given up. */
  lemma ArmedStep(c: Config, w: World, ev: Event, e: nat, buf: seq<byte>)
    requires Inv(c, w.hub) && Armed(w, e, buf, |w.trace|) && Enabled(c, w, ev)
    ensures var n := Step(c, w, ev);
            if !Decides(ev) then Armed(n, e, buf, |w.trace|)
            else if RefusesMerge(c, w, ev) then n.trace == w.trace && n.hub.rmwPending.None? && SlotFree(n.hub)
            else |n.trace| == |w.trace| + 1 && n.trace[|w.trace|].telegram == MergedTelegram(c, e, buf)
  {
    match ev
    case Ask(r) => ExternalSlot(c, w.hub, r);
    case Offering(now, v, reqs) => ArmedOffer(c, w.hub, now, v, reqs);
    case Guard(_, _) =>
    case Answer(_, _, _, _, _, _, _) =>
    case Error(_, _, _) =>
    case Silence(_, _) =>
  }

  lemma ArmedOffer(c: Config, h: Hub, now: u32, v: Verdict, reqs: seq<Request>)
    requires Inv(c, h) && h.rmwPending.Some?
    ensures var e, s := h.rmwPending.value, Dispatch(c, h, now, v, reqs);
            if v.Busy? then s == Sent(h, None)
            else if v.Never? || !HasWriteTelegram(c.protocol, Of(c, e).space)
            then s.telegram.None? && s.hub.rmwPending.None? && SlotFree(s.hub)
            else s.telegram == Some(MergedTelegram(c, e, h.rmwBuf))
  {
    var e := h.rmwPending.value;
    CallbacksSlot(c, EndWrite(h.(rmwPending := None), e), e, [], NoSource, reqs);
  }

  // --- over runs ------------------------------------------------------------------------------------------

  /** Some offer of the run decides, and the first that does refuses the merge for good. */
  ghost predicate MergeRefused(c: Config, w: World, evs: seq<Event>)
    requires ValidRun(c, w, evs)
    decreases |evs|
  {
    evs != [] && (if Decides(evs[0]) then RefusesMerge(c, w, evs[0])
                  else MergeRefused(c, Step(c, w, evs[0]), evs[1..]))
  }

  ghost predicate Extends(w: World, n: World) {
    |w.trace| <= |n.trace| && forall i :: 0 <= i < |w.trace| ==> n.trace[i].telegram == w.trace[i].telegram
  }

  lemma StepExtends(c: Config, w: World, ev: Event)
    requires Enabled(c, w, ev)
    ensures Extends(w, Step(c, w, ev))
  {}

  lemma ExtendsOn(a: World, b: World, n: World)
    requires Extends(a, b) && Extends(b, n)
    ensures Extends(a, n)
  {}

  /** A run only adds telegrams. */
  lemma {:induction false} RunExtends(c: Config, w: World, evs: seq<Event>)
    requires ValidRun(c, w, evs)
    ensures Extends(w, Run(c, w, evs))
    decreases |evs|
  {
    if evs != [] {
      var n := Step(c, w, evs[0]);
      StepExtends(c, w, evs[0]);
      RunExtends(c, n, evs[1..]);
      ExtendsOn(w, n, Run(c, n, evs[1..]));
    }
  }

  /** With the slot free and nothing armed, the next telegram is no merged write. */
  lemma {:induction false} NextIsNoMerge(c: Config, w: World, evs: seq<Event>)
    requires ValidConfig(c) && Inv(c, w.hub) && ValidRun(c, w, evs) && SlotFree(w.hub) && w.hub.rmwPending.None?
    ensures var n := Run(c, w, evs); |n.trace| > |w.trace| ==> !n.trace[|w.trace|].telegram.kind.MergedWrite?
    decreases |evs|
  {
    if evs != [] {
      var n := Step(c, w, evs[0]);
      StepInv(c, w, evs[0]);
      StaysUnarmed(c, w, evs[0]);
      if |n.trace| == |w.trace| { NextIsNoMerge(c, n, evs[1..]); } else { RunExtends(c, n, evs[1..]); }
    }
  }

  lemma StaysUnarmed(c: Config, w: World, ev: Event)
    requires Inv(c, w.hub) && Enabled(c, w, ev) && SlotFree(w.hub) && w.hub.rmwPending.None?
    ensures var n := Step(c, w, ev);
            if |n.trace| == |w.trace| then SlotFree(n.hub) && n.hub.rmwPending.None?
            else |n.trace| == |w.trace| + 1 && !n.trace[|w.trace|].telegram.kind.MergedWrite?
  {
    match ev
    case Ask(r) => ExternalSlot(c, w.hub, r);
    case Offering(now, v, reqs) => DispatchSlot(c, w.hub, now, v, reqs);
    case Guard(_, _) =>
    case Answer(_, _, _, _, _, _, _) =>
    case Error(_, _, _) =>
    case Silence(_, _) =>
  }

  /**
   The merge a complete answer arms. As long as the engine is busy it stays armed and nothing
   else is sent; once the engine has decided about an offer, the next telegram on the bus is
   the merged write, with exactly the armed bytes, if and only if that offer was not refused
   for good.
   */
  lemma {:induction false} MergeGoesNext(c: Config, w: World, evs: seq<Event>, e: nat, buf: seq<byte>)
    requires ValidConfig(c) && Inv(c, w.hub) && Armed(w, e, buf, |w.trace|) && ValidRun(c, w, evs)
    ensures var n := Run(c, w, evs);
            if forall i :: 0 <= i < |evs| ==> !Decides(evs[i]) then Armed(n, e, buf, |w.trace|)
            else |n.trace| > |w.trace| && n.trace[|w.trace|].telegram == MergedTelegram(c, e, buf)
                 <==> !MergeRefused(c, w, evs)
    decreases |evs|
  {
    if evs != [] {
      var n := Step(c, w, evs[0]);
      StepInv(c, w, evs[0]);
      ArmedStep(c, w, evs[0], e, buf);
      if !Decides(evs[0]) {
        MergeGoesNext(c, n, evs[1..], e, buf);
        assert (forall i :: 0 <= i < |evs| ==> !Decides(evs[i])) <==>
               (forall i :: 0 <= i < |evs[1..]| ==> !Decides(evs[1..][i])) by { NoneDecides(evs); }
      } else if RefusesMerge(c, w, evs[0]) {
        NextIsNoMerge(c, n, evs[1..]);
      } else {
        RunExtends(c, n, evs[1..]);
      }
    }
  }

  lemma NoneDecides(evs: seq<Event>)
    requires evs != [] && !Decides(evs[0])
    ensures (forall i :: 0 <= i < |evs| ==> !Decides(evs[i])) <==>
            (forall i :: 0 <= i < |evs[1..]| ==> !Decides(evs[1..][i]))
  {
    assert forall i :: 1 <= i < |evs| ==> evs[i] == evs[1..][i - 1];
  }
}
