/** Poll scheduling on a wrapping 32-bit millisecond clock. */
module PollSchedule {
  import opened Basics

  const POLL_NEVER: u32 := 0xFFFF_FFFF

  datatype PollDecision = PollDecision(due: bool, nextDue: u32)

  /** 0 in `nextDue` means "never polled". */
  function PollStep(now: u32, nextDue: u32, interval: u32, slack: u32): PollDecision {
    if interval == POLL_NEVER then PollDecision(false, nextDue)
    else if interval == 0 then PollDecision(true, 0)
    else if nextDue != 0 && Signed32(now + slack - nextDue) < 0 then PollDecision(false, nextDue)
    else
      var next := Wrap32((if nextDue == 0 then now else nextDue) + interval);
      var anchored := if Signed32(next - now) <= 0 then Wrap32(now + interval) else next;
      PollDecision(true, if anchored == 0 then 1 else anchored)
  }

  // --- wrapping ------------------------------------------------------------------------

  /** The one signed 32-bit value congruent to `x`. */
  lemma SignedIs(x: int, v: int, k: int)
    requires -0x8000_0000 <= v < 0x8000_0000 && x == v + 0x1_0000_0000 * k
    ensures Signed32(x) == v
  {
    if v >= 0 { WrapIs(x, v, k); } else { WrapIs(x, v + 0x1_0000_0000, k - 1); }
  }

  function SignedTurns(x: int): (k: int)
    ensures x == Signed32(x) + 0x1_0000_0000 * k
  {
    if Wrap32(x) < 0x8000_0000 then Turns(x) else Turns(x) + 1
  }

  /** Difference of two unwrapped times that are less than 2^31 ms apart. */
  lemma SignedDifference(a: int, b: int)
    requires -0x8000_0000 <= a - b < 0x8000_0000
    ensures Signed32(Wrap32(a) - Wrap32(b)) == a - b
  {
    SignedIs(Wrap32(a) - Wrap32(b), a - b, Turns(b) - Turns(a));
  }

  /**
   When an entity is due, in unwrapped time: always with interval 0, never with the interval
   "never", at once when it was never polled, and else from the slack before its deadline on.
   */
  lemma DueExactly(t: nat, deadline: nat, polled: bool, interval: u32, slack: u32)
    requires -0x8000_0000 <= t + slack - deadline < 0x8000_0000 && Wrap32(deadline) != 0
    ensures var stored := if polled then Wrap32(deadline) else 0;
            var d := PollStep(Wrap32(t), stored, interval, slack);
            && (d.due <==> interval != 0xFFFF_FFFF && (interval == 0 || !polled || t + slack >= deadline))
            && (!d.due ==> d.nextDue == stored)
  {
    SignedIs(Wrap32(t) + slack - Wrap32(deadline), t + slack - deadline, Turns(deadline) - Turns(t));
  }

  /** `ahead` ms after `now`, possibly nudged off the sentinel, is that far ahead, or one more. */
  lemma AheadOf(now: u32, next: u32, ahead: int)
    requires next == Wrap32(now + ahead) && 0 < ahead < 0x7FFF_FFFF
    ensures Signed32((if next == 0 then 1 else next) - now) == if next == 0 then ahead + 1 else ahead
  {
    var k := Turns(now + ahead);
    SignedIs(next - now, ahead, -k);
    SignedIs(1 + next - now, ahead + 1, -k);
  }

  /**
   Whatever the deadline was, a due step leaves one that is not the sentinel and lies
   strictly ahead of `now`, by at most interval + slack + 1 ms.
   */
  lemma DueDeadlineIsAhead(now: u32, nextDue: u32, interval: u32, slack: u32)
    requires 0 < interval && interval + slack + 1 < 0x8000_0000
    requires PollStep(now, nextDue, interval, slack).due
    ensures PollStep(now, nextDue, interval, slack).nextDue != 0
    ensures 0 < Signed32(PollStep(now, nextDue, interval, slack).nextDue - now) <= interval + slack + 1
  {
    var base := if nextDue == 0 then now else nextDue;
    var next := Wrap32(base + interval);
    // How far behind its slack-extended instant the old deadline was.
    var late := if nextDue == 0 then slack else Signed32(now + slack - nextDue);
    var k := if nextDue == 0 then 0 else SignedTurns(now + slack - nextDue);
    assert base == now + slack - late - 0x1_0000_0000 * k;
    SignedIs(next - now, slack + interval - late, -k - Turns(base + interval));
    if slack + interval - late > 0 {
      WrapIs(now + (slack + interval - late), next, k + Turns(base + interval));
      AheadOf(now, next, slack + interval - late);
    } else {
      AheadOf(now, Wrap32(now + interval), interval);
    }
  }

  // --- a run of hub ticks ------------------------------------------------------------

  /** Instant of tick `k`: on the hub's grid, late by that tick's jitter. */
  function TickAt(t0: nat, hub: nat, jitter: seq<nat>, k: nat): nat
    requires k < |jitter|
  {
    t0 + k * hub + jitter[k]
  }

  /** The stored deadline after ticks 0 .. k-1, starting from "never polled". */
  function DeadlineBefore(t0: nat, hub: nat, jitter: seq<nat>, interval: u32, slack: u32, k: nat): u32
    requires k <= |jitter|
  {
    if k == 0 then 0
    else PollStep(Wrap32(TickAt(t0, hub, jitter, k - 1)),
                  DeadlineBefore(t0, hub, jitter, interval, slack, k - 1), interval, slack).nextDue
  }

  predicate DueAt(t0: nat, hub: nat, jitter: seq<nat>, interval: u32, slack: u32, k: nat)
    requires k < |jitter|
  {
    PollStep(Wrap32(TickAt(t0, hub, jitter, k)),
             DeadlineBefore(t0, hub, jitter, interval, slack, k), interval, slack).due
  }

  /** Unwrapped deadline set by the poll in round `r`: an arithmetic progression from the first tick. */
  function Deadline(t0: nat, hub: nat, jitter: seq<nat>, m: nat, r: nat): nat
    requires |jitter| > 0
  {
    t0 + jitter[0] + ((r + 1) * m) * hub
  }

  /** The setting of the cadence claim: an interval of `m` hub ticks, slack half a tick, jitter below that. */
  predicate Steady(t0: nat, hub: nat, jitter: seq<nat>, m: nat, interval: u32, slack: u32) {
    && hub > 0 && m > 0 && |jitter| > 0
    && interval == m * hub && slack == hub / 2
    && interval + slack + 1 < 0x8000_0000
    && (forall k :: 0 <= k < |jitter| ==> jitter[k] <= (hub - 1) / 2)
  }

  /**
   Deadlines of rounds before `r` that land on the "never polled" sentinel and are moved
   off it by one, each after the moves before it.
   */
  function Nudges(t0: nat, hub: nat, jitter: seq<nat>, m: nat, r: nat): nat
    requires |jitter| > 0
  {
    if r == 0 then 0
    else
      var n := Nudges(t0, hub, jitter, m, r - 1);
      n + if Wrap32(Deadline(t0, hub, jitter, m, r - 1) + n) == 0 then 1 else 0
  }

  /** The deadline round `r` leaves, unwrapped, with its own nudge. */
  function Nudged(t0: nat, hub: nat, jitter: seq<nat>, m: nat, r: nat): nat
    requires |jitter| > 0
  {
    Deadline(t0, hub, jitter, m, r) + Nudges(t0, hub, jitter, m, r + 1)
  }

  /** Where the run reaches round `r`, the nudges before it have not used up the slack its tick has. */
  predicate SlackHolds(t0: nat, hub: nat, jitter: seq<nat>, m: nat, slack: u32, r: nat)
    requires |jitter| > 0
  {
    r * m < |jitter| ==> jitter[0] + Nudges(t0, hub, jitter, m, r) <= jitter[r * m] + slack
  }

  /** One step against an unwrapped deadline `dl` that is not on the sentinel. */
  lemma StepAgainstDeadline(t: nat, dl: nat, interval: u32, slack: u32)
    requires 0 < interval < 0x8000_0000 && Wrap32(dl) != 0
    requires -0x8000_0000 <= t + slack - dl < 0x8000_0000
    ensures t + slack < dl ==> PollStep(Wrap32(t), Wrap32(dl), interval, slack) == PollDecision(false, Wrap32(dl))
    ensures t + slack >= dl && 0 < dl + interval - t < 0x8000_0000 ==>
              PollStep(Wrap32(t), Wrap32(dl), interval, slack) == PollDecision(true, OffSentinel(dl + interval))
  {
    SignedIs(Wrap32(t) + slack - Wrap32(dl), t + slack - dl, Turns(dl) - Turns(t));
    WrapIs(Wrap32(dl) + interval, Wrap32(dl + interval), Turns(dl + interval) - Turns(dl));
    if 0 < dl + interval - t < 0x8000_0000 {
      SignedDifference(dl + interval, t);
    }
  }

  function OffSentinel(x: nat): u32 {
    if Wrap32(x) == 0 then 1 else Wrap32(x)
  }

  /** What a round leaves is its nudged deadline, which is never the sentinel. */
  lemma LeavesNudged(t0: nat, hub: nat, jitter: seq<nat>, m: nat, r: nat)
    requires |jitter| > 0
    ensures OffSentinel(Deadline(t0, hub, jitter, m, r) + Nudges(t0, hub, jitter, m, r))
            == Wrap32(Nudged(t0, hub, jitter, m, r)) != 0
  {
    var x := Deadline(t0, hub, jitter, m, r) + Nudges(t0, hub, jitter, m, r);
    if Wrap32(x) == 0 {
      WrapIs(x + 1, 1, Turns(x));
    }
  }

  lemma Distribute(a: int, b: int, h: int)
    ensures (a - b) * h == a * h - b * h
  {}

  lemma Monotone(a: int, b: int, h: nat)
    requires a <= b
    ensures a * h <= b * h
  {
    Distribute(b, a, h);
    NonNegative(b - a, h);
  }

  lemma NonNegative(a: nat, h: nat)
    ensures a * h >= 0
  {}

  /** The round tick `k` is in. */
  function Round(k: nat, m: nat): (r: nat)
    requires m > 0
    ensures r == k / m
  {
    k / m
  }

  lemma DivisionUnique(k: nat, m: nat, q: nat, r: nat)
    requires m > 0 && r < m && k == q * m + r
    ensures k / m == q && k % m == r
  {
    var d := k / m;
    assert k == d * m + k % m;
    if d > q {
      Distribute(d, q, m);
      Monotone(1, d - q, m);
    } else if d < q {
      Distribute(q, d, m);
      Monotone(1, q - d, m);
    }
  }

  /** The previous tick is in an earlier round exactly on a multiple of `m`. */
  lemma RoundOf(k: nat, m: nat)
    requires k > 0 && m > 0
    ensures var q, p := Round(k - 1, m), (k - 1) % m;
            && k == q * m + p + 1 && 0 <= q < k
            && (k % m == 0 <==> p == m - 1)
            && Round(k, m) == if p == m - 1 then q + 1 else q
  {
    var q, p := Round(k - 1, m), (k - 1) % m;
    assert k - 1 == q * m + p;
    if p == m - 1 {
      Distribute(q + 1, 1, m);
      DivisionUnique(k, m, q + 1, 0);
    } else {
      DivisionUnique(k, m, q, p + 1);
    }
    Monotone(1, m, q);
  }

  /**
   Where tick `k` stands against the deadline set in the round tick `k - 1` was in, that
   deadline being `x` late.
   */
  lemma TickAgainstDeadline(t0: nat, hub: nat, jitter: seq<nat>, m: nat, interval: u32, slack: u32, k: nat, x: nat)
    requires Steady(t0, hub, jitter, m, interval, slack) && 0 < k < |jitter| && jitter[0] + x <= hub
    ensures var t, dl := TickAt(t0, hub, jitter, k), Deadline(t0, hub, jitter, m, Round(k - 1, m)) + x;
            && -0x8000_0000 <= t + slack - dl < 0x8000_0000
            && (t + slack >= dl <==> k % m == 0 && jitter[0] + x <= jitter[k] + slack)
            && (t + slack >= dl ==> 0 < dl + interval - t < 0x8000_0000)
            && Deadline(t0, hub, jitter, m, Round(k - 1, m) + 1) + x == dl + interval
  {
    var q, p := Round(k - 1, m), (k - 1) % m;
    RoundOf(k, m);
    var behind := m - 1 - p;
    Distribute(q + 1, 1, m);
    assert (q + 1) * m == k + behind;
    Distribute(k + behind, k, hub);
    Monotone(1, m, hub);
    assert behind * hub == ((q + 1) * m) * hub - k * hub;
    Distribute(q + 2, q + 1, m);
    Distribute((q + 2) * m, (q + 1) * m, hub);
    if behind > 0 {
      Monotone(1, behind, hub);
      Monotone(behind, m - 1, hub);
      Distribute(m, 1, hub);
    }
  }

  /** Tick `k` polls exactly on a multiple of `m`. */
  predicate OnPattern(t0: nat, hub: nat, jitter: seq<nat>, m: nat, interval: u32, slack: u32, k: nat)
    requires m > 0 && k < |jitter|
  {
    DueAt(t0, hub, jitter, interval, slack, k) <==> k % m == 0
  }

  /** Tick `k` polls exactly on a multiple of `m`, and leaves its round's deadline. */
  predicate OnCadence(t0: nat, hub: nat, jitter: seq<nat>, m: nat, interval: u32, slack: u32, k: nat)
    requires m > 0 && k < |jitter|
  {
    && OnPattern(t0, hub, jitter, m, interval, slack, k)
    && DeadlineBefore(t0, hub, jitter, interval, slack, k + 1) == Wrap32(Deadline(t0, hub, jitter, m, Round(k, m)))
  }

  /** The same with the deadline as the nudges so far have left it. */
  predicate OnNudgedCadence(t0: nat, hub: nat, jitter: seq<nat>, m: nat, interval: u32, slack: u32, k: nat)
    requires m > 0 && k < |jitter|
  {
    && OnPattern(t0, hub, jitter, m, interval, slack, k)
    && DeadlineBefore(t0, hub, jitter, interval, slack, k + 1) == Wrap32(Nudged(t0, hub, jitter, m, Round(k, m)))
    && SlackHolds(t0, hub, jitter, m, slack, Round(k, m))
  }

  lemma FirstTick(t0: nat, hub: nat, jitter: seq<nat>, m: nat, interval: u32, slack: u32)
    requires Steady(t0, hub, jitter, m, interval, slack)
    ensures OnNudgedCadence(t0, hub, jitter, m, interval, slack, 0)
  {
    DivisionUnique(0, m, 0, 0);
    var t := TickAt(t0, hub, jitter, 0);
    assert t == t0 + jitter[0];
    Monotone(1, m, hub);
    assert Deadline(t0, hub, jitter, m, 0) == t + interval;
    assert Nudges(t0, hub, jitter, m, 0) == 0;
    WrapIs(Wrap32(t) + interval, Wrap32(t + interval), Turns(t + interval) - Turns(t));
    SignedDifference(t + interval, t);
    LeavesNudged(t0, hub, jitter, m, 0);
    assert DeadlineBefore(t0, hub, jitter, interval, slack, 0) == 0;
  }

  /** Slack that holds in a round leaves its deadline at most one hub tick late. */
  lemma AtMostOneTickLate(t0: nat, hub: nat, jitter: seq<nat>, m: nat, interval: u32, slack: u32, r: nat)
    requires Steady(t0, hub, jitter, m, interval, slack) && r * m < |jitter|
    requires SlackHolds(t0, hub, jitter, m, slack, r)
    ensures jitter[0] + Nudges(t0, hub, jitter, m, r + 1) <= hub
  {
    assert jitter[r * m] <= (hub - 1) / 2;
  }

  /** One tick against the deadline the round `q` left, `k` being the tick after it was last seen. */
  lemma TickAgainstNudged(t0: nat, hub: nat, jitter: seq<nat>, m: nat, interval: u32, slack: u32, k: nat, q: nat)
    requires Steady(t0, hub, jitter, m, interval, slack) && 0 < k < |jitter| && q == Round(k - 1, m)
    requires jitter[0] + Nudges(t0, hub, jitter, m, q + 1) <= hub
    ensures var now, nextDue := Wrap32(TickAt(t0, hub, jitter, k)), Wrap32(Nudged(t0, hub, jitter, m, q));
            var due := k % m == 0 && jitter[0] + Nudges(t0, hub, jitter, m, q + 1) <= jitter[k] + slack;
            PollStep(now, nextDue, interval, slack)
            == PollDecision(due, Wrap32(Nudged(t0, hub, jitter, m, if due then q + 1 else q)))
  {
    Monotone(1, m, hub);
    TickAgainstDeadline(t0, hub, jitter, m, interval, slack, k, Nudges(t0, hub, jitter, m, q + 1));
    LeavesNudged(t0, hub, jitter, m, q);
    LeavesNudged(t0, hub, jitter, m, q + 1);
    StepAgainstDeadline(TickAt(t0, hub, jitter, k), Nudged(t0, hub, jitter, m, q), interval, slack);
  }

  /** The next tick stays on the nudged cadence exactly when it does not open a round or that round's slack holds. */
  lemma NextTick(t0: nat, hub: nat, jitter: seq<nat>, m: nat, interval: u32, slack: u32, k: nat)
    requires Steady(t0, hub, jitter, m, interval, slack) && k + 1 < |jitter|
    requires OnNudgedCadence(t0, hub, jitter, m, interval, slack, k)
    ensures var holds := (k + 1) % m == 0 ==> SlackHolds(t0, hub, jitter, m, slack, Round(k + 1, m));
            && (OnPattern(t0, hub, jitter, m, interval, slack, k + 1) <==> holds)
            && (holds ==> OnNudgedCadence(t0, hub, jitter, m, interval, slack, k + 1))
  {
    var n, q := k + 1, Round(k, m);
    RoundOf(n, m);
    RoundStart(k, m);
    RoundStart(n, m);
    AtMostOneTickLate(t0, hub, jitter, m, interval, slack, q);
    TickAgainstNudged(t0, hub, jitter, m, interval, slack, n, q);
  }

  lemma RoundStart(k: nat, m: nat)
    requires m > 0
    ensures Round(k, m) * m <= k && (k % m == 0 ==> Round(k, m) * m == k)
  {
    assert k == k / m * m + k % m;
  }

  // --- what keeps the pattern, and what keeps the progression --------------------------------------

  lemma {:induction false} SlackKeepsPattern(t0: nat, hub: nat, jitter: seq<nat>, m: nat, interval: u32, slack: u32,
                                             k: nat)
    requires Steady(t0, hub, jitter, m, interval, slack) && k < |jitter|
    requires forall r: nat :: SlackHolds(t0, hub, jitter, m, slack, r)
    ensures OnNudgedCadence(t0, hub, jitter, m, interval, slack, k)
  {
    if k == 0 {
      FirstTick(t0, hub, jitter, m, interval, slack);
    } else {
      SlackKeepsPattern(t0, hub, jitter, m, interval, slack, k - 1);
      NextKept(t0, hub, jitter, m, interval, slack, k - 1);
    }
  }

  lemma NextKept(t0: nat, hub: nat, jitter: seq<nat>, m: nat, interval: u32, slack: u32, k: nat)
    requires Steady(t0, hub, jitter, m, interval, slack) && k + 1 < |jitter|
    requires OnNudgedCadence(t0, hub, jitter, m, interval, slack, k)
    requires SlackHolds(t0, hub, jitter, m, slack, Round(k + 1, m))
    ensures OnNudgedCadence(t0, hub, jitter, m, interval, slack, k + 1)
  {
    NextTick(t0, hub, jitter, m, interval, slack, k);
  }

  lemma {:induction false} PatternKeepsSlack(t0: nat, hub: nat, jitter: seq<nat>, m: nat, interval: u32, slack: u32,
                                             k: nat)
    requires Steady(t0, hub, jitter, m, interval, slack) && k < |jitter|
    requires forall i :: 0 <= i < |jitter| ==> OnPattern(t0, hub, jitter, m, interval, slack, i)
    ensures OnNudgedCadence(t0, hub, jitter, m, interval, slack, k)
  {
    if k == 0 {
      FirstTick(t0, hub, jitter, m, interval, slack);
    } else {
      PatternKeepsSlack(t0, hub, jitter, m, interval, slack, k - 1);
      NextTick(t0, hub, jitter, m, interval, slack, k - 1);
    }
  }

  /**
   The poll pattern, exactly: over any number of ticks, across every wrap of the clock and
   under every jitter pattern below half a tick, the entity is due on every m-th tick and
   on no other if and only if in each round reached the milliseconds lost to the sentinel
   so far still fit the slack.
   */
  lemma ExactPattern(t0: nat, hub: nat, jitter: seq<nat>, m: nat, interval: u32, slack: u32)
    requires Steady(t0, hub, jitter, m, interval, slack)
    ensures (forall k :: 0 <= k < |jitter| ==> OnPattern(t0, hub, jitter, m, interval, slack, k)) <==>
            forall r: nat :: SlackHolds(t0, hub, jitter, m, slack, r)
  {
    if forall r: nat :: SlackHolds(t0, hub, jitter, m, slack, r) {
      forall k | 0 <= k < |jitter|
        ensures OnPattern(t0, hub, jitter, m, interval, slack, k)
      {
        SlackKeepsPattern(t0, hub, jitter, m, interval, slack, k);
      }
    }
    if forall k :: 0 <= k < |jitter| ==> OnPattern(t0, hub, jitter, m, interval, slack, k) {
      forall r: nat
        ensures SlackHolds(t0, hub, jitter, m, slack, r)
      {
        if r * m < |jitter| {
          PatternKeepsSlack(t0, hub, jitter, m, interval, slack, r * m);
          DivisionUnique(r * m, m, r, 0);
        }
      }
    }
  }

  /** No deadline of a round the run reaches lands on the "never polled" sentinel. */
  ghost predicate SentinelAvoided(t0: nat, hub: nat, jitter: seq<nat>, m: nat)
    requires |jitter| > 0
  {
    forall r: nat :: r * m < |jitter| ==> Wrap32(Deadline(t0, hub, jitter, m, r)) != 0
  }

  /** Without a sentinel hit there is no nudge, and jitter alone never uses up the slack. */
  lemma {:induction false} NoNudges(t0: nat, hub: nat, jitter: seq<nat>, m: nat, interval: u32, slack: u32, r: nat)
    requires Steady(t0, hub, jitter, m, interval, slack) && SentinelAvoided(t0, hub, jitter, m)
    requires r > 0 ==> (r - 1) * m < |jitter|
    ensures Nudges(t0, hub, jitter, m, r) == 0 && SlackHolds(t0, hub, jitter, m, slack, r)
  {
    if r > 0 {
      if r > 1 { Monotone(r - 2, r - 1, m); }
      NoNudges(t0, hub, jitter, m, interval, slack, r - 1);
      assert Wrap32(Deadline(t0, hub, jitter, m, r - 1)) != 0;
    }
    assert jitter[0] <= (hub - 1) / 2;
  }

  lemma AvoidedHasSlack(t0: nat, hub: nat, jitter: seq<nat>, m: nat, interval: u32, slack: u32)
    requires Steady(t0, hub, jitter, m, interval, slack) && SentinelAvoided(t0, hub, jitter, m)
    ensures forall r: nat :: SlackHolds(t0, hub, jitter, m, slack, r)
  {
    forall r: nat
      ensures SlackHolds(t0, hub, jitter, m, slack, r)
    {
      if r * m < |jitter| {
        if r > 0 { Monotone(r - 1, r, m); }
        NoNudges(t0, hub, jitter, m, interval, slack, r);
      }
    }
  }

  lemma NoNudgesYet(t0: nat, hub: nat, jitter: seq<nat>, m: nat, interval: u32, slack: u32, k: nat)
    requires Steady(t0, hub, jitter, m, interval, slack) && SentinelAvoided(t0, hub, jitter, m) && k < |jitter|
    ensures Nudges(t0, hub, jitter, m, Round(k, m) + 1) == 0
  {
    RoundStart(k, m);
    NoNudges(t0, hub, jitter, m, interval, slack, Round(k, m) + 1);
  }

  lemma UnnudgedCadence(t0: nat, hub: nat, jitter: seq<nat>, m: nat, interval: u32, slack: u32, k: nat)
    requires m > 0 && k < |jitter| && OnNudgedCadence(t0, hub, jitter, m, interval, slack, k)
    requires Nudges(t0, hub, jitter, m, Round(k, m) + 1) == 0
    ensures OnCadence(t0, hub, jitter, m, interval, slack, k)
  {}

  lemma AvoidedIsCadence(t0: nat, hub: nat, jitter: seq<nat>, m: nat, interval: u32, slack: u32, k: nat)
    requires Steady(t0, hub, jitter, m, interval, slack) && SentinelAvoided(t0, hub, jitter, m) && k < |jitter|
    ensures OnCadence(t0, hub, jitter, m, interval, slack, k)
  {
    AvoidedHasSlack(t0, hub, jitter, m, interval, slack);
    SlackKeepsPattern(t0, hub, jitter, m, interval, slack, k);
    NoNudgesYet(t0, hub, jitter, m, interval, slack, k);
    UnnudgedCadence(t0, hub, jitter, m, interval, slack, k);
  }

  /** A round on the cadence is due, so the deadline it leaves is not the sentinel. */
  lemma CadenceAvoids(t0: nat, hub: nat, jitter: seq<nat>, m: nat, interval: u32, slack: u32, r: nat)
    requires Steady(t0, hub, jitter, m, interval, slack) && r * m < |jitter|
    requires OnCadence(t0, hub, jitter, m, interval, slack, r * m)
    ensures Wrap32(Deadline(t0, hub, jitter, m, r)) != 0
  {
    DivisionUnique(r * m, m, r, 0);
    Monotone(1, m, hub);
    var k := r * m;
    var stored := DeadlineBefore(t0, hub, jitter, interval, slack, k);
    DueDeadlineIsAhead(Wrap32(TickAt(t0, hub, jitter, k)), stored, interval, slack);
  }

  /**
   The exact cadence: the entity is due on exactly every m-th tick and its deadlines form an
   arithmetic progression if and only if none of the deadlines the run reaches is the sentinel.
   */
  lemma ExactCadence(t0: nat, hub: nat, jitter: seq<nat>, m: nat, interval: u32, slack: u32)
    requires Steady(t0, hub, jitter, m, interval, slack)
    ensures (forall k :: 0 <= k < |jitter| ==> OnCadence(t0, hub, jitter, m, interval, slack, k)) <==>
            SentinelAvoided(t0, hub, jitter, m)
  {
    if SentinelAvoided(t0, hub, jitter, m) {
      forall k | 0 <= k < |jitter|
        ensures OnCadence(t0, hub, jitter, m, interval, slack, k)
      {
        AvoidedIsCadence(t0, hub, jitter, m, interval, slack, k);
      }
    }
    if forall k :: 0 <= k < |jitter| ==> OnCadence(t0, hub, jitter, m, interval, slack, k) {
      forall r: nat | r * m < |jitter|
        ensures Wrap32(Deadline(t0, hub, jitter, m, r)) != 0
      {
        CadenceAvoids(t0, hub, jitter, m, interval, slack, r);
      }
    }
  }

  /**
   Both conditions bite: a deadline that lands on 0 is moved to 1, one millisecond late, and
   with jitter at its limit that millisecond makes the poll miss its tick.
   */
  lemma SentinelCostsATick()
    ensures var hub, m := 3, 1;
            var jitter := [1, 0];
            var t0 := 0xFFFF_FFFF - 3;
            && Steady(t0, hub, jitter, m, 3, 1)
            && !SentinelAvoided(t0, hub, jitter, m)
            && !SlackHolds(t0, hub, jitter, m, 1, 1)
            && DueAt(t0, hub, jitter, 3, 1, 0)
            && !DueAt(t0, hub, jitter, 3, 1, 1)
  {
    var jitter := [1, 0];
    var t0 := 0xFFFF_FFFF - 3;
    assert Deadline(t0, 3, jitter, 1, 0) == 0x1_0000_0000;
    assert 0 * 1 < |jitter| && Wrap32(Deadline(t0, 3, jitter, 1, 0)) == 0;
    assert Nudges(t0, 3, jitter, 1, 0) == 0;
    assert Nudges(t0, 3, jitter, 1, 1) == 1;
    assert DeadlineBefore(t0, 3, jitter, 3, 1, 0) == 0;
    assert DeadlineBefore(t0, 3, jitter, 3, 1, 1) == 1;
    assert TickAt(t0, 3, jitter, 1) == 0xFFFF_FFFF;
  }

  /** A sentinel hit breaks the progression but not the pattern when the jitter leaves it room. */
  lemma SentinelMayCostNothing()
    ensures var hub, m := 4, 1;
            var jitter := [1, 0];
            var t0 := 0x1_0000_0000 - 5;
            && Steady(t0, hub, jitter, m, 4, 2)
            && !SentinelAvoided(t0, hub, jitter, m)
            && SlackHolds(t0, hub, jitter, m, 2, 1)
            && DueAt(t0, hub, jitter, 4, 2, 0)
            && DueAt(t0, hub, jitter, 4, 2, 1)
  {
    var jitter := [1, 0];
    var t0 := 0x1_0000_0000 - 5;
    assert Deadline(t0, 4, jitter, 1, 0) == 0x1_0000_0000;
    assert 0 * 1 < |jitter| && Wrap32(Deadline(t0, 4, jitter, 1, 0)) == 0;
    assert Nudges(t0, 4, jitter, 1, 0) == 0;
    assert Nudges(t0, 4, jitter, 1, 1) == 1;
    assert DeadlineBefore(t0, 4, jitter, 4, 2, 0) == 0;
    assert DeadlineBefore(t0, 4, jitter, 4, 2, 1) == 1;
    assert TickAt(t0, 4, jitter, 1) == 0xFFFF_FFFF;
  }
}
