/** The fallback poll, whose interval depends on whether Pusher is connected. Times are milliseconds. */
module Poller {
  type Instant = nat

  const SAFETY_POLL_INTERVAL := 180_000
  const PUSHER_OUTAGE_POLL_INTERVAL := 6_000

  function PollInterval(pusherConnected: bool): nat {
    if pusherConnected then SAFETY_POLL_INTERVAL else PUSHER_OUTAGE_POLL_INTERVAL
  }

  /** The watched status with its version, the version the poller has seen, and the poller's deadline. */
  datatype PollState = PollState(connected: bool, version: nat, seen: nat, deadline: Instant, ticking: bool)

  /** The status being set, a worker starting to wait for a tick, the two things a wait can wake on, and the
      wait being given up for something else. */
  datatype Op =
    | Set(connected: bool)
    | Enter(at: Instant)
    | Expire(at: Instant)
    | Change(at: Instant)
    | Leave

  function Created(connected: bool, now: Instant): PollState {
    PollState(connected, 0, 0, now + PollInterval(connected), false)
  }

  predicate Enabled(s: PollState, op: Op) {
    match op
    case Set(_) => true
    case Enter(_) => !s.ticking
    case Expire(at) => s.ticking && s.deadline <= at
    case Change(_) => s.ticking && s.seen != s.version
    case Leave => s.ticking
  }

  function Apply(s: PollState, op: Op): PollState {
    match op
    case Set(connected) => if s.connected == connected then s else s.(connected := connected, version := s.version + 1)
    case Enter(at) => if s.seen != s.version then Observe(s, at).(ticking := true) else s.(ticking := true)
    case Expire(at) => s.(deadline := at + PollInterval(s.connected), ticking := false)
    case Change(at) => Observe(s, at)
    case Leave => s.(ticking := false)
  }

  /** See the latest transition and time the next tick from it. */
  function Observe(s: PollState, at: Instant): PollState {
    s.(seen := s.version, deadline := at + PollInterval(s.connected))
  }

  function ApplyAll(s: PollState, ops: seq<Op>): PollState {
    if ops == [] then s else Apply(ApplyAll(s, ops[..|ops| - 1]), ops[|ops| - 1])
  }

  predicate IsRun(s: PollState, ops: seq<Op>) {
    ops != [] ==> IsRun(s, ops[..|ops| - 1]) && Enabled(ApplyAll(s, ops[..|ops| - 1]), ops[|ops| - 1])
  }

  /** The shared connection status. */
  class PusherStatus {
    var connected: bool
    var version: nat

    constructor ()
      ensures !connected && version == 0
    {
      connected := false;
      version := 0;
    }

    /** Only a change is announced. */
    method SetConnected(connected: bool)
      modifies this
      ensures this.connected == connected
      ensures version == old(version) + if old(this.connected) == connected then 0 else 1
    {
      if this.connected != connected {
        this.connected := connected;
        version := version + 1;
      }
    }
  }

  /** What can happen inside one wait: it ends with an expiry. */
  predicate InsideWait(world: seq<Op>, i: nat)
    requires i < |world|
  {
    world[i].Set? || world[i].Change? || (world[i].Expire? && i == |world| - 1)
  }

  class PusherAwarePoller {
    const status: PusherStatus
    var seen: nat
    var deadline: Instant

    ghost function State(ticking: bool): PollState
      reads this, status
    {
      PollState(status.connected, status.version, seen, deadline, ticking)
    }

    constructor (status: PusherStatus, now: Instant)
      ensures this.status == status && seen == status.version
      ensures deadline == now + PollInterval(status.connected)
    {
      this.status := status;
      seen := status.version;
      deadline := now + PollInterval(status.connected);
    }

    /** Wait for the next tick, from `now` on, while the world does `world`; the wait returns with the expiry
        that ends it, or is given up when the world ends first. */
    method Tick(now: Instant, world: seq<Op>) returns (ticked: bool)
      requires IsRun(Apply(State(false), Enter(now)), world)
      requires forall i :: 0 <= i < |world| ==> InsideWait(world, i)
      modifies this, status
      ensures ticked == (world != [] && world[|world| - 1].Expire?)
      ensures State(!ticked) == ApplyAll(Apply(old(State(false)), Enter(now)), world)
    {
      if seen != status.version {
        seen := status.version;
        deadline := now + PollInterval(status.connected);
      }
      ghost var start := State(true);
      for i := 0 to |world|
        invariant start == Apply(old(State(false)), Enter(now))
        invariant State(true) == ApplyAll(start, world[..i])
        invariant i > 0 ==> !world[i - 1].Expire?
      {
        assert InsideWait(world, i);
        assert world[..i + 1][..i] == world[..i];
        match world[i] {
          case Set(connected) =>
            status.SetConnected(connected);
          case Change(at) =>
            seen := status.version;
            deadline := at + PollInterval(status.connected);
          case Expire(at) =>
            assert world[..i + 1] == world;
            deadline := at + PollInterval(status.connected);
            return true;
        }
      }
      assert world[..|world|] == world;
      return false;
    }
  }

  // What the state says about its history.

  /** The status after these operations. */
  function Status(connected: bool, ops: seq<Op>): bool {
    if ops == [] then connected
    else if ops[|ops| - 1].Set? then ops[|ops| - 1].connected
    else Status(connected, ops[..|ops| - 1])
  }

  /** Whether the status has changed since a wait last looked for changes. An expiry does not look. */
  predicate Unseen(connected: bool, ops: seq<Op>) {
    if ops == [] then false
    else
      var before := ops[..|ops| - 1];
      match ops[|ops| - 1]
      case Set(c) => c != Status(connected, before) || Unseen(connected, before)
      case Enter(_) => false
      case Change(_) => false
      case Expire(_) => Unseen(connected, before)
      case Leave => Unseen(connected, before)
  }

  datatype Arming = Arming(at: Instant, connected: bool)

  /** When the deadline was last set, and the status read then. */
  function LastArming(connected: bool, now: Instant, ops: seq<Op>): Arming {
    if ops == [] then Arming(now, connected)
    else
      var before := ops[..|ops| - 1];
      match ops[|ops| - 1]
      case Set(_) => LastArming(connected, now, before)
      case Enter(at) =>
        if Unseen(connected, before) then Arming(at, Status(connected, before)) else LastArming(connected, now, before)
      case Change(at) => Arming(at, Status(connected, before))
      case Expire(at) => Arming(at, Status(connected, before))
      case Leave => LastArming(connected, now, before)
  }

  /** In every run, the deadline is the time it was last set plus the interval for the status read then; and
      the poller knows of an unseen change exactly when there is one. */
  lemma {:induction false} DeadlineExact(connected: bool, now: Instant, ops: seq<Op>)
    requires IsRun(Created(connected, now), ops)
    ensures var s := ApplyAll(Created(connected, now), ops);
            var armed := LastArming(connected, now, ops);
            s.connected == Status(connected, ops) && s.seen <= s.version &&
            (s.seen != s.version <==> Unseen(connected, ops)) &&
            s.deadline == armed.at + if armed.connected then 180_000 else 6_000
  {
    if ops != [] {
      DeadlineExact(connected, now, ops[..|ops| - 1]);
    }
  }

  /** Unless a change is still unseen, the deadline was set for the status as it is. */
  lemma {:induction false} SeenMeansArmed(connected: bool, now: Instant, ops: seq<Op>)
    requires IsRun(Created(connected, now), ops) && !Unseen(connected, ops)
    ensures LastArming(connected, now, ops).connected == Status(connected, ops)
  {
    if ops != [] {
      var last := |ops| - 1;
      DeadlineExact(connected, now, ops[..last]);
      if !Unseen(connected, ops[..last]) {
        SeenMeansArmed(connected, now, ops[..last]);
      }
    }
  }

  /** Setting the status to what it already is. */
  predicate Repeats(connected: bool, before: seq<Op>, op: Op) {
    op == Set(Status(connected, before))
  }

  /** What neither changes the status nor ends a wait with a tick. */
  predicate Steady(connected: bool, ops: seq<Op>, more: seq<Op>) {
    more != [] ==>
      var before := more[..|more| - 1];
      var op := more[|more| - 1];
      Steady(connected, ops, before) && (op.Enter? || op.Leave? || Repeats(connected, ops + before, op))
  }

  lemma {:induction false} SteadyKeepsDeadline(connected: bool, now: Instant, ops: seq<Op>, more: seq<Op>)
    requires IsRun(Created(connected, now), ops + more)
    requires !Unseen(connected, ops) && Steady(connected, ops, more)
    ensures IsRun(Created(connected, now), ops) && !Unseen(connected, ops + more)
    ensures Status(connected, ops + more) == Status(connected, ops)
    ensures ApplyAll(Created(connected, now), ops + more).deadline == ApplyAll(Created(connected, now), ops).deadline
  {
    if more == [] {
      assert ops + more == ops;
    } else {
      var last := |more| - 1;
      assert (ops + more)[..|ops + more| - 1] == ops + more[..last];
      SteadyKeepsDeadline(connected, now, ops, more[..last]);
      DeadlineExact(connected, now, ops + more[..last]);
    }
  }

  /** With every change seen and the status constant since, however often it is set again and however often
      waits start and are given up, a tick is due one interval after the last tick or observed change, and not
      before. */
  lemma ConstantStatusTicks(connected: bool, now: Instant, ops: seq<Op>, more: seq<Op>, at: Instant)
    requires IsRun(Created(connected, now), ops + more)
    requires !Unseen(connected, ops) && Steady(connected, ops, more)
    ensures var s := ApplyAll(Created(connected, now), ops + more);
            s.ticking ==>
              (Enabled(s, Expire(at)) <==>
               LastArming(connected, now, ops).at + (if Status(connected, ops) then 180_000 else 6_000) <= at)
  {
    SteadyKeepsDeadline(connected, now, ops, more);
    DeadlineExact(connected, now, ops);
    SeenMeansArmed(connected, now, ops);
  }

  /** A change that is still unseen times the deadline anew as soon as a wait starts, or at once in a wait
      that has started. */
  lemma UnseenChangeRearms(connected: bool, now: Instant, ops: seq<Op>, at: Instant)
    requires IsRun(Created(connected, now), ops) && Unseen(connected, ops)
    ensures var s := ApplyAll(Created(connected, now), ops);
            var op := if s.ticking then Change(at) else Enter(at);
            Enabled(s, op) && !Unseen(connected, ops + [op]) &&
            Apply(s, op).deadline == at + if Status(connected, ops) then 180_000 else 6_000
  {
    DeadlineExact(connected, now, ops);
    assert forall op: Op :: (ops + [op])[..|ops|] == ops;
  }
}
