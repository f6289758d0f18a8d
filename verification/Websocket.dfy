/** The Pusher connection: keepalive timers, routing of events, and reconnection. Times are milliseconds. */
module Websocket {
  import opened Wrappers
  import opened Retry
  import P = Poller
  import WT = WorkTrigger

  type Instant = nat

  const PONG_TIMEOUT := 30_000
  const MIN_STABLE_SUBSCRIPTION := 30_000
  const MIN_ACTIVITY_TIMEOUT_SECS := 1
  const MAX_ACTIVITY_TIMEOUT_SECS := 600

  datatype Frame = Frame(event: string, channel: Option<string>)

  /** A message of the socket; a text that is not a frame has none. */
  datatype Message = Text(frame: Option<Frame>) | Ping | Other | Close

  /** What the connection wakes on, and whether what it sends in answer goes through. */
  datatype Input =
    | Inbound(at: Instant, message: Message, sent: bool)
    | StreamEnded(at: Instant)
    | TimedOut(at: Instant, sent: bool)

  /** What the connection does. */
  datatype Act =
    | Connected(connected: bool)
    | ForceTransactions
    | ForceWallets
    | TransactionEvent(at: Instant)
    | WalletEvent(at: Instant)
    | PingSent(at: Instant)
    | PongSent
    | Slept(delay: nat)

  datatype Listening = Listening(activityDeadline: Instant, pongDeadline: Option<Instant>, failed: bool)

  datatype Heard = Heard(listening: Listening, acts: seq<Act>)

  /** The server's activity timeout, kept between a second and ten minutes. */
  function ActivityTimeout(serverSecs: nat): nat {
    1000 * if serverSecs < MIN_ACTIVITY_TIMEOUT_SECS then MIN_ACTIVITY_TIMEOUT_SECS
           else if serverSecs > MAX_ACTIVITY_TIMEOUT_SECS then MAX_ACTIVITY_TIMEOUT_SECS
           else serverSecs
  }

  function PongTimeout(timeout: nat): nat {
    Min(PONG_TIMEOUT, timeout)
  }

  function Begun(now: Instant, timeout: nat): Listening {
    Listening(now + timeout, None, false)
  }

  function Deadline(l: Listening): Instant {
    if l.pongDeadline.Some? then l.pongDeadline.value else l.activityDeadline
  }

  /** An answer goes out, or the connection fails. */
  function Answer(l: Listening, act: Act, sent: bool): Heard {
    if sent then Heard(l, [act]) else Heard(l.(failed := true), [])
  }

  function OnFrame(l: Listening, frame: Frame, at: Instant, sent: bool, channel: string): Heard {
    if frame.channel.Some? && frame.channel.value != channel then Heard(l, [])
    else if frame.event == "TransactionCreated" then Heard(l, [TransactionEvent(at)])
    else if frame.event == "ManagedWalletRequested" then Heard(l, [WalletEvent(at)])
    else if frame.event == "pusher:ping" then Answer(l, PongSent, sent)
    else if frame.event == "pusher:error" then Heard(l.(failed := true), [])
    else Heard(l, [])
  }

  /** Any inbound message proves the connection alive, whatever it says. */
  function React(l: Listening, input: Input, timeout: nat, channel: string): Heard {
    match input
    case Inbound(at, message, sent) =>
      var alive := Begun(at, timeout);
      (match message
       case Text(None) => Heard(alive.(failed := true), [])
       case Text(Some(frame)) => OnFrame(alive, frame, at, sent, channel)
       case Ping => Answer(alive, PongSent, sent)
       case Other => Heard(alive, [])
       case Close => Heard(alive.(failed := true), []))
    case StreamEnded(_) => Heard(l.(failed := true), [])
    case TimedOut(at, sent) =>
      if l.pongDeadline.Some? then Heard(l.(failed := true), [])
      else if !sent then Heard(l.(failed := true), [])
      else Heard(l.(pongDeadline := Some(at + PongTimeout(timeout))), [PingSent(at)])
  }

  /** Listening ends with the first failure. */
  function Listen(now: Instant, inputs: seq<Input>, timeout: nat, channel: string): Heard {
    if inputs == [] then Heard(Begun(now, timeout), [])
    else
      Hear(Listen(now, inputs[..|inputs| - 1], timeout, channel), inputs[|inputs| - 1], timeout, channel)
  }

  function Hear(before: Heard, input: Input, timeout: nat, channel: string): Heard {
    if before.listening.failed then before
    else
      var heard := React(before.listening, input, timeout, channel);
      Heard(heard.listening, before.acts + heard.acts)
  }

  /** One attempt to connect: a subscription that lasts from one time to another, or none. */
  datatype Attempt =
    | Refused
    | Subscribed(at: Instant, serverTimeout: nat, channel: string, inputs: seq<Input>, endedAt: Instant)

  function ReconnectBackoffAttempt(currentAttempt: U32, connectedFor: nat): U32 {
    if connectedFor >= MIN_STABLE_SUBSCRIPTION then 0 else currentAttempt
  }

  function ConnectedFor(a: Attempt): nat
    requires a.Subscribed?
  {
    if a.endedAt < a.at then 0 else a.endedAt - a.at
  }

  /** What the loop has done, the failures counted, and whether it is back at its head. */
  datatype Session = Session(acts: seq<Act>, failures: U32, back: bool)

  function Session0(): Session {
    Session([], 0, true)
  }

  const OPENING := [Connected(true), ForceTransactions, ForceWallets]

  function AttemptActs(a: Attempt): seq<Act> {
    match a
    case Refused => [Connected(false)]
    case Subscribed(at, serverTimeout, channel, inputs, _) =>
      var heard := Listen(at, inputs, ActivityTimeout(serverTimeout), channel);
      OPENING + heard.acts +
      if heard.listening.failed then [Connected(false)] else []
  }

  /** A subscription whose inputs end without a failure is still being listened to. */
  predicate StillListening(a: Attempt) {
    a.Subscribed? && !Listen(a.at, a.inputs, ActivityTimeout(a.serverTimeout), a.channel).listening.failed
  }

  function FailuresAfter(failures: U32, a: Attempt): U32 {
    if a.Refused? then failures else ReconnectBackoffAttempt(failures, ConnectedFor(a))
  }

  function Attempted(s: Session, a: Attempt, jitter: Percent): Session {
    if !s.back then s
    else if StillListening(a) then Session(s.acts + AttemptActs(a), s.failures, false)
    else
      var failures := FailuresAfter(s.failures, a);
      Session(s.acts + AttemptActs(a) + [Slept(JitteredExponentialDelay(failures, jitter))],
              SaturatingIncrement(failures), true)
  }

  function Sessions(attempts: seq<Attempt>, jitters: seq<Percent>): Session
    requires |attempts| == |jitters|
  {
    if attempts == [] then Session0()
    else
      var last := |attempts| - 1;
      Attempted(Sessions(attempts[..last], jitters[..last]), attempts[last], jitters[last])
  }

  datatype Worker = TransactionWorker | WalletWorker

  /** What an act is on a worker's trigger: an event recorded, a lookup forced, or nothing. */
  function OpOf(act: Act, worker: Worker): WT.Notices {
    match act
    case TransactionEvent(at) => if worker.TransactionWorker? then [WT.Event(at)] else []
    case ForceTransactions => if worker.TransactionWorker? then [WT.Force] else []
    case WalletEvent(at) => if worker.WalletWorker? then [WT.Event(at)] else []
    case ForceWallets => if worker.WalletWorker? then [WT.Force] else []
    case Connected(_) => []
    case PingSent(_) => []
    case PongSent => []
    case Slept(_) => []
  }

  function Ops(acts: seq<Act>, worker: Worker): seq<WT.Op> {
    if acts == [] then [] else Ops(acts[..|acts| - 1], worker) + OpOf(acts[|acts| - 1], worker)
  }

  lemma OpsSnoc(acts: seq<Act>, act: Act, worker: Worker)
    ensures Ops(acts + [act], worker) == Ops(acts, worker) + OpOf(act, worker)
  {
    assert (acts + [act])[..|acts|] == acts;
  }

  lemma Reassociate<T>(s: seq<T>, a: T, b: T, c: T)
    ensures s + [a] + [b] + [c] == s + [a, b, c]
  {
  }

  lemma ActApplied(t: WT.TriggerState, acts: seq<Act>, act: Act, worker: Worker)
    ensures WT.ApplyAll(t, Ops(acts + [act], worker))
            == WT.ApplyAll(WT.ApplyAll(t, Ops(acts, worker)), OpOf(act, worker))
  {
    OpsSnoc(acts, act, worker);
    WT.ApplyConcat(t, Ops(acts, worker), OpOf(act, worker));
  }

  class PusherConnection {
    const transactionTrigger: WT.WorkTrigger
    const walletTrigger: WT.WorkTrigger
    const status: P.PusherStatus
    /** What the connection has done, and the triggers' states before it did anything. */
    ghost var acts: seq<Act>
    ghost const transactionStart: WT.TriggerState
    ghost const walletStart: WT.TriggerState

    constructor (transactionTrigger: WT.WorkTrigger, walletTrigger: WT.WorkTrigger, status: P.PusherStatus)
      requires transactionTrigger != walletTrigger
      ensures this.transactionTrigger == transactionTrigger && this.walletTrigger == walletTrigger &&
          this.status == status
      ensures Valid() && acts == []
      ensures transactionStart == transactionTrigger.State() && walletStart == walletTrigger.State()
    {
      this.transactionTrigger := transactionTrigger;
      this.walletTrigger := walletTrigger;
      this.status := status;
      acts, transactionStart, walletStart := [], transactionTrigger.State(), walletTrigger.State();
    }

    /** The triggers are as the connection's acts have made them. */
    ghost predicate Valid()
      reads this, transactionTrigger, walletTrigger
    {
      transactionTrigger != walletTrigger &&
      transactionTrigger.State() == WT.ApplyAll(transactionStart, Ops(acts, TransactionWorker)) &&
      walletTrigger.State() == WT.ApplyAll(walletStart, Ops(acts, WalletWorker))
    }

    /** Carry out one act on the triggers: record its event or force its lookup. */
    method Record(act: Act)
      requires Valid()
      modifies `acts, transactionTrigger, walletTrigger
      ensures Valid() && acts == old(acts) + [act]
    {
      ActApplied(transactionStart, acts, act, TransactionWorker);
      ActApplied(walletStart, acts, act, WalletWorker);
      transactionTrigger.Receive(OpOf(act, TransactionWorker));
      walletTrigger.Receive(OpOf(act, WalletWorker));
      acts := acts + [act];
    }

    /** Handle a text message's frame: anything for another channel is passed over. */
    method OnText(frame: Frame, at: Instant, sent: bool, channel: string, ghost l: Listening)
      returns (act: Option<Act>, failed: bool)
      requires !l.failed
      ensures OnFrame(l, frame, at, sent, channel)
              == Heard(l.(failed := failed), if act.Some? then [act.value] else [])
    {
      act, failed := None, false;
      if frame.channel.Some? && frame.channel.value != channel {
        return;
      }
      if frame.event == "TransactionCreated" {
        act := Some(TransactionEvent(at));
      } else if frame.event == "ManagedWalletRequested" {
        act := Some(WalletEvent(at));
      } else if frame.event == "pusher:ping" {
        act := if sent then Some(PongSent) else None;
        failed := !sent;
      } else if frame.event == "pusher:error" {
        failed := true;
      }
    }

    /** Wake on one input. */
    method Wake(activityDeadline: Instant, pongDeadline: Option<Instant>, input: Input, activityTimeout: nat,
                channel: string)
      returns (activityDeadline': Instant, pongDeadline': Option<Instant>, act: Option<Act>, failed: bool)
      ensures React(Listening(activityDeadline, pongDeadline, false), input, activityTimeout, channel)
              == Heard(Listening(activityDeadline', pongDeadline', failed), if act.Some? then [act.value] else [])
    {
      activityDeadline', pongDeadline', act, failed := activityDeadline, pongDeadline, None, false;
      match input {
        case Inbound(at, message, sent) =>
          activityDeadline' := at + activityTimeout;
          pongDeadline' := None;
          match message {
            case Text(frame) =>
              if frame.None? {
                failed := true;
              } else {
                act, failed := OnText(frame.value, at, sent, channel, Begun(at, activityTimeout));
              }
            case Ping =>
              act := if sent then Some(PongSent) else None;
              failed := !sent;
            case Other =>
            case Close =>
              failed := true;
          }
        case StreamEnded(_) =>
          failed := true;
        case TimedOut(at, sent) =>
          if pongDeadline.Some? || !sent {
            failed := true;
          } else {
            act := Some(PingSent(at));
            pongDeadline' := Some(at + PongTimeout(activityTimeout));
          }
      }
    }

    /** Wake on one input and record what it says. */
    method HearOne(activityDeadline: Instant, pongDeadline: Option<Instant>, input: Input, activityTimeout: nat,
                   channel: string, ghost start: seq<Act>, ghost before: Heard)
      returns (activityDeadline': Instant, pongDeadline': Option<Instant>, failed: bool, ghost after: Heard)
      requires Valid() && acts == start + before.acts
      requires before.listening == Listening(activityDeadline, pongDeadline, false)
      modifies `acts, transactionTrigger, walletTrigger
      ensures Valid() && acts == start + after.acts
      ensures after == Hear(before, input, activityTimeout, channel)
      ensures after.listening == Listening(activityDeadline', pongDeadline', failed)
    {
      var act;
      activityDeadline', pongDeadline', act, failed :=
        Wake(activityDeadline, pongDeadline, input, activityTimeout, channel);
      ghost var said := if act.Some? then [act.value] else [];
      after := Heard(Listening(activityDeadline', pongDeadline', failed), before.acts + said);
      assert after == Hear(before, input, activityTimeout, channel);
      assert start + (before.acts + said) == start + before.acts + said;
      RecordAny(act);
    }

    method RecordAny(act: Option<Act>)
      requires Valid()
      modifies `acts, transactionTrigger, walletTrigger
      ensures Valid() && acts == old(acts) + if act.Some? then [act.value] else []
    {
      if act.Some? {
        Record(act.value);
      }
    }

    /** Listen until the connection fails, or for as long as the inputs last. */
    method ListenTo(now: Instant, inputs: seq<Input>, activityTimeout: nat, channel: string) returns (failed: bool)
      requires Valid()
      modifies `acts, transactionTrigger, walletTrigger
      ensures var heard := Listen(now, inputs, activityTimeout, channel);
              acts == old(acts) + heard.acts && failed == heard.listening.failed
      ensures Valid()
    {
      var activityDeadline: Instant := now + activityTimeout;
      var pongDeadline: Option<Instant> := None;
      failed := false;
      ghost var heard := Heard(Begun(now, activityTimeout), []);
      for i := 0 to |inputs|
        invariant Valid() && !failed && acts == old(acts) + heard.acts
        invariant heard == Listen(now, inputs[..i], activityTimeout, channel)
        invariant heard.listening == Listening(activityDeadline, pongDeadline, false)
      {
        ListenSnoc(now, inputs, activityTimeout, channel, i);
        activityDeadline, pongDeadline, failed, heard :=
          HearOne(activityDeadline, pongDeadline, inputs[i], activityTimeout, channel, old(acts), heard);
        if failed {
          ListenStops(now, inputs, activityTimeout, channel, i + 1);
          return;
        }
      }
      assert inputs[..|inputs|] == inputs;
    }

    /** A new subscription is announced and forces both workers: what was missed is not replayed. */
    method Open()
      requires Valid()
      modifies `acts, transactionTrigger, walletTrigger, status
      ensures Valid() && acts == old(acts) + OPENING && status.connected
    {
      status.SetConnected(true);
      Record(Connected(true));
      Record(ForceTransactions);
      Record(ForceWallets);
      Reassociate(old(acts), Connected(true), ForceTransactions, ForceWallets);
    }

    method Lose()
      requires Valid()
      modifies `acts, transactionTrigger, walletTrigger, status
      ensures Valid() && acts == old(acts) + [Connected(false)] && !status.connected
    {
      status.SetConnected(false);
      Record(Connected(false));
    }

    /** A subscription, and listening to it until it fails. */
    method Subscription(a: Attempt) returns (failed: bool)
      requires a.Subscribed? && Valid()
      modifies `acts, transactionTrigger, walletTrigger, status
      ensures Valid() && acts == old(acts) + AttemptActs(a)
      ensures failed == !StillListening(a) && status.connected == !failed
    {
      Open();
      failed := ListenTo(a.at, a.inputs, ActivityTimeout(a.serverTimeout), a.channel);
      if failed {
        Lose();
      }
      SubscriptionActs(a, old(acts));
    }

    /** One attempt, and the wait after it. */
    method TryOnce(a: Attempt, jitter: Percent, failures: U32) returns (failures': U32, back: bool)
      requires Valid()
      modifies `acts, transactionTrigger, walletTrigger, status
      ensures Attempted(Session(old(acts), failures, true), a, jitter) == Session(acts, failures', back)
      ensures Valid() && status.connected == !back
    {
      failures', back := failures, true;
      match a {
        case Refused =>
          Lose();
        case Subscribed(_, _, _, _, _) =>
          back := Subscription(a);
          if !back {
            return;
          }
          failures' := ReconnectBackoffAttempt(failures, ConnectedFor(a));
      }
      Record(Slept(JitteredExponentialDelay(failures', jitter)));
      failures' := SaturatingIncrement(failures');
    }

    /** The endless loop, for as long as the attempts last. */
    method Run(attempts: seq<Attempt>, jitters: seq<Percent>)
      requires |attempts| == |jitters| && Valid() && acts == []
      modifies `acts, transactionTrigger, walletTrigger, status
      ensures Valid() && acts == Sessions(attempts, jitters).acts
      ensures attempts != [] ==> status.connected == !Sessions(attempts, jitters).back
    {
      var failures: U32 := 0;
      for i := 0 to |attempts|
        invariant Valid() && Sessions(attempts[..i], jitters[..i]) == Session(acts, failures, true)
        invariant i > 0 ==> !status.connected
      {
        SessionsSnoc(attempts, jitters, i);
        var back;
        failures, back := TryOnce(attempts[i], jitters[i], failures);
        if !back {
          SessionsStop(attempts, jitters, i + 1);
          return;
        }
      }
      assert attempts[..|attempts|] == attempts && jitters[..|attempts|] == jitters;
    }
  }

  lemma SubscriptionActs(a: Attempt, before: seq<Act>)
    requires a.Subscribed?
    ensures var heard := Listen(a.at, a.inputs, ActivityTimeout(a.serverTimeout), a.channel);
            before + AttemptActs(a)
            == if heard.listening.failed then before + OPENING + heard.acts + [Connected(false)]
               else before + OPENING + heard.acts
  {
  }

  lemma ListenSnoc(now: Instant, inputs: seq<Input>, timeout: nat, channel: string, i: nat)
    requires i < |inputs|
    ensures Listen(now, inputs[..i + 1], timeout, channel)
            == Hear(Listen(now, inputs[..i], timeout, channel), inputs[i], timeout, channel)
  {
    assert inputs[..i + 1][..i] == inputs[..i];
  }

  lemma SessionsSnoc(attempts: seq<Attempt>, jitters: seq<Percent>, i: nat)
    requires i < |attempts| == |jitters|
    ensures Sessions(attempts[..i + 1], jitters[..i + 1])
            == Attempted(Sessions(attempts[..i], jitters[..i]), attempts[i], jitters[i])
  {
    assert attempts[..i + 1][..i] == attempts[..i] && jitters[..i + 1][..i] == jitters[..i];
  }

  lemma LeftForGood(s: Session, a: Attempt, jitter: Percent)
    requires !s.back
    ensures Attempted(s, a, jitter) == s
  {
  }

  lemma {:induction false} SessionsStop(attempts: seq<Attempt>, jitters: seq<Percent>, i: nat)
    requires |attempts| == |jitters| && i <= |attempts| && !Sessions(attempts[..i], jitters[..i]).back
    ensures Sessions(attempts, jitters) == Sessions(attempts[..i], jitters[..i])
    decreases |attempts|
  {
    if i == |attempts| {
      assert attempts[..i] == attempts && jitters[..i] == jitters;
    } else {
      var last := |attempts| - 1;
      var before := Sessions(attempts[..last], jitters[..last]);
      assert before == Sessions(attempts[..i], jitters[..i]) by {
        assert attempts[..last][..i] == attempts[..i] && jitters[..last][..i] == jitters[..i];
        SessionsStop(attempts[..last], jitters[..last], i);
      }
      LeftForGood(before, attempts[last], jitters[last]);
    }
  }

  lemma {:induction false} ListenStops(now: Instant, inputs: seq<Input>, timeout: nat, channel: string, i: nat)
    requires i <= |inputs| && Listen(now, inputs[..i], timeout, channel).listening.failed
    ensures Listen(now, inputs, timeout, channel) == Listen(now, inputs[..i], timeout, channel)
    decreases |inputs|
  {
    if i == |inputs| {
      assert inputs[..i] == inputs;
    } else {
      var last := |inputs| - 1;
      assert inputs[..last][..i] == inputs[..i];
      ListenStops(now, inputs[..last], timeout, channel, i);
    }
  }
}
