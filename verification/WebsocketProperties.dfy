/** What the Pusher connection keeps: its keepalive, its routing, and its reconnections. */
module WebsocketProperties {
  import opened Wrappers
  import opened Retry
  import opened Websocket
  import WT = WorkTrigger

  // The keepalive.

  function TimeOf(input: Input): Instant {
    match input
    case Inbound(at, _, _) => at
    case StreamEnded(at) => at
    case TimedOut(at, _) => at
  }

  /** When something last came in, or listening began. */
  function LastInbound(now: Instant, inputs: seq<Input>): Instant {
    if inputs == [] then now
    else match inputs[|inputs| - 1]
      case Inbound(at, _, _) => at
      case StreamEnded(_) => LastInbound(now, inputs[..|inputs| - 1])
      case TimedOut(_, _) => LastInbound(now, inputs[..|inputs| - 1])
  }

  predicate Pings(heard: Heard, input: Input) {
    heard.acts == [PingSent(TimeOf(input))]
  }

  /** Pings sent since something last came in. */
  function OutstandingPings(now: Instant, inputs: seq<Input>, timeout: nat, channel: string): nat {
    if inputs == [] || inputs[|inputs| - 1].Inbound? then 0
    else
      var before := inputs[..|inputs| - 1];
      var l := Listen(now, before, timeout, channel).listening;
      OutstandingPings(now, before, timeout, channel) +
      if !l.failed && Pings(React(l, inputs[|inputs| - 1], timeout, channel), inputs[|inputs| - 1]) then 1 else 0
  }

  /** Inputs whose timers fire when they are due, up to a failure. */
  predicate Timely(now: Instant, inputs: seq<Input>, timeout: nat, channel: string) {
    if inputs == [] then true
    else
      var before := inputs[..|inputs| - 1];
      var input := inputs[|inputs| - 1];
      var l := Listen(now, before, timeout, channel).listening;
      Timely(now, before, timeout, channel) && !l.failed && TimeOf(input) <= Deadline(l) &&
      (input.TimedOut? ==> input.at == Deadline(l))
  }

  /** What the timers say: the activity deadline counts from the last inbound message, and the pong deadline
      from the activity deadline. */
  ghost predicate TimersExact(l: Listening, lastInbound: Instant, timeout: nat, pings: nat) {
    l.activityDeadline == lastInbound + timeout &&
    (l.pongDeadline.Some? <==> pings == 1) && pings <= 1 &&
    (l.pongDeadline.Some? ==> l.pongDeadline.value == lastInbound + timeout + PongTimeout(timeout))
  }

  /** One input either fails the connection or keeps the timers. */
  lemma ReactKeepsTimers(l: Listening, input: Input, timeout: nat, channel: string, lastInbound: Instant, pings: nat)
    requires !l.failed && TimersExact(l, lastInbound, timeout, pings) && (input.TimedOut? ==> input.at == Deadline(l))
    ensures var heard := React(l, input, timeout, channel);
            var pings' := if input.Inbound? then 0 else pings + if Pings(heard, input) then 1 else 0;
            TimersExact(heard.listening, if input.Inbound? then input.at else lastInbound, timeout, pings')
  {
    if input.StreamEnded? {
      assert React(l, input, timeout, channel).acts == [];
    }
  }

  lemma {:induction false} TimersAreExact(now: Instant, inputs: seq<Input>, timeout: nat, channel: string)
    requires Timely(now, inputs, timeout, channel)
    ensures TimersExact(Listen(now, inputs, timeout, channel).listening, LastInbound(now, inputs), timeout,
                        OutstandingPings(now, inputs, timeout, channel))
  {
    if inputs != [] {
      var last := |inputs| - 1;
      var before := inputs[..last];
      TimersAreExact(now, before, timeout, channel);
      ReactKeepsTimers(Listen(now, before, timeout, channel).listening, inputs[last], timeout, channel,
                       LastInbound(now, before), OutstandingPings(now, before, timeout, channel));
    }
  }

  /** With timely timers, at most one ping is outstanding, and whatever happens next happens within the
      activity timeout plus the pong timeout of the last inbound message, so within 630 seconds whatever the
      server asked for; a timer that fires then, or with a ping that could not be sent, fails the
      connection, and no other does. */
  lemma {:induction false} SilenceIsDetected(now: Instant, inputs: seq<Input>, serverSecs: nat, channel: string,
                                             input: Input)
    requires Timely(now, inputs + [input], ActivityTimeout(serverSecs), channel)
    ensures var timeout := 1000 * if serverSecs < 1 then 1 else if serverSecs > 600 then 600 else serverSecs;
            var bound := LastInbound(now, inputs) + timeout + if timeout < 30_000 then timeout else 30_000;
            timeout == ActivityTimeout(serverSecs) &&
            OutstandingPings(now, inputs, timeout, channel) <= 1 &&
            TimeOf(input) <= bound <= LastInbound(now, inputs) + 630_000 &&
            (input.TimedOut? ==>
               input.at > LastInbound(now, inputs) &&
               (Listen(now, inputs + [input], timeout, channel).listening.failed <==> input.at == bound || !input.sent))
  {
    var timeout := ActivityTimeout(serverSecs);
    assert (inputs + [input])[..|inputs|] == inputs;
    TimersAreExact(now, inputs, timeout, channel);
  }

  // Routing.

  /** What an input tells a worker: its event, on this channel or on none named. */
  function ToldBy(input: Input, channel: string, worker: Worker): seq<WT.Op> {
    var event := if worker.TransactionWorker? then "TransactionCreated" else "ManagedWalletRequested";
    match input
    case Inbound(at, message, _) =>
      if message.Text? && message.frame.Some? && message.frame.value.event == event &&
         (message.frame.value.channel.None? || message.frame.value.channel == Some(channel))
      then [WT.Event(at)] else []
    case StreamEnded(_) => []
    case TimedOut(_, _) => []
  }

  function Told(inputs: seq<Input>, channel: string, worker: Worker): seq<WT.Op> {
    if inputs == [] then []
    else Told(inputs[..|inputs| - 1], channel, worker) + ToldBy(inputs[|inputs| - 1], channel, worker)
  }

  lemma FrameIsRouted(l: Listening, frame: Frame, at: Instant, sent: bool, channel: string, worker: Worker)
    ensures Ops(OnFrame(l, frame, at, sent, channel).acts, worker)
            == ToldBy(Inbound(at, Text(Some(frame)), sent), channel, worker)
  {
    OneOp(TransactionEvent(at), worker);
    OneOp(WalletEvent(at), worker);
    OneOp(PongSent, worker);
    assert "TransactionCreated" != "ManagedWalletRequested" by {
      assert "TransactionCreated"[0] != "ManagedWalletRequested"[0];
    }
    assert "TransactionCreated" != "pusher:ping" && "ManagedWalletRequested" != "pusher:ping" by {
      assert "TransactionCreated"[0] != "pusher:ping"[0] && "ManagedWalletRequested"[0] != "pusher:ping"[0];
    }
    assert "TransactionCreated" != "pusher:error" && "ManagedWalletRequested" != "pusher:error" by {
      assert "TransactionCreated"[0] != "pusher:error"[0] && "ManagedWalletRequested"[0] != "pusher:error"[0];
    }
  }

  lemma OneOp(act: Act, worker: Worker)
    ensures Ops([act], worker) == OpOf(act, worker)
  {
    OpsSnoc([], act, worker);
    assert [] + [act] == [act];
  }

  lemma InputIsRouted(l: Listening, input: Input, timeout: nat, channel: string, worker: Worker)
    ensures |React(l, input, timeout, channel).acts| <= 1
    ensures Ops(React(l, input, timeout, channel).acts, worker) == ToldBy(input, channel, worker)
  {
    OneOp(PongSent, worker);
    OneOp(PingSent(TimeOf(input)), worker);
    if input.Inbound? && input.message.Text? && input.message.frame.Some? {
      FrameIsRouted(Begun(input.at, timeout), input.message.frame.value, input.at, input.sent, channel, worker);
    }
  }

  lemma OpsOfShort(acts: seq<Act>, more: seq<Act>, worker: Worker)
    requires |more| <= 1
    ensures Ops(acts + more, worker) == Ops(acts, worker) + Ops(more, worker)
  {
    if more == [] {
      assert acts + more == acts;
    } else {
      assert more == [more[0]];
      OpsSnoc(acts, more[0], worker);
      OneOp(more[0], worker);
    }
  }

  lemma HearIsRouted(before: Heard, input: Input, timeout: nat, channel: string, worker: Worker)
    requires !before.listening.failed
    ensures Ops(Hear(before, input, timeout, channel).acts, worker)
            == Ops(before.acts, worker) + ToldBy(input, channel, worker)
  {
    var heard := React(before.listening, input, timeout, channel);
    InputIsRouted(before.listening, input, timeout, channel, worker);
    OpsOfShort(before.acts, heard.acts, worker);
  }

  /** Each worker is told exactly of its own events, in order, for this channel or for none; nothing else that
      comes in notifies it. */
  lemma {:induction false} RoutingExact(now: Instant, inputs: seq<Input>, timeout: nat, channel: string, worker: Worker)
    requires inputs != [] ==> !Listen(now, inputs[..|inputs| - 1], timeout, channel).listening.failed
    ensures Ops(Listen(now, inputs, timeout, channel).acts, worker) == Told(inputs, channel, worker)
  {
    if inputs != [] {
      var last := |inputs| - 1;
      var before := Listen(now, inputs[..last], timeout, channel);
      NotFailedBefore(now, inputs[..last], timeout, channel);
      RoutingExact(now, inputs[..last], timeout, channel, worker);
      HearIsRouted(before, inputs[last], timeout, channel, worker);
    }
  }

  lemma NotFailedBefore(now: Instant, inputs: seq<Input>, timeout: nat, channel: string)
    requires !Listen(now, inputs, timeout, channel).listening.failed
    ensures inputs != [] ==> !Listen(now, inputs[..|inputs| - 1], timeout, channel).listening.failed
  {
  }

  // What each input does.

  /** The text is a frame of this event, for this channel or for none. */
  predicate IsFrame(message: Message, event: string, channel: string) {
    message.Text? && message.frame.Some? && message.frame.value.event == event &&
    (message.frame.value.channel.None? || message.frame.value.channel == Some(channel))
  }

  /** The input asks for a pong, by the socket's own ping or by Pusher's. */
  predicate IsPing(input: Input, channel: string) {
    input.Inbound? && (input.message.Ping? || IsFrame(input.message, "pusher:ping", channel))
  }

  /** A ping went out after the last inbound message. */
  predicate AwaitsPong(inputs: seq<Input>) {
    inputs != [] &&
    (inputs[|inputs| - 1].TimedOut? ||
     (inputs[|inputs| - 1].StreamEnded? && AwaitsPong(inputs[..|inputs| - 1])))
  }

  /** The input fails the connection: a text that is no frame, a close, the stream's end, a Pusher error, an answer
      or a ping that could not be sent, or a timer with a pong still awaited. */
  predicate FailsOn(before: seq<Input>, input: Input, channel: string) {
    match input
    case Inbound(_, message, sent) =>
      message == Text(None) || message.Close? || IsFrame(message, "pusher:error", channel) ||
      (IsPing(input, channel) && !sent)
    case StreamEnded(_) => true
    case TimedOut(_, sent) => AwaitsPong(before) || !sent
  }

  lemma EventNames()
    ensures "TransactionCreated" != "pusher:ping" && "ManagedWalletRequested" != "pusher:ping"
    ensures "TransactionCreated" != "pusher:error" && "ManagedWalletRequested" != "pusher:error"
    ensures "pusher:ping" != "pusher:error"
  {
    assert "TransactionCreated"[0] != "pusher:ping"[0] && "ManagedWalletRequested"[0] != "pusher:ping"[0];
    assert "TransactionCreated"[0] != "pusher:error"[0] && "ManagedWalletRequested"[0] != "pusher:error"[0];
    assert "pusher:ping"[7] != "pusher:error"[7];
  }

  /** What an input does, given whether a pong is awaited. */
  lemma ReactExact(l: Listening, before: seq<Input>, input: Input, timeout: nat, channel: string)
    requires !l.failed && (l.pongDeadline.Some? <==> AwaitsPong(before))
    ensures var heard := React(l, input, timeout, channel);
            (heard.listening.failed <==> FailsOn(before, input, channel)) && |heard.acts| <= 1 &&
            (PongSent in heard.acts <==> IsPing(input, channel) && input.sent) &&
            (heard.acts == [PingSent(TimeOf(input))] <==> input.TimedOut? && input.sent && !AwaitsPong(before)) &&
            (heard.listening.failed || (heard.listening.pongDeadline.Some? <==> input.TimedOut?))
  {
    EventNames();
  }

  lemma {:induction false} PongAwaitedExact(now: Instant, inputs: seq<Input>, timeout: nat, channel: string)
    requires !Listen(now, inputs, timeout, channel).listening.failed
    ensures Listen(now, inputs, timeout, channel).listening.pongDeadline.Some? <==> AwaitsPong(inputs)
  {
    if inputs != [] {
      var before, input := inputs[..|inputs| - 1], inputs[|inputs| - 1];
      NotFailedBefore(now, inputs, timeout, channel);
      PongAwaitedExact(now, before, timeout, channel);
      ReactExact(Listen(now, before, timeout, channel).listening, before, input, timeout, channel);
    }
  }

  /** While the connection listens, each input adds at most one act. A pong is sent exactly when the input is a
      socket ping or a `pusher:ping` for this channel or for none and the answer goes through; a ping exactly when
      a timer fires with no pong awaited and it goes through; and the connection fails exactly on the inputs named
      above. */
  lemma ListeningExact(now: Instant, inputs: seq<Input>, input: Input, timeout: nat, channel: string)
    requires !Listen(now, inputs, timeout, channel).listening.failed
    ensures var before, after := Listen(now, inputs, timeout, channel), Listen(now, inputs + [input], timeout, channel);
            before.acts <= after.acts &&
            var added := after.acts[|before.acts|..];
            |added| <= 1 && (PongSent in added <==> IsPing(input, channel) && input.sent) &&
            (added == [PingSent(TimeOf(input))] <==> input.TimedOut? && input.sent && !AwaitsPong(inputs)) &&
            (after.listening.failed <==> FailsOn(inputs, input, channel))
  {
    assert (inputs + [input])[..|inputs|] == inputs;
    PongAwaitedExact(now, inputs, timeout, channel);
    var before := Listen(now, inputs, timeout, channel);
    ReactExact(before.listening, inputs, input, timeout, channel);
    var heard := React(before.listening, input, timeout, channel);
    assert (before.acts + heard.acts)[|before.acts|..] == heard.acts;
  }

  /** The inputs up to the first that fails the connection, that one included. */
  function Heeded(inputs: seq<Input>, channel: string): seq<Input> {
    if inputs == [] then []
    else
      var before := inputs[..|inputs| - 1];
      if AllHeard(before, channel) then inputs else Heeded(before, channel)
  }

  /** No input fails the connection. */
  predicate AllHeard(inputs: seq<Input>, channel: string) {
    forall i :: 0 <= i < |inputs| ==> !FailsOn(inputs[..i], inputs[i], channel)
  }

  lemma AllHeardSnoc(inputs: seq<Input>, channel: string)
    requires inputs != []
    ensures var before := inputs[..|inputs| - 1];
            AllHeard(inputs, channel) <==> AllHeard(before, channel) && !FailsOn(before, inputs[|inputs| - 1], channel)
  {
    var before := inputs[..|inputs| - 1];
    assert forall i :: 0 <= i < |before| ==> before[..i] == inputs[..i];
    if AllHeard(before, channel) && !FailsOn(before, inputs[|inputs| - 1], channel) {
      forall i | 0 <= i < |inputs| ensures !FailsOn(inputs[..i], inputs[i], channel) {
        if i < |before| {
          assert !FailsOn(before[..i], before[i], channel);
        }
      }
    }
    if AllHeard(inputs, channel) {
      forall i | 0 <= i < |before| ensures !FailsOn(before[..i], before[i], channel) {
        assert !FailsOn(inputs[..i], inputs[i], channel);
      }
    }
  }

  /** Listening is still going on exactly when no input so far fails the connection. */
  lemma {:induction false} ListenFailsExact(now: Instant, inputs: seq<Input>, timeout: nat, channel: string)
    ensures Listen(now, inputs, timeout, channel).listening.failed <==> !AllHeard(inputs, channel)
  {
    if inputs != [] {
      var before, input := inputs[..|inputs| - 1], inputs[|inputs| - 1];
      ListenFailsExact(now, before, timeout, channel);
      AllHeardSnoc(inputs, channel);
      if AllHeard(before, channel) {
        PongAwaitedExact(now, before, timeout, channel);
        ReactExact(Listen(now, before, timeout, channel).listening, before, input, timeout, channel);
      }
    }
  }

  /** Whatever comes in, each worker is told of its own events among the inputs heeded, in order. */
  lemma {:induction false} AllRouted(now: Instant, inputs: seq<Input>, timeout: nat, channel: string, worker: Worker)
    ensures Ops(Listen(now, inputs, timeout, channel).acts, worker) == Told(Heeded(inputs, channel), channel, worker)
  {
    if inputs != [] {
      var before := inputs[..|inputs| - 1];
      ListenFailsExact(now, before, timeout, channel);
      if AllHeard(before, channel) {
        RoutingExact(now, inputs, timeout, channel, worker);
      } else {
        AllRouted(now, before, timeout, channel, worker);
      }
    }
  }

  /** What an attempt tells a worker: nothing if it is refused, else to look up at once and then its events. */
  function ToldByAttempt(a: Attempt, worker: Worker): seq<WT.Op> {
    if a.Refused? then [] else [WT.Force] + Told(Heeded(a.inputs, a.channel), a.channel, worker)
  }

  function ToldByAll(attempts: seq<Attempt>, worker: Worker): seq<WT.Op> {
    if attempts == [] then []
    else ToldByAll(attempts[..|attempts| - 1], worker) + ToldByAttempt(attempts[|attempts| - 1], worker)
  }

  /** The attempt was refused or its subscription failed. */
  predicate IsOver(a: Attempt) {
    a.Refused? || !AllHeard(a.inputs, a.channel)
  }

  lemma Regroup<T>(a: seq<T>, b: seq<T>, c: seq<T>)
    ensures a + b + c == a + (b + c)
  {
  }

  lemma OpsEnd(acts: seq<Act>, before: seq<Act>, act: Act, worker: Worker)
    requires acts == before + [act]
    ensures Ops(acts, worker) == Ops(before, worker) + OpOf(act, worker)
  {
    OpsSnoc(before, act, worker);
  }

  lemma {:induction false} OpsConcat(a: seq<Act>, b: seq<Act>, worker: Worker)
    ensures Ops(a + b, worker) == Ops(a, worker) + Ops(b, worker)
  {
    if b == [] {
      assert a + b == a;
    } else {
      var before, act := b[..|b| - 1], b[|b| - 1];
      assert b == before + [act];
      Regroup(a, before, [act]);
      OpsConcat(a, before, worker);
      OpsEnd(a + b, a + before, act, worker);
      OpsEnd(b, before, act, worker);
      Regroup(Ops(a, worker), Ops(before, worker), OpOf(act, worker));
    }
  }

  lemma OpeningOps(worker: Worker)
    ensures Ops(OPENING, worker) == [WT.Force]
  {
    OneOp(Connected(true), worker);
    OpsConcat([Connected(true)], [ForceTransactions], worker);
    OpsConcat([Connected(true), ForceTransactions], [ForceWallets], worker);
    OneOp(ForceTransactions, worker);
    OneOp(ForceWallets, worker);
    assert OPENING == [Connected(true)] + [ForceTransactions] + [ForceWallets];
    assert [Connected(true), ForceTransactions] == [Connected(true)] + [ForceTransactions];
  }

  lemma AttemptTells(a: Attempt, worker: Worker)
    ensures Ops(AttemptActs(a), worker) == ToldByAttempt(a, worker)
    ensures StillListening(a) <==> !IsOver(a)
  {
    OneOp(Connected(false), worker);
    if a.Subscribed? {
      var timeout := ActivityTimeout(a.serverTimeout);
      var heard := Listen(a.at, a.inputs, timeout, a.channel);
      ListenFailsExact(a.at, a.inputs, timeout, a.channel);
      AllRouted(a.at, a.inputs, timeout, a.channel, worker);
      OpeningOps(worker);
      OpsConcat(OPENING, heard.acts, worker);
      OpsConcat(OPENING + heard.acts, [Connected(false)], worker);
      assert OPENING + heard.acts + [] == OPENING + heard.acts;
    }
  }

  lemma AttemptedTells(s: Session, a: Attempt, jitter: Percent, worker: Worker)
    requires s.back
    ensures Ops(Attempted(s, a, jitter).acts, worker) == Ops(s.acts, worker) + ToldByAttempt(a, worker)
    ensures Attempted(s, a, jitter).back <==> IsOver(a)
  {
    AttemptTells(a, worker);
    OpsConcat(s.acts, AttemptActs(a), worker);
    var slept := Slept(JitteredExponentialDelay(FailuresAfter(s.failures, a), jitter));
    OpsConcat(s.acts + AttemptActs(a), [slept], worker);
    OneOp(slept, worker);
  }

  /** Over every run of attempts, each worker is told exactly this: at each subscription to look up at once, and
      then of its own events up to the input that fails it, in order. The run stays with an attempt exactly when
      that is a subscription not yet failed. */
  lemma {:induction false} SessionsTell(attempts: seq<Attempt>, jitters: seq<Percent>, worker: Worker)
    requires |attempts| == |jitters| && forall i :: 0 <= i < |attempts| - 1 ==> IsOver(attempts[i])
    ensures Ops(Sessions(attempts, jitters).acts, worker) == ToldByAll(attempts, worker)
    ensures Sessions(attempts, jitters).back <==> attempts == [] || IsOver(attempts[|attempts| - 1])
  {
    if attempts != [] {
      var last := |attempts| - 1;
      var a, before := attempts[last], Sessions(attempts[..last], jitters[..last]);
      SessionsTell(attempts[..last], jitters[..last], worker);
      AttemptedTells(before, a, jitters[last], worker);
    }
  }

  // Reconnecting.

  /** What has been done since the connection was last announced, if it has not been announced lost. */
  function SinceConnected(acts: seq<Act>): Option<seq<Act>> {
    if acts == [] then None
    else
      var last := acts[|acts| - 1];
      if last.Connected? then (if last.connected then Some([]) else None)
      else match SinceConnected(acts[..|acts| - 1])
        case None => None
        case Some(since) => Some(since + [last])
  }

  /** An act is in order: events and pings come while connected and after both workers were forced, waits
      while disconnected. */
  predicate InOrder(before: seq<Act>, act: Act) {
    var since := SinceConnected(before);
    match act
    case TransactionEvent(_) => since.Some? && [ForceTransactions, ForceWallets] <= since.value
    case WalletEvent(_) => since.Some? && [ForceTransactions, ForceWallets] <= since.value
    case PingSent(_) => since.Some? && [ForceTransactions, ForceWallets] <= since.value
    case PongSent => since.Some? && [ForceTransactions, ForceWallets] <= since.value
    case Slept(_) => since.None?
    case ForceTransactions => since.Some?
    case ForceWallets => since.Some?
    case Connected(_) => true
  }

  predicate AllInOrder(acts: seq<Act>) {
    acts != [] ==> AllInOrder(acts[..|acts| - 1]) && InOrder(acts[..|acts| - 1], acts[|acts| - 1])
  }

  lemma ActsSnoc(acts: seq<Act>, act: Act)
    ensures AllInOrder(acts + [act]) <==> AllInOrder(acts) && InOrder(acts, act)
    ensures SinceConnected(acts + [act])
            == if act.Connected? then (if act.connected then Some([]) else None)
               else match SinceConnected(acts)
                 case None => None
                 case Some(since) => Some(since + [act])
  {
    assert (acts + [act])[..|acts|] == acts;
  }

  predicate Heeds(act: Act) {
    act.TransactionEvent? || act.WalletEvent? || act.PingSent? || act.PongSent?
  }

  predicate AllHeed(acts: seq<Act>) {
    forall i :: 0 <= i < |acts| ==> Heeds(acts[i])
  }

  lemma {:induction false} ListenOnlyHeeds(now: Instant, inputs: seq<Input>, timeout: nat, channel: string)
    ensures AllHeed(Listen(now, inputs, timeout, channel).acts)
  {
    if inputs != [] {
      ListenOnlyHeeds(now, inputs[..|inputs| - 1], timeout, channel);
    }
  }

  lemma {:induction false} HeedingKeepsOrder(acts: seq<Act>, more: seq<Act>)
    requires AllInOrder(acts) && SinceConnected(acts).Some?
    requires [ForceTransactions, ForceWallets] <= SinceConnected(acts).value
    requires AllHeed(more)
    ensures AllInOrder(acts + more) && SinceConnected(acts + more).Some?
    ensures [ForceTransactions, ForceWallets] <= SinceConnected(acts + more).value
  {
    if more == [] {
      assert acts + more == acts;
    } else {
      var last := |more| - 1;
      HeedingKeepsOrder(acts, more[..last]);
      ActsSnoc(acts + more[..last], more[last]);
      assert acts + more == acts + more[..last] + [more[last]];
    }
  }

  lemma OpeningKeepsOrder(acts: seq<Act>)
    requires AllInOrder(acts)
    ensures AllInOrder(acts + OPENING) && SinceConnected(acts + OPENING) == Some([ForceTransactions, ForceWallets])
  {
    var a1 := acts + [Connected(true)];
    var a2 := a1 + [ForceTransactions];
    ActsSnoc(acts, Connected(true));
    ActsSnoc(a1, ForceTransactions);
    ActsSnoc(a2, ForceWallets);
    assert acts + OPENING == a2 + [ForceWallets];
    assert [] + [ForceTransactions] + [ForceWallets] == [ForceTransactions, ForceWallets];
  }

  lemma AttemptKeepsOrder(acts: seq<Act>, a: Attempt)
    requires AllInOrder(acts)
    ensures AllInOrder(acts + AttemptActs(a))
    ensures !StillListening(a) ==> SinceConnected(acts + AttemptActs(a)).None?
  {
    if a.Refused? {
      ActsSnoc(acts, Connected(false));
    } else {
      var heard := Listen(a.at, a.inputs, ActivityTimeout(a.serverTimeout), a.channel);
      OpeningKeepsOrder(acts);
      ListenOnlyHeeds(a.at, a.inputs, ActivityTimeout(a.serverTimeout), a.channel);
      HeedingKeepsOrder(acts + OPENING, heard.acts);
      ActsSnoc(acts + OPENING + heard.acts, Connected(false));
      SubscriptionActs(a, acts);
    }
  }

  /** Over every run of attempts, each new subscription forces both workers before any event is read, pings
      are sent only to a subscription, and every wait is spent with the connection announced lost. */
  lemma {:induction false} SubscriptionsForceFirst(attempts: seq<Attempt>, jitters: seq<Percent>)
    requires |attempts| == |jitters|
    ensures AllInOrder(Sessions(attempts, jitters).acts)
  {
    if attempts != [] {
      var last := |attempts| - 1;
      var before := Sessions(attempts[..last], jitters[..last]);
      SubscriptionsForceFirst(attempts[..last], jitters[..last]);
      if before.back {
        AttemptKeepsOrder(before.acts, attempts[last]);
        var slept := Slept(JitteredExponentialDelay(FailuresAfter(before.failures, attempts[last]), jitters[last]));
        ActsSnoc(before.acts + AttemptActs(attempts[last]), slept);
      }
    }
  }

  /** Attempts since the last subscription that lasted half a minute, that one included. */
  function Unstable(attempts: seq<Attempt>): nat {
    if attempts == [] then 0
    else
      var a := attempts[|attempts| - 1];
      if a.Subscribed? && a.endedAt >= a.at + 30_000 then 1 else 1 + Unstable(attempts[..|attempts| - 1])
  }

  lemma FailuresPaced(failures: U32, unstable: nat, a: Attempt)
    requires failures == Min(unstable, U32_MAX)
    ensures var unstable' := if a.Subscribed? && a.endedAt >= a.at + 30_000 then 1 else 1 + unstable;
            FailuresAfter(failures, a) == Min(unstable' - 1, U32_MAX) &&
            SaturatingIncrement(FailuresAfter(failures, a)) == Min(unstable', U32_MAX)
  {
  }

  lemma AttemptEnds(s: Session, a: Attempt, jitter: Percent)
    requires Attempted(s, a, jitter).back
    ensures var failures := FailuresAfter(s.failures, a);
            var after := Attempted(s, a, jitter);
            s.back && after.failures == SaturatingIncrement(failures) && after.acts != [] &&
            after.acts[|after.acts| - 1] == Slept(JitteredExponentialDelay(failures, jitter))
  {
  }

  /** The failures that pace reconnecting are exactly the attempts since the last subscription of at least
      half a minute; the last wait is for one fewer, within a fifth of the capped exponential. */
  lemma {:induction false} ReconnectPacing(attempts: seq<Attempt>, jitters: seq<Percent>)
    requires |attempts| == |jitters| && Sessions(attempts, jitters).back
    ensures Sessions(attempts, jitters).failures == Min(Unstable(attempts), U32_MAX)
    ensures attempts != [] ==>
              var acts := Sessions(attempts, jitters).acts;
              var base := 1000 * Min(Pow2(Min(Unstable(attempts) - 1, U32_MAX)), 60);
              acts != [] && acts[|acts| - 1].Slept? && 80 * base <= 100 * acts[|acts| - 1].delay <= 120 * base
  {
    if attempts != [] {
      var last := |attempts| - 1;
      var before := Sessions(attempts[..last], jitters[..last]);
      AttemptEnds(before, attempts[last], jitters[last]);
      ReconnectPacing(attempts[..last], jitters[..last]);
      FailuresPaced(before.failures, Unstable(attempts[..last]), attempts[last]);
      JitterBounds(FailuresAfter(before.failures, attempts[last]), jitters[last]);
    }
  }
}
