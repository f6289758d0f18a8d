/** A worker's endless loop over finitely many rounds, whatever one turn of it does. */
module Plays {
  import WT = WorkTrigger

  /** A turn either comes back to the loop's head or, when the consumer is gone, leaves the loop. */
  datatype Turn<L, E> = Turned(loop: L, entry: E) | ConsumerGone

  /** The loop's state, what each turn did, and whether the consumer is still there. */
  datatype Play<L, E> = Play(loop: L, log: seq<E>, running: bool)

  function Turns<L, R, E>(step: (L, R) -> Turn<L, E>, start: L, rounds: seq<R>): (p: Play<L, E>)
    ensures |p.log| <= |rounds| && (p.running ==> |p.log| == |rounds|)
  {
    if rounds == [] then Play(start, [], true)
    else NextPlay(step, Turns(step, start, rounds[..|rounds| - 1]), rounds[|rounds| - 1])
  }

  function NextPlay<L, R, E>(step: (L, R) -> Turn<L, E>, before: Play<L, E>, r: R): (p: Play<L, E>)
    ensures |p.log| <= |before.log| + 1 && (p.running ==> before.running && |p.log| == |before.log| + 1)
  {
    if !before.running then before
    else
      match step(before.loop, r)
      case ConsumerGone => before.(running := false)
      case Turned(loop, entry) => Play(loop, before.log + [entry], true)
  }

  lemma TurnsSnoc<L, R, E>(step: (L, R) -> Turn<L, E>, start: L, rounds: seq<R>, i: nat)
    requires i < |rounds|
    ensures Turns(step, start, rounds[..i + 1]) == NextPlay(step, Turns(step, start, rounds[..i]), rounds[i])
  {
    assert rounds[..i + 1][..i] == rounds[..i];
  }

  lemma TurnsAppend<L, R, E>(step: (L, R) -> Turn<L, E>, start: L, rounds: seq<R>, r: R, before: L, log: seq<E>, l: L,
                             e: E)
    requires Turns(step, start, rounds) == Play(before, log, true) && step(before, r) == Turned(l, e)
    ensures Turns(step, start, rounds + [r]) == Play(l, log + [e], true)
  {
    assert (rounds + [r])[..|rounds|] == rounds;
  }

  lemma {:induction false} TurnsStop<L, R, E>(step: (L, R) -> Turn<L, E>, start: L, rounds: seq<R>, i: nat)
    requires i <= |rounds| && !Turns(step, start, rounds[..i]).running
    ensures Turns(step, start, rounds) == Turns(step, start, rounds[..i])
    decreases |rounds|
  {
    if i == |rounds| {
      assert rounds[..i] == rounds;
    } else {
      var last := |rounds| - 1;
      assert rounds[..last][..i] == rounds[..i];
      TurnsStop(step, start, rounds[..last], i);
    }
  }

  /** `loops` are the loop's states at its head before each turn, and after the last. */
  ghost predicate IsPlay<L, R, E>(step: (L, R) -> Turn<L, E>, start: L, rounds: seq<R>, loops: seq<L>, log: seq<E>) {
    |loops| == |log| + 1 && |log| <= |rounds| && loops[0] == start &&
    forall i :: 0 <= i < |log| ==> IsTurn(step, rounds, loops, log, i)
  }

  ghost predicate IsTurn<L, R, E>(step: (L, R) -> Turn<L, E>, rounds: seq<R>, loops: seq<L>, log: seq<E>, i: nat)
    requires i < |log| < |loops| && |log| <= |rounds|
  {
    step(loops[i], rounds[i]) == Turned(loops[i + 1], log[i])
  }

  lemma PlaySnoc<L, R, E>(step: (L, R) -> Turn<L, E>, start: L, rounds: seq<R>, loops: seq<L>, log: seq<E>, l: L, e: E)
    requires rounds != [] && IsPlay(step, start, rounds[..|rounds| - 1], loops, log) && |log| == |rounds| - 1
    requires step(loops[|log|], rounds[|log|]) == Turned(l, e)
    ensures IsPlay(step, start, rounds, loops + [l], log + [e])
  {
    forall i | 0 <= i < |log| + 1 ensures IsTurn(step, rounds, loops + [l], log + [e], i) {
      if i < |log| {
        assert IsTurn(step, rounds[..|rounds| - 1], loops, log, i);
      }
    }
  }

  lemma PlayGrows<L, R, E>(step: (L, R) -> Turn<L, E>, start: L, rounds: seq<R>, loops: seq<L>, log: seq<E>)
    requires rounds != [] && IsPlay(step, start, rounds[..|rounds| - 1], loops, log)
    ensures IsPlay(step, start, rounds, loops, log)
  {
    forall i | 0 <= i < |log| ensures IsTurn(step, rounds, loops, log, i) {
      assert IsTurn(step, rounds[..|rounds| - 1], loops, log, i);
    }
  }

  /** Running the loop is a play. */
  lemma {:induction false} TurnsArePlay<L, R, E>(step: (L, R) -> Turn<L, E>, start: L,
                                                 rounds: seq<R>) returns (loops: seq<L>)
    ensures var play := Turns(step, start, rounds);
            IsPlay(step, start, rounds, loops, play.log) && loops[|play.log|] == play.loop
  {
    if rounds == [] {
      loops := [start];
    } else {
      var last := |rounds| - 1;
      var before := Turns(step, start, rounds[..last]);
      loops := TurnsArePlay(step, start, rounds[..last]);
      PlayGrows(step, start, rounds, loops, before.log);
      if before.running && step(before.loop, rounds[last]).Turned? {
        var turn := step(before.loop, rounds[last]);
        PlaySnoc(step, start, rounds, loops, before.log, turn.loop, turn.entry);
        loops := loops + [turn.loop];
      }
    }
  }

  // The trigger, seen through a play.

  function AllOps<E>(opsOf: E -> seq<WT.Op>, log: seq<E>): seq<WT.Op> {
    if log == [] then [] else AllOps(opsOf, log[..|log| - 1]) + opsOf(log[|log| - 1])
  }

  /** Each turn leaves the trigger as the operations it records make it. */
  ghost predicate RecordsOps<L(!new), R(!new), E>(step: (L, R) -> Turn<L, E>, triggerOf: L -> WT.TriggerState,
                                                  opsOf: E -> seq<WT.Op>)
  {
    forall l: L, r: R :: step(l, r).Turned? ==>
      triggerOf(step(l, r).loop) == WT.ApplyAll(triggerOf(l), opsOf(step(l, r).entry))
  }

  lemma {:induction false} PlayTrigger<L(!new), R(!new), E>(step: (L, R) -> Turn<L, E>, triggerOf: L -> WT.TriggerState,
                                                opsOf: E -> seq<WT.Op>, start: L, rounds: seq<R>, loops: seq<L>,
                                                log: seq<E>, i: nat)
    requires RecordsOps(step, triggerOf, opsOf) && IsPlay(step, start, rounds, loops, log) && i <= |log|
    ensures triggerOf(loops[i]) == WT.ApplyAll(triggerOf(start), AllOps(opsOf, log[..i]))
  {
    if i > 0 {
      PlayTrigger(step, triggerOf, opsOf, start, rounds, loops, log, i - 1);
      assert IsTurn(step, rounds, loops, log, i - 1);
      assert log[..i][..i - 1] == log[..i - 1];
      WT.ApplyConcat(triggerOf(start), AllOps(opsOf, log[..i - 1]), opsOf(log[i - 1]));
    }
  }

  /** In every play from a new trigger, at every turn, each event and force so far has been followed by a
      fresh lookup begun after it, or the trigger is still armed for it, with the deadline of the last event. */
  lemma NoWorkIsForgotten<L(!new), R(!new), E>(step: (L, R) -> Turn<L, E>, triggerOf: L -> WT.TriggerState,
                            opsOf: E -> seq<WT.Op>,
                                   start: L, rounds: seq<R>, loops: seq<L>, log: seq<E>, i: nat, k: nat)
    requires RecordsOps(step, triggerOf, opsOf) && IsPlay(step, start, rounds, loops, log) && i <= |log|
    requires triggerOf(start) == WT.FRESH
    requires k < |AllOps(opsOf, log[..i])| && WT.IsNotice(AllOps(opsOf, log[..i])[k])
    ensures (exists j :: k < j < |AllOps(opsOf, log[..i])| && AllOps(opsOf, log[..i])[j].BeginFresh?) ||
            (WT.Armed(triggerOf(loops[i])) && WT.HasDeadline(triggerOf(loops[i]), AllOps(opsOf, log[..i])))
  {
    PlayTrigger(step, triggerOf, opsOf, start, rounds, loops, log, i);
    WT.NoNoticeIsLost(AllOps(opsOf, log[..i]), k);
  }
}
