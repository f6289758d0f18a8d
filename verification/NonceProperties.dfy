/** Nonce sequencing over whole runs, and what a batch submits. */
module NonceProperties {
  import opened TransactionHandler

  /** How many of these inputs are for this signer. */
  function CountKey(inputs: seq<Input>, key: NonceKey): nat {
    if inputs == [] then 0
    else CountKey(inputs[..|inputs| - 1], key) + if inputs[|inputs| - 1].key == key then 1 else 0
  }

  lemma CountSnoc(inputs: seq<Input>, last: Input, key: NonceKey)
    ensures CountKey(inputs + [last], key) == CountKey(inputs, key) + if last.key == key then 1 else 0
  {
    assert (inputs + [last])[..|inputs|] == inputs;
  }

  lemma {:induction false} CountConcat(a: seq<Input>, b: seq<Input>, key: NonceKey)
    ensures CountKey(a + b, key) == CountKey(a, key) + CountKey(b, key)
  {
    if b == [] {
      assert a + b == a;
    } else {
      var i := |b| - 1;
      assert a + b == (a + b[..i]) + [b[i]];
      CountSnoc(a + b[..i], b[i], key);
      CountConcat(a, b[..i], key);
    }
  }

  /** The next nonce the chain expects from a signer that started at `start` and has had these inputs
      accepted. */
  function Next(start: NonceKey -> nat, accepted: seq<Input>, key: NonceKey): nat {
    start(key) + CountKey(accepted, key)
  }

  /** Each input carries the nonce its signer had reached when it was accepted. */
  ghost predicate Consecutive(start: NonceKey -> nat, accepted: seq<Input>) {
    forall i :: 0 <= i < |accepted| ==> accepted[i].nonce == Next(start, accepted[..i], accepted[i].key)
  }

  /** Every cached slot is the signer's next nonce. */
  ghost predicate InStep(start: NonceKey -> nat, accepted: seq<Input>, nonces: Nonces) {
    forall k :: k in nonces ==> nonces[k] == Next(start, accepted, k)
  }

  /** What the platform promises of `GetAccountNonce`: it never runs ahead of the signer's next
      unaccepted nonce, and it is that nonce for a signer with no cached slot. */
  ghost predicate PlatformNonces(start: NonceKey -> nat, accepted: seq<Input>, nonces: Nonces, a: Answers) {
    forall k :: a.accountNonce(k).Some? ==>
      a.accountNonce(k).value <= Next(start, accepted, k) &&
      (k !in nonces ==> a.accountNonce(k).value == Next(start, accepted, k))
  }

  lemma {:induction false} SeededInStep(start: NonceKey -> nat, accepted: seq<Input>, nonces: Nonces,
                                        requests: seq<Request>, a: Answers)
    requires InStep(start, accepted, nonces) && PlatformNonces(start, accepted, nonces, a)
    ensures InStep(start, accepted, Seeded(nonces, requests, a))
  {
    if requests != [] {
      var before := requests[..|requests| - 1];
      SeededInStep(start, accepted, nonces, before, a);
      SeededHasSlots(nonces, before, a);
    }
  }

  lemma ConsecutiveSnoc(start: NonceKey -> nat, accepted: seq<Input>, last: Input)
    requires Consecutive(start, accepted) && last.nonce == Next(start, accepted, last.key)
    ensures Consecutive(start, accepted + [last])
  {
    var more := accepted + [last];
    forall i | 0 <= i < |more| ensures more[i].nonce == Next(start, more[..i], more[i].key) {
      assert more[..i] == accepted[..i];
      assert accepted[..|accepted|] == accepted;
    }
  }

  /** A row signed at its slot keeps everything in step, were it accepted. */
  lemma SignOneInStep(start: NonceKey -> nat, accepted: seq<Input>, nonces: Nonces, input: Input)
    requires InStep(start, accepted, nonces) && Consecutive(start, accepted)
    requires input.key in nonces && input.nonce == nonces[input.key]
    ensures InStep(start, accepted + [input], nonces[input.key := input.nonce + 1])
    ensures Consecutive(start, accepted + [input])
  {
    ConsecutiveSnoc(start, accepted, input);
    forall k ensures CountKey(accepted + [input], k) == CountKey(accepted, k) + if input.key == k then 1 else 0 {
      CountSnoc(accepted, input, k);
    }
  }

  /** If the rows signed were accepted, the cache would still be in step. */
  lemma {:induction false} SignRowsInStep(start: NonceKey -> nat, accepted: seq<Input>, nonces: Nonces,
                                          requests: seq<Request>, a: Answers)
    requires InStep(start, accepted, nonces) && Consecutive(start, accepted)
    ensures var batch := SignRows(nonces, requests, a);
            InStep(start, accepted + batch.inputs, batch.nonces) && Consecutive(start, accepted + batch.inputs) &&
            forall k :: k !in batch.committed ==> CountKey(batch.inputs, k) == 0
  {
    if requests == [] {
      assert accepted + [] == accepted;
    } else {
      var i := |requests| - 1;
      SignRowsInStep(start, accepted, nonces, requests[..i], a);
      var before := SignRows(nonces, requests[..i], a);
      var key := KeyOf(requests[i]);
      if Eligible(a, requests[i]) && a.builds(i) && key in before.nonces {
        var input := Input(requests[i].uuid, key, before.nonces[key]);
        assert accepted + (before.inputs + [input]) == (accepted + before.inputs) + [input];
        SignOneInStep(start, accepted + before.inputs, before.nonces, input);
        forall k | k !in before.committed + {key} ensures CountKey(before.inputs + [input], k) == 0 {
          CountSnoc(before.inputs, input, k);
        }
      }
    }
  }

  /** One tick keeps the cache in step and the accepted nonces consecutive, whatever is fetched, skipped,
      rejected or evicted. */
  lemma TickKeepsNonces(start: NonceKey -> nat, accepted: seq<Input>, nonces: Nonces, tick: Tick, a: Answers)
    requires InStep(start, accepted, nonces) && Consecutive(start, accepted)
    requires PlatformNonces(start, accepted, EvictChains(nonces, tick.idle), a)
    ensures var handled := HandleTick(nonces, tick, a);
            InStep(start, accepted + handled.accepted, handled.nonces) &&
            Consecutive(start, accepted + handled.accepted)
  {
    var kept := EvictChains(nonces, tick.idle);
    assert accepted + [] == accepted;
    if tick.batch != [] {
      SeededInStep(start, accepted, kept, tick.batch, a);
      var seeded := Seeded(kept, tick.batch, a);
      SignRowsInStep(start, accepted, seeded, tick.batch, a);
      var batch := SignedBatch(kept, tick.batch, a);
      if batch.inputs != [] && !a.submits {
        forall k | k in Evict(batch.nonces, batch.committed)
          ensures batch.nonces[k] == Next(start, accepted, k)
        {
          CountConcat(accepted, batch.inputs, k);
        }
      }
    }
  }

  /** The platform's promise at every tick of a run. */
  ghost predicate PlatformKeepsNonces(start: NonceKey -> nat, ticks: seq<(Tick, Answers)>) {
    forall i :: 0 <= i < |ticks| ==>
      var before := Run(map[], ticks[..i]);
      PlatformNonces(start, before.accepted, EvictChains(before.nonces, ticks[i].0.idle), ticks[i].1)
  }

  lemma {:induction false} RunKeepsNonces(start: NonceKey -> nat, ticks: seq<(Tick, Answers)>)
    requires PlatformKeepsNonces(start, ticks)
    ensures var run := Run(map[], ticks);
            InStep(start, run.accepted, run.nonces) && Consecutive(start, run.accepted)
  {
    if ticks != [] {
      var i := |ticks| - 1;
      assert forall j :: 0 <= j < i ==> ticks[..i][..j] == ticks[..j];
      RunKeepsNonces(start, ticks[..i]);
      var before := Run(map[], ticks[..i]);
      TickKeepsNonces(start, before.accepted, before.nonces, ticks[i].0, ticks[i].1);
    }
  }

  lemma {:induction false} CountMonotone(inputs: seq<Input>, i: nat, key: NonceKey)
    requires i <= |inputs|
    ensures CountKey(inputs[..i], key) <= CountKey(inputs, key)
    decreases |inputs|
  {
    if i < |inputs| {
      CountMonotone(inputs[..|inputs| - 1], i, key);
      assert inputs[..|inputs| - 1][..i] == inputs[..i];
    } else {
      assert inputs[..i] == inputs;
    }
  }

  /** Accepted in order: a later input of the same signer has a larger nonce, below the next one. */
  lemma NoNonceRepeats(start: NonceKey -> nat, accepted: seq<Input>, i: nat, j: nat)
    requires Consecutive(start, accepted) && i < j < |accepted| && accepted[i].key == accepted[j].key
    ensures accepted[i].nonce < accepted[j].nonce < Next(start, accepted, accepted[j].key)
  {
    var key := accepted[j].key;
    assert accepted[..i + 1][..i] == accepted[..i];
    assert accepted[..j][..i + 1] == accepted[..i + 1];
    CountMonotone(accepted[..j], i + 1, key);
    assert accepted[..j + 1][..j] == accepted[..j];
    CountMonotone(accepted, j + 1, key);
  }

  ghost predicate IsAccepted(accepted: seq<Input>, key: NonceKey, nonce: nat) {
    exists i :: 0 <= i < |accepted| && accepted[i].key == key && accepted[i].nonce == nonce
  }

  /** Every nonce from a signer's first to its next has been accepted. */
  lemma {:induction false} NoNonceIsSkipped(start: NonceKey -> nat, accepted: seq<Input>, key: NonceKey, nonce: nat)
    requires Consecutive(start, accepted) && start(key) <= nonce < Next(start, accepted, key)
    ensures IsAccepted(accepted, key, nonce)
    decreases |accepted|
  {
    var last := |accepted| - 1;
    assert forall i :: 0 <= i < last ==> accepted[..last][..i] == accepted[..i];
    if nonce < Next(start, accepted[..last], key) {
      NoNonceIsSkipped(start, accepted[..last], key, nonce);
      var i :| 0 <= i < last && accepted[..last][i].key == key && accepted[..last][i].nonce == nonce;
      assert accepted[i].key == key;
    } else {
      assert accepted[last].key == key && accepted[last].nonce == nonce;
    }
  }

  lemma AcceptedAt(start: NonceKey -> nat, accepted: seq<Input>, i: nat)
    requires Consecutive(start, accepted) && i < |accepted|
    ensures start(accepted[i].key) <= accepted[i].nonce < Next(start, accepted, accepted[i].key)
  {
    var more := accepted[..i + 1];
    assert more[..i] == accepted[..i] && more[i] == accepted[i];
    CountMonotone(accepted, i + 1, accepted[i].key);
  }

  lemma AcceptedIsInRange(start: NonceKey -> nat, accepted: seq<Input>, key: NonceKey, nonce: nat)
    requires Consecutive(start, accepted) && IsAccepted(accepted, key, nonce)
    ensures start(key) <= nonce < Next(start, accepted, key)
  {
    var i :| 0 <= i < |accepted| && accepted[i].key == key && accepted[i].nonce == nonce;
    AcceptedAt(start, accepted, i);
  }

  /** Over every run of ticks, each signer's accepted nonces are exactly the numbers from its first nonce
      up to its next one, each once and in order. */
  lemma AcceptedNoncesAreConsecutive(start: NonceKey -> nat, ticks: seq<(Tick, Answers)>, key: NonceKey)
    requires PlatformKeepsNonces(start, ticks)
    ensures var accepted := Run(map[], ticks).accepted;
            (forall nonce: nat ::
               IsAccepted(accepted, key, nonce) <==> start(key) <= nonce < Next(start, accepted, key)) &&
            (forall i, j :: 0 <= i < j < |accepted| && accepted[i].key == accepted[j].key == key ==>
               accepted[i].nonce < accepted[j].nonce)
  {
    var accepted := Run(map[], ticks).accepted;
    RunKeepsNonces(start, ticks);
    forall nonce: nat
      ensures IsAccepted(accepted, key, nonce) <==> start(key) <= nonce < Next(start, accepted, key)
    {
      if start(key) <= nonce < Next(start, accepted, key) {
        NoNonceIsSkipped(start, accepted, key, nonce);
      }
      if IsAccepted(accepted, key, nonce) {
        AcceptedIsInRange(start, accepted, key, nonce);
      }
    }
    forall i, j | 0 <= i < j < |accepted| && accepted[i].key == accepted[j].key == key
      ensures accepted[i].nonce < accepted[j].nonce
    {
      NoNonceRepeats(start, accepted, i, j);
    }
  }

  // What a batch submits.

  /** The chain's block is known, its client is at the block's runtime or can be brought there, and the signer's
      nonce is known. */
  predicate CanSign(a: Answers, key: NonceKey) {
    var block, local := a.block(key.chain), a.localSpecVersion(key.chain);
    block.Some? && a.accountNonce(key).Some? &&
    ((local.Some? && local.value >= block.value.specVersion) || a.updates(key.chain))
  }

  lemma EligibleExact(a: Answers, r: Request)
    ensures Eligible(a, r) <==> CanSign(a, KeyOf(r))
  {
  }

  /** The requests signed, in order: those eligible whose every building step succeeds. */
  function SubmittedIndices(requests: seq<Request>, a: Answers): (indices: seq<nat>)
    ensures forall j :: 0 <= j < |indices| ==> indices[j] < |requests|
    ensures forall j, k :: 0 <= j < k < |indices| ==> indices[j] < indices[k]
  {
    if requests == [] then []
    else
      var i := |requests| - 1;
      var before := SubmittedIndices(requests[..i], a);
      if Eligible(a, requests[i]) && a.builds(i) then before + [i] else before
  }

  lemma {:induction false} SignRowsFollowsIndices(nonces: Nonces, requests: seq<Request>, a: Answers)
    requires forall r :: r in requests && Eligible(a, r) ==> KeyOf(r) in nonces
    ensures var inputs := SignRows(nonces, requests, a).inputs;
            var indices := SubmittedIndices(requests, a);
            |inputs| == |indices| &&
            forall j :: 0 <= j < |indices| ==>
              inputs[j].uuid == requests[indices[j]].uuid && inputs[j].key == KeyOf(requests[indices[j]])
  {
    if requests != [] {
      var i := |requests| - 1;
      SignRowsFollowsIndices(nonces, requests[..i], a);
      SignRowsKeepsSlots(nonces, requests[..i], a);
    }
  }

  lemma {:induction false} IndexExact(requests: seq<Request>, a: Answers, i: nat)
    requires i < |requests|
    ensures i in SubmittedIndices(requests, a) <==> Eligible(a, requests[i]) && a.builds(i)
    decreases |requests|
  {
    var last := |requests| - 1;
    if i < last {
      IndexExact(requests[..last], a, i);
    }
  }

  lemma {:induction false} FewIndices(requests: seq<Request>, a: Answers)
    ensures |SubmittedIndices(requests, a)| <= |requests|
    ensures |SubmittedIndices(requests, a)| == |requests| ==>
              forall i :: 0 <= i < |requests| ==> SubmittedIndices(requests, a)[i] == i
  {
    if requests != [] {
      FewIndices(requests[..|requests| - 1], a);
    }
  }

  /** The rows submitted are exactly the signable ones, in order, and the outcome says which of the four
      cases it was. */
  lemma BatchOutcomeExact(nonces: Nonces, requests: seq<Request>, a: Answers)
    requires requests != []
    ensures var indices := SubmittedIndices(requests, a);
            var inputs := SignedBatch(nonces, requests, a).inputs;
            var handled := Handle(nonces, requests, a);
            |inputs| == |indices| &&
            (forall j :: 0 <= j < |indices| ==>
               inputs[j].uuid == requests[indices[j]].uuid && inputs[j].key == KeyOf(requests[indices[j]])) &&
            (forall i :: 0 <= i < |requests| ==> (i in indices <==> CanSign(a, KeyOf(requests[i])) && a.builds(i))) &&
            (handled.outcome.Skipped? <==> indices == []) &&
            (handled.outcome.SubmissionFailed? <==> indices != [] && !a.submits) &&
            (handled.outcome.PartialProgress? <==> 0 < |indices| < |requests| && a.submits) &&
            (handled.outcome.Completed? <==> |indices| == |requests| && a.submits) &&
            handled.accepted == (if a.submits then inputs else [])
  {
    SeededHasSlots(nonces, requests, a);
    SignRowsFollowsIndices(Seeded(nonces, requests, a), requests, a);
    FewIndices(requests, a);
    forall i | 0 <= i < |requests|
      ensures i in SubmittedIndices(requests, a) <==> CanSign(a, KeyOf(requests[i])) && a.builds(i)
    {
      IndexExact(requests, a, i);
      EligibleExact(a, requests[i]);
    }
  }
}
