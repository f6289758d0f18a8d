/** The nonces a tick signs with and the cache it leaves, told from the cache before it and the platform's answers. */
module BatchProperties {
  import opened Wrappers
  import opened TransactionHandler
  import opened NonceProperties

  /** Some request of the batch needs this signer's slot and can be signed for. */
  predicate Refreshed(requests: seq<Request>, a: Answers, key: NonceKey) {
    CanSign(a, key) && exists i :: 0 <= i < |requests| && KeyOf(requests[i]) == key
  }

  /** The larger of the platform's nonce and the cached one, if there is one. */
  function Latest(nonces: Nonces, key: NonceKey, platform: nat): nat {
    if key in nonces && nonces[key] > platform then nonces[key] else platform
  }

  /** Seeding refreshes exactly the slots that the batch needs, each to the larger of the cached nonce and the
      platform's, and leaves every other slot alone. */
  lemma {:induction false} SeededExact(nonces: Nonces, requests: seq<Request>, a: Answers)
    ensures forall k :: k in Seeded(nonces, requests, a) <==> k in nonces || Refreshed(requests, a, k)
    ensures forall k :: k in Seeded(nonces, requests, a) ==>
              Seeded(nonces, requests, a)[k]
              == if Refreshed(requests, a, k) then Latest(nonces, k, a.accountNonce(k).value) else nonces[k]
  {
    if requests != [] {
      var last := |requests| - 1;
      SeededExact(nonces, requests[..last], a);
      EligibleExact(a, requests[last]);
      forall k
        ensures Refreshed(requests, a, k) <==>
                Refreshed(requests[..last], a, k) || (CanSign(a, k) && KeyOf(requests[last]) == k)
      {
        RefreshedSnoc(requests, a, k);
      }
    }
  }

  lemma RefreshedSnoc(requests: seq<Request>, a: Answers, key: NonceKey)
    requires requests != []
    ensures var last := |requests| - 1;
            Refreshed(requests, a, key) <==>
            Refreshed(requests[..last], a, key) || (CanSign(a, key) && KeyOf(requests[last]) == key)
  {
    var last := |requests| - 1;
    if Refreshed(requests[..last], a, key) {
      var i :| 0 <= i < last && KeyOf(requests[..last][i]) == key;
      assert KeyOf(requests[i]) == key;
    }
    if Refreshed(requests, a, key) {
      var i :| 0 <= i <= last && KeyOf(requests[i]) == key;
      if i < last {
        assert KeyOf(requests[..last][i]) == key;
      }
    }
  }

  /** Each row is signed at its signer's slot plus the rows signed for that signer before it, and the slots end past
      all of them. */
  ghost predicate SignedFrom(nonces: Nonces, batch: Batch) {
    batch.nonces.Keys == nonces.Keys &&
    (forall k :: k in nonces ==> batch.nonces[k] == nonces[k] + CountKey(batch.inputs, k)) &&
    (forall k :: k in batch.committed <==> CountKey(batch.inputs, k) > 0) &&
    forall j :: 0 <= j < |batch.inputs| ==>
      var key := batch.inputs[j].key;
      key in nonces && batch.inputs[j].nonce == nonces[key] + CountKey(batch.inputs[..j], key)
  }

  lemma {:induction false} SignedExact(nonces: Nonces, requests: seq<Request>, a: Answers)
    ensures SignedFrom(nonces, SignRows(nonces, requests, a))
  {
    if requests != [] {
      var i := |requests| - 1;
      SignedExact(nonces, requests[..i], a);
      SignRowExact(nonces, SignRows(nonces, requests[..i], a), requests[i], i, a);
    }
  }

  lemma SignRowExact(nonces: Nonces, before: Batch, r: Request, i: nat, a: Answers)
    requires SignedFrom(nonces, before)
    ensures SignedFrom(nonces, SignRow(before, r, i, a))
  {
    var after := SignRow(before, r, i, a);
    if after != before {
      var input := after.inputs[|before.inputs|];
      forall k ensures CountKey(after.inputs, k) == CountKey(before.inputs, k) + if input.key == k then 1 else 0 {
        CountSnoc(before.inputs, input, k);
      }
      forall j | 0 <= j < |after.inputs|
        ensures var key := after.inputs[j].key;
                key in nonces && after.inputs[j].nonce == nonces[key] + CountKey(after.inputs[..j], key)
      {
        assert after.inputs[..j] == before.inputs[..j];
        assert before.inputs[..|before.inputs|] == before.inputs;
      }
    }
  }

  /** The slot a tick starts from: idle chains are forgotten first, then what the batch needs is refreshed. */
  function SlotBefore(nonces: Nonces, tick: Tick, a: Answers, key: NonceKey): Option<nat> {
    var kept := key in nonces && key.chain !in tick.idle;
    if Refreshed(tick.batch, a, key) then
      var platform := a.accountNonce(key).value;
      Some(if kept && nonces[key] > platform then nonces[key] else platform)
    else if kept then Some(nonces[key])
    else None
  }

  lemma TickSeeds(nonces: Nonces, tick: Tick, a: Answers, key: NonceKey)
    ensures var seeded := Seeded(EvictChains(nonces, tick.idle), tick.batch, a);
            SlotBefore(nonces, tick, a, key) == if key in seeded then Some(seeded[key]) else None
  {
    SeededExact(EvictChains(nonces, tick.idle), tick.batch, a);
  }

  /** For every cache and tick: a signer's rows are signed from the slot it starts from, consecutively; afterwards the
      slot is past them, unless they were submitted and refused, when it is forgotten. */
  lemma TickNoncesExact(nonces: Nonces, tick: Tick, a: Answers)
    ensures var inputs := SignedBatch(EvictChains(nonces, tick.idle), tick.batch, a).inputs;
            var after := HandleTick(nonces, tick, a);
            (forall j :: 0 <= j < |inputs| ==>
               var slot := SlotBefore(nonces, tick, a, inputs[j].key);
               slot.Some? && inputs[j].nonce == slot.value + CountKey(inputs[..j], inputs[j].key)) &&
            forall k ::
              var slot := SlotBefore(nonces, tick, a, k);
              (k in after.nonces <==> slot.Some? && (CountKey(inputs, k) == 0 || a.submits)) &&
              (k in after.nonces ==> after.nonces[k] == slot.value + CountKey(inputs, k))
  {
    var kept := EvictChains(nonces, tick.idle);
    var seeded := Seeded(kept, tick.batch, a);
    var inputs := SignedBatch(kept, tick.batch, a).inputs;
    SignedExact(seeded, tick.batch, a);
    forall k ensures SlotBefore(nonces, tick, a, k) == if k in seeded then Some(seeded[k]) else None {
      TickSeeds(nonces, tick, a, k);
    }
    if inputs == [] {
      assert forall k :: CountKey(inputs, k) == 0;
    }
  }

  /** Each tick of a run is handled with the cache the ticks before it left, and acknowledged with its own
      outcome; a tick without rows is only a success. */
  lemma {:induction false} RunExact(nonces: Nonces, ticks: seq<(Tick, Answers)>, i: nat)
    requires i < |ticks|
    ensures var handled := HandleTick(Run(nonces, ticks[..i]).nonces, ticks[i].0, ticks[i].1);
            var run := Run(nonces, ticks);
            |run.acks| == |ticks| && run.acks[i] == handled.outcome &&
            Run(nonces, ticks[..i]).accepted + handled.accepted <= run.accepted &&
            (ticks[i].0.batch == [] ==> handled.outcome.Completed? && handled.accepted == [])
    decreases |ticks|
  {
    var last := |ticks| - 1;
    RunCounts(nonces, ticks[..last]);
    if i < last {
      RunExact(nonces, ticks[..last], i);
      assert ticks[..last][..i] == ticks[..i];
    }
  }

  lemma {:induction false} RunCounts(nonces: Nonces, ticks: seq<(Tick, Answers)>)
    ensures |Run(nonces, ticks).acks| == |ticks|
  {
    if ticks != [] {
      RunCounts(nonces, ticks[..|ticks| - 1]);
    }
  }
}
