/** The consumer of the transaction pipeline: it signs one batch at a time and keeps a nonce cache that
    outlives batches. */
module TransactionHandler {
  import opened Wrappers

  datatype Network = Enjin | Canary
  datatype Chain = Matrix | Relay
  datatype ChainKey = ChainKey(network: Network, chain: Chain)

  /** A derived signer's public key. */
  type Account = nat

  datatype NonceKey = NonceKey(chain: ChainKey, signer: Account)

  type Uuid = nat

  /** A convertible row, with the signer derived for it. */
  datatype Request = Request(uuid: Uuid, chain: ChainKey, signer: Account)

  function KeyOf(r: Request): NonceKey {
    NonceKey(r.chain, r.signer)
  }

  /** A signed extrinsic queued for submission. */
  datatype Input = Input(uuid: Uuid, key: NonceKey, nonce: nat)

  datatype BatchOutcome = Completed | PartialProgress | Skipped | SubmissionFailed

  /** A chain's latest block and the runtime version at it. */
  datatype BlockInfo = BlockInfo(block: nat, specVersion: nat)

  /** Everything the platform and the local clients answer during one batch. Each chain and each nonce
      is asked for once, so an answer per key is an answer per call. `builds(i)` says whether every step
      from the client lookup to the signature succeeds for request `i`. */
  datatype Answers = Answers(
    block: ChainKey -> Option<BlockInfo>,
    localSpecVersion: ChainKey -> Option<nat>,
    updates: ChainKey -> bool,
    accountNonce: NonceKey -> Option<nat>,
    builds: nat -> bool,
    submits: bool)

  type Nonces = map<NonceKey, nat>

  // What a batch should do.

  predicate NeedsUpdate(a: Answers, chain: ChainKey, info: BlockInfo) {
    match a.localSpecVersion(chain)
    case Some(local) => local < info.specVersion
    case None => true
  }

  /** Whether the chain's block is known and its metadata is not current. */
  predicate IsBehind(a: Answers, chain: ChainKey) {
    a.block(chain).Some? && NeedsUpdate(a, chain, a.block(chain).value)
  }

  /** Whether the chain's block is known and its metadata is current, or can be made so. */
  predicate ChainReady(a: Answers, chain: ChainKey) {
    a.block(chain).Some? && (NeedsUpdate(a, chain, a.block(chain).value) ==> a.updates(chain))
  }

  predicate Eligible(a: Answers, r: Request) {
    ChainReady(a, r.chain) && a.accountNonce(KeyOf(r)).Some?
  }

  function Rebase(nonces: Nonces, key: NonceKey, platform: nat): Nonces {
    if key in nonces && nonces[key] >= platform then nonces else nonces[key := platform]
  }

  /** The cache once every signer of the batch has been refreshed from the platform. */
  function Seeded(nonces: Nonces, requests: seq<Request>, a: Answers): (r: Nonces) {
    if requests == [] then nonces
    else
      var before := Seeded(nonces, requests[..|requests| - 1], a);
      var last := requests[|requests| - 1];
      if Eligible(a, last) then Rebase(before, KeyOf(last), a.accountNonce(KeyOf(last)).value) else before
  }

  datatype Batch = Batch(inputs: seq<Input>, nonces: Nonces, committed: set<NonceKey>)

  /** The rows signed, each at its signer's next nonce, and the cache after them. */
  function SignRows(nonces: Nonces, requests: seq<Request>, a: Answers): (r: Batch) {
    if requests == [] then Batch([], nonces, {})
    else
      var i := |requests| - 1;
      SignRow(SignRows(nonces, requests[..i], a), requests[i], i, a)
  }

  function SignRow(before: Batch, r: Request, i: nat, a: Answers): Batch {
    var key := KeyOf(r);
    if Eligible(a, r) && a.builds(i) && key in before.nonces then
      var nonce := before.nonces[key];
      Batch(before.inputs + [Input(r.uuid, key, nonce)], before.nonces[key := nonce + 1], before.committed + {key})
    else before
  }

  function Evict(nonces: Nonces, keys: set<NonceKey>): Nonces {
    map k | k in nonces && k !in keys :: nonces[k]
  }

  function EvictChains(nonces: Nonces, idle: set<ChainKey>): Nonces {
    map k | k in nonces && k.chain !in idle :: nonces[k]
  }

  function SignedBatch(nonces: Nonces, requests: seq<Request>, a: Answers): Batch {
    SignRows(Seeded(nonces, requests, a), requests, a)
  }

  /** The outcome of a batch, the cache it leaves and the rows the platform accepted. */
  datatype Handled = Handled(outcome: BatchOutcome, nonces: Nonces, accepted: seq<Input>)

  function Handle(nonces: Nonces, requests: seq<Request>, a: Answers): (r: Handled) {
    var batch := SignedBatch(nonces, requests, a);
    if batch.inputs == [] then Handled(Skipped, batch.nonces, [])
    else if !a.submits then Handled(SubmissionFailed, Evict(batch.nonces, batch.committed), [])
    else
      Handled(if |batch.inputs| < |requests| then PartialProgress else Completed, batch.nonces, batch.inputs)
  }

  datatype Tick = Tick(batch: seq<Request>, idle: set<ChainKey>)

  /** One pass of the consumer: forget idle chains, then sign the batch if there is one. */
  function HandleTick(nonces: Nonces, tick: Tick, a: Answers): (r: Handled) {
    var kept := EvictChains(nonces, tick.idle);
    if tick.batch == [] then Handled(Completed, kept, []) else Handle(kept, tick.batch, a)
  }

  predicate NoDuplicates<T(==)>(s: seq<T>) {
    forall i, j :: 0 <= i < j < |s| ==> s[i] != s[j]
  }

  function ChainsOf(requests: seq<Request>): set<ChainKey> {
    set r | r in requests :: r.chain
  }

  function ReadyKeysOf(requests: seq<Request>, a: Answers): set<NonceKey> {
    set r | r in requests && ChainReady(a, r.chain) :: KeyOf(r)
  }

  lemma SeededSnoc(nonces: Nonces, requests: seq<Request>, i: nat, a: Answers)
    requires i < |requests|
    ensures var before := Seeded(nonces, requests[..i], a);
            var key := KeyOf(requests[i]);
            Seeded(nonces, requests[..i + 1], a)
            == if Eligible(a, requests[i]) then Rebase(before, key, a.accountNonce(key).value) else before
  {
    assert requests[..i + 1][..i] == requests[..i];
  }

  lemma ReadyKeysSnoc(requests: seq<Request>, i: nat, a: Answers)
    requires i < |requests|
    ensures ReadyKeysOf(requests[..i + 1], a)
            == ReadyKeysOf(requests[..i], a) + if ChainReady(a, requests[i].chain) then {KeyOf(requests[i])} else {}
  {
    assert requests[..i + 1] == requests[..i] + [requests[i]];
  }

  /** A slot refreshed once in a batch would not change if it were refreshed again. */
  lemma RefreshedOnce(nonces: Nonces, requests: seq<Request>, a: Answers, key: NonceKey)
    requires key in ReadyKeysOf(requests, a) && a.accountNonce(key).Some?
    ensures Rebase(Seeded(nonces, requests, a), key, a.accountNonce(key).value) == Seeded(nonces, requests, a)
  {
    var r :| r in requests && ChainReady(a, r.chain) && KeyOf(r) == key;
    SeededHasSlots(nonces, requests, a);
  }

  /** Signing never adds or drops a slot, and seeding adds one for every eligible request. */
  lemma {:induction false} SeededHasSlots(nonces: Nonces, requests: seq<Request>, a: Answers)
    ensures nonces.Keys <= Seeded(nonces, requests, a).Keys
    ensures forall r :: r in requests && Eligible(a, r) ==> KeyOf(r) in Seeded(nonces, requests, a)
    ensures forall r :: r in requests && Eligible(a, r) ==>
              Seeded(nonces, requests, a)[KeyOf(r)] >= a.accountNonce(KeyOf(r)).value
  {
    if requests != [] {
      SeededHasSlots(nonces, requests[..|requests| - 1], a);
    }
  }

  lemma {:induction false} SignRowsKeepsSlots(nonces: Nonces, requests: seq<Request>, a: Answers)
    ensures SignRows(nonces, requests, a).nonces.Keys == nonces.Keys
    ensures SignRows(nonces, requests, a).committed <= nonces.Keys
  {
    if requests != [] {
      SignRowsKeepsSlots(nonces, requests[..|requests| - 1], a);
    }
  }

  class TransactionProcessor {
    /** The next nonce to use for each signer on each chain. */
    var nonces: Nonces

    constructor ()
      ensures nonces == map[]
    {
      nonces := map[];
    }

    /** Fetch each chain's block, and its metadata when the local copy is behind. */
    method PrefetchChains(requests: seq<Request>, a: Answers)
      returns (blocks: map<ChainKey, BlockInfo>, failed: set<ChainKey>, calls: seq<ChainKey>, updated: seq<ChainKey>)
      ensures blocks.Keys == set c | c in ChainsOf(requests) && ChainReady(a, c)
      ensures failed == set c | c in ChainsOf(requests) && !ChainReady(a, c)
      ensures forall c :: c in blocks ==> a.block(c) == Some(blocks[c])
      ensures NoDuplicates(calls) && (set c | c in calls) == ChainsOf(requests)
      ensures NoDuplicates(updated) && forall c :: c in updated <==> c in ChainsOf(requests) && IsBehind(a, c)
    {
      blocks, failed, calls, updated := map[], {}, [], [];
      for i := 0 to |requests|
        invariant blocks.Keys == set c | c in ChainsOf(requests[..i]) && ChainReady(a, c)
        invariant failed == set c | c in ChainsOf(requests[..i]) && !ChainReady(a, c)
        invariant forall c :: c in blocks ==> a.block(c) == Some(blocks[c])
        invariant NoDuplicates(calls) && (set c | c in calls) == ChainsOf(requests[..i])
        invariant NoDuplicates(updated)
        invariant forall c :: c in updated <==> c in ChainsOf(requests[..i]) && IsBehind(a, c)
      {
        var key := requests[i].chain;
        assert requests[..i + 1] == requests[..i] + [requests[i]];
        assert ChainsOf(requests[..i + 1]) == ChainsOf(requests[..i]) + {key};
        if key in blocks || key in failed {
          continue;
        }
        assert key !in calls;
        calls := calls + [key];
        var block := a.block(key);
        if block.None? {
          failed := failed + {key};
          continue;
        }
        var needsUpdate := NeedsUpdate(a, key, block.value);
        if needsUpdate {
          assert key !in updated;
          updated := updated + [key];
        }
        if needsUpdate && !a.updates(key) {
          failed := failed + {key};
          continue;
        }
        blocks := blocks[key := block.value];
      }
      assert requests[..|requests|] == requests;
    }

    /** Refresh every signer's slot from the platform, once each. */
    method PrefetchNonces(requests: seq<Request>, failedChains: set<ChainKey>, a: Answers)
      returns (failed: set<NonceKey>, calls: seq<NonceKey>)
      requires failedChains == set c | c in ChainsOf(requests) && !ChainReady(a, c)
      modifies this
      ensures nonces == Seeded(old(nonces), requests, a)
      ensures failed == set k | k in ReadyKeysOf(requests, a) && a.accountNonce(k).None?
      ensures NoDuplicates(calls) && (set k | k in calls) == ReadyKeysOf(requests, a)
    {
      failed, calls := {}, [];
      var refreshed: set<NonceKey> := {};
      for i := 0 to |requests|
        invariant nonces == Seeded(old(nonces), requests[..i], a)
        invariant refreshed == set k | k in ReadyKeysOf(requests[..i], a) && a.accountNonce(k).Some?
        invariant failed == set k | k in ReadyKeysOf(requests[..i], a) && a.accountNonce(k).None?
        invariant NoDuplicates(calls) && (set k | k in calls) == ReadyKeysOf(requests[..i], a)
      {
        var request := requests[i];
        var key := KeyOf(request);
        SeededSnoc(old(nonces), requests, i, a);
        ReadyKeysSnoc(requests, i, a);
        assert request.chain in ChainsOf(requests);
        if request.chain in failedChains {
          continue;
        }
        if key in refreshed || key in failed {
          if key in refreshed {
            RefreshedOnce(old(nonces), requests[..i], a, key);
          }
          continue;
        }
        assert key !in calls;
        calls := calls + [key];
        match a.accountNonce(key) {
          case Some(platform) =>
            if key !in nonces {
              nonces := nonces[key := platform];
            } else if nonces[key] < platform {
              nonces := nonces[key := platform];
            }
            refreshed := refreshed + {key};
          case None =>
            failed := failed + {key};
        }
      }
      assert requests[..|requests|] == requests;
    }

    /** Sign what can be signed. The two branches for a request without prefetched block info or nonce cannot
        be taken. */
    method SignAll(requests: seq<Request>, blocks: map<ChainKey, BlockInfo>, failedChains: set<ChainKey>,
                   failedKeys: set<NonceKey>,
                   a: Answers)
      returns (submitted: seq<Input>, committed: set<NonceKey>)
      requires forall r :: r in requests ==>
                 (r.chain in failedChains <==> !ChainReady(a, r.chain)) &&
                     (r.chain in blocks <==> ChainReady(a, r.chain)) &&
                 (ChainReady(a, r.chain) ==> (KeyOf(r) in failedKeys <==> a.accountNonce(KeyOf(r)).None?))
      requires forall r :: r in requests && Eligible(a, r) ==> KeyOf(r) in nonces
      modifies this
      ensures SignRows(old(nonces), requests, a) == Batch(submitted, nonces, committed)
    {
      submitted, committed := [], {};
      for i := 0 to |requests|
        invariant SignRows(old(nonces), requests[..i], a) == Batch(submitted, nonces, committed)
        invariant nonces.Keys == old(nonces).Keys
      {
        var request := requests[i];
        var key := KeyOf(request);
        assert requests[..i + 1][..i] == requests[..i];
        assert request in requests;
        if request.chain in failedChains {
          continue;
        }
        if key in failedKeys {
          continue;
        }
        if request.chain !in blocks {
          assert false;
        }
        if key !in nonces {
          assert false;
        }
        if !a.builds(i) {
          continue;
        }
        var nonce := nonces[key];
        submitted := submitted + [Input(request.uuid, key, nonce)];
        nonces := nonces[key := nonce + 1];
        committed := committed + {key};
      }
      assert requests[..|requests|] == requests;
    }

    /** Fetch what the batch needs, sign what can be signed, and submit it. */
    method TransactionHandler(requests: seq<Request>, a: Answers)
      returns (outcome: BatchOutcome, submitted: seq<Input>, chainCalls: seq<ChainKey>, nonceCalls: seq<NonceKey>)
      modifies this
      ensures Handled(outcome, nonces, if outcome.SubmissionFailed? then [] else submitted)
              == Handle(old(nonces), requests, a)
      ensures submitted == SignedBatch(old(nonces), requests, a).inputs
      ensures NoDuplicates(chainCalls) && (set c | c in chainCalls) == ChainsOf(requests)
      ensures NoDuplicates(nonceCalls) && (set k | k in nonceCalls) == ReadyKeysOf(requests, a)
    {
      var blocks, failedChains, calls, _ := PrefetchChains(requests, a);
      chainCalls := calls;
      var failedKeys;
      failedKeys, nonceCalls := PrefetchNonces(requests, failedChains, a);
      SeededHasSlots(old(nonces), requests, a);
      forall r | r in requests
        ensures r.chain in failedChains <==> !ChainReady(a, r.chain)
        ensures r.chain in blocks <==> ChainReady(a, r.chain)
        ensures ChainReady(a, r.chain) ==> (KeyOf(r) in failedKeys <==> a.accountNonce(KeyOf(r)).None?)
      {
        assert r.chain in ChainsOf(requests);
        assert ChainReady(a, r.chain) ==> KeyOf(r) in ReadyKeysOf(requests, a);
      }
      var committed;
      submitted, committed := SignAll(requests, blocks, failedChains, failedKeys, a);
      if submitted == [] {
        return Skipped, submitted, chainCalls, nonceCalls;
      }
      if !a.submits {
        ghost var signed := nonces;
        EvictNonceKeys(committed);
        assert nonces == Evict(signed, committed);
        return SubmissionFailed, submitted, chainCalls, nonceCalls;
      }
      outcome := if |submitted| < |requests| then PartialProgress else Completed;
    }

    /** Drop the slots that a failed submission advanced. */
    method EvictNonceKeys(keys: set<NonceKey>)
      modifies this
      ensures forall k :: k in nonces <==> k in old(nonces) && k !in keys
      ensures forall k :: k in nonces ==> nonces[k] == old(nonces)[k]
    {
      nonces := map k | k in nonces && k !in keys :: nonces[k];
    }

    /** Drop every slot of an idle chain. */
    method EvictIdleChains(idle: set<ChainKey>)
      modifies this
      ensures forall k :: k in nonces <==> k in old(nonces) && k.chain !in idle
      ensures forall k :: k in nonces ==> nonces[k] == old(nonces)[k]
    {
      nonces := map k | k in nonces && k.chain !in idle :: nonces[k];
    }

    /** Process ticks one at a time, acknowledging each with its outcome. */
    method LaunchJobScheduler(ticks: seq<(Tick, Answers)>) returns (acks: seq<BatchOutcome>, accepted: seq<Input>)
      modifies this
      ensures nonces == Run(old(nonces), ticks).nonces
      ensures acks == Run(old(nonces), ticks).acks && accepted == Run(old(nonces), ticks).accepted
      ensures |acks| == |ticks|
    {
      acks, accepted := [], [];
      for i := 0 to |ticks|
        invariant |acks| == i
        invariant Run(old(nonces), ticks[..i]) == History(nonces, acks, accepted)
      {
        var (tick, answers) := ticks[i];
        assert ticks[..i + 1][..i] == ticks[..i];
        ghost var before := nonces;
        if tick.idle != {} {
          EvictIdleChains(tick.idle);
          assert nonces == EvictChains(before, tick.idle);
        }
        assert EvictChains(before, {}) == before;
        var outcome := Completed;
        if tick.batch != [] {
          var inputs, chainCalls, nonceCalls;
          outcome, inputs, chainCalls, nonceCalls := TransactionHandler(tick.batch, answers);
          if !outcome.SubmissionFailed? {
            accepted := accepted + inputs;
          }
        }
        acks := acks + [outcome];
      }
      assert ticks[..|ticks|] == ticks;
    }
  }

  // Runs of the consumer.

  datatype History = History(nonces: Nonces, acks: seq<BatchOutcome>, accepted: seq<Input>)

  function Run(nonces: Nonces, ticks: seq<(Tick, Answers)>): (r: History) {
    if ticks == [] then History(nonces, [], [])
    else
      var i := |ticks| - 1;
      var before := Run(nonces, ticks[..i]);
      var handled := HandleTick(before.nonces, ticks[i].0, ticks[i].1);
      History(handled.nonces, before.acks + [handled.outcome], before.accepted + handled.accepted)
  }
}
