/** Nonce allocation shared by concurrent branches, and the deployment batch that draws on it. */
module Deployments {
  import opened Wrappers
  import ConfigBatch

  // ---- Allocation under interleaving ----

  /** What the branches sharing a manager do to it, in the order their synchronous parts run:
      allocate a nonce, or finish a `sync` whose read returned `chainNonce`. */
  datatype Action = Allocate(branch: nat) | Synced(chainNonce: nat)

  datatype Allocation = Allocation(branch: nat, nonce: nat)

  function NextAfter(start: nat, actions: seq<Action>): nat {
    if actions == [] then start else
    var next := NextAfter(start, actions[..|actions| - 1]);
    match actions[|actions| - 1]
    case Allocate(_) => next + 1
    case Synced(chainNonce) => if chainNonce > next then chainNonce else next
  }

  function Issued(start: nat, actions: seq<Action>): seq<Allocation> {
    if actions == [] then [] else
    var init := actions[..|actions| - 1];
    match actions[|actions| - 1]
    case Allocate(branch) => Issued(start, init) + [Allocation(branch, NextAfter(start, init))]
    case Synced(_) => Issued(start, init)
  }

  ghost predicate Increasing(issued: seq<Allocation>, low: nat, high: nat) {
    && (forall i, j :: 0 <= i < j < |issued| ==> issued[i].nonce < issued[j].nonce)
    && (forall i :: 0 <= i < |issued| ==> low <= issued[i].nonce < high)
  }

  /** No two allocations share a nonce, whichever branches made them and however they interleave. */
  lemma {:induction false} IssuedIncreasing(start: nat, actions: seq<Action>)
    ensures Increasing(Issued(start, actions), start, NextAfter(start, actions))
    ensures start <= NextAfter(start, actions)
  {
    if actions == [] {
    } else {
      var init, last := actions[..|actions| - 1], actions[|actions| - 1];
      IssuedIncreasing(start, init);
      if last.Allocate? {
        OneMore(Issued(start, init), start, NextAfter(start, init), last.branch);
      }
    }
  }

  lemma OneMore(issued: seq<Allocation>, low: nat, high: nat, branch: nat)
    requires Increasing(issued, low, high) && low <= high
    ensures Increasing(issued + [Allocation(branch, high)], low, high + 1)
  {
  }

  /** Time only adds allocations, and they start where the earlier actions left off. */
  lemma {:induction false} LaterActions(start: nat, actions: seq<Action>, more: seq<Action>)
    ensures Issued(start, actions + more) == Issued(start, actions) + Issued(NextAfter(start, actions), more)
    ensures NextAfter(start, actions + more) == NextAfter(NextAfter(start, actions), more)
  {
    if more == [] {
      assert actions + more == actions;
    } else {
      var n := |more| - 1;
      assert (actions + more)[..|actions + more| - 1] == actions + more[..n];
      LaterActions(start, actions, more[..n]);
    }
  }

  /** `nextNonce` never decreases, and a finished sync lifts every later allocation to what it read. */
  lemma SyncTakesEffect(start: nat, before: seq<Action>, chainNonce: nat, more: seq<Action>)
    ensures var all := before + [Synced(chainNonce)] + more;
      && NextAfter(start, before) <= NextAfter(start, all)
      && forall k :: |Issued(start, before)| <= k < |Issued(start, all)| ==>
           chainNonce <= Issued(start, all)[k].nonce && NextAfter(start, before) <= Issued(start, all)[k].nonce
  {
    var synced := before + [Synced(chainNonce)];
    assert synced[..|before|] == before;
    LaterActions(start, synced, more);
    IssuedIncreasing(NextAfter(start, synced), more);
  }

  class NonceManager {
    var nextNonce: nat
    ghost var start: nat
    ghost var history: seq<Action>

    ghost predicate Valid()
      reads this
    {
      nextNonce == NextAfter(start, history)
    }

    constructor ()
      ensures Valid() && nextNonce == 0 && history == []
    {
      nextNonce, start, history := 0, 0, [];
    }

    /** Reads the pending transaction count and starts over from it. */
    method Initialize(pending: nat)
      modifies this
      ensures Valid() && start == pending && history == []
    {
      nextNonce, start, history := pending, pending, [];
    }

    method AllocateNonce(ghost branch: nat) returns (nonce: nat)
      requires Valid()
      modifies this
      ensures Valid() && start == old(start) && history == old(history) + [Allocate(branch)]
      ensures nonce == old(nextNonce) && nextNonce == nonce + 1
      ensures Issued(start, history) == old(Issued(start, history)) + [Allocation(branch, nonce)]
    {
      nonce := nextNonce;
      nextNonce := nextNonce + 1;
      history := history + [Allocate(branch)];
    }

    /** The part of `sync` that runs once the chain has answered. */
    method Sync(chainNonce: nat)
      requires Valid()
      modifies this
      ensures Valid() && start == old(start) && history == old(history) + [Synced(chainNonce)]
      ensures nextNonce == if chainNonce > old(nextNonce) then chainNonce else old(nextNonce)
      ensures Issued(start, history) == old(Issued(start, history))
    {
      if chainNonce > nextNonce {
        nextNonce := chainNonce;
      }
      history := history + [Synced(chainNonce)];
    }
  }

  // ---- The deployment batch ----

  type Address = nat

  datatype DeployTask = DeployTask(name: string, proxy: bool)

  datatype Deployed = Deployed(name: string, address: Address)

  /** What a transaction of the batch creates: the implementation of task i, the proxy of task i in
      front of an implementation, or the plain contract of task i. */
  datatype Payload = Implementation(task: nat) | Proxy(task: nat, implementation: Address) | Contract(task: nat)

  datatype Submission = Submission(nonce: nat, payload: Payload)

  /** `create(n)` is the CREATE address of the sender at nonce n. `fails(n)` is the error the
      submission at nonce n ends in, retries and timeouts included; `ConfigBatch` has the retries.
      `direct(i)` is what the one-by-one deployment of proxy i comes to, and `chainNonce` what the
      sync after it reads. */
  datatype World = World(create: nat -> Address, fails: nat -> Option<string>,
                         direct: nat -> Result<Address, string>, chainNonce: nat)

  datatype DeployError = ProxiesFailed(message: string) | DirectFailed(message: string) | ChunkFailed(message: string)

  /** The other branches' turns while this one awaits something. */
  method Interleave(manager: NonceManager, actions: seq<Action>)
    requires manager.Valid()
    modifies manager
    ensures manager.Valid() && manager.start == old(manager.start)
    ensures manager.history == old(manager.history) + actions
    ensures old(manager.nextNonce) <= manager.nextNonce
    ensures old(Issued(manager.start, manager.history)) <= Issued(manager.start, manager.history)
  {
    for k := 0 to |actions|
      invariant manager.Valid() && manager.start == old(manager.start)
      invariant manager.history == old(manager.history) + actions[..k]
      invariant old(manager.nextNonce) <= manager.nextNonce
      invariant old(Issued(manager.start, manager.history)) <= Issued(manager.start, manager.history)
    {
      match actions[k] {
        case Allocate(branch) => var _ := manager.AllocateNonce(branch);
        case Synced(chainNonce) => manager.Sync(chainNonce);
      }
      assert actions[..k + 1] == actions[..k] + [actions[k]];
    }
    assert actions[..|actions|] == actions;
  }

  /** The positions of the proxy tasks, or of the others, in order. */
  ghost predicate Selects(tasks: seq<DeployTask>, proxy: bool, indices: seq<nat>) {
    && (forall k :: 0 <= k < |indices| ==> indices[k] < |tasks| && tasks[indices[k]].proxy == proxy)
    && (forall i :: 0 <= i < |tasks| && tasks[i].proxy == proxy ==> i in indices)
    && (forall j, k :: 0 <= j < k < |indices| ==> indices[j] < indices[k])
  }

  /** How many tasks are proxies, or are not. */
  ghost function CountOf(tasks: seq<DeployTask>, proxy: bool): nat {
    |set i | 0 <= i < |tasks| && tasks[i].proxy == proxy|
  }

  lemma CountNext(tasks: seq<DeployTask>, proxy: bool, n: nat)
    requires n < |tasks|
    ensures CountOf(tasks[..n + 1], proxy) == CountOf(tasks[..n], proxy) + if tasks[n].proxy == proxy then 1 else 0
  {
    var init, more := tasks[..n], tasks[..n + 1];
    var before := set i | 0 <= i < |init| && init[i].proxy == proxy;
    var after := set i | 0 <= i < |more| && more[i].proxy == proxy;
    assert forall i :: i in after <==> i in before || (i == n && tasks[n].proxy == proxy);
    assert after == before + if tasks[n].proxy == proxy then {n} else {};
  }

  method Select(tasks: seq<DeployTask>, proxy: bool) returns (indices: seq<nat>)
    ensures Selects(tasks, proxy, indices) && |indices| == CountOf(tasks, proxy)
  {
    indices := [];
    for i := 0 to |tasks|
      invariant forall k :: 0 <= k < |indices| ==> indices[k] < i && tasks[indices[k]].proxy == proxy
      invariant forall j :: 0 <= j < i && tasks[j].proxy == proxy ==> j in indices
      invariant forall j, k :: 0 <= j < k < |indices| ==> indices[j] < indices[k]
      invariant |indices| == CountOf(tasks[..i], proxy)
    {
      CountNext(tasks, proxy, i);
      if tasks[i].proxy == proxy {
        indices := indices + [i];
      }
    }
    assert tasks[..|tasks|] == tasks;
  }

  function BlockOf(branch: nat, first: nat, count: nat): seq<Allocation> {
    seq(count, k requires 0 <= k => Allocation(branch, first + k))
  }

  function Own(branch: nat, count: nat): seq<Action> {
    seq(count, _ => Allocate(branch))
  }

  /** Allocates one nonce per entry, with nothing awaited in between: the nonces are consecutive. */
  method AllocateBlock(manager: NonceManager, ghost branch: nat, count: nat) returns (first: nat)
    requires manager.Valid()
    modifies manager
    ensures manager.Valid() && manager.start == old(manager.start)
    ensures manager.history == old(manager.history) + Own(branch, count)
    ensures first == old(manager.nextNonce) && manager.nextNonce == first + count
    ensures Issued(manager.start, manager.history)
         == old(Issued(manager.start, manager.history)) + BlockOf(branch, first, count)
  {
    hide Issued, NextAfter;
    first := manager.nextNonce;
    for k := 0 to count
      invariant manager.Valid() && manager.start == old(manager.start) && manager.nextNonce == first + k
      invariant manager.history == old(manager.history) + Own(branch, k)
    {
      var _ := manager.AllocateNonce(branch);
    }
    assert old(manager.history) + [] == old(manager.history);
    OwnBehind(manager.start, old(manager.history), [], branch, count);
    NothingIssued(NextAfter(manager.start, old(manager.history)));
  }

  lemma NothingIssued(start: nat)
    ensures Issued(start, []) == []
  {
  }

  ghost predicate NoneFails(world: World, sent: seq<Submission>) {
    forall a :: 0 <= a < |sent| ==> world.fails(sent[a].nonce).None?
  }

  ghost predicate FailedIn(world: World, sent: seq<Submission>, message: string) {
    exists a :: 0 <= a < |sent| && world.fails(sent[a].nonce) == Some(message)
  }

  /** Promise.all over submissions; which of several failures surfaces is a race. */
  method AwaitAll(world: World, sent: seq<Submission>) returns (failure: Option<string>)
    ensures failure.None? <==> NoneFails(world, sent)
    ensures failure.Some? ==> FailedIn(world, sent, failure.value)
  {
    for a := 0 to |sent|
      invariant NoneFails(world, sent[..a])
    {
      assert sent[..a + 1] == sent[..a] + [sent[a]];
      if world.fails(sent[a].nonce).Some? {
        return world.fails(sent[a].nonce);
      }
    }
    assert sent[..|sent|] == sent;
    return None;
  }

  lemma FailsTogether(world: World, a: seq<Submission>, b: seq<Submission>)
    ensures NoneFails(world, a + b) <==> NoneFails(world, a) && NoneFails(world, b)
    ensures forall e :: FailedIn(world, a, e) || FailedIn(world, b, e) ==> FailedIn(world, a + b, e)
  {
    forall e | FailedIn(world, b, e) ensures FailedIn(world, a + b, e) {
      var k :| 0 <= k < |b| && world.fails(b[k].nonce) == Some(e);
      assert (a + b)[|a| + k] == b[k];
    }
    assert forall k :: 0 <= k < |a| ==> (a + b)[k] == a[k];
    if NoneFails(world, a + b) {
      assert forall k :: 0 <= k < |b| ==> b[k] == (a + b)[|a| + k];
    }
  }

  /** `before` with the results of a group of tasks, filed under the tasks' positions: entry k of the
      group was created at nonce `first + k`. */
  function FileAll(tasks: seq<DeployTask>, indices: seq<nat>, create: nat -> Address, first: nat,
                   before: map<nat, Deployed>): map<nat, Deployed>
    requires Within(tasks, indices)
  {
    if indices == [] then before else
    var n := |indices| - 1;
    var filed := FileAll(tasks, indices[..n], create, first, before);
    filed[indices[n] := Deployed(tasks[indices[n]].name, create(first + n))]
  }

  predicate Within(tasks: seq<DeployTask>, indices: seq<nat>) {
    forall k :: 0 <= k < |indices| ==> indices[k] < |tasks|
  }

  method File(tasks: seq<DeployTask>, indices: seq<nat>, create: nat -> Address, first: nat,
              results: map<nat, Deployed>)
    returns (filed: map<nat, Deployed>)
    requires Within(tasks, indices)
    ensures filed == FileAll(tasks, indices, create, first, results)
  {
    filed := results;
    for k := 0 to |indices|
      invariant filed == FileAll(tasks, indices[..k], create, first, results)
    {
      assert indices[..k + 1][..k] == indices[..k];
      filed := filed[indices[k] := Deployed(tasks[indices[k]].name, create(first + k))];
    }
    assert indices[..|indices|] == indices;
  }

  lemma {:induction false} FileInParts(tasks: seq<DeployTask>, head: seq<nat>, chunk: seq<nat>, create: nat -> Address,
                                       first: nat, before: map<nat, Deployed>)
    requires Within(tasks, head) && Within(tasks, chunk) && Within(tasks, head + chunk)
    ensures FileAll(tasks, head + chunk, create, first, before)
         == FileAll(tasks, chunk, create, first + |head|, FileAll(tasks, head, create, first, before))
  {
    if chunk == [] {
      assert head + chunk == head;
    } else {
      var n := |chunk| - 1;
      assert (head + chunk)[..|head + chunk| - 1] == head + chunk[..n];
      FileInParts(tasks, head, chunk[..n], create, first, before);
    }
  }

  lemma {:induction false} FileAllKeys(tasks: seq<DeployTask>, indices: seq<nat>, create: nat -> Address, first: nat,
                                       before: map<nat, Deployed>)
    requires Within(tasks, indices)
    ensures var filed := FileAll(tasks, indices, create, first, before);
      && (forall i :: i in filed <==> i in before || i in indices)
      && (forall i :: i in before && i !in indices ==> filed[i] == before[i])
  {
    if indices == [] {
    } else {
      var n := |indices| - 1;
      assert indices == indices[..n] + [indices[n]];
      FileAllKeys(tasks, indices[..n], create, first, before);
    }
  }

  /** With distinct positions, every task of the group finds its own result. */
  lemma {:induction false} FileAllAt(tasks: seq<DeployTask>, indices: seq<nat>, create: nat -> Address, first: nat,
                                     before: map<nat, Deployed>, k: nat)
    requires Within(tasks, indices) && forall i, j :: 0 <= i < j < |indices| ==> indices[i] != indices[j]
    requires k < |indices|
    ensures var filed := FileAll(tasks, indices, create, first, before);
      indices[k] in filed && filed[indices[k]] == Deployed(tasks[indices[k]].name, create(first + k))
  {
    var n := |indices| - 1;
    if k < n {
      assert indices[..n][k] == indices[k];
      FileAllAt(tasks, indices[..n], create, first, before, k);
    }
  }

  /** Consecutive nonces from `first`, one submission per entry, in order. */
  function Implementations(first: nat, indices: seq<nat>): seq<Submission> {
    seq(|indices|, k requires 0 <= k < |indices| => Submission(first + k, Implementation(indices[k])))
  }

  function Proxies(first: nat, indices: seq<nat>, implementations: nat, create: nat -> Address): seq<Submission> {
    seq(|indices|, k requires 0 <= k < |indices| =>
      Submission(first + k, Proxy(indices[k], create(implementations + k))))
  }

  function Contracts(first: nat, indices: seq<nat>): seq<Submission> {
    seq(|indices|, k requires 0 <= k < |indices| => Submission(first + k, Contract(indices[k])))
  }

  ghost predicate IssuedTo(branch: nat, issued: seq<Allocation>, sent: seq<Submission>) {
    forall a :: 0 <= a < |sent| ==> Allocation(branch, sent[a].nonce) in issued
  }

  /** Submissions on a freshly allocated block are on nonces issued to the branch, as earlier ones. */
  lemma BlockIsIssued(branch: nat, issued: seq<Allocation>, awaited: seq<Allocation>, first: nat,
                      earlier: seq<Submission>, block: seq<Submission>)
    requires IssuedTo(branch, issued, earlier) && issued <= awaited
    requires forall k :: 0 <= k < |block| ==> block[k].nonce == first + k
    ensures IssuedTo(branch, awaited + BlockOf(branch, first, |block|), earlier + block)
  {
    var all := awaited + BlockOf(branch, first, |block|);
    forall a | 0 <= a < |earlier + block| ensures Allocation(branch, (earlier + block)[a].nonce) in all {
      if a >= |earlier| {
        assert all[|awaited| + (a - |earlier|)] == Allocation(branch, block[a - |earlier|].nonce);
      } else {
        assert Allocation(branch, earlier[a].nonce) in issued;
      }
    }
  }

  /** The other branches take their turns, then this one allocates a block. */
  method AllocateAfter(manager: NonceManager, ghost branch: nat, others: seq<Action>, count: nat)
    returns (first: nat, ghost awaited: seq<Allocation>)
    requires manager.Valid()
    modifies manager
    ensures manager.Valid() && manager.start == old(manager.start)
    ensures old(manager.nextNonce) <= first && manager.nextNonce == first + count
    ensures manager.history == old(manager.history) + others + Own(branch, count)
    ensures first == NextAfter(manager.start, old(manager.history) + others)
    ensures old(Issued(manager.start, manager.history)) <= awaited
    ensures Issued(manager.start, manager.history) == awaited + BlockOf(branch, first, count)
  {
    Interleave(manager, others);
    awaited := Issued(manager.start, manager.history);
    first := AllocateBlock(manager, branch, count);
  }

  /** Which submissions a group of proxies comes to: all implementations and, once those are mined,
      all proxies. */
  function ProxySubmissions(indices: seq<nat>, impls: nat, proxies: nat, create: nat -> Address): seq<Submission> {
    Implementations(impls, indices) + Proxies(proxies, indices, impls, create)
  }

  /** What a batch does to the manager, the other branches' turns included: one allocation per
      implementation and one per proxy, or a sync behind the one-by-one proxies, and one per contract. */
  function ProxyDoings(branch: nat, proxies: nat, parallel: bool, chainNonce: nat,
                       before: seq<Action>, between: seq<Action>): seq<Action> {
    if proxies == 0 then []
    else if parallel then before + Own(branch, proxies) + between + Own(branch, proxies)
    else before + between + [Synced(chainNonce)]
  }

  function ContractDoings(branch: nat, contracts: nat, others: seq<Action>): seq<Action> {
    if contracts == 0 then [] else others + Own(branch, contracts)
  }

  function Nonces(sent: seq<Submission>): seq<nat> {
    seq(|sent|, a requires 0 <= a < |sent| => sent[a].nonce)
  }

  function Consecutive(first: nat, count: nat): seq<nat> {
    seq(count, k requires 0 <= k => first + k)
  }

  /** The nonces those allocations yield, in order. */
  function ProxyNonces(start: nat, history: seq<Action>, branch: nat, proxies: nat, parallel: bool,
                       before: seq<Action>, between: seq<Action>): seq<nat> {
    if proxies == 0 || !parallel then []
    else Consecutive(NextAfter(start, history + before), proxies)
         + Consecutive(NextAfter(start, history + before + Own(branch, proxies) + between), proxies)
  }

  function ContractNonces(start: nat, history: seq<Action>, contracts: nat, others: seq<Action>): seq<nat> {
    if contracts == 0 then [] else Consecutive(NextAfter(start, history + others), contracts)
  }

  lemma {:induction false} OwnIssued(start: nat, branch: nat, count: nat)
    ensures Issued(start, Own(branch, count)) == BlockOf(branch, start, count)
    ensures NextAfter(start, Own(branch, count)) == start + count
  {
    if count > 0 {
      assert Own(branch, count)[..count - 1] == Own(branch, count - 1);
      OwnIssued(start, branch, count - 1);
    }
  }

  /** Behind the turns of the others, a block of own allocations yields just its consecutive nonces. */
  lemma OwnBehind(start: nat, history: seq<Action>, others: seq<Action>, branch: nat, count: nat)
    ensures var first := NextAfter(start, history + others);
      && Issued(start, history + others + Own(branch, count))
         == Issued(start, history) + Issued(NextAfter(start, history), others) + BlockOf(branch, first, count)
      && NextAfter(start, history + others + Own(branch, count)) == first + count
  {
    LaterActions(start, history, others);
    LaterActions(start, history + others, Own(branch, count));
    OwnIssued(NextAfter(start, history + others), branch, count);
  }

  /** The allocations a batch adds are those of the turns and, for each phase, one per submission on the
      nonces it is sent with. */
  lemma BatchAllocates(start: nat, history: seq<Action>, branch: nat, proxies: nat, contracts: nat,
                       turns: (seq<Action>, seq<Action>, seq<Action>))
    requires proxies > 0 && contracts > 0
    ensures
      var impls := history + turns.0;
      var between := impls + Own(branch, proxies);
      var later := between + turns.1;
      var done := later + Own(branch, proxies);
      && history + ProxyDoings(branch, proxies, true, 0, turns.0, turns.1) == done
      && Issued(start, done + ContractDoings(branch, contracts, turns.2))
         == Issued(start, history)
            + Issued(NextAfter(start, history), turns.0) + BlockOf(branch, NextAfter(start, impls), proxies)
            + Issued(NextAfter(start, between), turns.1) + BlockOf(branch, NextAfter(start, later), proxies)
            + Issued(NextAfter(start, done), turns.2) + BlockOf(branch, NextAfter(start, done + turns.2), contracts)
  {
    hide Issued, NextAfter;
    var between := history + turns.0 + Own(branch, proxies);
    var done := between + turns.1 + Own(branch, proxies);
    OwnBehind(start, history, turns.0, branch, proxies);
    OwnBehind(start, between, turns.1, branch, proxies);
    OwnBehind(start, done, turns.2, branch, contracts);
    assert done + ContractDoings(branch, contracts, turns.2) == done + turns.2 + Own(branch, contracts);
    assert history + ProxyDoings(branch, proxies, true, 0, turns.0, turns.1) == done;
  }

  /** The parallel proxy deployment. */
  method DeployProxies(tasks: seq<DeployTask>, indices: seq<nat>, manager: NonceManager, ghost branch: nat,
                       world: World, before: seq<Action>, between: seq<Action>)
    returns (failure: Option<string>, results: map<nat, Deployed>, sent: seq<Submission>,
             ghost impls: nat, ghost proxies: nat)
    requires manager.Valid() && Within(tasks, indices)
    modifies manager
    ensures manager.Valid() && manager.start == old(manager.start)
    ensures old(Issued(manager.start, manager.history)) <= Issued(manager.start, manager.history)
    ensures old(manager.nextNonce) <= impls && impls + |indices| <= proxies
    ensures failure.None? ==> proxies + |indices| <= manager.nextNonce
    ensures impls == NextAfter(manager.start, old(manager.history) + before)
    ensures failure.None? ==>
      && proxies == NextAfter(manager.start, old(manager.history) + before + Own(branch, |indices|) + between)
      && manager.history == old(manager.history) + before + Own(branch, |indices|) + between + Own(branch, |indices|)
      && Nonces(sent) == Consecutive(impls, |indices|) + Consecutive(proxies, |indices|)
    ensures failure.Some? ==>
      || sent == Implementations(impls, indices)
      || (sent == ProxySubmissions(indices, impls, proxies, world.create)
          && NoneFails(world, Implementations(impls, indices)))
    ensures failure.Some? ==> |manager.history| == |old(manager.history)| + |before| + |sent|
                              || |manager.history| == |old(manager.history)| + |before| + |between| + |sent|
    ensures failure.None? <==> NoneFails(world, sent)
    ensures failure.Some? ==> FailedIn(world, sent, failure.value)
    ensures failure.None? ==>
      && sent == ProxySubmissions(indices, impls, proxies, world.create)
      && results == FileAll(tasks, indices, world.create, proxies, map[])
    ensures sent <= ProxySubmissions(indices, impls, proxies, world.create)
    ensures IssuedTo(branch, Issued(manager.start, manager.history), sent)
  {
    hide Issued, NextAfter, Nonces, Consecutive, FileAll, NoneFails, FailedIn, IssuedTo, Implementations, Proxies;
    results := map[];
    ghost var awaited;
    var firstImpl, firstProxy;
    firstImpl, awaited := AllocateAfter(manager, branch, before, |indices|);
    sent, impls, proxies := Implementations(firstImpl, indices), firstImpl, manager.nextNonce;
    ImplementationBlock(branch, awaited, firstImpl, indices);
    failure := AwaitAll(world, sent);
    if failure.None? {
      ghost var issued := Issued(manager.start, manager.history);
      firstProxy, awaited := AllocateAfter(manager, branch, between, |indices|);
      var later := Proxies(firstProxy, indices, firstImpl, world.create);
      ProxyBlock(branch, issued, awaited, firstProxy, sent, indices, firstImpl, world.create);
      failure := AwaitAll(world, later);
      FailsTogether(world, sent, later);
      ProxyNoncesAre(indices, firstImpl, firstProxy, world.create);
      sent, proxies := sent + later, firstProxy;
      if failure.None? {
        results := File(tasks, indices, world.create, firstProxy, results);
      }
    }
  }

  lemma ImplementationBlock(branch: nat, awaited: seq<Allocation>, first: nat, indices: seq<nat>)
    ensures IssuedTo(branch, awaited + BlockOf(branch, first, |indices|), Implementations(first, indices))
    ensures |Implementations(first, indices)| == |indices|
  {
    BlockIsIssued(branch, [], awaited, first, [], Implementations(first, indices));
    assert [] + Implementations(first, indices) == Implementations(first, indices);
  }

  lemma ProxyBlock(branch: nat, issued: seq<Allocation>, awaited: seq<Allocation>, first: nat, earlier: seq<Submission>,
                   indices: seq<nat>, impls: nat, create: nat -> Address)
    requires IssuedTo(branch, issued, earlier) && issued <= awaited
    ensures IssuedTo(branch, awaited + BlockOf(branch, first, |indices|),
                     earlier + Proxies(first, indices, impls, create))
    ensures |Proxies(first, indices, impls, create)| == |indices|
  {
    BlockIsIssued(branch, issued, awaited, first, earlier, Proxies(first, indices, impls, create));
  }

  lemma ProxyNoncesAre(indices: seq<nat>, impls: nat, proxies: nat, create: nat -> Address)
    ensures Nonces(ProxySubmissions(indices, impls, proxies, create))
         == Consecutive(impls, |indices|) + Consecutive(proxies, |indices|)
  {
  }

  lemma ContractsInParts(first: nat, head: seq<nat>, chunk: seq<nat>)
    ensures Contracts(first, head + chunk) == Contracts(first, head) + Contracts(first + |head|, chunk)
  {
  }

  /** One chunk behind the groups `head` already done. */
  method SendChunk(tasks: seq<DeployTask>, head: seq<nat>, chunk: seq<nat>, first: nat, world: World,
                   ghost filed: map<nat, Deployed>, results: map<nat, Deployed>, sent: seq<Submission>)
    returns (failure: Option<string>, results': map<nat, Deployed>, sent': seq<Submission>)
    requires Within(tasks, head) && Within(tasks, chunk) && Within(tasks, head + chunk)
    requires sent == Contracts(first, head) && NoneFails(world, sent)
    requires results == FileAll(tasks, head, world.create, first, filed)
    ensures sent' == Contracts(first, head + chunk)
    ensures failure.None? <==> NoneFails(world, sent')
    ensures failure.Some? ==> FailedIn(world, sent', failure.value)
    ensures failure.None? ==> results' == FileAll(tasks, head + chunk, world.create, first, filed)
  {
    var block := Contracts(first + |head|, chunk);
    ContractsInParts(first, head, chunk);
    FailsTogether(world, sent, block);
    results', sent' := results, sent + block;
    failure := AwaitAll(world, block);
    if failure.None? {
      results' := File(tasks, chunk, world.create, first + |head|, results);
      FileInParts(tasks, head, chunk, world.create, first, filed);
    }
  }

  /** Submissions went out ten at a time, the last ones apart, and only the last chunk sent has a failure. */
  ghost predicate StoppedAt(world: World, sent: seq<Submission>, done: nat, total: nat) {
    && done % 10 == 0 && done < |sent| && NoneFails(world, sent[..done])
    && |sent| == if done + 10 < total then done + 10 else total
  }

  lemma StopsHere(world: World, first: nat, indices: seq<nat>, done: nat, end: nat)
    requires done < |indices| && done % 10 == 0 && end == if done + 10 < |indices| then done + 10 else |indices|
    requires NoneFails(world, Contracts(first, indices[..done]))
    ensures StoppedAt(world, Contracts(first, indices[..end]), done, |indices|)
  {
    hide NoneFails;
    assert Contracts(first, indices[..end])[..done] == Contracts(first, indices[..done]);
  }

  /** Submissions on allocated nonces, in chunks: a failing chunk stops before the next one is sent. */
  method SendChunks(tasks: seq<DeployTask>, indices: seq<nat>, first: nat, world: World, filed: map<nat, Deployed>)
    returns (failure: Option<string>, results: map<nat, Deployed>, sent: seq<Submission>)
    requires Within(tasks, indices)
    ensures failure.None? <==> NoneFails(world, sent)
    ensures failure.Some? ==> FailedIn(world, sent, failure.value)
    ensures failure.None? ==> sent == Contracts(first, indices)
                              && results == FileAll(tasks, indices, world.create, first, filed)
    ensures sent <= Contracts(first, indices)
    ensures failure.Some? ==> exists done :: StoppedAt(world, sent, done, |indices|)
  {
    results, sent, failure := filed, [], None;
    var done := 0;
    while done < |indices|
      invariant done <= |indices| && failure.None? && (done % 10 == 0 || done == |indices|)
      invariant NoneFails(world, sent)
      invariant sent == Contracts(first, indices[..done])
      invariant results == FileAll(tasks, indices[..done], world.create, first, filed)
    {
      hide Contracts, NoneFails, FailedIn, FileAll, StoppedAt;
      var end := done + ConfigBatch.DEPLOY_CHUNK_SIZE;
      if end > |indices| {
        end := |indices|;
      }
      assert indices[..end] == indices[..done] + indices[done..end];
      failure, results, sent :=
        SendChunk(tasks, indices[..done], indices[done..end], first, world, filed, results, sent);
      if failure.Some? {
        StopsHere(world, first, indices, done, end);
        return;
      }
      done := end;
    }
    assert indices[..|indices|] == indices;
  }

  /** The contracts behind a freshly allocated block. */
  method DeployContracts(tasks: seq<DeployTask>, indices: seq<nat>, manager: NonceManager, ghost branch: nat,
                         world: World, others: seq<Action>, earlier: seq<Submission>, filed: map<nat, Deployed>)
    returns (failure: Option<string>, results: map<nat, Deployed>, sent: seq<Submission>, ghost first: nat)
    requires manager.Valid() && Within(tasks, indices)
    requires IssuedTo(branch, Issued(manager.start, manager.history), earlier) && NoneFails(world, earlier)
    modifies manager
    ensures manager.Valid() && manager.start == old(manager.start)
    ensures old(Issued(manager.start, manager.history)) <= Issued(manager.start, manager.history)
    ensures old(manager.nextNonce) <= first == NextAfter(manager.start, old(manager.history) + others)
    ensures manager.history == old(manager.history) + others + Own(branch, |indices|)
    ensures failure.None? <==> NoneFails(world, sent)
    ensures failure.Some? ==> FailedIn(world, sent, failure.value)
    ensures failure.None? ==> sent == earlier + Contracts(first, indices)
                              && results == FileAll(tasks, indices, world.create, first, filed)
    ensures earlier <= sent <= earlier + Contracts(first, indices)
    ensures failure.Some? ==> exists done :: StoppedAt(world, sent[|earlier|..], done, |indices|)
    ensures IssuedTo(branch, Issued(manager.start, manager.history), sent)
  {
    hide Issued, NextAfter;
    ghost var issued, awaited := Issued(manager.start, manager.history), [];
    var base, submitted;
    base, awaited := AllocateAfter(manager, branch, others, |indices|);
    BlockIsIssued(branch, issued, awaited, base, earlier, Contracts(base, indices));
    failure, results, submitted := SendChunks(tasks, indices, base, world, filed);
    FailsTogether(world, earlier, submitted);
    first, sent := base, earlier + submitted;
    assert sent[|earlier|..] == submitted;
  }

  /** `d` is what became of task i: for a parallel proxy, the address of a submission of this batch
      that puts a proxy in front of the implementation this batch created for the same task. */
  ghost predicate Belongs(tasks: seq<DeployTask>, world: World, parallel: bool, sent: seq<Submission>, i: nat,
                          d: Deployed)
    requires i < |tasks|
  {
    d.name == tasks[i].name &&
    if tasks[i].proxy && parallel then
      exists impl, proxy :: Submission(impl, Implementation(i)) in sent
        && Submission(proxy, Proxy(i, world.create(impl))) in sent && d.address == world.create(proxy)
    else if tasks[i].proxy then world.direct(i) == Success(d.address)
    else exists n :: Submission(n, Contract(i)) in sent && d.address == world.create(n)
  }

  ghost predicate OneEach(sent: seq<Submission>) {
    forall a, b :: 0 <= a < b < |sent| ==> sent[a].nonce < sent[b].nonce
  }

  /** Every task of one group has its own result on file, and nothing else is. */
  ghost predicate GroupDone(tasks: seq<DeployTask>, world: World, parallel: bool, sent: seq<Submission>,
                            group: iset<nat>, filed: map<nat, Deployed>) {
    && (forall i :: i in filed <==> i in group)
    && forall i :: i in filed ==> i < |tasks| && Belongs(tasks, world, parallel, sent, i, filed[i])
  }

  ghost function Group(indices: seq<nat>): iset<nat> {
    iset i | i in indices
  }

  lemma ProxiesBelong(tasks: seq<DeployTask>, world: World, indices: seq<nat>, impls: nat, first: nat)
    requires Selects(tasks, true, indices)
    ensures GroupDone(tasks, world, true, ProxySubmissions(indices, impls, first, world.create), Group(indices),
                      FileAll(tasks, indices, world.create, first, map[]))
  {
    var sent := ProxySubmissions(indices, impls, first, world.create);
    var filed := FileAll(tasks, indices, world.create, first, map[]);
    FileAllKeys(tasks, indices, world.create, first, map[]);
    forall i | i in filed ensures i < |tasks| && Belongs(tasks, world, true, sent, i, filed[i]) {
      var k :| 0 <= k < |indices| && indices[k] == i;
      FileAllAt(tasks, indices, world.create, first, map[], k);
      hide FileAll, Selects;
      ProxyAt(indices, impls, first, world.create, k);
    }
  }

  lemma ProxyAt(indices: seq<nat>, impls: nat, first: nat, create: nat -> Address, k: nat)
    requires k < |indices|
    ensures var sent := ProxySubmissions(indices, impls, first, create);
      && Submission(impls + k, Implementation(indices[k])) in sent
      && Submission(first + k, Proxy(indices[k], create(impls + k))) in sent
  {
    var sent := ProxySubmissions(indices, impls, first, create);
    assert sent[k] == Submission(impls + k, Implementation(indices[k]));
    assert sent[|indices| + k] == Submission(first + k, Proxy(indices[k], create(impls + k)));
  }

  lemma ContractsBelong(tasks: seq<DeployTask>, world: World, parallel: bool, proxies: seq<nat>, indices: seq<nat>,
                        earlier: seq<Submission>, filed: map<nat, Deployed>, first: nat)
    requires Selects(tasks, true, proxies) && Selects(tasks, false, indices)
    requires GroupDone(tasks, world, parallel, earlier, Group(proxies), filed)
    ensures var all := FileAll(tasks, indices, world.create, first, filed);
      forall i: nat :: i < |tasks| ==>
        i in all && Belongs(tasks, world, parallel, earlier + Contracts(first, indices), i, all[i])
  {
    var sent, all := earlier + Contracts(first, indices), FileAll(tasks, indices, world.create, first, filed);
    FileAllKeys(tasks, indices, world.create, first, filed);
    forall i: nat | i < |tasks| ensures i in all && Belongs(tasks, world, parallel, sent, i, all[i]) {
      if tasks[i].proxy {
        assert i in proxies && i !in indices;
        BelongsLater(tasks, world, parallel, earlier, sent, i, filed[i]);
      } else {
        var k :| 0 <= k < |indices| && indices[k] == i;
        FileAllAt(tasks, indices, world.create, first, filed, k);
        assert sent[|earlier| + k] == Submission(first + k, Contract(i));
      }
    }
  }

  lemma BelongsLater(tasks: seq<DeployTask>, world: World, parallel: bool, sent: seq<Submission>,
                     sent': seq<Submission>, i: nat, d: Deployed)
    requires i < |tasks| && sent <= sent' && Belongs(tasks, world, parallel, sent, i, d)
    ensures Belongs(tasks, world, parallel, sent', i, d)
  {
    assert forall x :: x in sent ==> x in sent';
  }

  // ---- What stands at a reported address ----

  /** The chain of `mined` holds the k-th contract of the batch at that address. */
  ghost predicate Stands<S>(cfg: ConfigBatch.Config<S>, mined: seq<ConfigBatch.Tx>, create: nat -> Address,
                            address: Address, k: nat) {
    exists n: nat :: create(n) == address && ConfigBatch.Carries(cfg, mined, n, k)
  }

  /** A submission reported by NONCE_EXPIRED names the CREATE address of its nonce, whatever happened
      there. Over every run of the chunks that returns, with its retries, losses and expiries: the
      address filed for a task carries that task's contract iff its creation does not revert. */
  lemma FiledAddressStands<S>(tasks: seq<DeployTask>, indices: seq<nat>, create: nat -> Address,
                              before: map<nat, Deployed>,
                              cfg: ConfigBatch.Config<S>, already: nat, events: seq<ConfigBatch.Event>, k: nat)
    requires Selects(tasks, false, indices) && Within(tasks, indices) && k < |indices|
    requires cfg.work == ConfigBatch.Work(|indices|, ConfigBatch.DEPLOY_CHUNK_SIZE) && already <= cfg.base
    requires ConfigBatch.Final(cfg, already, events).control.Returned?
    ensures var filed := FileAll(tasks, indices, create, cfg.base, before);
      && indices[k] in filed
      && (Stands(cfg, ConfigBatch.Final(cfg, already, events).mined, create, filed[indices[k]].address, k)
          <==> ConfigBatch.SucceedsInOrder(cfg, k))
  {
    hide *;
    DistinctSelection(tasks, indices);
    FileAllAt(tasks, indices, create, cfg.base, before, k);
    forall n: nat ensures ConfigBatch.Carries(cfg, ConfigBatch.Final(cfg, already, events).mined, n, k)
        <==> n == cfg.base + k && ConfigBatch.SucceedsInOrder(cfg, k) {
      ConfigBatch.ContractPlace(cfg, already, events, k, n);
    }
    StandsAt(cfg, ConfigBatch.Final(cfg, already, events).mined, create, k);
  }

  /** A submission without the NONCE_EXPIRED recovery, as those of the parallel proxies, succeeds by its
      receipt alone: then the address of its nonce carries what it created, in any run, also one that
      ends in an error. */
  lemma ReceiptedAddressStands<S>(create: nat -> Address, cfg: ConfigBatch.Config<S>, already: nat,
                                  events: seq<ConfigBatch.Event>, k: nat)
    requires already <= cfg.base
    requires ConfigBatch.Op(k, ConfigBatch.Finished(ConfigBatch.ByReceipt))
      in ConfigBatch.Final(cfg, already, events).ops
    ensures ConfigBatch.SucceedsInOrder(cfg, k)
    ensures Stands(cfg, ConfigBatch.Final(cfg, already, events).mined, create, create(cfg.base + k), k)
  {
    hide *;
    ConfigBatch.ReceiptMeansDone(cfg, already, events, k);
    CarriedStands(cfg, ConfigBatch.Final(cfg, already, events).mined, create, k);
  }

  lemma CarriedStands<S>(cfg: ConfigBatch.Config<S>, mined: seq<ConfigBatch.Tx>, create: nat -> Address, k: nat)
    requires ConfigBatch.Carries(cfg, mined, cfg.base + k, k)
    ensures Stands(cfg, mined, create, create(cfg.base + k), k)
  {
    hide ConfigBatch.Carries;
  }

  lemma DistinctSelection(tasks: seq<DeployTask>, indices: seq<nat>)
    requires Selects(tasks, false, indices)
    ensures forall i, j :: 0 <= i < j < |indices| ==> indices[i] != indices[j]
  {
  }

  lemma StandsAt<S>(cfg: ConfigBatch.Config<S>, mined: seq<ConfigBatch.Tx>, create: nat -> Address, k: nat)
    requires forall n: nat :: ConfigBatch.Carries(cfg, mined, n, k)
                          <==> n == cfg.base + k && ConfigBatch.SucceedsInOrder(cfg, k)
    ensures Stands(cfg, mined, create, create(cfg.base + k), k) <==> ConfigBatch.SucceedsInOrder(cfg, k)
  {
    hide ConfigBatch.Carries, ConfigBatch.SucceedsInOrder;
  }

  /** The proxies one after the other, without allocated nonces. */
  method DeployDirect(tasks: seq<DeployTask>, indices: seq<nat>, world: World)
    returns (failure: Option<string>, results: map<nat, Deployed>)
    requires Selects(tasks, true, indices)
    ensures failure.None? <==> forall k :: 0 <= k < |indices| ==> world.direct(indices[k]).Success?
    ensures failure.Some? ==>
      exists i :: 0 <= i < |tasks| && tasks[i].proxy && world.direct(i) == Failure(failure.value)
    ensures failure.None? ==> GroupDone(tasks, world, false, [], Group(indices), results)
  {
    results := map[];
    for k := 0 to |indices|
      invariant forall j :: 0 <= j < k ==> world.direct(indices[j]).Success?
      invariant GroupDone(tasks, world, false, [], Group(indices[..k]), results)
    {
      hide GroupDone;
      match world.direct(indices[k]) {
        case Failure(error) => return Some(error), results;
        case Success(address) =>
          OneMoreDirect(tasks, world, indices, k, results);
          results := results[indices[k] := Deployed(tasks[indices[k]].name, address)];
      }
    }
    assert indices[..|indices|] == indices;
    return None, results;
  }

  lemma OneMoreDirect(tasks: seq<DeployTask>, world: World, indices: seq<nat>, k: nat, filed: map<nat, Deployed>)
    requires Selects(tasks, true, indices) && k < |indices| && world.direct(indices[k]).Success?
    requires GroupDone(tasks, world, false, [], Group(indices[..k]), filed)
    ensures var d := Deployed(tasks[indices[k]].name, world.direct(indices[k]).value);
      GroupDone(tasks, world, false, [], Group(indices[..k + 1]), filed[indices[k] := d])
  {
    assert indices[..k + 1] == indices[..k] + [indices[k]];
    forall i ensures i in Group(indices[..k + 1]) <==> i in Group(indices[..k]) || i == indices[k] {
    }
  }

  /** What the error of a failed batch says. */
  ghost predicate Explains(error: DeployError, tasks: seq<DeployTask>, world: World, parallel: bool,
                           sent: seq<Submission>) {
    match error
    case ProxiesFailed(e) => parallel && FailedIn(world, sent, e) && BehindImplementations(world, sent)
    case DirectFailed(e) =>
      !parallel && sent == [] && exists i :: 0 <= i < |tasks| && tasks[i].proxy && world.direct(i) == Failure(e)
    case ChunkFailed(e) => FailedIn(world, sent, e) && OnlyContractsFail(world, sent)
  }

  /** No contract was sent, and no proxy unless all implementations had succeeded. */
  ghost predicate BehindImplementations(world: World, sent: seq<Submission>) {
    && (forall a :: 0 <= a < |sent| ==> !sent[a].payload.Contract?)
    && forall a, b :: 0 <= a < |sent| && 0 <= b < |sent| && sent[a].payload.Implementation? && sent[b].payload.Proxy?
         ==> world.fails(sent[a].nonce).None?
  }

  ghost predicate OnlyContractsFail(world: World, sent: seq<Submission>) {
    forall a :: 0 <= a < |sent| && world.fails(sent[a].nonce).Some? ==> sent[a].payload.Contract?
  }

  lemma ProxiesStopped(world: World, sent: seq<Submission>, indices: seq<nat>, impls: nat, proxies: nat)
    requires
      || sent == Implementations(impls, indices)
      || (sent == ProxySubmissions(indices, impls, proxies, world.create)
          && NoneFails(world, Implementations(impls, indices)))
    ensures BehindImplementations(world, sent)
  {
    assert forall a :: 0 <= a < |indices| ==>
      ProxySubmissions(indices, impls, proxies, world.create)[a] == Implementations(impls, indices)[a];
  }

  lemma ContractsStopped(world: World, earlier: seq<Submission>, sent: seq<Submission>, first: nat, indices: seq<nat>)
    requires NoneFails(world, earlier) && earlier <= sent <= earlier + Contracts(first, indices)
    ensures OnlyContractsFail(world, sent)
  {
    assert forall a :: 0 <= a < |earlier| ==> sent[a] == earlier[a];
    assert forall a :: |earlier| <= a < |sent| ==> sent[a] == Contracts(first, indices)[a - |earlier|];
  }

  /** The proxies of a batch, all at once or one by one. */
  method DeployProxyTasks(tasks: seq<DeployTask>, proxies: seq<nat>, manager: NonceManager, ghost branch: nat,
                          world: World, parallel: bool, before: seq<Action>, between: seq<Action>)
    returns (error: Option<DeployError>, results: map<nat, Deployed>, sent: seq<Submission>)
    requires manager.Valid() && Selects(tasks, true, proxies)
    modifies manager
    ensures manager.Valid() && manager.start == old(manager.start)
    ensures old(Issued(manager.start, manager.history)) <= Issued(manager.start, manager.history)
    ensures IssuedTo(branch, Issued(manager.start, manager.history), sent) && OneEach(sent)
    ensures error.None? ==> forall a :: 0 <= a < |sent| ==> sent[a].nonce < manager.nextNonce
    ensures error.None? ==>
      && manager.history
         == old(manager.history) + ProxyDoings(branch, |proxies|, parallel, world.chainNonce, before, between)
      && Nonces(sent) == ProxyNonces(manager.start, old(manager.history), branch, |proxies|, parallel, before, between)
    ensures error.None? && !parallel && proxies != [] ==> world.chainNonce <= manager.nextNonce
    ensures error.None? ==> NoneFails(world, sent) && GroupDone(tasks, world, parallel, sent, Group(proxies), results)
    ensures error.Some? ==> Explains(error.value, tasks, world, parallel, sent)
  {
    hide Issued, NextAfter, FileAll, GroupDone, Belongs, Selects;
    SelectsWithin(tasks, true, proxies);
    results, sent, error := map[], [], None;
    var failure: Option<string>;
    if parallel && |proxies| > 0 {
      ghost var impls, first;
      failure, results, sent, impls, first := DeployProxies(tasks, proxies, manager, branch, world, before, between);
      if failure.Some? {
        ProxiesStopped(world, sent, proxies, impls, first);
        return Some(ProxiesFailed(failure.value)), results, sent;
      }
      ProxiesBelong(tasks, world, proxies, impls, first);
    } else if |proxies| > 0 {
      Interleave(manager, before);
      failure, results := DeployDirect(tasks, proxies, world);
      if failure.Some? {
        return Some(DirectFailed(failure.value)), results, sent;
      }
      Interleave(manager, between);
      manager.Sync(world.chainNonce);
    } else {
      NoneBelong(tasks, world, parallel);
    }
  }

  /** The batch did nothing to the manager but allocate one nonce per submission, and sent on exactly those. */
  ghost predicate OnePerSubmission(start: nat, before: seq<Action>, after: seq<Action>, branch: nat,
                                   tasks: seq<DeployTask>, parallel: bool, chainNonce: nat,
                                   turns: (seq<Action>, seq<Action>, seq<Action>), sent: seq<Submission>) {
    var proxies, contracts := CountOf(tasks, true), CountOf(tasks, false);
    var between := before + ProxyDoings(branch, proxies, parallel, chainNonce, turns.0, turns.1);
    && after == between + ContractDoings(branch, contracts, turns.2)
    && Nonces(sent) == ProxyNonces(start, before, branch, proxies, parallel, turns.0, turns.1)
                       + ContractNonces(start, between, contracts, turns.2)
  }

  lemma NoncesLength(sent: seq<Submission>)
    ensures |Nonces(sent)| == |sent|
  {
  }

  lemma ConsecutiveTogether(first: nat, a: nat, b: nat)
    ensures Consecutive(first, a) + Consecutive(first + a, b) == Consecutive(first, a + b)
    ensures |Consecutive(first, a)| == a && |Consecutive(first, b)| == b && Consecutive(first, 0) == []
    ensures |Consecutive(first, a + b)| == a + b
    ensures Consecutive(first, a) + [] == Consecutive(first, a) && [] + Consecutive(first, b) == Consecutive(first, b)
  {
  }

  /** Without turns of others, and all at once, the nonces are the next ones, without a gap. */
  lemma AloneIsConsecutive(start: nat, before: seq<Action>, after: seq<Action>, branch: nat, tasks: seq<DeployTask>,
                           chainNonce: nat, sent: seq<Submission>)
    requires OnePerSubmission(start, before, after, branch, tasks, true, chainNonce, ([], [], []), sent)
    ensures NextAfter(start, after) == NextAfter(start, before) + |sent|
    ensures Nonces(sent) == Consecutive(NextAfter(start, before), |sent|)
  {
    hide NextAfter, Issued, Consecutive, Nonces, Own, CountOf, BlockOf;
    var p, c := CountOf(tasks, true), CountOf(tasks, false);
    var between := before + ProxyDoings(branch, p, true, chainNonce, [], []);
    NoncesLength(sent);
    ConsecutiveTogether(NextAfter(start, before), p, p);
    ConsecutiveTogether(NextAfter(start, before), if p > 0 then p + p else 0, c);
    assert before + [] == before && before + Own(branch, p) + [] == before + Own(branch, p);
    assert between + [] == between;
    OwnBehind(start, before, [], branch, p);
    OwnBehind(start, before + Own(branch, p), [], branch, p);
    OwnBehind(start, between, [], branch, c);
    if p > 0 {
      assert between == before + Own(branch, p) + [] + Own(branch, p);
    } else {
      assert between == before;
    }
    if c > 0 {
      assert after == between + [] + Own(branch, c);
    } else {
      assert after == between;
    }
  }

  /** `turns` are the actions of the other branches while this one awaits: before the implementations
      (or the one-by-one proxies), before the proxies (or the sync), before the contracts. If the batch
      returns, result i is that of task i for every mix of proxies and contracts, on nonces issued to
      this branch alone. */
  method DeployBatch(tasks: seq<DeployTask>, manager: NonceManager, ghost branch: nat, world: World,
                     useParallelProxies: bool, turns: (seq<Action>, seq<Action>, seq<Action>))
    returns (out: Result<seq<Deployed>, DeployError>, sent: seq<Submission>)
    requires manager.Valid()
    modifies manager
    ensures manager.Valid() && manager.start == old(manager.start)
    ensures old(Issued(manager.start, manager.history)) <= Issued(manager.start, manager.history)
    ensures IssuedTo(branch, Issued(manager.start, manager.history), sent) && OneEach(sent)
    ensures out.Success? ==>
      && |out.value| == |tasks|
      && forall i :: 0 <= i < |tasks| ==> Belongs(tasks, world, useParallelProxies, sent, i, out.value[i])
    ensures out.Success? ==> NoneFails(world, sent)
    ensures out.Success? ==> OnePerSubmission(manager.start, old(manager.history), manager.history, branch, tasks,
                                              useParallelProxies, world.chainNonce, turns, sent)
    ensures out.Success? && useParallelProxies && turns == ([], [], []) ==>
      && manager.nextNonce == old(manager.nextNonce) + |sent|
      && Nonces(sent) == Consecutive(old(manager.nextNonce), |sent|)
    ensures out.Success? && !useParallelProxies && CountOf(tasks, true) > 0 ==>
      forall a :: 0 <= a < |sent| ==> world.chainNonce <= sent[a].nonce
    ensures out.Failure? ==> Explains(out.error, tasks, world, useParallelProxies, sent)
  {
    hide Issued, NextAfter, FileAll, GroupDone, Belongs, Selects, FailedIn, IssuedTo, OneEach, NoneFails, Nonces,
         Consecutive, Own, ProxyDoings, CountOf, Contracts;
    var proxies := Select(tasks, true);
    var contracts := Select(tasks, false);
    SelectsWithin(tasks, false, contracts);
    var error, results;
    error, results, sent :=
      DeployProxyTasks(tasks, proxies, manager, branch, world, useParallelProxies, turns.0, turns.1);
    if error.Some? {
      return Failure(error.value), sent;
    }
    ghost var earlier, filed, first := sent, results, 0;
    var failure: Option<string> := None;
    if |contracts| > 0 {
      failure, results, sent, first :=
        DeployContracts(tasks, contracts, manager, branch, world, turns.2, sent, results);
      ContractsAfter(earlier, contracts, first, sent);
      if failure.Some? {
        ContractsStopped(world, earlier, sent, first, contracts);
        return Failure(ChunkFailed(failure.value)), sent;
      }
    } else {
      NothingToFile(tasks, world.create, first, filed);
      NoContracts(earlier, first);
    }
    ContractsBelong(tasks, world, useParallelProxies, proxies, contracts, earlier, filed, first);
    NoncesTogether(earlier, contracts, first);
    if !useParallelProxies && proxies != [] {
      BehindTheSync(earlier, contracts, first, world.chainNonce);
    }
    if useParallelProxies && turns == ([], [], []) {
      AloneIsConsecutive(manager.start, old(manager.history), manager.history, branch, tasks, world.chainNonce, sent);
    }
    out := Success(seq(|tasks|, i requires 0 <= i < |tasks| => results[i]));
  }

  /** Contracts on a block above everything sent before keep one submission to a nonce, cut off or not. */
  lemma ContractsAfter(earlier: seq<Submission>, contracts: seq<nat>, first: nat, sent: seq<Submission>)
    requires OneEach(earlier) && forall a :: 0 <= a < |earlier| ==> earlier[a].nonce < first
    requires earlier <= sent <= earlier + Contracts(first, contracts)
    ensures OneEach(sent)
  {
  }

  lemma NoContracts(earlier: seq<Submission>, first: nat)
    ensures Contracts(first, []) == [] && earlier + Contracts(first, []) == earlier
  {
  }

  lemma BehindTheSync(earlier: seq<Submission>, contracts: seq<nat>, first: nat, chainNonce: nat)
    requires Nonces(earlier) == [] && (contracts != [] ==> chainNonce <= first)
    ensures forall a :: 0 <= a < |earlier + Contracts(first, contracts)| ==>
      chainNonce <= (earlier + Contracts(first, contracts))[a].nonce
  {
    assert |Nonces(earlier)| == |earlier|;
  }

  lemma NoncesTogether(earlier: seq<Submission>, contracts: seq<nat>, first: nat)
    ensures Nonces(earlier + Contracts(first, contracts)) == Nonces(earlier) + Consecutive(first, |contracts|)
  {
  }

  lemma NoneBelong(tasks: seq<DeployTask>, world: World, parallel: bool)
    ensures GroupDone(tasks, world, parallel, [], Group([]), map[])
  {
  }

  lemma NothingToFile(tasks: seq<DeployTask>, create: nat -> Address, first: nat, filed: map<nat, Deployed>)
    ensures Within(tasks, []) && FileAll(tasks, [], create, first, filed) == filed
  {
  }

  lemma SelectsWithin(tasks: seq<DeployTask>, proxy: bool, indices: seq<nat>)
    requires Selects(tasks, proxy, indices)
    ensures Within(tasks, indices)
  {
  }
}
