/** The protocol against a node that shows only its mined count: convergence of the resends.

    The node executes a transaction only when its nonce is the account's next one (section 6 of
    the Ethereum Yellow Paper), holds the rest in a pool, rejects a nonce already mined as too low
    and a nonce still pooled as underpriced, and mines at moments nobody controls. */
module NonceNode {
  import opened Wrappers
  import opened Seqs
  import opened NonceProtocol

  datatype Owner = Ours(index: nat) | Theirs

  /** How the node words its rejections of a mined nonce, a pooled nonce, and a wait in vain. */
  datatype Wording = Wording(tooLow: RpcError, underpriced: RpcError, timeout: RpcError)

  /** `ledger[n]` executed at nonce n. Before its i-th request the node mines up to `mining(i)` times;
      `arrival(i)` is the order in which sends reach it that leave together before that request. */
  datatype Node = Node(ledger: seq<Owner>, pool: map<nat, Owner>, mining: nat -> nat, arrival: nat -> seq<nat>,
                       clock: nat)

  /** The protocol understands the node's two nonce rejections. */
  predicate Understood(w: Wording) {
    IsNonceCollision(w.tooLow) && IsNonceCollision(w.underpriced)
  }

  function MineOne(node: Node): Node {
    var next := |node.ledger|;
    if next in node.pool then
      node.(ledger := node.ledger + [node.pool[next]], pool := node.pool - {next})
    else node
  }

  function Mine(node: Node, times: nat): Node
    decreases times
  {
    if times == 0 then node else Mine(MineOne(node), times - 1)
  }

  function Tick(node: Node): Node {
    Mine(node.(clock := node.clock + 1), node.mining(node.clock))
  }

  /** The mining that passes while somebody waits for `nonce`. */
  function MineUpTo(node: Node, nonce: nat): Node
    decreases nonce + 1 - |node.ledger|
  {
    if |node.ledger| <= nonce && |node.ledger| in node.pool then MineUpTo(MineOne(node), nonce) else node
  }

  function Read(node: Node): (Node, Result<nat, RpcError>) {
    (Tick(node), Success(|Tick(node).ledger|))
  }

  function Send(w: Wording, node: Node, nonce: nat, index: nat): (Node, Sent) {
    var now := Tick(node);
    if nonce < |now.ledger| then (now, Rejected(w.tooLow))
    else if nonce in now.pool then (now, Rejected(w.underpriced))
    else (now.(pool := now.pool[nonce := Ours(index)]), Accepted)
  }

  function Wait(w: Wording, node: Node, nonce: nat, index: nat): (Node, Waited) {
    var later := MineUpTo(node, nonce);
    if nonce >= |later.ledger| then (later, WaitRejected(w.timeout))
    else if later.ledger[nonce] == Ours(index) then (later, Mined)
    else (later, WaitRejected(w.tooLow))
  }

  function NodeEnv(w: Wording): Env<Node> {
    Env(Read, (node: Node) => node.arrival(node.clock),
        (node, nonce, index) => Send(w, node, nonce, index), (node, nonce, index) => Wait(w, node, nonce, index))
  }

  // ---- The line: everything mined or pooled, by nonce ----

  /** The ledger is a prefix of the line and the pool is its rest, but for the nonces whose
      transactions are still on their way. */
  ghost predicate Holds(node: Node, line: seq<Owner>, missing: set<nat>) {
    && |node.ledger| <= |line|
    && (forall n :: 0 <= n < |node.ledger| ==> node.ledger[n] == line[n])
    && (forall n :: n in node.pool <==> |node.ledger| <= n < |line| && n !in missing)
    && (forall n :: n in node.pool ==> node.pool[n] == line[n])
    && (forall n :: n in missing ==> |node.ledger| <= n < |line|)
  }

  lemma MineOneHolds(node: Node, line: seq<Owner>, missing: set<nat>)
    requires Holds(node, line, missing)
    ensures Holds(MineOne(node), line, missing)
    ensures missing == {} ==>
      |MineOne(node).ledger| == if |node.ledger| < |line| then |node.ledger| + 1 else |node.ledger|
  {
    var next := |node.ledger|;
    if next < |line| {
      assert line[..next + 1] == line[..next] + [line[next]];
    }
  }

  lemma {:induction false} MineHolds(node: Node, line: seq<Owner>, missing: set<nat>, times: nat)
    requires Holds(node, line, missing)
    ensures Holds(Mine(node, times), line, missing)
    decreases times
  {
    if times == 0 {
    } else {
      MineOneHolds(node, line, missing);
      MineHolds(MineOne(node), line, missing, times - 1);
    }
  }

  lemma TickHolds(node: Node, line: seq<Owner>, missing: set<nat>)
    requires Holds(node, line, missing)
    ensures Holds(Tick(node), line, missing)
    ensures |node.ledger| <= |Tick(node).ledger|
  {
    var started := node.(clock := node.clock + 1);
    assert Holds(started, line, missing);
    MineHolds(started, line, missing, node.mining(node.clock));
    LedgerGrows(started, node.mining(node.clock));
  }

  lemma {:induction false} LedgerGrows(node: Node, times: nat)
    ensures |node.ledger| <= |Mine(node, times).ledger|
    decreases times
  {
    if times == 0 {
    } else {
      LedgerGrows(MineOne(node), times - 1);
    }
  }

  lemma {:induction false} MineUpToHolds(node: Node, line: seq<Owner>, nonce: nat)
    requires Holds(node, line, {}) && nonce < |line|
    ensures Holds(MineUpTo(node, nonce), line, {})
    ensures |MineUpTo(node, nonce).ledger| == if |node.ledger| <= nonce then nonce + 1 else |node.ledger|
    decreases nonce + 1 - |node.ledger|
  {
    if nonce < |node.ledger| {
    } else {
      MineOneHolds(node, line, {});
      MineUpToHolds(MineOne(node), line, nonce);
    }
  }

  // ---- Sending ----

  lemma {:induction false} LowerKeeps(s: string)
    requires forall i :: 0 <= i < |s| ==> !('A' <= s[i] <= 'Z')
    ensures Lower(s) == s
  {
    if s == [] {
    } else {
      LowerKeeps(s[..|s| - 1]);
    }
  }

  /** The wording observed on the deployed nodes is understood. */
  lemma ObservedWordingUnderstood(timeout: RpcError)
    ensures Understood(Wording(RpcError("", "nonce too low", "", "", ""),
                               RpcError("", "replacement transaction underpriced", "", "", ""), timeout))
  {
    hide IsNonceCollision;
    TextUnderstood(1);
    TextUnderstood(3);
  }

  lemma TextUnderstood(i: nat)
    requires i < |COLLISION_TEXTS|
    ensures IsNonceCollision(RpcError("", COLLISION_TEXTS[i], "", "", ""))
  {
    hide IsNonceCollision;
    LowerCaseTexts(i);
    var text := COLLISION_TEXTS[i];
    LowerKeeps(text);
    assert text[0..] == text;
    CollisionInAnyField(RpcError("", text, "", "", ""), text, i);
  }

  lemma LowerCaseTexts(i: nat)
    requires i < |COLLISION_TEXTS|
    ensures forall k :: 0 <= k < |COLLISION_TEXTS[i]| ==> !('A' <= COLLISION_TEXTS[i][k] <= 'Z')
  {
  }

  predicate Answers(w: Wording, sent: Sent, taken: bool) {
    if taken then sent in [Rejected(w.tooLow), Rejected(w.underpriced)] else sent == Accepted
  }

  /** A missing transaction that arrives is accepted; any other nonce of the line is rejected. */
  lemma SendHolds(w: Wording, node: Node, line: seq<Owner>, missing: set<nat>, nonce: nat, index: nat)
    requires Holds(node, line, missing) && nonce < |line|
    requires nonce in missing ==> line[nonce] == Ours(index)
    ensures Holds(Send(w, node, nonce, index).0, line, missing - {nonce})
    ensures Answers(w, Send(w, node, nonce, index).1, nonce !in missing)
  {
    TickHolds(node, line, missing);
    Arrives(Tick(node), line, missing, nonce, index);
  }

  lemma Arrives(now: Node, line: seq<Owner>, missing: set<nat>, nonce: nat, index: nat)
    requires Holds(now, line, missing) && nonce < |line|
    requires nonce in missing ==> line[nonce] == Ours(index)
    ensures nonce < |now.ledger| || nonce in now.pool <==> nonce !in missing
    ensures Holds(if nonce in missing then now.(pool := now.pool[nonce := Ours(index)]) else now,
                  line, missing - {nonce})
  {
  }

  /** What the batch adds to the line when its first `taken` nonces are already in use. */
  function Added(indices: seq<nat>, taken: nat): (r: seq<Owner>)
    ensures |r| == if |indices| <= taken then 0 else |indices| - taken
    ensures forall j :: 0 <= j < |r| ==> r[j] == Ours(indices[taken + j])
  {
    if |indices| <= taken then [] else Added(indices[..|indices| - 1], taken) + [Ours(indices[|indices| - 1])]
  }

  /** Fates of the sends: taken up to the end of the line, accepted behind it. */
  ghost predicate SplitAt(records: seq<Record>, taken: int, rest: Fate) {
    forall k :: 0 <= k < |records| ==> records[k].fate == if k < taken then Taken else rest
  }

  /** The nonces behind the old line whose sends have not arrived. */
  function OnTheWay(from: nat, upTo: nat, nonce: nat, arrived: seq<nat>): set<nat> {
    set n | from <= n < upTo && !HasArrived(arrived, n, nonce)
  }

  predicate HasArrived(arrived: seq<nat>, n: nat, nonce: nat) {
    n - nonce in arrived
  }

  /** The line once all of a batch's sends have arrived: what was there, and what the batch adds. */
  ghost predicate Extends(line: seq<Owner>, whole: seq<Owner>, nonce: nat, o: seq<nat>) {
    && nonce <= |line| <= |whole| && nonce + |o| <= |whole|
    && forall n :: |line| <= n < |whole| ==> n < nonce + |o| && whole[n] == Ours(o[n - nonce])
  }

  lemma AddedExtends(line: seq<Owner>, nonce: nat, o: seq<nat>)
    requires nonce <= |line|
    ensures Extends(line, line + Added(o, |line| - nonce), nonce, o)
  {
  }

  ghost predicate AllAnswered(w: Wording, answers: map<nat, Sent>, taken: int) {
    forall p :: p in answers ==> Answers(w, answers[p], p < taken)
  }

  function Arrived(w: Wording, node: Node, nonce: nat, o: seq<nat>, arrived: seq<nat>): (Node, map<nat, Sent>)
    requires forall i :: 0 <= i < |arrived| ==> arrived[i] < |o|
  {
    Deliver(NodeEnv(w), node, nonce, o, arrived)
  }

  lemma OneMoreArrived(w: Wording, node: Node, nonce: nat, o: seq<nat>, arrived: seq<nat>)
    requires arrived != [] && forall i :: 0 <= i < |arrived| ==> arrived[i] < |o|
    ensures
      var init, p := arrived[..|arrived| - 1], arrived[|arrived| - 1];
      var (before, answers) := Arrived(w, node, nonce, o, init);
      var (next, sent) := Send(w, before, nonce + p, o[p]);
      Arrived(w, node, nonce, o, arrived) == (next, answers[p := sent])
  {
  }

  /** Whatever order the sends arrive in: those on nonces of the old line are rejected, the others
      accepted, and only what is still on its way is missing. */
  lemma {:induction false} DeliverHolds(w: Wording, node: Node, line: seq<Owner>, whole: seq<Owner>, nonce: nat,
                                        o: seq<nat>, arrived: seq<nat>)
    requires Extends(line, whole, nonce, o)
    requires Holds(node, whole, OnTheWay(|line|, |whole|, nonce, []))
    requires forall i :: 0 <= i < |arrived| ==> arrived[i] < |o|
    requires forall i, j :: 0 <= i < j < |arrived| ==> arrived[i] != arrived[j]
    ensures Holds(Arrived(w, node, nonce, o, arrived).0, whole, OnTheWay(|line|, |whole|, nonce, arrived))
    ensures AllAnswered(w, Arrived(w, node, nonce, o, arrived).1, |line| - nonce)
  {
    hide Holds, Send, OnTheWay, Extends, Answers;
    if arrived == [] {
    } else {
      var init, p := arrived[..|arrived| - 1], arrived[|arrived| - 1];
      DeliverHolds(w, node, line, whole, nonce, o, init);
      DeliverNext(w, Arrived(w, node, nonce, o, init).0, line, whole, nonce, o, init, p);
      OneMoreArrived(w, node, nonce, o, arrived);
      assert arrived == init + [p];
    }
  }

  /** The send of position p arrives behind those in `arrived`. */
  lemma DeliverNext(w: Wording, before: Node, line: seq<Owner>, whole: seq<Owner>, nonce: nat, o: seq<nat>,
                    arrived: seq<nat>, p: nat)
    requires Extends(line, whole, nonce, o) && p < |o| && p !in arrived
    requires Holds(before, whole, OnTheWay(|line|, |whole|, nonce, arrived))
    ensures Holds(Send(w, before, nonce + p, o[p]).0, whole, OnTheWay(|line|, |whole|, nonce, arrived + [p]))
    ensures Answers(w, Send(w, before, nonce + p, o[p]).1, p < |line| - nonce)
  {
    hide Holds, Send, OnTheWay;
    OneLess(|line|, |whole|, nonce, arrived, p);
    StillMissing(|line|, |whole|, nonce, arrived, p);
    SendHolds(w, before, whole, OnTheWay(|line|, |whole|, nonce, arrived), nonce + p, o[p]);
  }

  lemma StillMissing(from: nat, upTo: nat, nonce: nat, arrived: seq<nat>, p: nat)
    requires p !in arrived
    ensures nonce + p in OnTheWay(from, upTo, nonce, arrived) <==> from <= nonce + p < upTo
  {
  }

  lemma OneLess(from: nat, upTo: nat, nonce: nat, arrived: seq<nat>, p: nat)
    ensures OnTheWay(from, upTo, nonce, arrived + [p]) == OnTheWay(from, upTo, nonce, arrived) - {nonce + p}
  {
  }

  lemma NothingMissing(line: seq<Owner>, whole: seq<Owner>, nonce: nat, o: seq<nat>, order: seq<nat>)
    requires Extends(line, whole, nonce, o) && IsOrder(order, |o|)
    ensures OnTheWay(|line|, |whole|, nonce, order) == {}
  {
    forall n: nat | |line| <= n < |whole| ensures HasArrived(order, n, nonce) {
      assert whole[n].Ours?;
    }
  }

  lemma AllMissing(node: Node, line: seq<Owner>, whole: seq<Owner>, nonce: nat, o: seq<nat>)
    requires Holds(node, line, {}) && Extends(line, whole, nonce, o) && line <= whole
    ensures Holds(node, whole, OnTheWay(|line|, |whole|, nonce, []))
  {
  }

  lemma NoErrors(records: seq<Record>, taken: int, rest: Fate)
    requires SplitAt(records, taken, rest) && !rest.Broken?
    ensures FirstError(records).None?
  {
    FirstErrorNone(records);
  }

  lemma SendsHold(w: Wording, now: Node, line: seq<Owner>, nonce: nat, o: seq<nat>, order: seq<nat>)
    requires Holds(now, line, {}) && nonce <= |line| && IsOrder(order, |o|)
    ensures Holds(Arrived(w, now, nonce, o, order).0, line + Added(o, |line| - nonce), {})
    ensures AllAnswered(w, Arrived(w, now, nonce, o, order).1, |line| - nonce)
  {
    hide *;
    EachOnce(order, |o|);
    var whole := line + Added(o, |line| - nonce);
    AddedExtends(line, nonce, o);
    AllMissing(now, line, whole, nonce, o);
    DeliverHolds(w, now, line, whole, nonce, o, order);
    NothingMissing(line, whole, nonce, o, order);
  }

  lemma AnswersSplit(w: Wording, attempt: nat, nonce: nat, o: seq<nat>, answers: map<nat, Sent>, taken: int)
    requires Understood(w) && AllAnswered(w, answers, taken) && forall k :: 0 <= k < |o| ==> k in answers
    ensures SplitAt(Records(attempt, nonce, o, answers), taken, Pending)
  {
    hide IsNonceCollision;
  }

  lemma SendAllParts(w: Wording, now: Node, attempt: nat, nonce: nat, o: seq<nat>)
    ensures forall i :: 0 <= i < |Arrivals(NodeEnv(w), now, |o|)| ==> Arrivals(NodeEnv(w), now, |o|)[i] < |o|
    ensures var (world, answers) := Arrived(w, now, nonce, o, Arrivals(NodeEnv(w), now, |o|));
      && (forall k :: 0 <= k < |o| ==> k in answers)
      && SendAll(NodeEnv(w), now, attempt, nonce, o) == (world, Records(attempt, nonce, o, answers))
  {
    hide Deliver, NodeEnv, Records;
  }

  lemma SendsOnLine(w: Wording, now: Node, line: seq<Owner>, attempt: nat, nonce: nat, o: seq<nat>)
    requires Holds(now, line, {}) && nonce <= |line| && Understood(w)
    ensures var (sentWorld, sent) := SendAll(NodeEnv(w), now, attempt, nonce, o);
      && Holds(sentWorld, line + Added(o, |line| - nonce), {})
      && Aligned(sent, attempt, nonce, o)
      && SplitAt(sent, |line| - nonce, Pending) && FirstError(sent).None?
  {
    hide *;
    var order := Arrivals(NodeEnv(w), now, |o|);
    EachOnce(order, |o|);
    SendAllParts(w, now, attempt, nonce, o);
    SendsHold(w, now, line, nonce, o, order);
    AnswersSplit(w, attempt, nonce, o, Arrived(w, now, nonce, o, order).1, |line| - nonce);
    SendAllAligned(NodeEnv(w), now, attempt, nonce, o);
    NoErrors(SendAll(NodeEnv(w), now, attempt, nonce, o).1, |line| - nonce, Pending);
  }

  lemma EachOnce(order: seq<nat>, n: nat)
    requires IsOrder(order, n)
    ensures forall i :: 0 <= i < |order| ==> order[i] < n
    ensures forall i, j :: 0 <= i < j < |order| ==> order[i] != order[j]
    ensures forall p :: 0 <= p < n ==> p in order
  {
  }

  lemma {:induction false} WaitAllHolds(w: Wording, node: Node, line: seq<Owner>, records: seq<Record>, taken: nat)
    requires Holds(node, line, {}) && SplitAt(records, taken, Pending)
    requires forall k :: taken <= k < |records| ==>
      records[k].nonce < |line| && line[records[k].nonce] == Ours(records[k].index)
    ensures var (node', settled) := WaitAll(NodeEnv(w), node, records);
      && Holds(node', line, {})
      && |settled| == |records| && SplitAt(settled, taken, Confirmed)
      && |node.ledger| <= |node'.ledger|
      && (taken < |records| ==> records[|records| - 1].nonce < |node'.ledger|)
  {
    if records == [] {
    } else {
      var k := |records| - 1;
      WaitAllHolds(w, node, line, records[..k], taken);
      var before := WaitAll(NodeEnv(w), node, records[..k]).0;
      if taken <= k {
        MineUpToHolds(before, line, records[k].nonce);
      }
    }
  }

  // ---- Attempts ----

  lemma {:induction false} TakenIsPrefix(records: seq<Record>, attempt: nat, nonce: nat, indices: seq<nat>, taken: nat)
    requires Aligned(records, attempt, nonce, indices) && SplitAt(records, taken, Confirmed)
    ensures IndicesOf(records, IsTaken()) == if taken < |indices| then indices[..taken] else indices
  {
    if records == [] {
    } else {
      var n := |records| - 1;
      TakenIsPrefix(records[..n], attempt, nonce, indices[..n], taken);
      LastPicked(records[..n], records[n], IsTaken());
      assert records == records[..n] + [records[n]];
      LongerPrefix(indices, taken);
    }
  }

  lemma LongerPrefix(indices: seq<nat>, taken: nat)
    requires indices != []
    ensures var n := |indices| - 1;
      (if taken < |indices| then indices[..taken] else indices)
      == (if taken < n then indices[..n][..taken] else indices[..n]) + if n < taken then [indices[n]] else []
  {
    assert indices == indices[..|indices| - 1] + [indices[|indices| - 1]];
  }

  lemma NothingReplaced(records: seq<Record>, taken: nat)
    requires SplitAt(records, taken, Confirmed)
    ensures IndicesOf(records, IsReplaced()) == []
  {
    FilterNone(records, IsReplaced());
  }

  /** The line ends in the batch, but for its first `taken` transactions. */
  ghost predicate EndsIn(line: seq<Owner>, nonce: nat, o: seq<nat>, taken: nat) {
    && (taken < |o| ==> |line| == nonce + |o|)
    && forall k :: taken <= k < |o| ==> nonce + k < |line| && line[nonce + k] == Ours(o[k])
  }

  lemma AddedTail(line: seq<Owner>, nonce: nat, o: seq<nat>)
    requires nonce <= |line|
    ensures EndsIn(line + Added(o, |line| - nonce), nonce, o, |line| - nonce)
  {
  }

  /** Waiting for what was accepted at the end of the line mines the whole line. */
  lemma WaitsOnLine(w: Wording, node: Node, line: seq<Owner>, sent: seq<Record>, attempt: nat, nonce: nat, o: seq<nat>,
                    taken: nat)
    requires Holds(node, line, {}) && EndsIn(line, nonce, o, taken)
    requires Aligned(sent, attempt, nonce, o) && SplitAt(sent, taken, Pending)
    ensures
      var (node', settled) := WaitAll(NodeEnv(w), node, sent);
      && FirstError(settled).None? && Aligned(settled, attempt, nonce, o)
      && Collided(settled) == (if taken < |o| then o[..taken] else o)
      && (Collided(settled) == [] <==> taken == 0 || o == [])
      && Holds(node', line, {})
      && (taken < |o| ==> |node'.ledger| == |line|)
  {
    WaitAllHolds(w, node, line, sent, taken);
    WaitAllAligned(NodeEnv(w), node, sent, attempt, nonce, o);
    SettledCollisions(WaitAll(NodeEnv(w), node, sent).1, attempt, nonce, o, taken);
  }

  lemma SettledCollisions(settled: seq<Record>, attempt: nat, nonce: nat, o: seq<nat>, taken: nat)
    requires Aligned(settled, attempt, nonce, o) && SplitAt(settled, taken, Confirmed)
    ensures FirstError(settled).None?
    ensures Collided(settled) == if taken < |o| then o[..taken] else o
    ensures Collided(settled) == [] <==> taken == 0 || o == []
  {
    NoErrors(settled, taken, Confirmed);
    TakenIsPrefix(settled, attempt, nonce, o, taken);
    NothingReplaced(settled, taken);
  }

  /** How many of an attempt's sends collide: the predecessors in flight when it reads the nonce. */
  function InFlightAtRead(node: Node, line: seq<Owner>): int {
    |line| - |Tick(node).ledger|
  }

  /** What the sends and the waits of one attempt come to, whatever the environment. */
  ghost predicate Splits<S>(env: Env<S>, s0: S, attempt: nat, nonce: nat, o: seq<nat>, taken: nat) {
    var (s1, sent) := SendAll(env, s0, attempt, nonce, o);
    var settled := WaitAll(env, s1, sent).1;
    && FirstError(sent).None? && FirstError(settled).None? && Aligned(settled, attempt, nonce, o)
    && Collided(settled) == (if taken < |o| then o[..taken] else o)
    && (Collided(settled) == [] <==> taken == 0 || o == [])
  }

  function AfterWaits<S>(env: Env<S>, s0: S, attempt: nat, nonce: nat, o: seq<nat>): S {
    var (s1, sent) := SendAll(env, s0, attempt, nonce, o);
    WaitAll(env, s1, sent).0
  }

  /** The first `taken` outstanding indices collide; with none left over the protocol returns. */
  ghost predicate Progress<S>(run: Run<S>, run': Run<S>, stop: Option<Outcome>, attempt: nat, taken: nat) {
    && (stop.Some? <==> taken == 0 || run.outstanding == [])
    && (stop.Some? ==> stop.value.Returned?)
    && run'.outstanding == (if taken < |run.outstanding| then run.outstanding[..taken] else run.outstanding)
    && run.trace <= run'.trace && (forall k :: |run.trace| <= k < |run'.trace| ==> run'.trace[k].attempt == attempt)
  }

  lemma SplitAttempt<S>(env: Env<S>, run: Run<S>, attempt: nat, s0: S, nonce: nat, taken: nat)
    requires env.read(run.world) == (s0, Success(nonce))
    requires Splits(env, s0, attempt, nonce, run.outstanding, taken)
    ensures
      var (run', stop) := Attempt(env, run, attempt);
      && run'.world == AfterWaits(env, s0, attempt, nonce, run.outstanding)
      && Progress(run, run', stop, attempt, taken)
  {
  }

  lemma SendsAndWaits(w: Wording, now: Node, line: seq<Owner>, attempt: nat, o: seq<nat>, nonce: nat, whole: seq<Owner>)
    requires Holds(now, line, {}) && nonce == |now.ledger| <= |line| && Understood(w)
    requires whole == line + Added(o, |line| - nonce)
    ensures
      var node', taken := AfterWaits(NodeEnv(w), now, attempt, nonce, o), |line| - nonce;
      && Splits(NodeEnv(w), now, attempt, nonce, o, taken)
      && Holds(node', whole, {})
      && (taken < |o| ==> |node'.ledger| == |whole|)
  {
    hide *;
    SendsOnLine(w, now, line, attempt, nonce, o);
    AddedTail(line, nonce, o);
    var (sentWorld, sent) := SendAll(NodeEnv(w), now, attempt, nonce, o);
    WaitsSplit(w, now, whole, sentWorld, sent, attempt, nonce, o, |line| - nonce);
  }

  lemma WaitsSplit(w: Wording, now: Node, whole: seq<Owner>, sentWorld: Node, sent: seq<Record>,
                   attempt: nat, nonce: nat, o: seq<nat>, taken: nat)
    requires (sentWorld, sent) == SendAll(NodeEnv(w), now, attempt, nonce, o)
    requires Holds(sentWorld, whole, {}) && EndsIn(whole, nonce, o, taken)
    requires Aligned(sent, attempt, nonce, o) && SplitAt(sent, taken, Pending) && FirstError(sent).None?
    ensures
      var node' := AfterWaits(NodeEnv(w), now, attempt, nonce, o);
      && Splits(NodeEnv(w), now, attempt, nonce, o, taken)
      && Holds(node', whole, {}) && (taken < |o| ==> |node'.ledger| == |whole|)
  {
    WaitsOnLine(w, sentWorld, whole, sent, attempt, nonce, o, taken);
  }

  lemma InLine(node: Node, line: seq<Owner>)
    requires Holds(node, line, {})
    ensures |node.ledger| <= |line|
  {
  }

  /** One attempt on a gapless line: the predecessors still in flight collide and, if any send is
      left, it is mined behind everything that was in flight. */
  lemma AttemptOnLine(w: Wording, run: Run<Node>, line: seq<Owner>, attempt: nat)
    requires Holds(run.world, line, {}) && Understood(w)
    ensures
      var taken := InFlightAtRead(run.world, line);
      var (run', stop) := Attempt(NodeEnv(w), run, attempt);
      var o := run.outstanding;
      && 0 <= taken <= |line| - |run.world.ledger|
      && Holds(run'.world, line + Added(o, taken), {})
      && (taken < |o| ==> |run'.world.ledger| == |line + Added(o, taken)|)
      && Progress(run, run', stop, attempt, taken)
  {
    hide Holds, Attempt, AfterWaits, Splits, Tick, Added, Understood;
    TickHolds(run.world, line, {});
    InLine(Tick(run.world), line);
    var now := Tick(run.world);
    SendsAndWaits(w, now, line, attempt, run.outstanding, |now.ledger|,
      line + Added(run.outstanding, |line| - |now.ledger|));
    SplitAttempt(NodeEnv(w), run, attempt, now, |now.ledger|, |line| - |now.ledger|);
  }

  // ---- Convergence ----

  /** `g` of somebody else's transactions hold the nonces just above the mined count. */
  function InFlight(ledger: seq<Owner>, g: nat, mining: nat -> nat, arrival: nat -> seq<nat>): Node {
    Node(ledger, Unmined(ledger + Repeat(g), |ledger|), mining, arrival, 0)
  }

  function Unmined(line: seq<Owner>, mined: nat): map<nat, Owner> {
    map n: nat | mined <= n < |line| :: line[n]
  }

  function Result(w: Wording, ledger: seq<Owner>, g: nat, mining: nat -> nat, arrival: nat -> seq<nat>,
                  count: nat, maxAttempts: nat):
      (Run<Node>, Outcome)
  {
    Attempts(NodeEnv(w), Start(InFlight(ledger, g, mining, arrival), count), 1, maxAttempts)
  }

  function Repeat(g: nat): seq<Owner> {
    seq(g, _ => Theirs)
  }

  lemma InFlightHolds(ledger: seq<Owner>, g: nat, mining: nat -> nat, arrival: nat -> seq<nat>)
    ensures Holds(InFlight(ledger, g, mining, arrival), ledger + Repeat(g), {})
  {
  }

  ghost predicate AttemptsUpTo(trace: seq<Record>, n: nat) {
    forall k :: 0 <= k < |trace| ==> trace[k].attempt <= n
  }

  function FirstN(n: nat): seq<nat> {
    seq(n, i => i)
  }

  /** The predecessors still in flight when the first attempt reads the nonce. */
  function TakenAtRead(ledger: seq<Owner>, g: nat, mining: nat -> nat, arrival: nat -> seq<nat>): int {
    InFlightAtRead(InFlight(ledger, g, mining, arrival), ledger + Repeat(g))
  }

  /** With fewer predecessors in flight than transactions to send, two attempts suffice, one when
      nothing is in flight, whenever the node mines: the accepted transactions sit behind every
      predecessor, so waiting for them makes the next read exact. In the end the ledger holds the
      predecessors, then the batch: first the part accepted at once, then the resent part. */
  lemma Converges(w: Wording, ledger: seq<Owner>, g: nat, mining: nat -> nat, arrival: nat -> seq<nat>,
                  count: nat, maxAttempts: nat)
    requires Understood(w) && g < count && maxAttempts >= 2
    ensures
      var taken := TakenAtRead(ledger, g, mining, arrival);
      var (run, outcome) := Result(w, ledger, g, mining, arrival, count, maxAttempts);
      && 0 <= taken <= g
      && outcome.Returned?
      && AttemptsUpTo(run.trace, if taken == 0 then 1 else 2)
      && run.world.ledger == ledger + Repeat(g) + Added(FirstN(count), taken) + Added(FirstN(taken), 0)
  {
    hide IsNonceCollision, Attempt, SendAll, Tick;
    var start, line := Start(InFlight(ledger, g, mining, arrival), count), ledger + Repeat(g);
    assert start.outstanding == FirstN(count);
    InFlightHolds(ledger, g, mining, arrival);
    AttemptOnLine(w, start, line, 1);
    var taken := TakenAtRead(ledger, g, mining, arrival);
    var line1 := line + Added(FirstN(count), taken);
    var (run1, stop1) := Attempt(NodeEnv(w), start, 1);
    assert run1.world.ledger == line1;
    if stop1.None? {
      assert FirstN(count)[..taken] == FirstN(taken);
      SecondAttempt(w, run1, line1, taken, maxAttempts);
    } else {
      assert line1 + Added(FirstN(0), 0) == line1;
    }
  }

  /** Nothing is in flight any more, so the second attempt gets every nonce it asks for. */
  lemma SecondAttempt(w: Wording, run1: Run<Node>, line1: seq<Owner>, taken: nat, maxAttempts: nat)
    requires Understood(w) && Holds(run1.world, line1, {}) && run1.world.ledger == line1
    requires run1.outstanding == FirstN(taken) && taken > 0 && maxAttempts >= 2 && AttemptsUpTo(run1.trace, 1)
    ensures var (run, outcome) := Attempts(NodeEnv(w), run1, 2, maxAttempts);
      && outcome.Returned? && AttemptsUpTo(run.trace, 2)
      && run.world.ledger == line1 + Added(FirstN(taken), 0)
  {
    AttemptOnLine(w, run1, line1, 2);
    var (run2, stop2) := Attempt(NodeEnv(w), run1, 2);
    assert Attempts(NodeEnv(w), run1, 2, maxAttempts) == (run2, stop2.value);
    assert run2.world.ledger == line1 + Added(FirstN(taken), 0);
  }

  /** A node that mines nothing on its own, and more predecessors in flight than the batch. */
  ghost predicate Stuck(run: Run<Node>, line: seq<Owner>) {
    && Holds(run.world, line, {}) && run.world.mining == Idle()
    && run.outstanding != [] && |line| - |run.world.ledger| >= |run.outstanding|
  }

  function NextRun<S>(env: Env<S>, run: Run<S>, attempt: nat): Run<S> {
    Attempt(env, run, attempt).0
  }

  predicate Undecided<S>(env: Env<S>, run: Run<S>, attempt: nat) {
    Attempt(env, run, attempt).1.None?
  }

  predicate Exhausts<S>(env: Env<S>, run: Run<S>, attempt: nat, maxAttempts: nat) {
    Attempts(env, run, attempt, maxAttempts).1.Exhausted?
  }

  lemma NoneLeft<S>(env: Env<S>, run: Run<S>, attempt: nat, maxAttempts: nat)
    requires attempt > maxAttempts
    ensures Exhausts(env, run, attempt, maxAttempts)
  {
  }

  lemma ExhaustsLater<S>(env: Env<S>, run: Run<S>, attempt: nat, maxAttempts: nat)
    requires attempt <= maxAttempts && Undecided(env, run, attempt)
    ensures Exhausts(env, run, attempt, maxAttempts)
      <==> Exhausts(env, NextRun(env, run, attempt), attempt + 1, maxAttempts)
  {
  }

  ghost predicate StaysIn<S(!new)>(env: Env<S>, stuck: Run<S> -> bool) {
    forall r, n: nat :: stuck(r) ==> Undecided(env, r, n) && stuck(NextRun(env, r, n))
  }

  lemma StaysStep<S(!new)>(env: Env<S>, run: Run<S>, stuck: Run<S> -> bool, attempt: nat)
    requires StaysIn(env, stuck) && stuck(run)
    ensures Undecided(env, run, attempt) && stuck(NextRun(env, run, attempt))
  {
  }

  /** Attempts that cannot get unstuck are used up. */
  lemma {:induction false} StuckIsExhausted<S(!new)>(env: Env<S>, run: Run<S>, stuck: Run<S> -> bool, attempt: nat,
                                              maxAttempts: nat)
    requires stuck(run) && 1 <= attempt <= maxAttempts + 1
    requires StaysIn(env, stuck)
    ensures Exhausts(env, run, attempt, maxAttempts)
    decreases maxAttempts + 1 - attempt
  {
    hide Attempt, Attempts, Exhausts, StaysIn;
    if attempt > maxAttempts {
      NoneLeft(env, run, attempt, maxAttempts);
    } else {
      StaysStep(env, run, stuck, attempt);
      StuckIsExhausted(env, NextRun(env, run, attempt), stuck, attempt + 1, maxAttempts);
      ExhaustsLater(env, run, attempt, maxAttempts);
    }
  }

  /** Every attempt collides throughout: nothing is accepted, so nothing is waited for. */
  lemma NeverAccepted(w: Wording, run: Run<Node>, line: seq<Owner>, maxAttempts: nat)
    requires Understood(w) && Stuck(run, line)
    ensures Attempts(NodeEnv(w), run, 1, maxAttempts).1.Exhausted?
  {
    forall r: Run<Node>, n: nat | Stuck(r, line)
      ensures Undecided(NodeEnv(w), r, n) && Stuck(NextRun(NodeEnv(w), r, n), line)
    {
      StaysStuck(w, r, line, n);
    }
    StuckIsExhausted(NodeEnv(w), run, StuckOn(line), 1, maxAttempts);
  }

  ghost function StuckOn(line: seq<Owner>): Run<Node> -> bool {
    r => Stuck(r, line)
  }

  function Idle(): nat -> nat {
    _ => 0
  }

  lemma StaysStuck(w: Wording, run: Run<Node>, line: seq<Owner>, attempt: nat)
    requires Understood(w) && Stuck(run, line)
    ensures var (run', stop) := Attempt(NodeEnv(w), run, attempt);
      stop.None? && Stuck(run', line)
  {
    var now, o := Tick(run.world), run.outstanding;
    AttemptOnLine(w, run, line, attempt);
    assert line + Added(o, |line| - |now.ledger|) == line;
    IdleAttempt(w, run, line, attempt);
  }

  lemma IdleAttempt(w: Wording, run: Run<Node>, line: seq<Owner>, attempt: nat)
    requires Understood(w) && Stuck(run, line)
    ensures var world := Attempt(NodeEnv(w), run, attempt).0.world;
      world.ledger == run.world.ledger && world.mining == Idle()
  {
    hide SendAll, WaitAll, Holds, Understood, Tick, Added, SplitAt;
    var now, o := Tick(run.world), run.outstanding;
    StuckStands(run, line);
    TickHolds(run.world, line, {});
    SendsOnLine(w, now, line, attempt, |now.ledger|, o);
    SendAllIdle(w, now, attempt, |now.ledger|, o);
    var (sentWorld, sent) := SendAll(NodeEnv(w), now, attempt, |now.ledger|, o);
    NonePending(sent, |line| - |now.ledger|, Pending);
    WaitNothing(NodeEnv(w), sentWorld, sent);
  }

  lemma StuckStands(run: Run<Node>, line: seq<Owner>)
    requires Stuck(run, line)
    ensures Tick(run.world).ledger == run.world.ledger && Tick(run.world).mining == Idle()
    ensures |run.world.ledger| + |run.outstanding| <= |line|
  {
  }

  lemma NonePending(records: seq<Record>, taken: int, rest: Fate)
    requires SplitAt(records, taken, rest) && |records| <= taken
    ensures forall k :: 0 <= k < |records| ==> !records[k].fate.Pending?
  {
  }

  lemma SendAllIdle(w: Wording, node: Node, attempt: nat, nonce: nat, indices: seq<nat>)
    requires node.mining == Idle()
    ensures var node' := SendAll(NodeEnv(w), node, attempt, nonce, indices).0;
      node'.ledger == node.ledger && node'.mining == Idle()
  {
    hide Deliver, NodeEnv, Records;
    DeliverIdle(w, node, nonce, indices, Arrivals(NodeEnv(w), node, |indices|));
  }

  lemma {:induction false} DeliverIdle(w: Wording, node: Node, nonce: nat, indices: seq<nat>, arrived: seq<nat>)
    requires node.mining == Idle() && forall i :: 0 <= i < |arrived| ==> arrived[i] < |indices|
    ensures var node' := Deliver(NodeEnv(w), node, nonce, indices, arrived).0;
      node'.ledger == node.ledger && node'.mining == Idle()
  {
    if arrived == [] {
    } else {
      DeliverIdle(w, node, nonce, indices, arrived[..|arrived| - 1]);
    }
  }

  lemma {:induction false} WaitNothing<S>(env: Env<S>, s: S, records: seq<Record>)
    requires forall k :: 0 <= k < |records| ==> !records[k].fate.Pending?
    ensures WaitAll(env, s, records) == (s, records)
  {
    if records == [] {
    } else {
      WaitNothing(env, s, records[..|records| - 1]);
      assert records == records[..|records| - 1] + [records[|records| - 1]];
    }
  }

  /** The exact condition: the protocol returns whatever the node's mining schedule iff fewer
      transactions are in flight than it sends (an empty batch returns at once). */
  lemma ConvergesIff(w: Wording, ledger: seq<Owner>, g: nat, arrival: nat -> seq<nat>,
                     count: nat, maxAttempts: nat)
    requires Understood(w) && maxAttempts >= 2
    ensures (forall mining :: Result(w, ledger, g, mining, arrival, count, maxAttempts).1.Returned?)
      <==> g < count || count == 0
  {
    if g < count {
      forall mining ensures Result(w, ledger, g, mining, arrival, count, maxAttempts).1.Returned? {
        Converges(w, ledger, g, mining, arrival, count, maxAttempts);
      }
    } else if count == 0 {
      forall mining ensures Result(w, ledger, g, mining, arrival, count, maxAttempts).1.Returned? {
        InFlightHolds(ledger, g, mining, arrival);
        AttemptOnLine(w, Start(InFlight(ledger, g, mining, arrival), 0), ledger + Repeat(g), 1);
      }
    } else {
      InFlightHolds(ledger, g, Idle(), arrival);
      NeverAccepted(w, Start(InFlight(ledger, g, Idle(), arrival), count), ledger + Repeat(g), maxAttempts);
      assert !Result(w, ledger, g, Idle(), arrival, count, maxAttempts).1.Returned?;
    }
  }

  // ---- Exactly once on this node ----

  /** No transaction of the batch stands in the line twice, and none that is still outstanding. */
  ghost predicate Once(line: seq<Owner>, outstanding: seq<nat>) {
    && (forall n, m :: 0 <= n < m < |line| && line[n].Ours? ==> line[n] != line[m])
    && (forall n :: 0 <= n < |line| && line[n].Ours? ==> line[n].index !in outstanding)
    && NoDup(outstanding)
  }

  lemma OnceGrows(line: seq<Owner>, o: seq<nat>, taken: nat)
    requires Once(line, o)
    ensures Once(line + Added(o, taken), if taken < |o| then o[..taken] else o)
    ensures forall k :: taken <= k < |o| ==> Ours(o[k]) in line + Added(o, taken)
  {
    var whole := line + Added(o, taken);
    forall n, m | 0 <= n < m < |whole| && whole[n].Ours? ensures whole[n] != whole[m] {
      if m >= |line| {
        assert whole[m] == Ours(o[taken + (m - |line|)]);
      }
    }
    forall k | taken <= k < |o| ensures Ours(o[k]) in whole {
      assert whole[|line| + (k - taken)] == Ours(o[k]);
    }
  }

  lemma OncePrefix(line: seq<Owner>, ledger: seq<Owner>, o: seq<nat>)
    requires Once(line, o) && |ledger| <= |line| && forall n :: 0 <= n < |ledger| ==> ledger[n] == line[n]
    ensures Once(ledger, [])
  {
  }

  /** Where the batch's transaction i is: still to be sent, or in the line. */
  ghost predicate Somewhere(line: seq<Owner>, outstanding: seq<nat>, i: nat) {
    i in outstanding || Ours(i) in line
  }

  lemma WholeLedger(node: Node, line: seq<Owner>)
    requires Holds(node, line, {}) && |node.ledger| == |line|
    ensures node.ledger == line
  {
  }

  lemma AttemptOnce(w: Wording, run: Run<Node>, line: seq<Owner>, attempt: nat) returns (more: seq<Owner>)
    requires Understood(w) && Holds(run.world, line, {}) && Once(line, run.outstanding) && run.outstanding != []
    ensures var (next, stop) := Attempt(NodeEnv(w), run, attempt);
      && Holds(next.world, more, {}) && Once(more, next.outstanding)
      && (forall i :: Somewhere(line, run.outstanding, i) ==> Somewhere(more, next.outstanding, i))
      && (stop.None? ==> next.outstanding != [])
      && (stop.Some? ==> stop.value.Returned? && next.world.ledger == more && next.outstanding == [])
  {
    hide Attempt, NodeEnv, Understood, Holds, Tick, Once, Added;
    AttemptOnLine(w, run, line, attempt);
    var o, taken := run.outstanding, InFlightAtRead(run.world, line);
    more := line + Added(o, taken);
    OnceGrows(line, o, taken);
    if taken < |o| {
      WholeLedger(Attempt(NodeEnv(w), run, attempt).0.world, more);
    }
    var left := if taken < |o| then o[..taken] else o;
    forall i | Somewhere(line, o, i) ensures Somewhere(more, left, i) {
      if i in o && i !in left {
        var k :| 0 <= k < |o| && o[k] == i;
        assert forall m :: 0 <= m < |left| ==> o[m] == left[m] && left[m] in left;
      }
    }
  }

  /** Whatever the mining schedule and however often it resends, the protocol gets no transaction of
      the batch executed twice; if it returns, it got each executed. */
  lemma {:induction false} NodeAttemptsOnce(w: Wording, run: Run<Node>, line: seq<Owner>, attempt: nat,
                                            maxAttempts: nat)
    requires Understood(w) && Holds(run.world, line, {}) && Once(line, run.outstanding) && run.outstanding != []
    ensures var (run', outcome) := Attempts(NodeEnv(w), run, attempt, maxAttempts);
      && Once(run'.world.ledger, [])
      && (outcome.Returned? ==> forall i :: Somewhere(line, run.outstanding, i) ==> Ours(i) in run'.world.ledger)
    decreases maxAttempts + 1 - attempt
  {
    if attempt > maxAttempts {
      OncePrefix(line, run.world.ledger, run.outstanding);
    } else {
      var more := AttemptOnce(w, run, line, attempt);
      var (next, stop) := Attempt(NodeEnv(w), run, attempt);
      if stop.None? {
        NodeAttemptsOnce(w, next, more, attempt + 1, maxAttempts);
      } else {
        OncePrefix(more, next.world.ledger, next.outstanding);
      }
    }
  }

  /** From any number of predecessors in flight: executed at most once in every run, and exactly once
      if the protocol returns. */
  lemma NodeExactlyOnce(w: Wording, ledger: seq<Owner>, g: nat, mining: nat -> nat, arrival: nat -> seq<nat>,
                        count: nat, maxAttempts: nat)
    requires Understood(w) && count > 0 && forall n :: 0 <= n < |ledger| ==> ledger[n].Theirs?
    ensures var (run, outcome) := Result(w, ledger, g, mining, arrival, count, maxAttempts);
      && Once(run.world.ledger, [])
      && (outcome.Returned? ==> forall i: nat :: i < count ==> Ours(i) in run.world.ledger)
  {
    InFlightHolds(ledger, g, mining, arrival);
    var start, line := Start(InFlight(ledger, g, mining, arrival), count), ledger + Repeat(g);
    forall i: nat | i < count ensures Somewhere(line, start.outstanding, i) {
      assert start.outstanding[i] == i;
    }
    NodeAttemptsOnce(w, start, line, 1, maxAttempts);
  }
}
