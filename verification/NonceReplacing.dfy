/** The protocol against a node that shows only its mined count and lets a second transaction on a
    pooled nonce replace the first, as nodes of a chain with a zero base fee do: when the resends
    suffice, and which of the predecessors they destroy. */
module NonceReplacing {
  import opened Wrappers
  import opened Seqs
  import opened NonceProtocol
  import opened NonceNode

  /** Only a nonce that is mined already is refused. */
  function SendOver(w: Wording, node: Node, nonce: nat, index: nat): (Node, Sent) {
    var now := Tick(node);
    if nonce < |now.ledger| then (now, Rejected(w.tooLow))
    else (now.(pool := now.pool[nonce := Ours(index)]), Accepted)
  }

  function ReplacingEnv(w: Wording): Env<Node> {
    Env(Read, (node: Node) => node.arrival(node.clock),
        (node, nonce, index) => SendOver(w, node, nonce, index), (node, nonce, index) => Wait(w, node, nonce, index))
  }

  // ---- Sending ----

  /** The line once these sends have been answered: an accepted one stands at its nonce. */
  function Overlay(line: seq<Owner>, nonce: nat, o: seq<nat>, answers: map<nat, Sent>): seq<Owner> {
    seq(|line|, n requires 0 <= n < |line| =>
      if nonce <= n < nonce + |o| && n - nonce in answers && answers[n - nonce].Accepted? then Ours(o[n - nonce])
        else line[n])
  }

  lemma OverlayMore(line: seq<Owner>, nonce: nat, o: seq<nat>, answers: map<nat, Sent>, p: nat, sent: Sent)
    requires p < |o| && p !in answers && nonce + p < |line|
    ensures Overlay(line, nonce, o, answers[p := sent])
         == if sent.Accepted? then Overlay(line, nonce, o, answers)[nonce + p := Ours(o[p])]
           else Overlay(line, nonce, o, answers)
  {
  }

  lemma ArrivesOver(w: Wording, node: Node, line: seq<Owner>, missing: set<nat>, nonce: nat, index: nat)
    requires Holds(node, line, missing) && nonce < |line|
    ensures
      var (node', sent) := SendOver(w, node, nonce, index);
      && |node.ledger| <= |node'.ledger|
      && Holds(node', if sent.Accepted? then line[nonce := Ours(index)] else line, missing - {nonce})
      && (sent == Accepted || (sent == Rejected(w.tooLow) && nonce !in missing && nonce < |node'.ledger|))
  {
    TickHolds(node, line, missing);
    var now := Tick(node);
    if nonce < |now.ledger| {
      assert missing - {nonce} == missing;
    }
  }

  /** A send that found its nonce mined was behind a predecessor. */
  ghost predicate Answer(w: Wording, node: Node, line: seq<Owner>, nonce: nat, sent: Sent) {
    sent == Accepted || (sent == Rejected(w.tooLow) && nonce < |node.ledger| && nonce < |line|)
  }

  ghost predicate AllAnswer(w: Wording, node: Node, line: seq<Owner>, nonce: nat, answers: map<nat, Sent>) {
    forall p :: p in answers ==> Answer(w, node, line, nonce + p, answers[p])
  }

  function ArrivedOver(w: Wording, node: Node, nonce: nat, o: seq<nat>, arrived: seq<nat>): (Node, map<nat, Sent>)
    requires forall i :: 0 <= i < |arrived| ==> arrived[i] < |o|
  {
    Deliver(ReplacingEnv(w), node, nonce, o, arrived)
  }

  lemma OneMoreOver(w: Wording, node: Node, nonce: nat, o: seq<nat>, arrived: seq<nat>)
    requires arrived != [] && forall i :: 0 <= i < |arrived| ==> arrived[i] < |o|
    ensures
      var init, p := arrived[..|arrived| - 1], arrived[|arrived| - 1];
      var (before, answers) := ArrivedOver(w, node, nonce, o, init);
      var (next, sent) := SendOver(w, before, nonce + p, o[p]);
      ArrivedOver(w, node, nonce, o, arrived) == (next, answers[p := sent])
    ensures forall p :: p in ArrivedOver(w, node, nonce, o, arrived).1 <==> p in arrived
  {
  }

  /** Whatever order the sends arrive in and whatever is mined in between. */
  lemma {:induction false} DeliverOver(w: Wording, node: Node, line: seq<Owner>, whole: seq<Owner>, nonce: nat,
                                       o: seq<nat>, arrived: seq<nat>)
    requires Extends(line, whole, nonce, o) && Holds(node, whole, OnTheWay(|line|, |whole|, nonce, []))
    requires forall i :: 0 <= i < |arrived| ==> arrived[i] < |o|
    requires forall i, j :: 0 <= i < j < |arrived| ==> arrived[i] != arrived[j]
    ensures
      var (node', answers) := ArrivedOver(w, node, nonce, o, arrived);
      && Holds(node', Overlay(whole, nonce, o, answers), OnTheWay(|line|, |whole|, nonce, arrived))
      && AllAnswer(w, node', line, nonce, answers) && |node.ledger| <= |node'.ledger|
  {
    hide Holds, SendOver, OnTheWay, Extends, AllAnswer, Overlay, ArrivedOver;
    if arrived == [] {
      NoneArrived(w, node, line, nonce, o);
      NothingLaid(whole, nonce, o);
    } else {
      var init, p := arrived[..|arrived| - 1], arrived[|arrived| - 1];
      DeliverOver(w, node, line, whole, nonce, o, init);
      OneMoreOver(w, node, nonce, o, arrived);
      NotYet(w, node, nonce, o, arrived);
      var (before, answers) := ArrivedOver(w, node, nonce, o, init);
      NextOver(w, before, line, whole, nonce, o, init, answers, p);
      assert arrived == init + [p];
    }
  }

  lemma NoneArrived(w: Wording, node: Node, line: seq<Owner>, nonce: nat, o: seq<nat>)
    ensures ArrivedOver(w, node, nonce, o, []) == (node, map[]) && AllAnswer(w, node, line, nonce, map[])
  {
  }

  lemma NothingLaid(line: seq<Owner>, nonce: nat, o: seq<nat>)
    ensures Overlay(line, nonce, o, map[]) == line
  {
  }

  lemma NotYet(w: Wording, node: Node, nonce: nat, o: seq<nat>, arrived: seq<nat>)
    requires arrived != [] && forall i :: 0 <= i < |arrived| ==> arrived[i] < |o|
    requires forall i, j :: 0 <= i < j < |arrived| ==> arrived[i] != arrived[j]
    ensures var init := arrived[..|arrived| - 1];
      arrived[|arrived| - 1] !in init && arrived[|arrived| - 1] !in ArrivedOver(w, node, nonce, o, init).1
  {
  }

  lemma NextOver(w: Wording, before: Node, line: seq<Owner>, whole: seq<Owner>, nonce: nat, o: seq<nat>,
                 arrived: seq<nat>, answers: map<nat, Sent>, p: nat)
    requires Extends(line, whole, nonce, o) && p < |o| && p !in arrived && p !in answers
    requires Holds(before, Overlay(whole, nonce, o, answers), OnTheWay(|line|, |whole|, nonce, arrived))
    requires AllAnswer(w, before, line, nonce, answers)
    ensures
      var (next, sent) := SendOver(w, before, nonce + p, o[p]);
      && Holds(next, Overlay(whole, nonce, o, answers[p := sent]), OnTheWay(|line|, |whole|, nonce, arrived + [p]))
      && AllAnswer(w, next, line, nonce, answers[p := sent]) && |before.ledger| <= |next.ledger|
  {
    hide Holds, SendOver, OnTheWay, Overlay;
    OneLess(|line|, |whole|, nonce, arrived, p);
    StillMissing(|line|, |whole|, nonce, arrived, p);
    SameLength(whole, nonce, o, answers);
    ArrivesOver(w, before, Overlay(whole, nonce, o, answers), OnTheWay(|line|, |whole|, nonce, arrived), nonce + p,
      o[p]);
    OverlayMore(whole, nonce, o, answers, p, SendOver(w, before, nonce + p, o[p]).1);
  }

  lemma SameLength(line: seq<Owner>, nonce: nat, o: seq<nat>, answers: map<nat, Sent>)
    ensures |Overlay(line, nonce, o, answers)| == |line|
  {
  }

  /** The line with an attempt's transactions laid over it: those not rejected stand at their nonces. */
  function Laid(line: seq<Owner>, nonce: nat, records: seq<Record>): seq<Owner> {
    var end := if nonce + |records| < |line| then |line| else nonce + |records|;
    seq(end, n requires 0 <= n =>
      if nonce <= n < nonce + |records| && !records[n - nonce].fate.Taken? then Ours(records[n - nonce].index)
      else if n < |line| then line[n] else Theirs)
  }

  /** Each send was refused behind a predecessor that is mined, or has the given fate. */
  ghost predicate Mixed(records: seq<Record>, line: seq<Owner>, rest: Fate, mined: nat) {
    forall k :: 0 <= k < |records| ==>
      records[k].fate == rest || (records[k].fate.Taken? && records[k].nonce < |line| && records[k].nonce < mined)
  }

  lemma SendsOver(w: Wording, now: Node, line: seq<Owner>, attempt: nat, nonce: nat, o: seq<nat>)
    requires Holds(now, line, {}) && nonce <= |line| && Understood(w)
    ensures
      var (world, sent) := SendAll(ReplacingEnv(w), now, attempt, nonce, o);
      && Aligned(sent, attempt, nonce, o)
      && Holds(world, Laid(line, nonce, sent), {})
      && Mixed(sent, line, Pending, |world.ledger|) && |now.ledger| <= |world.ledger|
  {
    hide *;
    var order := Arrivals(ReplacingEnv(w), now, |o|);
    EachOnce(order, |o|);
    OverParts(w, now, attempt, nonce, o);
    SendAllAligned(ReplacingEnv(w), now, attempt, nonce, o);
    var whole := line + Added(o, |line| - nonce);
    AddedExtends(line, nonce, o);
    AllMissing(now, line, whole, nonce, o);
    DeliverOver(w, now, line, whole, nonce, o, order);
    NothingMissing(line, whole, nonce, o, order);
    var (world, answers) := ArrivedOver(w, now, nonce, o, order);
    OverlayIsLaid(w, world, line, whole, attempt, nonce, o, answers);
    AnswersMix(w, world, line, attempt, nonce, o, answers);
  }

  lemma OverParts(w: Wording, now: Node, attempt: nat, nonce: nat, o: seq<nat>)
    ensures forall i :: 0 <= i < |Arrivals(ReplacingEnv(w), now, |o|)| ==> Arrivals(ReplacingEnv(w), now, |o|)[i] < |o|
    ensures
      var (world, answers) := ArrivedOver(w, now, nonce, o, Arrivals(ReplacingEnv(w), now, |o|));
      && (forall k :: 0 <= k < |o| ==> k in answers)
      && SendAll(ReplacingEnv(w), now, attempt, nonce, o) == (world, Records(attempt, nonce, o, answers))
  {
    hide Deliver, ReplacingEnv, Records;
  }

  lemma OverlayIsLaid(w: Wording, world: Node, line: seq<Owner>, whole: seq<Owner>, attempt: nat, nonce: nat,
                      o: seq<nat>, answers: map<nat, Sent>)
    requires Extends(line, whole, nonce, o) && line <= whole && forall k :: 0 <= k < |o| ==> k in answers
    requires AllAnswer(w, world, line, nonce, answers) && Understood(w)
    ensures Overlay(whole, nonce, o, answers) == Laid(line, nonce, Records(attempt, nonce, o, answers))
  {
    hide IsNonceCollision;
    var records, over := Records(attempt, nonce, o, answers), Overlay(whole, nonce, o, answers);
    var laid := Laid(line, nonce, records);
    WholeLength(line, whole, nonce, o);
    forall n | 0 <= n < |whole| ensures over[n] == laid[n] {
      if nonce <= n < nonce + |o| {
        assert Answer(w, world, line, n, answers[n - nonce]);
        assert records[n - nonce].fate.Taken? <==> !answers[n - nonce].Accepted?;
      }
    }
  }

  lemma WholeLength(line: seq<Owner>, whole: seq<Owner>, nonce: nat, o: seq<nat>)
    requires Extends(line, whole, nonce, o)
    ensures |whole| == if nonce + |o| < |line| then |line| else nonce + |o|
  {
    if |line| < |whole| {
      assert whole[|whole| - 1].Ours?;
    }
  }

  lemma AnswersMix(w: Wording, world: Node, line: seq<Owner>, attempt: nat, nonce: nat, o: seq<nat>,
                   answers: map<nat, Sent>)
    requires Understood(w) && AllAnswer(w, world, line, nonce, answers) && forall k :: 0 <= k < |o| ==> k in answers
    ensures Mixed(Records(attempt, nonce, o, answers), line, Pending, |world.ledger|)
  {
    hide IsNonceCollision;
    var records := Records(attempt, nonce, o, answers);
    forall k | 0 <= k < |o| ensures
        records[k].fate == Pending
          || (records[k].fate.Taken? && records[k].nonce < |line| && records[k].nonce < |world.ledger|) {
      assert Answer(w, world, line, nonce + k, answers[k]);
    }
  }

  // ---- Waiting ----

  /** The accepted ones stand in the line. */
  ghost predicate Stand(records: seq<Record>, line: seq<Owner>) {
    forall k :: 0 <= k < |records| && records[k].fate.Pending? ==>
      records[k].nonce < |line| && line[records[k].nonce] == Ours(records[k].index)
  }

  /** Only the fates of the pending ones change, to confirmed. */
  ghost predicate AllConfirmed(records: seq<Record>, settled: seq<Record>) {
    |settled| == |records| && forall k :: 0 <= k < |records| ==>
      settled[k] == if records[k].fate.Pending? then records[k].(fate := Confirmed) else records[k]
  }

  lemma {:induction false} WaitsOver(w: Wording, node: Node, line: seq<Owner>, records: seq<Record>, top: nat)
    requires Holds(node, line, {}) && Stand(records, line)
    requires forall k :: 0 <= k < |records| ==> records[k].nonce < top
    ensures
      var (node', settled) := WaitAll(ReplacingEnv(w), node, records);
      && Holds(node', line, {}) && AllConfirmed(records, settled)
      && |node.ledger| <= |node'.ledger| <= (if |node.ledger| < top then top else |node.ledger|)
      && (forall k :: 0 <= k < |records| && records[k].fate.Pending? ==> records[k].nonce < |node'.ledger|)
      && node'.clock == node.clock && node'.mining == node.mining
  {
    hide Holds, Wait, ReplacingEnv;
    if records == [] {
    } else {
      var k := |records| - 1;
      WaitsOver(w, node, line, records[..k], top);
      var (before, settled) := WaitAll(ReplacingEnv(w), node, records[..k]);
      assert Stand([records[k]], line) by { StandsLast(records, line); }
      OneWait(w, before, line, records[k], top);
      LastWait(w, node, records);
    }
  }

  lemma StandsLast(records: seq<Record>, line: seq<Owner>)
    requires records != [] && Stand(records, line)
    ensures Stand([records[|records| - 1]], line)
  {
  }

  lemma LastWait(w: Wording, node: Node, records: seq<Record>)
    requires records != []
    ensures
      var k := |records| - 1;
      var (before, settled) := WaitAll(ReplacingEnv(w), node, records[..k]);
      var (after, waited) := Wait(w, before, records[k].nonce, records[k].index);
      WaitAll(ReplacingEnv(w), node, records)
      == if records[k].fate.Pending? then (after, settled + [records[k].(fate := WaitFate(waited))])
         else (before, settled + [records[k]])
  {
    hide Wait;
  }

  lemma OneWait(w: Wording, before: Node, line: seq<Owner>, r: Record, top: nat)
    requires Holds(before, line, {}) && Stand([r], line) && r.nonce < top
    ensures r.fate.Pending? ==>
      var (after, waited) := Wait(w, before, r.nonce, r.index);
      && Holds(after, line, {}) && waited == Mined && |before.ledger| <= |after.ledger| && r.nonce < |after.ledger|
      && |after.ledger| <= (if |before.ledger| < top then top else |before.ledger|)
      && after.clock == before.clock && after.mining == before.mining
  {
    if r.fate.Pending? {
      assert [r][0] == r;
      MineUpToHolds(before, line, r.nonce);
      MineUpToTime(before, r.nonce);
    }
  }

  lemma {:induction false} MineUpToTime(node: Node, nonce: nat)
    ensures MineUpTo(node, nonce).clock == node.clock && MineUpTo(node, nonce).mining == node.mining
    decreases nonce + 1 - |node.ledger|
  {
    if |node.ledger| <= nonce && |node.ledger| in node.pool {
      MineUpToTime(MineOne(node), nonce);
    }
  }

  // ---- One attempt ----

  function Settled(run: Run<Node>, run': Run<Node>): seq<Record>
    requires run.trace <= run'.trace
  {
    run'.trace[|run.trace|..]
  }

  /** What an attempt that reads nonce `m` makes of a line. */
  ghost predicate Advances(run: Run<Node>, run': Run<Node>, stop: Option<Outcome>, line: seq<Owner>, m: nat,
                           attempt: nat) {
    && |run.world.ledger| <= m <= |line| && run.trace <= run'.trace
    && var o, settled := run.outstanding, Settled(run, run');
       && Aligned(settled, attempt, m, o)
       && Mixed(settled, line, Confirmed, m + |o|)
       && Holds(run'.world, Laid(line, m, settled), {}) && m + |o| <= |run'.world.ledger|
       && (stop.Some? <==> forall k :: 0 <= k < |o| ==> settled[k].fate.Confirmed?)
       && (stop.Some? ==> stop.value.Returned?)
       && (stop.None? ==> run'.outstanding != [])
  }

  lemma AttemptOver(w: Wording, run: Run<Node>, line: seq<Owner>, attempt: nat)
    requires Holds(run.world, line, {}) && Understood(w)
    ensures var (run', stop) := Attempt(ReplacingEnv(w), run, attempt);
      Advances(run, run', stop, line, |Tick(run.world).ledger|, attempt)
  {
    hide *;
    TickHolds(run.world, line, {});
    var now := Tick(run.world);
    InLine(now, line);
    SendsOver(w, now, line, attempt, |now.ledger|, run.outstanding);
    var (world, sent) := SendAll(ReplacingEnv(w), now, attempt, |now.ledger|, run.outstanding);
    var laid := Laid(line, |now.ledger|, sent);
    LaidStand(line, |now.ledger|, sent, attempt, run.outstanding);
    WaitsOver(w, world, laid, sent, |now.ledger| + |run.outstanding|);
    var (world', settled) := WaitAll(ReplacingEnv(w), world, sent);
    NoneBroken(sent, line, Pending, |world.ledger|);
    SettledOver(line, |now.ledger|, sent, settled, attempt, run.outstanding, |world.ledger|);
    MinedAll(world, world', line, sent, |now.ledger|, attempt, run.outstanding);
    TakenCollide(settled, line, |now.ledger| + |run.outstanding|);
    AttemptParts(w, run, line, attempt, world, sent, world', settled);
  }

  lemma NoneBroken(records: seq<Record>, line: seq<Owner>, rest: Fate, mined: nat)
    requires Mixed(records, line, rest, mined) && !rest.Broken?
    ensures FirstError(records).None?
  {
    FirstErrorNone(records);
  }

  lemma LaidStand(line: seq<Owner>, nonce: nat, sent: seq<Record>, attempt: nat, o: seq<nat>)
    requires Aligned(sent, attempt, nonce, o)
    ensures Stand(sent, Laid(line, nonce, sent))
    ensures forall k :: 0 <= k < |sent| ==> sent[k].nonce < nonce + |o|
  {
  }

  lemma SettledOver(line: seq<Owner>, nonce: nat, sent: seq<Record>, settled: seq<Record>, attempt: nat, o: seq<nat>,
                    mined: nat)
    requires Aligned(sent, attempt, nonce, o) && Mixed(sent, line, Pending, mined) && AllConfirmed(sent, settled)
    ensures Aligned(settled, attempt, nonce, o) && Mixed(settled, line, Confirmed, nonce + |o|)
    ensures Laid(line, nonce, settled) == Laid(line, nonce, sent)
  {
  }

  lemma MinedAll(world: Node, world': Node, line: seq<Owner>, sent: seq<Record>, nonce: nat, attempt: nat, o: seq<nat>)
    requires Aligned(sent, attempt, nonce, o) && Mixed(sent, line, Pending, |world.ledger|)
    requires |world.ledger| <= |world'.ledger|
    requires forall k :: 0 <= k < |sent| && sent[k].fate.Pending? ==> sent[k].nonce < |world'.ledger|
    ensures o != [] ==> nonce + |o| <= |world'.ledger|
  {
    if o != [] {
      assert sent[|o| - 1].nonce == nonce + |o| - 1;
    }
  }

  lemma TakenCollide(settled: seq<Record>, line: seq<Owner>, mined: nat)
    requires Mixed(settled, line, Confirmed, mined)
    ensures Collided(settled) == [] <==> forall k :: 0 <= k < |settled| ==> settled[k].fate.Confirmed?
    ensures FirstError(settled).None?
  {
    NoneBroken(settled, line, Confirmed, mined);
    var taken := Filter(settled, IsTaken());
    FilterIn(settled, IsTaken());
    FilterNone(settled, IsReplaced());
    if taken == [] {
      assert forall k :: 0 <= k < |settled| ==> settled[k] !in taken && settled[k] in settled;
    } else {
      assert taken[0] in taken;
    }
  }

  lemma AttemptParts(w: Wording, run: Run<Node>, line: seq<Owner>, attempt: nat, world: Node, sent: seq<Record>,
                     world': Node, settled: seq<Record>)
    requires
      var now, o := Tick(run.world), run.outstanding;
      && (world, sent) == SendAll(ReplacingEnv(w), now, attempt, |now.ledger|, o)
      && (world', settled) == WaitAll(ReplacingEnv(w), world, sent)
      && FirstError(sent).None? && FirstError(settled).None?
      && |run.world.ledger| <= |now.ledger| <= |line|
      && Aligned(settled, attempt, |now.ledger|, o) && Mixed(settled, line, Confirmed, |now.ledger| + |o|)
      && Holds(world', Laid(line, |now.ledger|, settled), {})
      && (o != [] ==> |now.ledger| + |o| <= |world'.ledger|) && |now.ledger| <= |world'.ledger|
      && (Collided(settled) == [] <==> forall k :: 0 <= k < |settled| ==> settled[k].fate.Confirmed?)
    ensures var (run', stop) := Attempt(ReplacingEnv(w), run, attempt);
      Advances(run, run', stop, line, |Tick(run.world).ledger|, attempt)
  {
    hide Holds, Laid, Mixed, SendAll, WaitAll, Collided, FirstError, Tick, Stamp;
    var (run', stop) := Attempt(ReplacingEnv(w), run, attempt);
    assert run'.trace == run.trace + settled && Settled(run, run') == settled;
  }

  // ---- How many attempts suffice ----

  /** Predecessors not yet mined. */
  function Left(node: Node, line: seq<Owner>): int {
    |line| - |node.ledger|
  }

  /** With so many predecessors unmined, so many sends outstanding and so many attempts left, the
      protocol returns whatever the node mines. */
  predicate Enough(left: int, outstanding: nat, attempts: nat) {
    outstanding == 0 || (if attempts == 1 then left <= 0 else left <= outstanding + attempts - 2)
  }

  lemma {:induction false} EnoughReturns(w: Wording, run: Run<Node>, line: seq<Owner>, attempt: nat, maxAttempts: nat)
    requires Understood(w) && Holds(run.world, line, {}) && attempt <= maxAttempts
    requires Enough(Left(run.world, line), |run.outstanding|, maxAttempts + 1 - attempt)
    ensures Attempts(ReplacingEnv(w), run, attempt, maxAttempts).1.Returned?
    decreases maxAttempts - attempt
  {
    hide Attempt, Holds, Laid, Tick;
    var m := |Tick(run.world).ledger|;
    AttemptOver(w, run, line, attempt);
    var (run', stop) := Attempt(ReplacingEnv(w), run, attempt);
    if stop.None? {
      var line' := Laid(line, m, Settled(run, run'));
      LeftAfter(run, run', stop, line, m, attempt);
      EnoughReturns(w, run', line', attempt + 1, maxAttempts);
    }
  }

  /** An attempt uses up a predecessor for each send, if there are so many; with none left it returns. */
  lemma LeftAfter(run: Run<Node>, run': Run<Node>, stop: Option<Outcome>, line: seq<Owner>, m: nat, attempt: nat)
    requires Advances(run, run', stop, line, m, attempt) && stop.None?
    ensures
      var left, left' := Left(run.world, line), Left(run'.world, Laid(line, m, Settled(run, run')));
      left > 0 && run.outstanding != [] && run'.outstanding != []
        && left' <= (if left <= |run.outstanding| then 0 else left - |run.outstanding|)
  {
    hide Holds;
    var settled := Settled(run, run');
    assert |Laid(line, m, settled)| == if m + |settled| < |line| then |line| else m + |settled|;
    var k :| 0 <= k < |run.outstanding| && !settled[k].fate.Confirmed?;
    assert settled[k].nonce < |line|;
  }

  // ---- And how many do not ----

  /** A node that mines one predecessor in each attempt, after the nonce is read and before any send
      arrives, and nothing else on its own. */
  function Adversary(count: nat): nat -> nat {
    i => if i == 1 || (i > count && (i - count) % 2 == 0) then 1 else 0
  }

  /** The attempt about to begin at this time meets exactly that. */
  ghost predicate Ambush(node: Node, sends: nat) {
    && node.mining(node.clock) == 0 && node.mining(node.clock + 1) == 1
    && forall i :: node.clock + 1 < i <= node.clock + sends ==> node.mining(i) == 0
  }

  /** While the sends arrive the ledger grows by the one predecessor and no more. */
  lemma {:induction false} AmbushSends(w: Wording, node: Node, nonce: nat, o: seq<nat>, arrived: seq<nat>)
    requires forall i :: 0 <= i < |arrived| ==> arrived[i] < |o|
    requires nonce == |node.ledger| && nonce in node.pool
    requires arrived != [] ==> node.mining(node.clock) == 1
    requires forall i :: node.clock < i < node.clock + |arrived| ==> node.mining(i) == 0
    ensures var node' := ArrivedOver(w, node, nonce, o, arrived).0;
      && |node'.ledger| == (if arrived == [] then nonce else nonce + 1) && node'.mining == node.mining
      && node'.clock == node.clock + |arrived| && (arrived == [] ==> node' == node)
    ensures forall p :: p in ArrivedOver(w, node, nonce, o, arrived).1 ==>
      (ArrivedOver(w, node, nonce, o, arrived).1[p].Accepted? <==> p > 0)
  {
    if arrived == [] {
    } else {
      var init, p := arrived[..|arrived| - 1], arrived[|arrived| - 1];
      AmbushSends(w, node, nonce, o, init);
      OneMoreOver(w, node, nonce, o, arrived);
      var before := ArrivedOver(w, node, nonce, o, init).0;
      AmbushSend(w, before, nonce, if init == [] then 1 else 0, nonce + p, o[p]);
    }
  }

  lemma AmbushSend(w: Wording, node: Node, nonce: nat, mines: nat, at: nat, index: nat)
    requires node.mining(node.clock) == mines <= 1 && nonce <= at
    requires if mines == 1 then |node.ledger| == nonce && nonce in node.pool else |node.ledger| == nonce + 1
    ensures var (node', sent) := SendOver(w, node, at, index);
      && |node'.ledger| == nonce + 1 && node'.mining == node.mining && node'.clock == node.clock + 1
      && (sent.Accepted? <==> at > nonce)
  {
    var started := node.(clock := node.clock + 1);
    if mines == 1 {
      assert Mine(started, 1) == Mine(MineOne(started), 0);
    }
  }

  lemma QuietTick(node: Node)
    requires node.mining(node.clock) == 0
    ensures Tick(node) == node.(clock := node.clock + 1)
  {
  }

  /** An ambushed attempt loses exactly its first send. */
  lemma AmbushedAttempt(w: Wording, run: Run<Node>, line: seq<Owner>, attempt: nat)
    requires Understood(w) && Holds(run.world, line, {}) && run.outstanding != []
    requires Ambush(run.world, |run.outstanding|) && Left(run.world, line) > 0
    ensures
      var (run', stop) := Attempt(ReplacingEnv(w), run, attempt);
      && stop.None? && |run'.outstanding| == 1 && run.trace <= run'.trace
      && var line' := Laid(line, |run.world.ledger|, Settled(run, run'));
      && Holds(run'.world, line', {}) && Left(run'.world, line') >= Left(run.world, line) - |run.outstanding|
      && run'.world.clock == run.world.clock + 1 + |run.outstanding| && run'.world.mining == run.world.mining
  {
    hide *;
    QuietTickHolds(run.world, line, |run.outstanding|);
    var now, o := Tick(run.world), run.outstanding;
    AttemptOver(w, run, line, attempt);
    AmbushOutcome(w, now, line, attempt, |now.ledger|, o);
    var (world, sent) := SendAll(ReplacingEnv(w), now, attempt, |now.ledger|, o);
    var (world', settled) := WaitAll(ReplacingEnv(w), world, sent);
    AttemptIs(w, run, attempt, world, sent, world', settled);
    OneTaken(settled);
    AmbushAdvance(run, Attempt(ReplacingEnv(w), run, attempt).0, Attempt(ReplacingEnv(w), run, attempt).1, line,
                  |now.ledger|, attempt);
  }

  lemma AmbushAdvance(run: Run<Node>, run': Run<Node>, stop: Option<Outcome>, line: seq<Owner>, m: nat, attempt: nat)
    requires Advances(run, run', stop, line, m, attempt) && m == |run.world.ledger|
    requires |run'.world.ledger| <= m + |run.outstanding|
    ensures run.trace <= run'.trace
    ensures var line' := Laid(line, m, Settled(run, run'));
      Holds(run'.world, line', {}) && Left(run'.world, line') >= Left(run.world, line) - |run.outstanding|
  {
    hide Holds;
    assert |Laid(line, m, Settled(run, run'))| >= |line|;
  }

  lemma QuietTickHolds(node: Node, line: seq<Owner>, sends: nat)
    requires Ambush(node, sends) && Holds(node, line, {}) && Left(node, line) > 0 && sends > 0
    ensures var now := Tick(node);
      && now == node.(clock := node.clock + 1) && Holds(now, line, {}) && |now.ledger| in now.pool
      && now.mining(now.clock) == 1 && (forall i :: now.clock < i < now.clock + sends ==> now.mining(i) == 0)
      && |now.ledger| == |node.ledger| && now.mining == node.mining && now.clock == node.clock + 1
      && |now.ledger| < |line|
  {
    QuietTick(node);
  }

  /** Sends and waits of an ambushed attempt. */
  lemma AmbushOutcome(w: Wording, now: Node, line: seq<Owner>, attempt: nat, nonce: nat, o: seq<nat>)
    requires Understood(w) && Holds(now, line, {}) && nonce == |now.ledger| < |line| && nonce in now.pool && o != []
    requires now.mining(now.clock) == 1 && forall i :: now.clock < i < now.clock + |o| ==> now.mining(i) == 0
    ensures
      var (world, sent) := SendAll(ReplacingEnv(w), now, attempt, nonce, o);
      var (world', settled) := WaitAll(ReplacingEnv(w), world, sent);
      && FirstError(sent).None? && FirstError(settled).None?
      && |settled| == |o| && (forall k :: 0 <= k < |o| ==> settled[k].index == o[k])
      && settled[0].fate.Taken? && (forall k :: 0 < k < |o| ==> settled[k].fate.Confirmed?)
      && |world'.ledger| <= nonce + |o|
      && world'.clock == now.clock + |o| && world'.mining == now.mining
  {
    hide *;
    var order := Arrivals(ReplacingEnv(w), now, |o|);
    EachOnce(order, |o|);
    OrderLength(order, |o|);
    OverParts(w, now, attempt, nonce, o);
    AmbushSends(w, now, nonce, o, order);
    SendsOver(w, now, line, attempt, nonce, o);
    var (world, sent) := SendAll(ReplacingEnv(w), now, attempt, nonce, o);
    LaidStand(line, nonce, sent, attempt, o);
    WaitsOver(w, world, Laid(line, nonce, sent), sent, nonce + |o|);
    var (world', settled) := WaitAll(ReplacingEnv(w), world, sent);
    NoneBroken(sent, line, Pending, |world.ledger|);
    SettledOver(line, nonce, sent, settled, attempt, o, |world.ledger|);
    NoneBroken(settled, line, Confirmed, nonce + |o|);
    AmbushFates(w, line, |world.ledger|, attempt, nonce, o, ArrivedOver(w, now, nonce, o, order).1, settled);
  }

  lemma OrderLength(order: seq<nat>, n: nat)
    requires IsOrder(order, n)
    ensures |order| == n
  {
    BoundedNoDup(order, n);
    InTurnIsOrder(n);
    SubsetLength(InTurn(n), order);
  }

  /** A repetition-free sequence within another is no longer. */
  lemma {:induction false} SubsetLength(a: seq<nat>, b: seq<nat>)
    requires NoDup(a) && forall x :: x in a ==> x in b
    ensures |a| <= |b|
  {
    if a == [] {
    } else {
      var n := |a| - 1;
      assert a[n] in b;
      var i :| 0 <= i < |b| && b[i] == a[n];
      var rest := b[..i] + b[i + 1..];
      forall x | x in a[..n] ensures x in rest {
        assert x in a && x in b;
        var j :| 0 <= j < |b| && b[j] == x;
        assert j != i;
        assert if j < i then rest[j] == x else rest[j - 1] == x;
      }
      SubsetLength(a[..n], rest);
    }
  }

  lemma AmbushFates(w: Wording, line: seq<Owner>, mined: nat, attempt: nat, nonce: nat, o: seq<nat>,
                    answers: map<nat, Sent>, settled: seq<Record>)
    requires Understood(w) && o != [] && forall k :: 0 <= k < |o| ==> k in answers
    requires forall p :: p in answers ==> (answers[p].Accepted? <==> p > 0)
    requires AllConfirmed(Records(attempt, nonce, o, answers), settled)
    requires Mixed(Records(attempt, nonce, o, answers), line, Pending, mined)
    ensures |settled| == |o| && forall k :: 0 <= k < |o| ==> settled[k].index == o[k]
    ensures settled[0].fate.Taken? && forall k :: 0 < k < |o| ==> settled[k].fate.Confirmed?
  {
    hide IsNonceCollision;
  }

  /** What the attempt makes of its sends and waits. */
  lemma AttemptIs(w: Wording, run: Run<Node>, attempt: nat, world: Node, sent: seq<Record>, world': Node,
                  settled: seq<Record>)
    requires
      var now := Tick(run.world);
      && (world, sent) == SendAll(ReplacingEnv(w), now, attempt, |now.ledger|, run.outstanding)
      && (world', settled) == WaitAll(ReplacingEnv(w), world, sent)
      && FirstError(sent).None? && FirstError(settled).None?
    ensures
      var (run', stop) := Attempt(ReplacingEnv(w), run, attempt);
      && run'.world == world' && run'.trace == run.trace + settled && run'.outstanding == Collided(settled)
      && (stop.None? <==> Collided(settled) != [])
  {
    hide SendAll, WaitAll, Collided, FirstError, Tick, Stamp;
  }

  lemma {:induction false} OneTaken(settled: seq<Record>)
    requires settled != [] && settled[0].fate.Taken? && forall k :: 0 < k < |settled| ==> settled[k].fate.Confirmed?
    ensures |Collided(settled)| == 1
  {
    FilterNone(settled, IsReplaced());
    OnlyFirstTaken(settled);
  }

  lemma {:induction false} OnlyFirstTaken(settled: seq<Record>)
    requires settled != [] && settled[0].fate.Taken? && forall k :: 0 < k < |settled| ==> settled[k].fate.Confirmed?
    ensures |Filter(settled, IsTaken())| == 1
  {
    var n := |settled| - 1;
    if n == 0 {
      assert settled[..0] == [] && Filter(settled[..0], IsTaken()) == [];
    } else {
      OnlyFirstTaken(settled[..n]);
    }
  }

  lemma ExhaustsAtOnce<S>(env: Env<S>, run: Run<S>, attempt: nat, maxAttempts: nat)
    requires attempt <= maxAttempts && Attempt(env, run, attempt).1.None?
    ensures Attempts(env, run, attempt, maxAttempts)
      == Attempts(env, Attempt(env, run, attempt).0, attempt + 1, maxAttempts)
  {
    hide Attempt;
  }

  /** From the second attempt on a single send is outstanding, and a predecessor an attempt defeats it. */
  lemma {:induction false} AmbushedRuns(w: Wording, run: Run<Node>, line: seq<Owner>, count: nat, attempt: nat,
                                        maxAttempts: nat)
    requires Understood(w) && Holds(run.world, line, {}) && |run.outstanding| == 1 && attempt <= maxAttempts + 1
    requires run.world.mining == Adversary(count) && run.world.clock > count > 0 && (run.world.clock - count) % 2 == 1
    requires attempt <= maxAttempts ==> Left(run.world, line) >= maxAttempts + 1 - attempt
    ensures Attempts(ReplacingEnv(w), run, attempt, maxAttempts).1.Exhausted?
    decreases maxAttempts + 1 - attempt
  {
    hide Attempt, Holds, Laid, Understood;
    if attempt > maxAttempts {
    } else {
      AmbushedAttempt(w, run, line, attempt);
      var run' := Attempt(ReplacingEnv(w), run, attempt).0;
      ExhaustsAtOnce(ReplacingEnv(w), run, attempt, maxAttempts);
      AmbushedRuns(w, run', Laid(line, |run.world.ledger|, Settled(run, run')), count, attempt + 1, maxAttempts);
    }
  }

  lemma AmbushedFromStart(w: Wording, run: Run<Node>, line: seq<Owner>, maxAttempts: nat)
    requires Understood(w) && Holds(run.world, line, {}) && run.outstanding != [] && maxAttempts >= 1
    requires run.world.mining == Adversary(|run.outstanding|) && run.world.clock == 0
    requires !Enough(Left(run.world, line), |run.outstanding|, maxAttempts)
    ensures Attempts(ReplacingEnv(w), run, 1, maxAttempts).1.Exhausted?
  {
    hide Attempt, Holds, Laid, Understood;
    AmbushedAttempt(w, run, line, 1);
    var run' := Attempt(ReplacingEnv(w), run, 1).0;
    ExhaustsAtOnce(ReplacingEnv(w), run, 1, maxAttempts);
    AmbushedRuns(w, run', Laid(line, |run.world.ledger|, Settled(run, run')), |run.outstanding|, 2, maxAttempts);
  }

  function ResultOver(w: Wording, ledger: seq<Owner>, g: nat, mining: nat -> nat, arrival: nat -> seq<nat>,
                      count: nat, maxAttempts: nat): (Run<Node>, Outcome)
  {
    Attempts(ReplacingEnv(w), Start(InFlight(ledger, g, mining, arrival), count), 1, maxAttempts)
  }

  /** The exact condition, for any arrival orders: the protocol returns whatever the node's mining
      schedule iff it sends nothing, or has a single attempt and nothing is in flight, or has at least
      two and at most `count + maxAttempts - 2` predecessors are in flight. */
  lemma ReturnsIff(w: Wording, ledger: seq<Owner>, g: nat, arrival: nat -> seq<nat>, count: nat, maxAttempts: nat)
    requires Understood(w) && maxAttempts >= 1
    ensures (forall mining :: ResultOver(w, ledger, g, mining, arrival, count, maxAttempts).1.Returned?)
       <==> Enough(g, count, maxAttempts)
  {
    hide Attempts, Holds, Understood;
    forall mining | Enough(g, count, maxAttempts)
      ensures ResultOver(w, ledger, g, mining, arrival, count, maxAttempts).1.Returned? {
      InFlightHolds(ledger, g, mining, arrival);
      EnoughReturns(w, Start(InFlight(ledger, g, mining, arrival), count), ledger + Repeat(g), 1, maxAttempts);
    }
    if !Enough(g, count, maxAttempts) {
      InFlightHolds(ledger, g, Adversary(count), arrival);
      AmbushedFromStart(w, Start(InFlight(ledger, g, Adversary(count), arrival), count), ledger + Repeat(g),
        maxAttempts);
      assert !ResultOver(w, ledger, g, Adversary(count), arrival, count, maxAttempts).1.Returned?;
    }
  }

  // ---- Which predecessors are lost ----

  ghost predicate ConfirmedAt(trace: seq<Record>, n: nat) {
    exists k :: 0 <= k < |trace| && trace[k].nonce == n && trace[k].fate.Confirmed?
  }

  /** The line is the old one with the confirmed sends laid over it. */
  ghost predicate Overlaid(start: seq<Owner>, line: seq<Owner>, trace: seq<Record>) {
    && |start| <= |line|
    && (forall k :: 0 <= k < |trace| && trace[k].fate.Confirmed? ==>
          trace[k].nonce < |line| && line[trace[k].nonce] == Ours(trace[k].index))
    && (forall n :: 0 <= n < |line| ==> ConfirmedAt(trace, n) || (n < |start| && line[n] == start[n]))
  }

  ghost predicate Between(trace: seq<Record>, from: nat, mined: nat) {
    from <= mined && forall k :: 0 <= k < |trace| ==> from <= trace[k].nonce < mined
  }

  lemma OverlaidNext(start: seq<Owner>, from: nat, run: Run<Node>, run': Run<Node>, stop: Option<Outcome>,
                     line: seq<Owner>, m: nat, attempt: nat)
    requires Advances(run, run', stop, line, m, attempt)
    requires Overlaid(start, line, run.trace) && Between(run.trace, from, |run.world.ledger|)
    ensures Overlaid(start, Laid(line, m, Settled(run, run')), run'.trace)
      && Between(run'.trace, from, |run'.world.ledger|)
  {
    hide Holds, Overlaid, Laid, Mixed, Aligned, Between;
    var settled := Settled(run, run');
    assert run'.trace == run.trace + settled;
    StillBelow(run.trace, from, |run.world.ledger|, m);
    LaidOver(start, from, line, m, attempt, run.outstanding, run.trace, settled);
    NewBetween(run.trace, settled, from, m, attempt, run.outstanding, |run'.world.ledger|);
  }

  lemma StillBelow(trace: seq<Record>, from: nat, mined: nat, more: nat)
    requires Between(trace, from, mined) && mined <= more
    ensures Between(trace, from, more)
  {
  }

  lemma NewBetween(trace: seq<Record>, settled: seq<Record>, from: nat, m: nat, attempt: nat, o: seq<nat>, mined: nat)
    requires Between(trace, from, m) && Aligned(settled, attempt, m, o) && m + |o| <= mined
    ensures Between(trace + settled, from, mined)
  {
  }

  lemma LaidOver(start: seq<Owner>, from: nat, line: seq<Owner>, m: nat, attempt: nat, o: seq<nat>, trace: seq<Record>,
                 settled: seq<Record>)
    requires Overlaid(start, line, trace) && Between(trace, from, m) && m <= |line|
    requires Aligned(settled, attempt, m, o) && Mixed(settled, line, Confirmed, m + |o|)
    ensures Overlaid(start, Laid(line, m, settled), trace + settled)
  {
    var laid, all := Laid(line, m, settled), trace + settled;
    forall n | 0 <= n < |laid| ensures ConfirmedAt(all, n) || (n < |start| && laid[n] == start[n]) {
      if m <= n < m + |settled| && settled[n - m].fate.Confirmed? {
        assert all[|trace| + (n - m)] == settled[n - m];
      } else if ConfirmedAt(trace, n) {
        var k :| 0 <= k < |trace| && trace[k].nonce == n && trace[k].fate.Confirmed?;
        assert all[k] == trace[k];
      }
    }
    forall k | 0 <= k < |all| && all[k].fate.Confirmed?
      ensures all[k].nonce < |laid| && laid[all[k].nonce] == Ours(all[k].index) {
      if k >= |trace| {
        assert all[k] == settled[k - |trace|];
      }
    }
  }

  lemma {:induction false} AttemptsOverlay(w: Wording, start: seq<Owner>, from: nat, run: Run<Node>, line: seq<Owner>,
                                           attempt: nat, maxAttempts: nat)
    returns (end: seq<Owner>)
    requires Understood(w) && Holds(run.world, line, {})
    requires Overlaid(start, line, run.trace) && Between(run.trace, from, |run.world.ledger|)
    ensures var run' := Attempts(ReplacingEnv(w), run, attempt, maxAttempts).0;
      Holds(run'.world, end, {}) && Overlaid(start, end, run'.trace) && Between(run'.trace, from, |run'.world.ledger|)
    decreases maxAttempts + 1 - attempt
  {
    hide Attempt, Holds, Laid, Overlaid, Between, Understood;
    if attempt > maxAttempts {
      end := line;
    } else {
      var m := |Tick(run.world).ledger|;
      AttemptOver(w, run, line, attempt);
      var (run', stop) := Attempt(ReplacingEnv(w), run, attempt);
      var line' := Laid(line, m, Settled(run, run'));
      OverlaidNext(start, from, run, run', stop, line, m, attempt);
      AdvancedHolds(run, run', stop, line, m, attempt);
      if stop.Some? {
        end := line';
      } else {
        end := AttemptsOverlay(w, start, from, run', line', attempt + 1, maxAttempts);
      }
    }
  }

  lemma AdvancedHolds(run: Run<Node>, run': Run<Node>, stop: Option<Outcome>, line: seq<Owner>, m: nat, attempt: nat)
    requires Advances(run, run', stop, line, m, attempt)
    ensures run.trace <= run'.trace && Holds(run'.world, Laid(line, m, Settled(run, run')), {})
  {
    hide Holds;
  }

  /** The transactions of this account as they are or will be executed, by nonce: however a run ends, a
      predecessor is lost iff a send of the batch was confirmed at its nonce; no transaction of the
      batch stands twice; and if the protocol returns, each has executed. */
  lemma LostIffReplaced(w: Wording, ledger: seq<Owner>, g: nat, mining: nat -> nat, arrival: nat -> seq<nat>,
                        count: nat, maxAttempts: nat)
    returns (line: seq<Owner>)
    requires Understood(w) && forall n :: 0 <= n < |ledger| ==> ledger[n].Theirs?
    ensures
      var (run, outcome) := ResultOver(w, ledger, g, mining, arrival, count, maxAttempts);
      && Holds(run.world, line, {}) && |ledger| + g <= |line| && ledger <= line
      && (forall n :: |ledger| <= n < |ledger| + g ==> (line[n].Ours? <==> ConfirmedAt(run.trace, n)))
      && (forall n, k :: 0 <= n < k < |line| && line[n].Ours? ==> line[n] != line[k])
      && (outcome.Returned? ==> forall i: nat :: i < count ==> Ours(i) in run.world.ledger)
  {
    hide Attempts, Holds, Understood, Overlaid, Between, Accounted;
    var start, first := Start(InFlight(ledger, g, mining, arrival), count), ledger + Repeat(g);
    InFlightHolds(ledger, g, mining, arrival);
    NothingSent(first, |ledger|, start);
    line := AttemptsOverlay(w, first, |ledger|, start, first, 1, maxAttempts);
    StartIsSound(InFlight(ledger, g, mining, arrival), count);
    AttemptsAreAccounted(ReplacingEnv(w), start, count, 1, maxAttempts);
    var (run, outcome) := ResultOver(w, ledger, g, mining, arrival, count, maxAttempts);
    OverlaidMeans(ledger, first, line, run.trace, |run.world.ledger|);
    OverlaidOnce(first, line, run, outcome, |ledger|, count, maxAttempts);
  }

  lemma NothingSent(first: seq<Owner>, from: nat, start: Run<Node>)
    requires start.trace == [] && from <= |start.world.ledger|
    ensures Overlaid(first, first, start.trace) && Between(start.trace, from, |start.world.ledger|)
  {
  }

  lemma OverlaidMeans(ledger: seq<Owner>, first: seq<Owner>, line: seq<Owner>, trace: seq<Record>, mined: nat)
    requires Overlaid(first, line, trace) && Between(trace, |ledger|, mined)
    requires ledger <= first && forall n :: 0 <= n < |first| ==> first[n].Theirs?
    ensures |first| <= |line| && ledger <= line
    ensures forall n :: 0 <= n < |line| ==> (line[n].Ours? <==> ConfirmedAt(trace, n))
  {
    assert forall n :: 0 <= n < |ledger| ==> ledger[n] == first[n];
  }

  lemma OverlaidOnce(first: seq<Owner>, line: seq<Owner>, run: Run<Node>, outcome: Outcome, from: nat, count: nat,
                     maxAttempts: nat)
    requires Overlaid(first, line, run.trace) && Between(run.trace, from, |run.world.ledger|)
      && Holds(run.world, line, {})
    requires Accounted(run.trace, outcome, count, maxAttempts)
    requires forall n :: 0 <= n < |line| ==> (line[n].Ours? <==> ConfirmedAt(run.trace, n))
    ensures forall n, k :: 0 <= n < k < |line| && line[n].Ours? ==> line[n] != line[k]
    ensures outcome.Returned? ==> forall i: nat :: i < count ==> Ours(i) in run.world.ledger
  {
    var trace := run.trace;
    forall n, k | 0 <= n < k < |line| && line[n].Ours? && line[n] == line[k] ensures false {
      var a :| 0 <= a < |trace| && trace[a].nonce == n && trace[a].fate.Confirmed?;
      var b :| 0 <= b < |trace| && trace[b].nonce == k && trace[b].fate.Confirmed?;
      TwoConfirmed(trace, a, b);
    }
    if outcome.Returned? {
      forall i: nat | i < count ensures Ours(i) in run.world.ledger {
        var rc := outcome.receipts[i].value;
        var k :| 0 <= k < |trace| && trace[k] == Record(rc.attempt, rc.nonce, i, Confirmed);
        assert run.world.ledger[rc.nonce] == line[rc.nonce] == Ours(i);
      }
    }
  }

  lemma TwoConfirmed(trace: seq<Record>, a: nat, b: nat)
    requires NoResend(trace) && a < |trace| && b < |trace|
    requires trace[a].fate.Confirmed? && trace[b].fate.Confirmed? && trace[a].index == trace[b].index
    ensures a == b
  {
  }
}
