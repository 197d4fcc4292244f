/** Sending a batch under allocated nonces: read the next nonce, send in parallel, resend what the
    chain rejects as already taken. The node is any reactive environment: a state, three answers, and
    the order in which the sends of an attempt reach it. */
module NonceProtocol {
  import opened Wrappers
  import opened Seqs

  // ---- Rejections ----

  /** The places where a node's message may surface; an absent one is the empty string. */
  datatype RpcError = RpcError(code: string, message: string, shortMessage: string, infoMessage: string,
                               infoJson: string)

  function Lower(s: string): (r: string)
    ensures |r| == |s|
  {
    if s == [] then [] else
    Lower(s[..|s| - 1]) + [if 'A' <= s[|s| - 1] <= 'Z' then s[|s| - 1] - 'A' + 'a' else s[|s| - 1]]
  }

  const COLLISION_TEXTS := ["nonce_expired", "nonce too low", "nonce has already been used",
                            "replacement transaction underpriced"]

  predicate IsNonceCollision(e: RpcError) {
    var haystack := Lower(e.code + " " + e.message + " " + e.shortMessage + " " + e.infoMessage + " " + e.infoJson);
    exists i :: 0 <= i < |COLLISION_TEXTS| && Contains(haystack, COLLISION_TEXTS[i])
  }

  lemma {:induction false} LowerAppend(a: string, b: string)
    ensures Lower(a + b) == Lower(a) + Lower(b)
  {
    if b == [] {
      assert a + b == a;
    } else {
      assert (a + b)[..|a + b| - 1] == a + b[..|b| - 1];
      LowerAppend(a, b[..|b| - 1]);
    }
  }

  lemma ContainsInside(pre: string, s: string, post: string, part: string)
    requires Contains(s, part)
    ensures Contains(pre + s + post, part)
  {
    var i :| 0 <= i <= |s| && part <= s[i..];
    assert (pre + s + post)[|pre| + i..] == s[i..] + post;
  }

  /** A collision is recognised in whichever field the node put its message, in any letter case. */
  lemma CollisionInAnyField(e: RpcError, field: string, i: nat)
    requires field in [e.code, e.message, e.shortMessage, e.infoMessage, e.infoJson]
    requires i < |COLLISION_TEXTS| && Contains(Lower(field), COLLISION_TEXTS[i])
    ensures IsNonceCollision(e)
  {
    hide Lower, Contains;
    var pre, post := FieldInside(e, field);
    ContainsLower(pre, field, post, COLLISION_TEXTS[i]);
  }

  lemma FieldInside(e: RpcError, field: string) returns (pre: string, post: string)
    requires field in [e.code, e.message, e.shortMessage, e.infoMessage, e.infoJson]
    ensures e.code + " " + e.message + " " + e.shortMessage + " " + e.infoMessage + " " + e.infoJson
      == pre + field + post
  {
    hide *;
    var a, b, c, d, f := e.code, e.message, e.shortMessage, e.infoMessage, e.infoJson;
    var two, three, four := a + " " + b, a + " " + b + " " + c, a + " " + b + " " + c + " " + d;
    if field == a {
      pre, post := "", " " + b + (" " + c) + (" " + d) + (" " + f);
      Regroup(a, " " + b, " " + c, " " + d, " " + f);
    } else if field == b {
      pre, post := a + " ", " " + c + (" " + d) + (" " + f) + "";
      Regroup(two, " " + c, " " + d, " " + f, "");
    } else if field == c {
      pre, post := two + " ", " " + d + (" " + f) + "" + "";
      Regroup(three, " " + d, " " + f, "", "");
    } else if field == d {
      pre, post := three + " ", " " + f + "" + "" + "";
      Regroup(four, " " + f, "", "", "");
    } else {
      pre, post := four + " ", "";
    }
    Spaced(a, b, c, d, f);
  }

  lemma Regroup(x: string, p: string, q: string, r: string, s: string)
    ensures x + p + q + r + s == x + (p + q + r + s)
  {
  }

  lemma Spaced(a: string, b: string, c: string, d: string, f: string)
    ensures a + " " + b + " " + c + " " + d + " " + f == a + (" " + b) + (" " + c) + (" " + d) + (" " + f)
    ensures a + " " + b + " " + c + " " + d + " " + f == a + " " + b + (" " + c) + (" " + d) + (" " + f) + ""
    ensures a + " " + b + " " + c + " " + d + " " + f == a + " " + b + " " + c + (" " + d) + (" " + f) + "" + ""
    ensures a + " " + b + " " + c + " " + d + " " + f == a + " " + b + " " + c + " " + d + (" " + f) + "" + "" + ""
  {
  }

  lemma ContainsLower(pre: string, s: string, post: string, part: string)
    requires Contains(Lower(s), part)
    ensures Contains(Lower(pre + s + post), part)
  {
    LowerAppend(pre + s, post);
    LowerAppend(pre, s);
    ContainsInside(Lower(pre), Lower(s), Lower(post), part);
  }

  // ---- The environment and the run ----

  datatype Sent = Accepted | Rejected(error: RpcError)

  datatype Waited = Mined | WaitRejected(error: RpcError)

  /** `send` and `wait` are given the nonce and the index of the transaction. The sends of an attempt
      leave together; `order` lists their positions as they reach the node. */
  datatype Env<!S> = Env(read: S -> (S, Result<nat, RpcError>), order: S -> seq<nat>,
                         send: (S, nat, nat) -> (S, Sent), wait: (S, nat, nat) -> (S, Waited))

  /** Taken: rejected as a collision when sent. Replaced: accepted, then rejected as a collision
      while waiting. Pending: accepted, and the protocol stopped before it waited. */
  datatype Fate = Pending | Confirmed | Taken | Replaced | Broken(error: RpcError)

  datatype Record = Record(attempt: nat, nonce: nat, index: nat, fate: Fate)

  predicate Lost(r: Record) {
    r.fate.Taken? || r.fate.Replaced?
  }

  datatype Receipt = Receipt(attempt: nat, nonce: nat)

  datatype Run<S> = Run(world: S, receipts: seq<Option<Receipt>>, outstanding: seq<nat>, trace: seq<Record>)

  datatype Outcome =
    | Returned(receipts: seq<Option<Receipt>>)
    | Threw(error: RpcError)
    | Exhausted(outstanding: seq<nat>)

  function SendFate(sent: Sent): Fate {
    if sent.Accepted? then Pending
    else if IsNonceCollision(sent.error) then Taken
    else Broken(sent.error)
  }

  function WaitFate(waited: Waited): Fate {
    if waited.Mined? then Confirmed
    else if IsNonceCollision(waited.error) then Replaced
    else Broken(waited.error)
  }

  predicate IsOrder(order: seq<nat>, n: nat) {
    && (forall i :: 0 <= i < |order| ==> order[i] < n)
    && (forall p :: 0 <= p < n ==> p in order)
    && (forall i, j :: 0 <= i < j < |order| ==> order[i] != order[j])
  }

  function InTurn(n: nat): seq<nat> {
    seq(n, p requires 0 <= p => p)
  }

  lemma InTurnIsOrder(n: nat)
    ensures IsOrder(InTurn(n), n)
  {
    forall p | 0 <= p < n ensures p in InTurn(n) {
      assert InTurn(n)[p] == p;
    }
  }

  /** The positions of n sends as they arrive: any order at all. */
  function Arrivals<S>(env: Env<S>, s: S, n: nat): (order: seq<nat>)
    ensures IsOrder(order, n) && (IsOrder(env.order(s), n) ==> order == env.order(s))
  {
    InTurnIsOrder(n);
    if IsOrder(env.order(s), n) then env.order(s) else InTurn(n)
  }

  /** The node's answers, by position, to the sends that have arrived. */
  function Deliver<S>(env: Env<S>, s: S, nonce: nat, indices: seq<nat>, arrived: seq<nat>): (r: (S, map<nat, Sent>))
    requires forall i :: 0 <= i < |arrived| ==> arrived[i] < |indices|
    ensures forall p :: p in r.1 <==> p in arrived
  {
    if arrived == [] then (s, map[]) else
    var init, p := arrived[..|arrived| - 1], arrived[|arrived| - 1];
    assert arrived == init + [p];
    var (s1, answers) := Deliver(env, s, nonce, indices, init);
    var (s2, sent) := env.send(s1, nonce + p, indices[p]);
    (s2, answers[p := sent])
  }

  function Records(attempt: nat, nonce: nat, indices: seq<nat>, answers: map<nat, Sent>): seq<Record>
    requires forall k :: 0 <= k < |indices| ==> k in answers
  {
    seq(|indices|, k requires 0 <= k < |indices| => Record(attempt, nonce + k, indices[k], SendFate(answers[k])))
  }

  function SendAll<S>(env: Env<S>, s: S, attempt: nat, nonce: nat, indices: seq<nat>): (S, seq<Record>) {
    var (s', answers) := Deliver(env, s, nonce, indices, Arrivals(env, s, |indices|));
    (s', Records(attempt, nonce, indices, answers))
  }

  /** Waits for the accepted transactions, in order. */
  function WaitAll<S>(env: Env<S>, s: S, records: seq<Record>): (S, seq<Record>) {
    if records == [] then (s, []) else
    var k := |records| - 1;
    var (s1, settled) := WaitAll(env, s, records[..k]);
    if records[k].fate.Pending? then
      var (s2, waited) := env.wait(s1, records[k].nonce, records[k].index);
      (s2, settled + [records[k].(fate := WaitFate(waited))])
    else
      (s1, settled + [records[k]])
  }

  function FirstError(records: seq<Record>): Option<RpcError> {
    if records == [] then None
    else if records[0].fate.Broken? then Some(records[0].fate.error)
    else FirstError(records[1..])
  }

  function IndicesOf(records: seq<Record>, p: Record -> bool): seq<nat> {
    Map(Filter(records, p), Index())
  }

  function Index(): Record -> nat { (r: Record) => r.index }

  function IsTaken(): Record -> bool { (r: Record) => r.fate.Taken? }

  function IsReplaced(): Record -> bool { (r: Record) => r.fate.Replaced? }

  /** Collisions when sending come first, collisions when waiting after them. */
  function Collided(records: seq<Record>): seq<nat> {
    IndicesOf(records, IsTaken()) + IndicesOf(records, IsReplaced())
  }

  function Stamp(receipts: seq<Option<Receipt>>, records: seq<Record>): (r: seq<Option<Receipt>>)
    ensures |r| == |receipts|
  {
    if records == [] then receipts else
    var before, last := Stamp(receipts, records[..|records| - 1]), records[|records| - 1];
    if last.fate.Confirmed? && last.index < |before| then
      before[last.index := Some(Receipt(last.attempt, last.nonce))]
    else before
  }

  /** One attempt; the outcome is None when the next attempt is due. */
  function Attempt<S>(env: Env<S>, run: Run<S>, attempt: nat): (Run<S>, Option<Outcome>) {
    var (s0, read) := env.read(run.world);
    if read.Failure? then (run.(world := s0), Some(Threw(read.error))) else
    var (s1, sent) := SendAll(env, s0, attempt, read.value, run.outstanding);
    if FirstError(sent).Some? then
      (run.(world := s1, trace := run.trace + sent), Some(Threw(FirstError(sent).value)))
    else
      var (s2, settled) := WaitAll(env, s1, sent);
      var run' := Run(s2, Stamp(run.receipts, settled), Collided(settled), run.trace + settled);
      if FirstError(settled).Some? then (run', Some(Threw(FirstError(settled).value)))
      else if Collided(settled) == [] then (run', Some(Returned(run'.receipts)))
      else (run', None)
  }

  function Attempts<S>(env: Env<S>, run: Run<S>, attempt: nat, maxAttempts: nat): (Run<S>, Outcome)
    decreases maxAttempts + 1 - attempt
  {
    if attempt > maxAttempts then (run, Exhausted(run.outstanding)) else
    var (run', stop) := Attempt(env, run, attempt);
    if stop.Some? then (run', stop.value) else Attempts(env, run', attempt + 1, maxAttempts)
  }

  function Start<S>(s: S, count: nat): Run<S> {
    Run(s, seq(count, _ => None), InTurn(count), [])
  }

  method SendBatch<S>(env: Env<S>, s: S, attempt: nat, nonce: nat, indices: seq<nat>)
    returns (world: S, sent: seq<Record>)
    ensures (world, sent) == SendAll(env, s, attempt, nonce, indices)
  {
    var order := Arrivals(env, s, |indices|);
    var answers: map<nat, Sent> := map[];
    world := s;
    for a := 0 to |order|
      invariant (world, answers) == Deliver(env, s, nonce, indices, order[..a])
    {
      assert order[..a + 1][..a] == order[..a];
      var (next, answer) := env.send(world, nonce + order[a], indices[order[a]]);
      world, answers := next, answers[order[a] := answer];
    }
    assert order[..|order|] == order;
    sent := Records(attempt, nonce, indices, answers);
  }

  method WaitBatch<S>(env: Env<S>, s: S, sent: seq<Record>) returns (world: S, settled: seq<Record>)
    ensures (world, settled) == WaitAll(env, s, sent)
  {
    world, settled := s, [];
    for k := 0 to |sent|
      invariant (world, settled) == WaitAll(env, s, sent[..k])
    {
      assert sent[..k + 1][..k] == sent[..k];
      if sent[k].fate.Pending? {
        var (next, answer) := env.wait(world, sent[k].nonce, sent[k].index);
        world, settled := next, settled + [sent[k].(fate := WaitFate(answer))];
      } else {
        settled := settled + [sent[k]];
      }
    }
    assert sent[..|sent|] == sent;
  }

  method SendWithAllocatedNonces<S>(env: Env<S>, s: S, count: nat, maxAttempts: nat)
    returns (run: Run<S>, outcome: Outcome)
    ensures (run, outcome) == Attempts(env, Start(s, count), 1, maxAttempts)
    ensures Accounted(run.trace, outcome, count, maxAttempts)
  {
    run := Start(s, count);
    StartIsSound(s, count);
    AttemptsAreAccounted(env, run, count, 1, maxAttempts);
    for attempt := 1 to maxAttempts + 1
      invariant Attempts(env, run, attempt, maxAttempts) == Attempts(env, Start(s, count), 1, maxAttempts)
    {
      var (afterRead, read) := env.read(run.world);
      if read.Failure? {
        return run.(world := afterRead), Threw(read.error);
      }
      var afterSends, sent := SendBatch(env, afterRead, attempt, read.value, run.outstanding);
      if FirstError(sent).Some? {
        return run.(world := afterSends, trace := run.trace + sent), Threw(FirstError(sent).value);
      }
      var afterWaits, settled := WaitBatch(env, afterSends, sent);
      run := Run(afterWaits, Stamp(run.receipts, settled), Collided(settled), run.trace + settled);
      if FirstError(settled).Some? {
        return run, Threw(FirstError(settled).value);
      }
      if |run.outstanding| == 0 {
        return run, Returned(run.receipts);
      }
    }
    return run, Exhausted(run.outstanding);
  }

  // ---- Accounting over all runs ----

  ghost predicate NoResend(trace: seq<Record>) {
    forall p, q :: 0 <= p < q < |trace| && trace[p].index == trace[q].index ==> Lost(trace[p])
  }

  ghost predicate Consecutive(trace: seq<Record>) {
    forall p :: 0 <= p < |trace| - 1 && trace[p].attempt == trace[p + 1].attempt ==>
      trace[p + 1].nonce == trace[p].nonce + 1
  }

  /** At most `count` sends an attempt, none for an index that holds a receipt, consecutive nonces. */
  ghost predicate Booked(trace: seq<Record>, count: nat, attempts: nat) {
    && |trace| <= attempts * count
    && (forall r :: r in trace ==> r.index < count && 1 <= r.attempt <= attempts)
    && NoResend(trace) && Consecutive(trace)
  }

  ghost predicate ConfirmedBy(trace: seq<Record>, index: nat, receipt: Receipt) {
    Record(receipt.attempt, receipt.nonce, index, Confirmed) in trace
  }

  /** The accounting every run keeps, however it ends; what makes a run throw is told by `NonceCalls`. */
  ghost predicate Accounted(trace: seq<Record>, outcome: Outcome, count: nat, maxAttempts: nat) {
    && Booked(trace, count, maxAttempts)
    && match outcome
       case Returned(receipts) =>
         && |receipts| == count
         && (forall r :: r in trace ==> Lost(r) || r.fate.Confirmed?)
         && forall i :: 0 <= i < count ==> receipts[i].Some? && ConfirmedBy(trace, i, receipts[i].value)
       case Exhausted(outstanding) =>
         && NoDup(outstanding) && (maxAttempts > 0 ==> outstanding != [])
         && (forall r :: r in trace ==> Lost(r) || r.fate.Confirmed?)
         && forall i :: 0 <= i < count ==> (i in outstanding <==> forall r :: r in trace && r.index == i ==> Lost(r))
       case Threw(_) => true
  }

  /** What holds at every attempt boundary: receipts and outstanding indices partition the batch. */
  ghost predicate Sound<S>(run: Run<S>, count: nat, attempts: nat) {
    && |run.receipts| == count
    && NoDup(run.outstanding)
    && (forall i :: i in run.outstanding <==> 0 <= i < count && run.receipts[i].None?)
    && (forall i :: 0 <= i < count && run.receipts[i].Some? ==> ConfirmedBy(run.trace, i, run.receipts[i].value))
    && Booked(run.trace, count, attempts)
    && (forall r :: r in run.trace ==> Lost(r) || (r.fate.Confirmed? && run.receipts[r.index].Some?))
  }

  lemma StartIsSound<S>(s: S, count: nat)
    ensures Sound(Start(s, count), count, 0)
  {
    InTurnIsOrder(count);
  }

  /** The records of an attempt: one per outstanding index, in order, on consecutive nonces. */
  ghost predicate Aligned(records: seq<Record>, attempt: nat, nonce: nat, indices: seq<nat>) {
    |records| == |indices| && forall k :: 0 <= k < |indices| ==>
      records[k].attempt == attempt && records[k].nonce == nonce + k && records[k].index == indices[k]
  }

  lemma SendAllAligned<S>(env: Env<S>, s: S, attempt: nat, nonce: nat, indices: seq<nat>)
    ensures Aligned(SendAll(env, s, attempt, nonce, indices).1, attempt, nonce, indices)
  {
  }

  lemma {:induction false} WaitAllAligned<S>(env: Env<S>, s: S, records: seq<Record>, attempt: nat, nonce: nat,
                                             indices: seq<nat>)
    requires Aligned(records, attempt, nonce, indices)
    ensures Aligned(WaitAll(env, s, records).1, attempt, nonce, indices)
    ensures forall r :: r in WaitAll(env, s, records).1 ==> !r.fate.Pending?
  {
    if records == [] {
    } else {
      WaitAllAligned(env, s, records[..|records| - 1], attempt, nonce, indices[..|indices| - 1]);
    }
  }

  lemma {:induction false} FirstErrorNone(records: seq<Record>)
    ensures FirstError(records).None? <==> forall r :: r in records ==> !r.fate.Broken?
  {
    if records == [] {
    } else {
      FirstErrorNone(records[1..]);
      assert records == [records[0]] + records[1..];
    }
  }

  /** The error that is raised is the first one in the order of the records. */
  lemma {:induction false} FirstErrorIs(records: seq<Record>) returns (k: nat)
    requires FirstError(records).Some?
    ensures k < |records| && records[k].fate == Broken(FirstError(records).value)
    ensures forall j :: 0 <= j < k ==> !records[j].fate.Broken?
    decreases |records|
  {
    if records[0].fate.Broken? {
      k := 0;
    } else {
      var j := FirstErrorIs(records[1..]);
      k := j + 1;
      assert forall i :: 0 < i < k ==> records[i] == records[1..][i - 1];
    }
  }

  lemma {:induction false} StampMeaning(receipts: seq<Option<Receipt>>, records: seq<Record>, attempt: nat, nonce: nat,
                                        indices: seq<nat>)
    requires Aligned(records, attempt, nonce, indices) && NoDup(indices)
    requires forall k :: 0 <= k < |indices| ==> indices[k] < |receipts| && receipts[indices[k]].None?
    ensures forall i :: 0 <= i < |receipts| && i !in indices ==> Stamp(receipts, records)[i] == receipts[i]
    ensures forall k :: 0 <= k < |indices| ==>
      Stamp(receipts, records)[indices[k]] ==
        if records[k].fate.Confirmed? then Some(Receipt(attempt, nonce + k)) else None
  {
    if records == [] {
    } else {
      var n := |records| - 1;
      assert indices == indices[..n] + [indices[n]];
      StampMeaning(receipts, records[..n], attempt, nonce, indices[..n]);
    }
  }

  ghost predicate DistinctIndices(records: seq<Record>) {
    forall j, k :: 0 <= j < k < |records| ==> records[j].index != records[k].index
  }

  ghost predicate Picks(records: seq<Record>, p: Record -> bool, i: nat) {
    exists r :: r in records && p(r) && r.index == i
  }

  lemma CollidedMeaning(records: seq<Record>)
    requires DistinctIndices(records)
    ensures NoDup(Collided(records))
    ensures forall i :: i in Collided(records) <==> exists r :: r in records && Lost(r) && r.index == i
  {
    var a, b := IndicesOf(records, IsTaken()), IndicesOf(records, IsReplaced());
    IndicesMeaning(records, IsTaken());
    IndicesMeaning(records, IsReplaced());
    assert forall r, s :: r in records && s in records && r.index == s.index ==> r == s;
    assert forall i :: !(Picks(records, IsTaken(), i) && Picks(records, IsReplaced(), i));
    ConcatNoDup(a, b);
    assert forall i :: i in a + b <==> i in a || i in b;
    assert forall r :: IsTaken()(r) || IsReplaced()(r) <==> Lost(r);
  }

  lemma ConcatNoDup(a: seq<nat>, b: seq<nat>)
    requires NoDup(a) && NoDup(b) && forall i :: !(i in a && i in b)
    ensures NoDup(a + b)
  {
    forall i, j | 0 <= i < j < |a + b| ensures (a + b)[i] != (a + b)[j] {
      if i < |a| <= j {
        assert a[i] in a && b[j - |a|] in b;
      }
    }
  }

  lemma {:induction false} IndicesMeaning(records: seq<Record>, p: Record -> bool)
    requires DistinctIndices(records)
    ensures NoDup(IndicesOf(records, p))
    ensures forall i :: i in IndicesOf(records, p) <==> Picks(records, p, i)
  {
    if records == [] {
    } else {
      var init, last := records[..|records| - 1], records[|records| - 1];
      assert records == init + [last];
      IndicesMeaning(init, p);
      LastPicked(init, last, p);
      assert !Picks(init, p, last.index);
      forall i ensures Picks(records, p, i) <==> Picks(init, p, i) || (p(last) && last.index == i) {
      }
    }
  }

  lemma LastPicked(init: seq<Record>, last: Record, p: Record -> bool)
    ensures IndicesOf(init + [last], p) == IndicesOf(init, p) + if p(last) then [last.index] else []
  {
    FilterPush(init, last, p);
    if p(last) {
      MapPush(Filter(init, p), last, Index());
    }
  }

  lemma {:induction false} BoundedNoDup(s: seq<nat>, count: nat)
    requires NoDup(s) && forall i :: 0 <= i < |s| ==> s[i] < count
    ensures |s| <= count
    decreases count
  {
    assert |s| > 0 ==> s[0] < count;
    if i :| 0 <= i < |s| && s[i] == count - 1 {
      BoundedNoDup(s[..i] + s[i + 1..], count - 1);
    } else if count > 0 {
      BoundedNoDup(s, count - 1);
    }
  }

  /** An attempt's records extend the trace without breaking its bookkeeping. */
  lemma TraceGrows<S>(run: Run<S>, count: nat, attempt: nat, records: seq<Record>, nonce: nat)
    requires attempt >= 1 && Sound(run, count, attempt - 1)
    requires Aligned(records, attempt, nonce, run.outstanding)
    ensures Booked(run.trace + records, count, attempt)
  {
    var t, n := run.trace + records, |run.trace|;
    assert forall k :: 0 <= k < |run.outstanding| ==> run.outstanding[k] in run.outstanding;
    BoundedNoDup(run.outstanding, count);
    forall p, q | 0 <= p < q < |t| && t[p].index == t[q].index ensures Lost(t[p]) {
      if q >= n {
        assert run.outstanding[q - n] in run.outstanding;
        if p < n {
          assert run.trace[p] in run.trace;
        }
      }
    }
    forall p | 0 <= p < |t| - 1 && t[p].attempt == t[p + 1].attempt ensures t[p + 1].nonce == t[p].nonce + 1 {
      if p < n {
        assert run.trace[p] in run.trace;
      }
    }
    forall r | r in t ensures r.index < count && 1 <= r.attempt <= attempt {
      if r !in run.trace {
        var k :| 0 <= k < |records| && records[k] == r;
        assert run.outstanding[k] in run.outstanding;
      }
    }
  }

  /** What an attempt leaves behind, according to how it stops. */
  ghost predicate Kept<S>(run': Run<S>, stop: Option<Outcome>, count: nat, attempt: nat) {
    && Booked(run'.trace, count, attempt)
    && (stop.None? ==> run'.outstanding != [])
    && (stop.None? || stop.value.Returned? ==> Sound(run', count, attempt))
    && (stop.Some? && stop.value.Returned? ==> run'.outstanding == [] && stop.value.receipts == run'.receipts)
    && (stop.Some? ==> !stop.value.Exhausted?)
  }

  lemma AttemptKeepsSound<S>(env: Env<S>, run: Run<S>, count: nat, attempt: nat)
    requires attempt >= 1 && Sound(run, count, attempt - 1)
    ensures var (run', stop) := Attempt(env, run, attempt); Kept(run', stop, count, attempt)
  {
    var (s0, read) := env.read(run.world);
    if read.Failure? {
      MoreAttempts(run.trace, count, attempt - 1, attempt);
    } else {
      var (s1, sent) := SendAll(env, s0, attempt, read.value, run.outstanding);
      SendAllAligned(env, s0, attempt, read.value, run.outstanding);
      TraceGrows(run, count, attempt, sent, read.value);
      if FirstError(sent).None? {
        var (s2, settled) := WaitAll(env, s1, sent);
        WaitAllAligned(env, s1, sent, attempt, read.value, run.outstanding);
        WaitsKeepSound(run, count, attempt, settled, read.value, s2);
      }
    }
  }

  lemma WaitsKeepSound<S>(run: Run<S>, count: nat, attempt: nat, settled: seq<Record>, nonce: nat, s: S)
    requires attempt >= 1 && Sound(run, count, attempt - 1)
    requires Aligned(settled, attempt, nonce, run.outstanding) && forall r :: r in settled ==> !r.fate.Pending?
    ensures var run' := Run(s, Stamp(run.receipts, settled), Collided(settled), run.trace + settled);
      Kept(run', if FirstError(settled).Some? then Some(Threw(FirstError(settled).value))
                 else if Collided(settled) == [] then Some(Returned(run'.receipts)) else None, count, attempt)
  {
    TraceGrows(run, count, attempt, settled, nonce);
    if FirstError(settled).None? {
      FirstErrorNone(settled);
      SettledIsSound(run, count, attempt, settled, nonce, s);
    }
  }

  lemma MoreAttempts(trace: seq<Record>, count: nat, attempts: nat, more: nat)
    requires Booked(trace, count, attempts) && attempts <= more
    ensures Booked(trace, count, more)
  {
    assert attempts * count <= more * count;
  }

  lemma SettledIsSound<S>(run: Run<S>, count: nat, attempt: nat, settled: seq<Record>, nonce: nat, s: S)
    requires attempt >= 1 && Sound(run, count, attempt - 1)
    requires Aligned(settled, attempt, nonce, run.outstanding)
    requires forall r :: r in settled ==> !r.fate.Pending? && !r.fate.Broken?
    ensures Sound(Run(s, Stamp(run.receipts, settled), Collided(settled), run.trace + settled), count, attempt)
  {
    hide Stamp, Collided;
    TraceGrows(run, count, attempt, settled, nonce);
    assert forall k :: 0 <= k < |run.outstanding| ==> run.outstanding[k] in run.outstanding;
    assert forall k :: 0 <= k < |settled| ==> settled[k] in settled;
    SettledPartition(run.receipts, run.outstanding, attempt, settled, nonce);
    CollidedMeaning(settled);
    var receipts, trace := Stamp(run.receipts, settled), run.trace + settled;
    forall i | 0 <= i < count && receipts[i].Some? ensures ConfirmedBy(trace, i, receipts[i].value) {
      if i !in run.outstanding {
        assert ConfirmedBy(run.trace, i, run.receipts[i].value);
      }
    }
    forall r | r in trace ensures Lost(r) || (r.fate.Confirmed? && receipts[r.index].Some?) {
      if r in run.trace && !Lost(r) {
        assert r.index !in run.outstanding;
      } else if r in settled && !Lost(r) {
        ReceiptedNow(run, count, attempt, settled, nonce, r);
      }
    }
  }

  lemma ReceiptedNow<S>(run: Run<S>, count: nat, attempt: nat, settled: seq<Record>, nonce: nat, r: Record)
    requires attempt >= 1 && Sound(run, count, attempt - 1) && Aligned(settled, attempt, nonce, run.outstanding)
    requires forall k :: 0 <= k < |settled| ==> !settled[k].fate.Pending? && !settled[k].fate.Broken?
    requires r in settled && !Lost(r)
    ensures r.index < count && Stamp(run.receipts, settled)[r.index].Some?
  {
    hide Stamp, Booked;
    var k :| 0 <= k < |settled| && settled[k] == r;
    assert forall j :: 0 <= j < |run.outstanding| ==> run.outstanding[j] in run.outstanding;
    StampMeaning(run.receipts, settled, attempt, nonce, run.outstanding);
    assert run.outstanding[k] == r.index;
  }

  /** `before` and `outstanding` partition the batch, and `settled` tells the fate of the latter. */
  ghost predicate Partitioned(before: seq<Option<Receipt>>, outstanding: seq<nat>, attempt: nat,
                              settled: seq<Record>, nonce: nat) {
    && NoDup(outstanding) && Aligned(settled, attempt, nonce, outstanding)
    && (forall k :: 0 <= k < |outstanding| ==> outstanding[k] < |before| && before[outstanding[k]].None?)
    && (forall i :: 0 <= i < |before| && i !in outstanding ==> before[i].Some?)
    && (forall k :: 0 <= k < |settled| ==> !settled[k].fate.Pending? && !settled[k].fate.Broken?)
  }

  /** Stamping receipts and keeping the collided indices preserves the partition. */
  lemma SettledPartition(before: seq<Option<Receipt>>, outstanding: seq<nat>, attempt: nat, settled: seq<Record>,
                         nonce: nat)
    requires Partitioned(before, outstanding, attempt, settled, nonce)
    ensures var receipts := Stamp(before, settled);
      && NoDup(Collided(settled))
      && (forall i :: i in Collided(settled) <==> 0 <= i < |before| && receipts[i].None?)
      && (forall i :: 0 <= i < |before| && i !in outstanding ==> receipts[i] == before[i])
      && (forall i :: i in outstanding && i < |before| && receipts[i].Some? ==>
        ConfirmedBy(settled, i, receipts[i].value))
  {
    hide Stamp, Collided, Lost, ConfirmedBy;
    StampMeaning(before, settled, attempt, nonce, outstanding);
    CollidedMeaning(settled);
    IndicesOutstanding(before, outstanding, attempt, settled, nonce);
    forall i ensures i in Collided(settled) <==> 0 <= i < |before| && Stamp(before, settled)[i].None? {
      if i in outstanding {
        OutstandingAfter(before, outstanding, attempt, settled, nonce, i);
      }
    }
    forall i | i in outstanding && i < |before| && Stamp(before, settled)[i].Some?
      ensures ConfirmedBy(settled, i, Stamp(before, settled)[i].value)
    {
      OutstandingAfter(before, outstanding, attempt, settled, nonce, i);
    }
  }

  lemma IndicesOutstanding(before: seq<Option<Receipt>>, outstanding: seq<nat>, attempt: nat, settled: seq<Record>,
                           nonce: nat)
    requires Partitioned(before, outstanding, attempt, settled, nonce)
    ensures DistinctIndices(settled)
    ensures forall k :: 0 <= k < |settled| ==> settled[k].index in outstanding
  {
  }

  lemma OutstandingAfter(before: seq<Option<Receipt>>, outstanding: seq<nat>, attempt: nat, settled: seq<Record>,
                         nonce: nat, i: nat)
    requires Partitioned(before, outstanding, attempt, settled, nonce) && i in outstanding
    ensures i < |before|
    ensures Stamp(before, settled)[i].None? <==> exists r :: r in settled && Lost(r) && r.index == i
    ensures Stamp(before, settled)[i].Some? ==> ConfirmedBy(settled, i, Stamp(before, settled)[i].value)
  {
    StampMeaning(before, settled, attempt, nonce, outstanding);
    var k :| 0 <= k < |outstanding| && outstanding[k] == i;
    RecordOfIndex(settled, k);
  }

  lemma RecordOfIndex(records: seq<Record>, k: nat)
    requires k < |records| && DistinctIndices(records)
    ensures records[k] in records
    ensures forall r :: r in records && r.index == records[k].index ==> r == records[k]
  {
  }

  lemma {:induction false} AttemptsAreAccounted<S>(env: Env<S>, run: Run<S>, count: nat, attempt: nat, maxAttempts: nat)
    requires 1 <= attempt <= maxAttempts + 1 && Sound(run, count, attempt - 1)
    requires attempt > 1 ==> run.outstanding != []
    ensures var (run', outcome) := Attempts(env, run, attempt, maxAttempts);
      Accounted(run'.trace, outcome, count, maxAttempts)
    decreases maxAttempts + 1 - attempt
  {
    if attempt <= maxAttempts {
      AttemptKeepsSound(env, run, count, attempt);
      var (run', stop) := Attempt(env, run, attempt);
      if stop.None? {
        AttemptsAreAccounted(env, run', count, attempt + 1, maxAttempts);
      } else {
        StoppedIsAccounted(run', stop.value, count, attempt, maxAttempts);
      }
    } else {
      ExhaustedIsAccounted(run, count, maxAttempts);
    }
  }

  lemma StoppedIsAccounted<S>(run: Run<S>, outcome: Outcome, count: nat, attempt: nat, maxAttempts: nat)
    requires attempt <= maxAttempts && !outcome.Exhausted?
    requires Booked(run.trace, count, attempt)
    requires outcome.Returned? ==>
      Sound(run, count, attempt) && run.outstanding == [] && outcome.receipts == run.receipts
    ensures Accounted(run.trace, outcome, count, maxAttempts)
  {
    MoreAttempts(run.trace, count, attempt, maxAttempts);
  }

  lemma ExhaustedIsAccounted<S>(run: Run<S>, count: nat, maxAttempts: nat)
    requires Sound(run, count, maxAttempts) && (maxAttempts > 0 ==> run.outstanding != [])
    ensures Accounted(run.trace, Exhausted(run.outstanding), count, maxAttempts)
  {
    forall i | 0 <= i < count
      ensures i in run.outstanding <==> forall r :: r in run.trace && r.index == i ==> Lost(r)
    {
      if i !in run.outstanding {
        var rc := run.receipts[i].value;
        assert Record(rc.attempt, rc.nonce, i, Confirmed) in run.trace;
      }
    }
  }

  // ---- Exactly once on the chain ----

  /** The chain's final ledger, by nonce: which record of the trace executed there, None for
      somebody else's transaction. A lost record was never mined, a confirmed one was. */
  ghost predicate LedgerAgrees(trace: seq<Record>, ledger: seq<Option<nat>>) {
    && (forall n :: 0 <= n < |ledger| && ledger[n].Some? ==>
          ledger[n].value < |trace| && trace[ledger[n].value].nonce == n && !Lost(trace[ledger[n].value]))
    && (forall p :: 0 <= p < |trace| && trace[p].fate.Confirmed? ==>
          trace[p].nonce < |ledger| && ledger[trace[p].nonce] == Some(p))
  }

  predicate ExecutedAt(trace: seq<Record>, ledger: seq<Option<nat>>, index: nat, n: nat) {
    n < |ledger| && ledger[n].Some? && ledger[n].value < |trace| && trace[ledger[n].value].index == index
  }

  /** However a run ends, no transaction of the batch executes twice; when it returns, each has
      executed, at the nonce its receipt names. */
  lemma ExactlyOnce(trace: seq<Record>, outcome: Outcome, count: nat, maxAttempts: nat, ledger: seq<Option<nat>>)
    requires Accounted(trace, outcome, count, maxAttempts) && LedgerAgrees(trace, ledger)
    ensures forall i, n, m :: ExecutedAt(trace, ledger, i, n) && ExecutedAt(trace, ledger, i, m) ==> n == m
    ensures outcome.Returned? ==> forall i :: 0 <= i < count ==>
      outcome.receipts[i].Some? && ExecutedAt(trace, ledger, i, outcome.receipts[i].value.nonce)
  {
    if outcome.Returned? {
      forall i | 0 <= i < count
        ensures outcome.receipts[i].Some? && ExecutedAt(trace, ledger, i, outcome.receipts[i].value.nonce)
      {
        var rc := outcome.receipts[i].value;
        var p :| 0 <= p < |trace| && trace[p] == Record(rc.attempt, rc.nonce, i, Confirmed);
      }
    }
  }
}
