/** The chunked, retried batch, as a transition system: configuration transactions in chunks of 20,
    or plain contract creations in chunks of 10.

    One account is the only sender. Every attempt at a chunk starts one operation per task; when an
    attempt is rejected its other operations live on, and may still reach the node later. Requests
    and responses may be lost. The node executes a transaction only at the account's next nonce
    (section 6 of the Ethereum Yellow Paper). */
module ConfigBatch {
  import opened Wrappers
  import opened Seqs

  const CONFIG_CHUNK_SIZE := 20
  const DEPLOY_CHUNK_SIZE := 10
  const MAX_RETRIES := 3

  const TRANSIENT_MARKS := ["other side closed", "ECONNRESET", "ECONNREFUSED", "ETIMEDOUT",
                            "socket hang up", "network timeout", "getaddrinfo"]

  predicate IsTransient(message: string) {
    exists i :: 0 <= i < |TRANSIENT_MARKS| && Contains(message, TRANSIENT_MARKS[i])
  }

  // ---- The chain ----

  /** A transaction of the account: one sent before the batch, or the batch's task. */
  datatype Tx = Earlier(nonce: nat) | Task(index: nat)

  type ChunkSize = n: nat | n > 0 witness 1

  datatype Work = Work(count: nat, chunk: ChunkSize)

  /** Task i of the batch holds nonce `base + i`; `execute` also says whether it succeeded. */
  datatype Config<!S> = Config(base: nat, work: Work, execute: (S, Tx) -> (S, bool), genesis: S)

  function StateAfter<S>(cfg: Config<S>, mined: seq<Tx>): S {
    if mined == [] then cfg.genesis
    else cfg.execute(StateAfter(cfg, mined[..|mined| - 1]), mined[|mined| - 1]).0
  }

  predicate Succeeded<S>(cfg: Config<S>, mined: seq<Tx>, nonce: nat)
    requires nonce < |mined|
  {
    cfg.execute(StateAfter(cfg, mined[..nonce]), mined[nonce]).1
  }

  // ---- The states ----

  datatype Proof = ByReceipt | ByExpiry

  datatype Status = Sending | Waiting | Finished(how: Proof) | Failed(message: string)

  datatype Op = Op(index: nat, status: Status)

  /** Running: the chunk starting at task `first`, in its attempt number `attempt` (from 0), whose
      operations are `ops[start..]`. */
  datatype Control = Running(first: nat, attempt: nat, start: nat) | Returned | Threw(message: string, attempt: nat)

  datatype State = State(mined: seq<Tx>, pool: map<nat, Tx>, ops: seq<Op>, control: Control)

  /** What may happen next. A response lost on the way, or a failing request, carries any message. A
      node that already holds a transaction of that nonce refuses with any message, or takes the new
      copy in its place (no refusal). */
  datatype Event =
    | Mine
    | LoseRequest(op: nat, message: string)
    | Deliver(op: nat, lost: Option<string>, refusal: Option<string>)
    | LoseWait(op: nat, message: string)
    | Receive(op: nat, revertMessage: string)
    | Reject(op: nat)
    | Resolve

  function ChunkEnd(first: nat, work: Work): nat {
    if first + work.chunk < work.count then first + work.chunk else work.count
  }

  function ChunkOps(first: nat, work: Work): seq<Op>
    requires first <= work.count
  {
    seq(ChunkEnd(first, work) - first, j requires 0 <= j => Op(first + j, Sending))
  }

  function StartChunk(s: State, first: nat, attempt: nat, work: Work): State {
    if first < work.count then
      s.(ops := s.ops + ChunkOps(first, work), control := Running(first, attempt, |s.ops|))
    else s.(control := Returned)
  }

  /** The first `already` transactions are mined, the rest of the earlier ones are in the pool. */
  function Init(base: nat, work: Work, already: nat): State
    requires already <= base
  {
    StartChunk(State(seq(already, n requires 0 <= n => Earlier(n)),
                     map n: nat | already <= n < base :: Earlier(n), [], Returned),
               0, 0, work)
  }

  predicate InFlight(s: State, op: nat, status: Status) {
    op < |s.ops| && s.ops[op].status == status
  }

  function Become(s: State, op: nat, status: Status): State
    requires op < |s.ops|
  {
    s.(ops := s.ops[op := s.ops[op].(status := status)])
  }

  function MineNext(s: State): State {
    var n := |s.mined|;
    if n in s.pool then s.(mined := s.mined + [s.pool[n]], pool := s.pool - {n}) else s
  }

  /** The request reaches the node: too old, refused, or accepted into the pool. */
  function Reach(s: State, op: nat, base: nat, refusal: Option<string>): (State, Status)
    requires op < |s.ops|
  {
    var nonce := base + s.ops[op].index;
    if nonce < |s.mined| then (s, Finished(ByExpiry))
    else if nonce in s.pool && refusal.Some? then (s, Failed(refusal.value))
    else (s.(pool := s.pool[nonce := Task(s.ops[op].index)]), Waiting)
  }

  function OnRejection(s: State, message: string, work: Work): State
    requires s.control.Running?
  {
    if IsTransient(message) && s.control.attempt < MAX_RETRIES then
      StartChunk(s, s.control.first, s.control.attempt + 1, work)
    else s.(control := Threw(message, s.control.attempt))
  }

  predicate AllFinished(s: State)
    requires s.control.Running?
  {
    forall k :: s.control.start <= k < |s.ops| ==> s.ops[k].status.Finished?
  }

  /** One step; an event that cannot happen in `s` changes nothing. */
  function Step<S>(cfg: Config<S>, s: State, e: Event): State {
    match e
    case Mine => MineNext(s)
    case LoseRequest(op, message) => if InFlight(s, op, Sending) then Become(s, op, Failed(message)) else s
    case LoseWait(op, message) => if InFlight(s, op, Waiting) then Become(s, op, Failed(message)) else s
    case Deliver(op, lost, refusal) =>
      if InFlight(s, op, Sending) then
        var (reached, status) := Reach(s, op, cfg.base, refusal);
        Become(reached, op, if lost.Some? then Failed(lost.value) else status)
      else s
    case Receive(op, revertMessage) =>
      if InFlight(s, op, Waiting) && cfg.base + s.ops[op].index < |s.mined| then
        Become(s, op,
               if Succeeded(cfg, s.mined, cfg.base + s.ops[op].index) then Finished(ByReceipt)
               else Failed(revertMessage))
      else s
    case Reject(op) =>
      if s.control.Running? && s.control.start <= op < |s.ops| && s.ops[op].status.Failed? then
        OnRejection(s, s.ops[op].status.message, cfg.work)
      else s
    case Resolve =>
      if s.control.Running? && AllFinished(s) then StartChunk(s, s.control.first + cfg.work.chunk, 0, cfg.work) else s
  }

  function Execute<S>(cfg: Config<S>, s: State, events: seq<Event>): State {
    if events == [] then s else Step(cfg, Execute(cfg, s, events[..|events| - 1]), events[|events| - 1])
  }

  // ---- What every run keeps ----

  /** The only transaction the account ever signs for a nonce. */
  function Expected(base: nat, nonce: nat): Tx {
    if nonce < base then Earlier(nonce) else Task(nonce - base)
  }

  /** The ledger and the pool hold, nonce by nonce, only what was allocated to that nonce. */
  ghost predicate ChainInv(base: nat, count: nat, mined: seq<Tx>, pool: map<nat, Tx>) {
    && |mined| <= base + count
    && (forall n :: 0 <= n < |mined| ==> mined[n] == Expected(base, n))
    && (forall n :: n in pool ==> |mined| <= n < base + count && pool[n] == Expected(base, n))
    && (forall n :: |mined| <= n < base ==> n in pool)
  }

  ghost predicate OpInv<S>(cfg: Config<S>, s: State, op: Op) {
    var nonce := cfg.base + op.index;
    && op.index < cfg.work.count
    && (op.status.Waiting? ==> nonce < |s.mined| || nonce in s.pool)
    && (op.status.Finished? ==> nonce < |s.mined|)
    && (op.status == Finished(ByReceipt) ==> nonce < |s.mined| && Succeeded(cfg, s.mined, nonce))
  }

  /** The tasks before `limit` are settled: some operation of each finished. */
  ghost predicate Settled(ops: seq<Op>, limit: nat) {
    forall i :: 0 <= i < limit ==> SettledTask(ops, i)
  }

  ghost predicate SettledTask(ops: seq<Op>, i: nat) {
    exists k :: 0 <= k < |ops| && ops[k].index == i && ops[k].status.Finished?
  }

  ghost predicate ControlInv(work: Work, s: State) {
    match s.control
    case Running(first, attempt, start) =>
      && first < work.count && attempt <= MAX_RETRIES && Settled(s.ops, first)
      && start <= |s.ops| == start + (ChunkEnd(first, work) - first)
      && (forall k :: start <= k < |s.ops| ==> s.ops[k].index == first + (k - start))
    case Returned => Settled(s.ops, work.count)
    case Threw(message, attempt) =>
      && (!IsTransient(message) || attempt == MAX_RETRIES)
      && exists k :: 0 <= k < |s.ops| && s.ops[k].status == Failed(message)
  }

  /** How many operations the task has had. */
  function Tries(ops: seq<Op>, i: nat): nat {
    if ops == [] then 0 else Tries(ops[..|ops| - 1], i) + if ops[|ops| - 1].index == i then 1 else 0
  }

  /** One operation per task and attempt: none for chunks not begun, at most four in all. */
  ghost predicate Budget(work: Work, ops: seq<Op>, control: Control) {
    forall i: nat :: Tries(ops, i) <= Allowance(work, control, i)
  }

  function Allowance(work: Work, control: Control, i: nat): nat {
    match control
    case Running(first, attempt, _) => Spent(work, first, attempt + 1, i)
    case _ => Spent(work, work.count, 0, i)
  }

  /** With the chunk at `first` in question after so many attempts. */
  function Spent(work: Work, first: nat, attempts: nat, i: nat): nat {
    if i < first && i < work.count then MAX_RETRIES + 1 else if i < ChunkEnd(first, work) then attempts else 0
  }

  ghost predicate Inv<S>(cfg: Config<S>, s: State) {
    && ChainInv(cfg.base, cfg.work.count, s.mined, s.pool)
    && (forall k :: 0 <= k < |s.ops| ==> OpInv(cfg, s, s.ops[k]))
    && ControlInv(cfg.work, s) && Budget(cfg.work, s.ops, s.control)
  }

  /** Another state whose chain is at least as far keeps the promises made to an operation. */
  lemma OpInvLater<S>(cfg: Config<S>, s: State, s': State, op: Op)
    requires OpInv(cfg, s, op)
    requires s.mined <= s'.mined && forall n :: n in s.pool ==> n in s'.pool || n < |s'.mined|
    ensures OpInv(cfg, s', op)
  {
    if op.status == Finished(ByReceipt) {
      var nonce := cfg.base + op.index;
      assert s'.mined[..nonce] == s.mined[..nonce];
    }
  }

  lemma {:induction false} TriesAfter(ops: seq<Op>, op: nat, status: Status, i: nat)
    requires op < |ops|
    ensures Tries(ops[op := ops[op].(status := status)], i) == Tries(ops, i)
  {
    var n, later := |ops| - 1, ops[op := ops[op].(status := status)];
    if op < n {
      assert later[..n] == ops[..n][op := ops[op].(status := status)];
      TriesAfter(ops[..n], op, status, i);
    } else {
      assert later[..n] == ops[..n];
    }
  }

  lemma {:induction false} TriesMore(ops: seq<Op>, first: nat, n: nat, i: nat)
    ensures Tries(ops + seq(n, j requires 0 <= j => Op(first + j, Sending)), i)
         == Tries(ops, i) + if first <= i < first + n then 1 else 0
  {
    var more := seq(n, j requires 0 <= j => Op(first + j, Sending));
    if n == 0 {
      assert ops + more == ops;
    } else {
      assert (ops + more)[..|ops + more| - 1] == ops + seq(n - 1, j requires 0 <= j => Op(first + j, Sending));
      TriesMore(ops, first, n - 1, i);
    }
  }

  lemma StartChunkInBudget(s: State, first: nat, attempt: nat, work: Work)
    requires attempt <= MAX_RETRIES
    requires forall i: nat :: Tries(s.ops, i) <= Spent(work, first, attempt, i)
    ensures var s' := StartChunk(s, first, attempt, work); Budget(work, s'.ops, s'.control)
  {
    if first < work.count {
      forall i: nat ensures Tries(s.ops + ChunkOps(first, work), i)
          == Tries(s.ops, i) + if first <= i < ChunkEnd(first, work) then 1 else 0 {
        TriesMore(s.ops, first, ChunkEnd(first, work) - first, i);
      }
    }
  }

  lemma BecomeKeeps<S>(cfg: Config<S>, s: State, op: nat, status: Status)
    requires Inv(cfg, s) && op < |s.ops| && (s.ops[op].status.Sending? || s.ops[op].status.Waiting?)
    requires OpInv(cfg, s, s.ops[op].(status := status))
    ensures Inv(cfg, Become(s, op, status))
  {
    var s' := Become(s, op, status);
    forall i: nat ensures Tries(s'.ops, i) == Tries(s.ops, i) {
      TriesAfter(s.ops, op, status, i);
    }
    forall k | 0 <= k < |s'.ops| ensures OpInv(cfg, s', s'.ops[k]) {
      OpInvLater(cfg, s, s', s'.ops[k]);
    }
    forall i | SettledTask(s.ops, i) ensures SettledTask(s'.ops, i) {
      var k :| 0 <= k < |s.ops| && s.ops[k].index == i && s.ops[k].status.Finished?;
      assert s'.ops[k] == s.ops[k];
    }
    if s.control.Threw? {
      var k :| 0 <= k < |s.ops| && s.ops[k].status == Failed(s.control.message);
      assert s'.ops[k] == s.ops[k];
    }
  }

  lemma MineKeeps<S>(cfg: Config<S>, s: State)
    requires Inv(cfg, s)
    ensures Inv(cfg, MineNext(s))
  {
    forall k | 0 <= k < |s.ops| ensures OpInv(cfg, MineNext(s), s.ops[k]) {
      OpInvLater(cfg, s, MineNext(s), s.ops[k]);
    }
  }

  lemma ReachKeeps<S>(cfg: Config<S>, s: State, op: nat, refusal: Option<string>)
    requires Inv(cfg, s) && op < |s.ops|
    ensures var (reached, status) := Reach(s, op, cfg.base, refusal);
      Inv(cfg, reached) && reached.ops == s.ops && OpInv(cfg, reached, s.ops[op].(status := status))
  {
    var (reached, status) := Reach(s, op, cfg.base, refusal);
    forall k | 0 <= k < |s.ops| ensures OpInv(cfg, reached, s.ops[k]) {
      OpInvLater(cfg, s, reached, s.ops[k]);
    }
    assert OpInv(cfg, s, s.ops[op]);
  }

  /** A chunk starts when the tasks before it are settled and the attempts so far are in budget. */
  lemma StartChunkKeeps<S>(cfg: Config<S>, s: State, first: nat, attempt: nat)
    requires ChainInv(cfg.base, cfg.work.count, s.mined, s.pool)
    requires forall k :: 0 <= k < |s.ops| ==> OpInv(cfg, s, s.ops[k])
    requires attempt <= MAX_RETRIES && Settled(s.ops, if first < cfg.work.count then first else cfg.work.count)
    requires forall i: nat :: Tries(s.ops, i) <= Spent(cfg.work, first, attempt, i)
    ensures Inv(cfg, StartChunk(s, first, attempt, cfg.work))
  {
    var s' := StartChunk(s, first, attempt, cfg.work);
    StartChunkInBudget(s, first, attempt, cfg.work);
    hide Tries, Budget;
    if first < cfg.work.count {
      forall i | 0 <= i < first ensures SettledTask(s'.ops, i) {
        assert SettledTask(s.ops, i);
        var k :| 0 <= k < |s.ops| && s.ops[k].index == i && s.ops[k].status.Finished?;
        assert s'.ops[k] == s.ops[k];
      }
    }
    forall k | 0 <= k < |s'.ops| ensures OpInv(cfg, s', s'.ops[k]) {
      if k < |s.ops| {
        OpInvLater(cfg, s, s', s.ops[k]);
      }
    }
  }

  lemma ResolveKeeps<S>(cfg: Config<S>, s: State)
    requires Inv(cfg, s) && s.control.Running? && AllFinished(s)
    ensures Inv(cfg, StartChunk(s, s.control.first + cfg.work.chunk, 0, cfg.work))
  {
    var first, start := s.control.first, s.control.start;
    forall i | 0 <= i < ChunkEnd(first, cfg.work) ensures SettledTask(s.ops, i) {
      if i >= first {
        assert s.ops[start + (i - first)].index == i;
      }
    }
    StartChunkKeeps(cfg, s, first + cfg.work.chunk, 0);
  }

  lemma LossKeeps<S>(cfg: Config<S>, s: State, op: nat, message: string)
    requires Inv(cfg, s)
    ensures Inv(cfg, Step(cfg, s, LoseRequest(op, message))) && Inv(cfg, Step(cfg, s, LoseWait(op, message)))
  {
    hide ControlInv, ChainInv;
    if InFlight(s, op, Sending) || InFlight(s, op, Waiting) {
      BecomeKeeps(cfg, s, op, Failed(message));
    }
  }

  lemma DeliverKeeps<S>(cfg: Config<S>, s: State, op: nat, lost: Option<string>, refusal: Option<string>)
    requires Inv(cfg, s)
    ensures Inv(cfg, Step(cfg, s, Deliver(op, lost, refusal)))
  {
    hide ControlInv, ChainInv;
    if InFlight(s, op, Sending) {
      ReachKeeps(cfg, s, op, refusal);
      var (reached, status) := Reach(s, op, cfg.base, refusal);
      BecomeKeeps(cfg, reached, op, if lost.Some? then Failed(lost.value) else status);
    }
  }

  lemma ReceiveKeeps<S>(cfg: Config<S>, s: State, op: nat, revertMessage: string)
    requires Inv(cfg, s)
    ensures Inv(cfg, Step(cfg, s, Receive(op, revertMessage)))
  {
    hide ControlInv, ChainInv;
    if InFlight(s, op, Waiting) && cfg.base + s.ops[op].index < |s.mined| {
      BecomeKeeps(cfg, s, op,
        if Succeeded(cfg, s.mined, cfg.base + s.ops[op].index) then Finished(ByReceipt) else Failed(revertMessage));
    }
  }

  lemma RejectKeeps<S>(cfg: Config<S>, s: State, op: nat)
    requires Inv(cfg, s)
    ensures Inv(cfg, Step(cfg, s, Reject(op)))
  {
    hide IsTransient;
    if s.control.Running? && s.control.start <= op < |s.ops| && s.ops[op].status.Failed? {
      if IsTransient(s.ops[op].status.message) && s.control.attempt < MAX_RETRIES {
        StartChunkKeeps(cfg, s, s.control.first, s.control.attempt + 1);
      }
    }
  }

  lemma StepKeeps<S>(cfg: Config<S>, s: State, e: Event)
    requires Inv(cfg, s)
    ensures Inv(cfg, Step(cfg, s, e))
  {
    hide Inv;
    match e
    case Mine => MineKeeps(cfg, s);
    case LoseRequest(op, message) => LossKeeps(cfg, s, op, message);
    case LoseWait(op, message) => LossKeeps(cfg, s, op, message);
    case Deliver(op, lost, refusal) => DeliverKeeps(cfg, s, op, lost, refusal);
    case Receive(op, revertMessage) => ReceiveKeeps(cfg, s, op, revertMessage);
    case Reject(op) => RejectKeeps(cfg, s, op);
    case Resolve =>
      if s.control.Running? && AllFinished(s) { ResolveKeeps(cfg, s); }
  }

  lemma InitKeeps<S>(cfg: Config<S>, already: nat)
    requires already <= cfg.base
    ensures Inv(cfg, Init(cfg.base, cfg.work, already))
  {
    var s := State(seq(already, n requires 0 <= n => Earlier(n)),
                   map n: nat | already <= n < cfg.base :: Earlier(n), [], Returned);
    StartChunkKeeps(cfg, s, 0, 0);
  }

  /** Where a run ends up after the given events. */
  function Final<S>(cfg: Config<S>, already: nat, events: seq<Event>): State
    requires already <= cfg.base
  {
    Execute(cfg, Init(cfg.base, cfg.work, already), events)
  }

  lemma {:induction false} EveryRun<S>(cfg: Config<S>, already: nat, events: seq<Event>)
    requires already <= cfg.base
    ensures Inv(cfg, Final(cfg, already, events))
  {
    if events == [] {
      InitKeeps(cfg, already);
    } else {
      EveryRun(cfg, already, events[..|events| - 1]);
      StepKeeps(cfg, Final(cfg, already, events[..|events| - 1]), events[|events| - 1]);
    }
  }

  // ---- The results ----

  /** Executing the batch one task after the other on a chain in state `s`. */
  function Sequential<S>(cfg: Config<S>, s: S, count: nat): S {
    if count == 0 then s else cfg.execute(Sequential(cfg, s, count - 1), Task(count - 1)).0
  }

  function EarlierOnes(base: nat): seq<Tx> {
    seq(base, n requires 0 <= n => Earlier(n))
  }

  lemma {:induction false} LedgerIsSequential<S>(cfg: Config<S>, mined: seq<Tx>, done: nat)
    requires |mined| == cfg.base + done && forall n :: 0 <= n < |mined| ==> mined[n] == Expected(cfg.base, n)
    ensures StateAfter(cfg, mined) == Sequential(cfg, StateAfter(cfg, EarlierOnes(cfg.base)), done)
    decreases done
  {
    if done == 0 {
      assert mined == EarlierOnes(cfg.base);
    } else {
      LedgerIsSequential(cfg, mined[..|mined| - 1], done - 1);
    }
  }

  /** Whatever is lost, retried or left behind, and however the run ends: no task is mined at any
      nonce but its own, so none is mined twice, and no task is attempted more than four times. */
  lemma NeverTwice<S>(cfg: Config<S>, already: nat, events: seq<Event>)
    requires already <= cfg.base
    ensures var s := Final(cfg, already, events);
      && (forall n: nat, i: nat :: n < |s.mined| && s.mined[n] == Task(i) ==> n == cfg.base + i && i < cfg.work.count)
      && (forall i: nat :: Tries(s.ops, i) <= MAX_RETRIES + 1)
  {
    EveryRun(cfg, already, events);
  }

  /** If the batch returns, every task was mined exactly once, in list order behind everything sent
      before, so the chain is where running the tasks one by one would have left it. */
  lemma ReturnRefinesSequential<S>(cfg: Config<S>, already: nat, events: seq<Event>)
    requires already <= cfg.base && cfg.work.count > 0
    requires Final(cfg, already, events).control.Returned?
    ensures var mined := Final(cfg, already, events).mined;
      && |mined| == cfg.base + cfg.work.count
      && (forall i: nat :: i < cfg.work.count ==> mined[cfg.base + i] == Task(i))
      && StateAfter(cfg, mined) == Sequential(cfg, StateAfter(cfg, EarlierOnes(cfg.base)), cfg.work.count)
  {
    EveryRun(cfg, already, events);
    var s := Final(cfg, already, events);
    SettledIsMined(cfg, s, cfg.work.count - 1);
    LedgerIsSequential(cfg, s.mined, cfg.work.count);
  }

  lemma SettledIsMined<S>(cfg: Config<S>, s: State, i: nat)
    requires Inv(cfg, s) && s.control.Returned? && i < cfg.work.count
    ensures cfg.base + i < |s.mined|
  {
    assert SettledTask(s.ops, i);
  }

  // ---- Which tasks of a returned batch succeeded ----

  /** Task i succeeds when the tasks are executed one after the other, in list order. */
  predicate SucceedsInOrder<S>(cfg: Config<S>, i: nat) {
    cfg.execute(Sequential(cfg, StateAfter(cfg, EarlierOnes(cfg.base)), i), Task(i)).1
  }

  ghost predicate NoneReverts<S>(cfg: Config<S>) {
    forall i: nat :: i < cfg.work.count ==> SucceedsInOrder(cfg, i)
  }

  /** Task i is mined and succeeded. */
  predicate Done<S>(cfg: Config<S>, mined: seq<Tx>, i: nat) {
    cfg.base + i < |mined| && Succeeded(cfg, mined, cfg.base + i)
  }

  ghost predicate AllDone<S>(cfg: Config<S>, mined: seq<Tx>) {
    forall i: nat :: i < cfg.work.count ==> Done(cfg, mined, i)
  }

  /** However the run got there: in a returned batch a task is done iff it succeeds in list order. */
  lemma ReturnedTask<S>(cfg: Config<S>, already: nat, events: seq<Event>, i: nat)
    requires already <= cfg.base && i < cfg.work.count
    requires Final(cfg, already, events).control.Returned?
    ensures Done(cfg, Final(cfg, already, events).mined, i) <==> SucceedsInOrder(cfg, i)
  {
    EveryRun(cfg, already, events);
    var s := Final(cfg, already, events);
    SettledIsMined(cfg, s, i);
    LedgerIsSequential(cfg, s.mined[..cfg.base + i], i);
  }

  lemma ReturnedBatch<S>(cfg: Config<S>, already: nat, events: seq<Event>)
    requires already <= cfg.base && Final(cfg, already, events).control.Returned?
    ensures AllDone(cfg, Final(cfg, already, events).mined) <==> NoneReverts(cfg)
  {
    hide *;
    forall i: nat | i < cfg.work.count
      ensures Done(cfg, Final(cfg, already, events).mined, i) <==> SucceedsInOrder(cfg, i) {
      ReturnedTask(cfg, already, events, i);
    }
    AllOrNone(cfg, Final(cfg, already, events).mined);
  }

  lemma AllOrNone<S>(cfg: Config<S>, mined: seq<Tx>)
    requires forall i: nat :: i < cfg.work.count ==> (Done(cfg, mined, i) <==> SucceedsInOrder(cfg, i))
    ensures AllDone(cfg, mined) <==> NoneReverts(cfg)
  {
    hide Done, SucceedsInOrder;
  }

  /** For a batch of creations: what was mined at nonce n is the creation of task i, and it put the
      contract at the CREATE address of that nonce. */
  predicate Carries<S>(cfg: Config<S>, mined: seq<Tx>, n: nat, i: nat) {
    n < |mined| && mined[n] == Task(i) && Succeeded(cfg, mined, n)
  }

  /** In a returned batch of creations task i's contract is at the address of nonce base + i, which is
      what either ending reports, and nowhere else, iff its creation does not revert in list order. */
  lemma ContractPlace<S>(cfg: Config<S>, already: nat, events: seq<Event>, i: nat, n: nat)
    requires already <= cfg.base && i < cfg.work.count
    requires Final(cfg, already, events).control.Returned?
    ensures Carries(cfg, Final(cfg, already, events).mined, n, i) <==> n == cfg.base + i && SucceedsInOrder(cfg, i)
  {
    ReturnedTask(cfg, already, events, i);
    NeverTwice(cfg, already, events);
    EveryRun(cfg, already, events);
  }

  /** An operation that saw its receipt: in every run, however it ends, the task is mined at its own
      nonce and succeeded, as it does in list order. */
  lemma ReceiptMeansDone<S>(cfg: Config<S>, already: nat, events: seq<Event>, i: nat)
    requires already <= cfg.base && Op(i, Finished(ByReceipt)) in Final(cfg, already, events).ops
    ensures Carries(cfg, Final(cfg, already, events).mined, cfg.base + i, i) && SucceedsInOrder(cfg, i)
  {
    hide Final, Inv, Succeeded;
    EveryRun(cfg, already, events);
    ReceiptInv(cfg, Final(cfg, already, events), i);
  }

  lemma ReceiptInv<S>(cfg: Config<S>, s: State, i: nat)
    requires Inv(cfg, s) && Op(i, Finished(ByReceipt)) in s.ops
    ensures Carries(cfg, s.mined, cfg.base + i, i) && SucceedsInOrder(cfg, i)
  {
    hide ControlInv, Budget;
    var k :| 0 <= k < |s.ops| && s.ops[k] == Op(i, Finished(ByReceipt));
    assert OpInv(cfg, s, s.ops[k]);
    LedgerIsSequential(cfg, s.mined[..cfg.base + i], i);
  }

  ghost predicate OnlyExpired(ops: seq<Op>, i: nat) {
    Op(i, Finished(ByExpiry)) in ops && Op(i, Finished(ByReceipt)) !in ops
  }

  /** A batch returns with a reverted task only if that task was settled by NONCE_EXPIRED alone:
      mined for certain, but its receipt never seen. */
  lemma RevertsHideBehindExpiry<S>(cfg: Config<S>, already: nat, events: seq<Event>, i: nat)
    requires already <= cfg.base && i < cfg.work.count
    requires Final(cfg, already, events).control.Returned?
    ensures var s := Final(cfg, already, events);
      && cfg.base + i < |s.mined|
      && (Succeeded(cfg, s.mined, cfg.base + i) || OnlyExpired(s.ops, i))
  {
    EveryRun(cfg, already, events);
    var s := Final(cfg, already, events);
    SettledIsMined(cfg, s, i);
    assert SettledTask(s.ops, i);
    var k :| 0 <= k < |s.ops| && s.ops[k].index == i && s.ops[k].status.Finished?;
    assert s.ops[k] == Op(i, s.ops[k].status);
    if j :| 0 <= j < |s.ops| && s.ops[j] == Op(i, Finished(ByReceipt)) {
      assert OpInv(cfg, s, s.ops[j]);
    } else {
      assert s.ops[k].status.how == ByExpiry && s.ops[k] in s.ops;
    }
  }

  /** The batch throws only over a failure that is not transient, or that exhausted the retries. */
  lemma ThrowsForCause<S>(cfg: Config<S>, already: nat, events: seq<Event>)
    requires already <= cfg.base
    ensures var s := Final(cfg, already, events);
      s.control.Threw? ==>
        && (!IsTransient(s.control.message) || s.control.attempt == MAX_RETRIES)
        && exists k :: 0 <= k < |s.ops| && s.ops[k].status == Failed(s.control.message)
  {
    EveryRun(cfg, already, events);
  }
}
