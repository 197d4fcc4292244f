/** Every chunked batch has a run that returns, whatever its tasks do on chain; so what a returned batch
    says about its tasks can be stated exactly. */
module BatchRuns {
  import opened Wrappers
  import opened Seqs
  import opened ConfigBatch

  lemma {:induction false} ExecuteAppend<S>(cfg: Config<S>, s: State, a: seq<Event>, b: seq<Event>)
    ensures Execute(cfg, s, a + b) == Execute(cfg, Execute(cfg, s, a), b)
  {
    if b == [] {
      assert a + b == a;
    } else {
      var n := |b| - 1;
      assert (a + b)[..|a + b| - 1] == a + b[..n];
      ExecuteAppend(cfg, s, a, b[..n]);
    }
  }

  lemma ExecuteOne<S>(cfg: Config<S>, s: State, e: Event)
    ensures Execute(cfg, s, [e]) == Step(cfg, s, e)
  {
    assert [e][..0] == [];
    assert Execute(cfg, s, []) == s;
  }

  const RESET := "ECONNRESET"

  lemma ResetIsTransient()
    ensures IsTransient(RESET)
  {
    assert TRANSIENT_MARKS[1] == RESET[0..];
    assert Contains(RESET, TRANSIENT_MARKS[1]);
  }

  /** What the account's first n transactions are. */
  function Ledger(base: nat, n: nat): seq<Tx> {
    seq(n, k requires 0 <= k => Expected(base, k))
  }

  /** The operations of a chunk in order, the first `k` of them in the given status. */
  function Partly(first: nat, n: nat, k: nat, status: Status): seq<Op> {
    seq(n, j requires 0 <= j => Op(first + j, if j < k then status else Sending))
  }

  lemma NonePartly(first: nat, n: nat, a: Status, b: Status)
    ensures Partly(first, n, 0, a) == Partly(first, n, 0, b)
  {
  }

  function Width<S>(cfg: Config<S>, first: nat): nat
    requires first <= cfg.work.count
  {
    ChunkEnd(first, cfg.work) - first
  }

  /** An attempt at the chunk, nothing pooled, `mined` of its tasks in the ledger and `k` of its
      operations in the given status. */
  function Stage<S>(cfg: Config<S>, before: seq<Op>, first: nat, attempt: nat, mined: nat, k: nat,
                    status: Status): State
    requires first <= cfg.work.count
  {
    State(Ledger(cfg.base, cfg.base + first + mined), map[], before + Partly(first, Width(cfg, first), k, status),
          Running(first, attempt, |before|))
  }

  /** Each request of the first attempt arrives and is mined, and its response is lost. */
  lemma {:induction false} FirstAttempt<S>(cfg: Config<S>, before: seq<Op>, first: nat, k: nat)
    returns (events: seq<Event>)
    requires first < cfg.work.count && k <= Width(cfg, first)
    ensures Execute(cfg, Stage(cfg, before, first, 0, 0, 0, Sending), events)
         == Stage(cfg, before, first, 0, k, k, Failed(RESET))
    decreases k
  {
    hide Step, Partly;
    if k == 0 {
      events := [];
      NonePartly(first, Width(cfg, first), Sending, Failed(RESET));
    } else {
      var earlier := FirstAttempt(cfg, before, first, k - 1);
      var arrive := Deliver(|before| + k - 1, Some(RESET), None);
      LoseResponse(cfg, before, first, k - 1);
      var s := Stage(cfg, before, first, 0, k - 1, k - 1, Failed(RESET));
      events := earlier + [arrive] + [Mine];
      ExecuteAppend(cfg, Stage(cfg, before, first, 0, 0, 0, Sending), earlier, [arrive]);
      ExecuteOne(cfg, s, arrive);
      ExecuteAppend(cfg, Stage(cfg, before, first, 0, 0, 0, Sending), earlier + [arrive], [Mine]);
      ExecuteOne(cfg, Step(cfg, s, arrive), Mine);
    }
  }

  lemma LoseResponse<S>(cfg: Config<S>, before: seq<Op>, first: nat, k: nat)
    requires first < cfg.work.count && k < Width(cfg, first)
    ensures Step(cfg, Step(cfg, Stage(cfg, before, first, 0, k, k, Failed(RESET)),
                           Deliver(|before| + k, Some(RESET), None)), Mine)
         == Stage(cfg, before, first, 0, k + 1, k + 1, Failed(RESET))
  {
    var n := Width(cfg, first);
    var s := Stage(cfg, before, first, 0, k, k, Failed(RESET));
    var s' := Stage(cfg, before, first, 0, k + 1, k + 1, Failed(RESET));
    var nonce := cfg.base + first + k;
    assert s.ops[|before| + k] == Op(first + k, Sending);
    assert s.ops[|before| + k := Op(first + k, Failed(RESET))] == s'.ops;
    assert s.mined + [Task(first + k)] == s'.mined;
    var m := map[nonce := Task(first + k)];
    assert s.pool[nonce := Task(first + k)] == m && m - {nonce} == map[];
  }

  /** The operations of the second attempt are told that their nonces have expired. */
  lemma {:induction false} SecondAttempt<S>(cfg: Config<S>, before: seq<Op>, first: nat, k: nat)
    returns (events: seq<Event>)
    requires first < cfg.work.count && k <= Width(cfg, first)
    ensures Execute(cfg, Stage(cfg, before, first, 1, Width(cfg, first), 0, Sending), events)
         == Stage(cfg, before, first, 1, Width(cfg, first), k, Finished(ByExpiry))
    decreases k
  {
    hide Step, Partly;
    var s := Stage(cfg, before, first, 1, Width(cfg, first), 0, Sending);
    if k == 0 {
      events := [];
      NonePartly(first, Width(cfg, first), Sending, Finished(ByExpiry));
    } else {
      var earlier := SecondAttempt(cfg, before, first, k - 1);
      var late := Deliver(|before| + k - 1, None, None);
      events := earlier + [late];
      ExecuteAppend(cfg, s, earlier, [late]);
      ExecuteOne(cfg, Stage(cfg, before, first, 1, Width(cfg, first), k - 1, Finished(ByExpiry)), late);
      TooLate(cfg, before, first, k - 1);
    }
  }

  lemma TooLate<S>(cfg: Config<S>, before: seq<Op>, first: nat, k: nat)
    requires first < cfg.work.count && k < Width(cfg, first)
    ensures Step(cfg, Stage(cfg, before, first, 1, Width(cfg, first), k, Finished(ByExpiry)),
                 Deliver(|before| + k, None, None))
         == Stage(cfg, before, first, 1, Width(cfg, first), k + 1, Finished(ByExpiry))
  {
    var s, s' := Stage(cfg, before, first, 1, Width(cfg, first), k, Finished(ByExpiry)),
                 Stage(cfg, before, first, 1, Width(cfg, first), k + 1, Finished(ByExpiry));
    assert s.ops[|before| + k] == Op(first + k, Sending);
    assert s.ops[|before| + k := Op(first + k, Finished(ByExpiry))] == s'.ops;
  }

  /** The chunk is behind: the next one starts, or the batch returns. */
  function After<S>(cfg: Config<S>, before: seq<Op>, first: nat): State {
    var done := if first < cfg.work.count then first else cfg.work.count;
    StartChunk(State(Ledger(cfg.base, cfg.base + done), map[], before, Returned), first, 0, cfg.work)
  }

  /** The first lost response rejects the first attempt. */
  lemma Retry<S>(cfg: Config<S>, before: seq<Op>, first: nat)
    requires first < cfg.work.count
    ensures var n := Width(cfg, first);
      Step(cfg, Stage(cfg, before, first, 0, n, n, Failed(RESET)), Reject(|before|))
      == Stage(cfg, before + Partly(first, n, n, Failed(RESET)), first, 1, n, 0, Sending)
  {
    hide IsTransient;
    ResetIsTransient();
    var n := Width(cfg, first);
    var s := Stage(cfg, before, first, 0, n, n, Failed(RESET));
    assert s.ops[|before|] == Op(first, Failed(RESET));
    assert ChunkOps(first, cfg.work) == Partly(first, n, 0, Sending);
  }

  lemma Resolved<S>(cfg: Config<S>, before: seq<Op>, first: nat)
    requires first < cfg.work.count
    ensures var n := Width(cfg, first);
      Step(cfg, Stage(cfg, before, first, 1, n, n, Finished(ByExpiry)), Resolve)
      == After(cfg, before + Partly(first, n, n, Finished(ByExpiry)), first + cfg.work.chunk)
  {
    var n := Width(cfg, first);
    var s := Stage(cfg, before, first, 1, n, n, Finished(ByExpiry));
    assert AllFinished(s);
  }

  lemma OneChunk<S>(cfg: Config<S>, before: seq<Op>, first: nat) returns (events: seq<Event>, later: seq<Op>)
    requires first < cfg.work.count
    ensures Execute(cfg, After(cfg, before, first), events) == After(cfg, later, first + cfg.work.chunk)
  {
    hide Step, StartChunk, IsTransient, Partly;
    var n := Width(cfg, first);
    var before' := before + Partly(first, n, n, Failed(RESET));
    var one := FirstAttempt(cfg, before, first, n);
    var two := SecondAttempt(cfg, before', first, n);
    Begins(cfg, before, first);
    Retry(cfg, before, first);
    Resolved(cfg, before', first);
    events := one + [Reject(|before|)] + two + [Resolve];
    later := before' + Partly(first, n, n, Finished(ByExpiry));
    var s := After(cfg, before, first);
    ExecuteAppend(cfg, s, one, [Reject(|before|)]);
    ExecuteOne(cfg, Stage(cfg, before, first, 0, n, n, Failed(RESET)), Reject(|before|));
    ExecuteAppend(cfg, s, one + [Reject(|before|)], two);
    ExecuteAppend(cfg, s, one + [Reject(|before|)] + two, [Resolve]);
    ExecuteOne(cfg, Stage(cfg, before', first, 1, n, n, Finished(ByExpiry)), Resolve);
  }

  lemma Begins<S>(cfg: Config<S>, before: seq<Op>, first: nat)
    requires first < cfg.work.count
    ensures After(cfg, before, first) == Stage(cfg, before, first, 0, 0, 0, Sending)
  {
    assert ChunkOps(first, cfg.work) == Partly(first, Width(cfg, first), 0, Sending);
  }

  lemma {:induction false} AllChunks<S>(cfg: Config<S>, before: seq<Op>, first: nat) returns (events: seq<Event>)
    ensures Execute(cfg, After(cfg, before, first), events).control.Returned?
    decreases if first < cfg.work.count then cfg.work.count - first else 0
  {
    hide Step;
    if first >= cfg.work.count {
      events := [];
    } else {
      var now, later := OneChunk(cfg, before, first);
      var rest := AllChunks(cfg, later, first + cfg.work.chunk);
      events := now + rest;
      ExecuteAppend(cfg, After(cfg, before, first), now, rest);
    }
  }

  /** The earlier transactions are mined first. */
  lemma {:induction false} EarlierMined<S>(cfg: Config<S>, already: nat) returns (events: seq<Event>)
    requires already <= cfg.base
    ensures Final(cfg, already, events) == After(cfg, [], 0)
    decreases cfg.base - already
  {
    if already == cfg.base {
      events := [];
      assert seq(already, n requires 0 <= n => Earlier(n)) == Ledger(cfg.base, cfg.base);
    } else {
      var rest := EarlierMined(cfg, already + 1);
      events := [Mine] + rest;
      MineEarlier(cfg, already);
      ExecuteOne(cfg, Init(cfg.base, cfg.work, already), Mine);
      ExecuteAppend(cfg, Init(cfg.base, cfg.work, already), [Mine], rest);
    }
  }

  lemma MineEarlier<S>(cfg: Config<S>, already: nat)
    requires already < cfg.base
    ensures Step(cfg, Init(cfg.base, cfg.work, already), Mine) == Init(cfg.base, cfg.work, already + 1)
  {
    var s, s' := Init(cfg.base, cfg.work, already), Init(cfg.base, cfg.work, already + 1);
    assert s.mined + [Earlier(already)] == s'.mined;
    assert s.pool - {already} == s'.pool;
  }

  /** Every batch has a run that returns, whatever its tasks do on chain: each response is lost, each
      transaction is mined all the same, and each retry is told that the nonce has expired. */
  lemma SomeRunReturns<S>(cfg: Config<S>, already: nat) returns (events: seq<Event>)
    requires already <= cfg.base
    ensures Final(cfg, already, events).control.Returned?
  {
    var earlier := EarlierMined(cfg, already);
    var rest := AllChunks(cfg, [], 0);
    ExecuteAppend(cfg, Init(cfg.base, cfg.work, already), earlier, rest);
    return earlier + rest;
  }

  ghost predicate ReturnMeansDone<S>(cfg: Config<S>, already: nat)
    requires already <= cfg.base
  {
    forall events | Final(cfg, already, events).control.Returned? :: AllDone(cfg, Final(cfg, already, events).mined)
  }

  /** Returning means that every task succeeded, for all runs of the batch, iff no task reverts when
      the batch is executed in list order. */
  lemma ReturnMeansDoneIff<S>(cfg: Config<S>, already: nat)
    requires already <= cfg.base
    ensures ReturnMeansDone(cfg, already) <==> NoneReverts(cfg)
  {
    hide Final, AllDone, NoneReverts;
    forall events | Final(cfg, already, events).control.Returned?
      ensures AllDone(cfg, Final(cfg, already, events).mined) <==> NoneReverts(cfg) {
      ReturnedBatch(cfg, already, events);
    }
    var some := SomeRunReturns(cfg, already);
    assert Final(cfg, already, some).control.Returned?;
  }

  /** A task that reverts in list order goes unnoticed in some run: the batch returns and the task is
      not done. */
  lemma RevertGoesUnnoticed<S>(cfg: Config<S>, already: nat, i: nat) returns (events: seq<Event>)
    requires already <= cfg.base && i < cfg.work.count && !SucceedsInOrder(cfg, i)
    ensures Final(cfg, already, events).control.Returned? && !Done(cfg, Final(cfg, already, events).mined, i)
  {
    events := SomeRunReturns(cfg, already);
    ReturnedTask(cfg, already, events, i);
  }

  // ---- A batch that returns although its only task reverted ----

  function AlwaysReverts(): Config<int> {
    Config(0, Work(1, CONFIG_CHUNK_SIZE), (s, tx) => (s, false), 0)
  }

  /** The response to the first request is lost, the transaction is mined and reverts, the retry
      is told that the nonce has expired. */
  function LostThenMined(): seq<Event> {
    [Deliver(0, Some(RESET), None), Mine, Reject(0), Deliver(1, None, None), Resolve]
  }

  lemma ExecuteFirst<S>(cfg: Config<S>, s: State, e: Event, rest: seq<Event>)
    ensures Execute(cfg, s, [e] + rest) == Execute(cfg, Step(cfg, s, e), rest)
  {
    ExecuteAppend(cfg, s, [e], rest);
    ExecuteOne(cfg, s, e);
  }

  lemma LostAndMined(cfg: Config<int>)
    requires cfg == AlwaysReverts()
    ensures
      var s1 := State([], map[0 := Task(0)], [Op(0, Failed(RESET))], Running(0, 0, 0));
      && Step(cfg, Init(0, cfg.work, 0), LostThenMined()[0]) == s1
      && Step(cfg, s1, Mine) == State([Task(0)], map[], [Op(0, Failed(RESET))], Running(0, 0, 0))
  {
    assert map[0 := Task(0)] - {0} == map[];
  }

  lemma RetriedTooLate(cfg: Config<int>)
    requires cfg == AlwaysReverts()
    ensures
      var s2 := State([Task(0)], map[], [Op(0, Failed(RESET))], Running(0, 0, 0));
      var s3 := State([Task(0)], map[], [Op(0, Failed(RESET)), Op(0, Sending)], Running(0, 1, 1));
      var s4 := State([Task(0)], map[], [Op(0, Failed(RESET)), Op(0, Finished(ByExpiry))], Running(0, 1, 1));
      && Step(cfg, s2, Reject(0)) == s3 && Step(cfg, s3, LostThenMined()[3]) == s4
      && Step(cfg, s4, Resolve) == s4.(control := Returned)
      && !Succeeded(cfg, s4.mined, 0)
  {
    hide IsTransient;
    ResetIsTransient();
  }

  lemma ReturnsDespiteRevert()
    ensures var s := Final(AlwaysReverts(), 0, LostThenMined());
      s.control.Returned? && s.mined == [Task(0)] && !Succeeded(AlwaysReverts(), s.mined, 0)
  {
    hide Step, Init;
    var cfg, m, es := AlwaysReverts(), RESET, LostThenMined();
    var s0 := Init(0, cfg.work, 0);
    var s1 := State([], map[0 := Task(0)], [Op(0, Failed(m))], Running(0, 0, 0));
    var s2 := State([Task(0)], map[], [Op(0, Failed(m))], Running(0, 0, 0));
    var s3 := State([Task(0)], map[], [Op(0, Failed(m)), Op(0, Sending)], Running(0, 1, 1));
    var s4 := State([Task(0)], map[], [Op(0, Failed(m)), Op(0, Finished(ByExpiry))], Running(0, 1, 1));
    LostAndMined(cfg);
    RetriedTooLate(cfg);
    assert es == [es[0]] + ([es[1]] + ([es[2]] + ([es[3]] + ([es[4]] + []))));
    ExecuteFirst(cfg, s0, es[0], [es[1]] + ([es[2]] + ([es[3]] + ([es[4]] + []))));
    ExecuteFirst(cfg, s1, es[1], [es[2]] + ([es[3]] + ([es[4]] + [])));
    ExecuteFirst(cfg, s2, es[2], [es[3]] + ([es[4]] + []));
    ExecuteFirst(cfg, s3, es[3], [es[4]] + []);
    ExecuteFirst(cfg, s4, es[4], []);
  }
}
