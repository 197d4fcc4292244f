/** What a batch does about an operation that failed: which failures it must raise, and which it
    retries, and how often. */
module BatchFailures {
  import opened Wrappers
  import opened Seqs
  import opened ConfigBatch

  predicate SaysAt(message: string, part: string, at: nat) {
    at + |part| <= |message| && message[at..at + |part|] == part
  }

  ghost predicate Says(message: string, part: string) {
    exists at: nat :: SaysAt(message, part, at)
  }

  /** The message names a failure of the connection. */
  ghost predicate OfConnection(message: string) {
    || Says(message, "other side closed")
    || Says(message, "ECONNRESET")
    || Says(message, "ECONNREFUSED")
    || Says(message, "ETIMEDOUT")
    || Says(message, "socket hang up")
    || Says(message, "network timeout")
    || Says(message, "getaddrinfo")
  }

  lemma SaysIsContains(message: string, part: string)
    ensures Says(message, part) <==> Contains(message, part)
  {
    if at: nat :| SaysAt(message, part, at) {
      assert message[at..][..|part|] == part;
      assert part <= message[at..];
    }
    if at :| 0 <= at <= |message| && part <= message[at..] {
      assert message[at..at + |part|] == message[at..][..|part|] == part;
      assert SaysAt(message, part, at);
    }
  }

  lemma TransientIff(message: string)
    ensures IsTransient(message) <==> OfConnection(message)
  {
    hide Says, Contains;
    forall i | 0 <= i < |TRANSIENT_MARKS|
      ensures Says(message, TRANSIENT_MARKS[i]) <==> Contains(message, TRANSIENT_MARKS[i]) {
      SaysIsContains(message, TRANSIENT_MARKS[i]);
    }
    assert TRANSIENT_MARKS[0] == "other side closed" && TRANSIENT_MARKS[1] == "ECONNRESET";
    assert TRANSIENT_MARKS[2] == "ECONNREFUSED" && TRANSIENT_MARKS[3] == "ETIMEDOUT";
    assert TRANSIENT_MARKS[4] == "socket hang up" && TRANSIENT_MARKS[5] == "network timeout";
    assert TRANSIENT_MARKS[6] == "getaddrinfo";
  }

  /** An operation of the current attempt has failed with that message. */
  predicate FailsNow(s: State, op: nat, message: string) {
    s.control.Running? && s.control.start <= op < |s.ops| && s.ops[op].status == Failed(message)
  }

  /** The chunk of the current attempt starts over: one more operation for each of its tasks, in order,
      whatever became of the others. */
  ghost predicate StartsOver(s: State, s': State)
    requires s.control.Running? && s.control.start <= |s.ops|
  {
    var width := |s.ops| - s.control.start;
    && s'.control == Running(s.control.first, s.control.attempt + 1, |s.ops|)
    && s'.mined == s.mined && s'.pool == s.pool && s.ops <= s'.ops && |s'.ops| == |s.ops| + width
    && (forall k :: |s.ops| <= k < |s'.ops| ==> s'.ops[k] == Op(s.ops[k - width].index, Sending))
  }

  lemma AfterReject<S>(cfg: Config<S>, already: nat, events: seq<Event>, op: nat)
    requires already <= cfg.base
    ensures Final(cfg, already, events + [Reject(op)]) == Step(cfg, Final(cfg, already, events), Reject(op))
  {
    assert (events + [Reject(op)])[..|events|] == events;
  }

  lemma {:induction false} ThrownForGood<S>(cfg: Config<S>, already: nat, events: seq<Event>, more: seq<Event>)
    requires already <= cfg.base && Final(cfg, already, events).control.Threw?
    ensures Final(cfg, already, events + more).control == Final(cfg, already, events).control
  {
    hide Init;
    if more == [] {
      assert events + more == events;
    } else {
      var n := |more| - 1;
      ThrownForGood(cfg, already, events, more[..n]);
      assert (events + more)[..|events + more| - 1] == events + more[..n];
    }
  }

  /** A failure of the current attempt that is not of the connection, or that comes after three retries,
      makes the batch throw that very message, for good: no retry, no later success. */
  lemma RealFailureThrows<S>(cfg: Config<S>, already: nat, events: seq<Event>, op: nat, message: string,
                             more: seq<Event>)
    requires already <= cfg.base && FailsNow(Final(cfg, already, events), op, message)
    requires !OfConnection(message) || Final(cfg, already, events).control.attempt == 3
    ensures Final(cfg, already, events + [Reject(op)] + more).control
         == Threw(message, Final(cfg, already, events).control.attempt)
  {
    hide Final, OfConnection, IsTransient;
    TransientIff(message);
    AfterReject(cfg, already, events, op);
    ThrownForGood(cfg, already, events + [Reject(op)], more);
  }

  /** A failure of the connection, with fewer than three retries behind it, starts the chunk over. */
  lemma ConnectionFailureRetries<S>(cfg: Config<S>, already: nat, events: seq<Event>, op: nat, message: string)
    requires already <= cfg.base && FailsNow(Final(cfg, already, events), op, message)
    requires OfConnection(message) && Final(cfg, already, events).control.attempt < 3
    ensures StartsOver(Final(cfg, already, events), Final(cfg, already, events + [Reject(op)]))
  {
    hide Final, OfConnection, IsTransient;
    TransientIff(message);
    AfterReject(cfg, already, events, op);
    EveryRun(cfg, already, events);
    var s := Final(cfg, already, events);
    RunningWidth(cfg, s);
  }

  lemma RunningWidth<S>(cfg: Config<S>, s: State)
    requires Inv(cfg, s) && s.control.Running?
    ensures s.control.first < cfg.work.count
    ensures |s.ops| - s.control.start == ChunkEnd(s.control.first, cfg.work) - s.control.first
    ensures forall k :: s.control.start <= k < |s.ops| ==> s.ops[k].index == s.control.first + (k - s.control.start)
  {
  }

  /** A request and a wait can fail with any message; the receipt of a mined transaction tells success or a
      revert; and each concerns that operation alone. */
  lemma OperationsFail<S>(cfg: Config<S>, already: nat, events: seq<Event>, op: nat, message: string)
    requires already <= cfg.base && op < |Final(cfg, already, events).ops|
    ensures
      var s := Final(cfg, already, events);
      var i := s.ops[op].index;
      && (s.ops[op].status == Sending ==>
            Final(cfg, already, events + [LoseRequest(op, message)]) == s.(ops := s.ops[op := Op(i, Failed(message))]))
      && (s.ops[op].status == Waiting ==>
            Final(cfg, already, events + [LoseWait(op, message)]) == s.(ops := s.ops[op := Op(i, Failed(message))]))
      && (s.ops[op].status == Waiting && cfg.base + i < |s.mined| ==>
            Final(cfg, already, events + [Receive(op, message)])
            == s.(ops := s.ops[op := Op(i, if SucceedsInOrder(cfg, i) then Finished(ByReceipt) else Failed(message))]))
  {
    hide Init, SucceedsInOrder;
    var s := Final(cfg, already, events);
    assert (events + [LoseRequest(op, message)])[..|events|] == events;
    assert (events + [LoseWait(op, message)])[..|events|] == events;
    assert (events + [Receive(op, message)])[..|events|] == events;
    EveryRun(cfg, already, events);
    MinedInOrder(cfg, s, s.ops[op].index);
  }

  lemma MinedInOrder<S>(cfg: Config<S>, s: State, i: nat)
    requires Inv(cfg, s)
    ensures cfg.base + i < |s.mined| ==> (Succeeded(cfg, s.mined, cfg.base + i) <==> SucceedsInOrder(cfg, i))
  {
    hide ControlInv, Budget, OpInv;
    if cfg.base + i < |s.mined| {
      LedgerIsSequential(cfg, s.mined[..cfg.base + i], i);
    }
  }

  /** A request that finds its nonce in the pool may be refused: then the batch throws the refusal, unless it
      reads like a failure of the connection, although the transaction stays and will be mined. Not refused,
      it takes the pooled copy's place and is waited for. */
  lemma RefusedOrReplaced<S>(cfg: Config<S>, already: nat, events: seq<Event>, op: nat, refusal: string)
    requires already <= cfg.base
    requires var s := Final(cfg, already, events);
      && s.control.Running? && s.control.start <= op < |s.ops| && s.ops[op].status == Sending
      && |s.mined| <= cfg.base + s.ops[op].index && cfg.base + s.ops[op].index in s.pool
    ensures
      var s := Final(cfg, already, events);
      var refused := Final(cfg, already, events + [Deliver(op, None, Some(refusal))]);
      var replaced := Final(cfg, already, events + [Deliver(op, None, None)]);
      && FailsNow(refused, op, refusal) && refused.pool == s.pool
      && replaced.ops[op] == Op(s.ops[op].index, Waiting)
      && replaced.pool == s.pool[cfg.base + s.ops[op].index := Task(s.ops[op].index)]
  {
    hide Init;
    assert (events + [Deliver(op, None, Some(refusal))])[..|events|] == events;
    assert (events + [Deliver(op, None, None)])[..|events|] == events;
  }

  // ---- Chunks ----

  ghost predicate InTwenties(work: Work, s: State) {
    s.control.Running? ==>
      && s.control.first % 20 == 0 && s.control.first < work.count
      && |s.ops| - s.control.start == if s.control.first + 20 < work.count then 20 else work.count - s.control.first
  }

  lemma StartInTwenties(s: State, first: nat, attempt: nat, work: Work)
    requires work.chunk == CONFIG_CHUNK_SIZE && first % 20 == 0
    ensures InTwenties(work, StartChunk(s, first, attempt, work))
  {
  }

  /** Configurations go out twenty at a time, the last chunk apart, and always from a multiple of twenty. */
  lemma {:induction false} ChunksOfTwenty<S>(cfg: Config<S>, already: nat, events: seq<Event>)
    requires already <= cfg.base && cfg.work.chunk == CONFIG_CHUNK_SIZE
    ensures InTwenties(cfg.work, Final(cfg, already, events))
  {
    if events == [] {
      StartInTwenties(State(seq(already, n requires 0 <= n => Earlier(n)),
                            map n: nat | already <= n < cfg.base :: Earlier(n), [], Returned), 0, 0, cfg.work);
    } else {
      var s, e := Final(cfg, already, events[..|events| - 1]), events[|events| - 1];
      ChunksOfTwenty(cfg, already, events[..|events| - 1]);
      StepInTwenties(cfg, s, e);
    }
  }

  lemma StepInTwenties<S>(cfg: Config<S>, s: State, e: Event)
    requires cfg.work.chunk == CONFIG_CHUNK_SIZE && InTwenties(cfg.work, s)
    ensures InTwenties(cfg.work, Step(cfg, s, e))
  {
    hide StartChunk, IsTransient, AllFinished;
    if s.control.Running? {
      StartInTwenties(s, s.control.first, s.control.attempt + 1, cfg.work);
      StartInTwenties(s, s.control.first + cfg.work.chunk, 0, cfg.work);
    }
  }
}
