/** What a run of the protocol looks like from outside: the reads, sends and waits it makes, with their
    answers. Every environment can be overheard without changing the run, so what is stated here on the
    calls alone holds of every run. */
module NonceCalls {
  import opened Wrappers
  import opened Seqs
  import opened NonceProtocol

  datatype Call =
    | ReadCall(read: Result<nat, RpcError>)
    | SendCall(nonce: nat, index: nat, sent: Sent)
    | WaitCall(nonce: nat, index: nat, waited: Waited)

  function Overheard<S>(env: Env<S>): Env<(S, seq<Call>)> {
    Env((w: (S, seq<Call>)) => var (s, read) := env.read(w.0); ((s, w.1 + [ReadCall(read)]), read),
        (w: (S, seq<Call>)) => env.order(w.0),
        (w: (S, seq<Call>), nonce, index) =>
          var (s, sent) := env.send(w.0, nonce, index); ((s, w.1 + [SendCall(nonce, index, sent)]), sent),
        (w: (S, seq<Call>), nonce, index) =>
          var (s, waited) := env.wait(w.0, nonce, index); ((s, w.1 + [WaitCall(nonce, index, waited)]), waited))
  }

  // ---- Which rejections are about the nonce ----

  /** The same letter, upper or lower case; `l` is a lower-case letter or no letter. */
  predicate SameLetter(c: char, l: char) {
    c == l || ('A' <= c <= 'Z' && c as int - 'A' as int + 'a' as int == l as int)
  }

  ghost predicate SaysAt(text: string, at: nat, part: string) {
    at + |part| <= |text| && forall k :: 0 <= k < |part| ==> SameLetter(text[at + k], part[k])
  }

  /** The text holds the part, letter case aside. */
  ghost predicate Says(text: string, part: string) {
    exists at: nat :: SaysAt(text, at, part)
  }

  /** The rejection says that the nonce is not ours to use: the text of its fields, joined by blanks,
      holds one of the four wordings. */
  ghost predicate AboutNonce(e: RpcError) {
    var text := e.code + " " + e.message + " " + e.shortMessage + " " + e.infoMessage + " " + e.infoJson;
    || Says(text, "nonce_expired")
    || Says(text, "nonce too low")
    || Says(text, "nonce has already been used")
    || Says(text, "replacement transaction underpriced")
  }

  lemma {:induction false} LowerAt(s: string, i: nat)
    requires i < |s|
    ensures Lower(s)[i] == if 'A' <= s[i] <= 'Z' then s[i] - 'A' + 'a' else s[i]
  {
    if i < |s| - 1 {
      LowerAt(s[..|s| - 1], i);
    }
  }

  predicate NoCapitals(part: string) {
    forall k :: 0 <= k < |part| ==> !('A' <= part[k] <= 'Z')
  }

  lemma SaysIsContains(text: string, part: string)
    requires NoCapitals(part)
    ensures Says(text, part) <==> Contains(Lower(text), part)
  {
    forall i: nat | i < |text| { LowerAt(text, i); }
    if at: nat :| SaysAt(text, at, part) {
      assert part <= Lower(text)[at..];
    }
    if at :| 0 <= at <= |Lower(text)| && part <= Lower(text)[at..] {
      assert forall k :: 0 <= k < |part| ==> part[k] == Lower(text)[at..][k] == Lower(text)[at + k];
      assert SaysAt(text, at, part);
    }
  }

  /** Exactly those rejections are taken for collisions. */
  lemma CollisionIff(e: RpcError)
    ensures IsNonceCollision(e) <==> AboutNonce(e)
  {
    hide Contains, Lower, Says;
    var text := e.code + " " + e.message + " " + e.shortMessage + " " + e.infoMessage + " " + e.infoJson;
    forall i | 0 <= i < 4 ensures Says(text, COLLISION_TEXTS[i]) <==> Contains(Lower(text), COLLISION_TEXTS[i]) {
      SaysIsContains(text, COLLISION_TEXTS[i]);
    }
    assert COLLISION_TEXTS[0] == "nonce_expired" && COLLISION_TEXTS[1] == "nonce too low";
    assert COLLISION_TEXTS[2] == "nonce has already been used";
    assert COLLISION_TEXTS[3] == "replacement transaction underpriced";
  }

  /** Whichever field holds one of the wordings. */
  lemma AnyFieldCounts(e: RpcError, field: string, part: string)
    requires field in [e.code, e.message, e.shortMessage, e.infoMessage, e.infoJson] && Says(field, part)
    requires part in ["nonce_expired", "nonce too low", "nonce has already been used",
                      "replacement transaction underpriced"]
    ensures AboutNonce(e)
  {
    hide Lower;
    var pre, post := FieldInside(e, field);
    var at: nat :| SaysAt(field, at, part);
    assert SaysAt(pre + field + post, |pre| + at, part);
  }

  // ---- The calls of one attempt ----

  /** A read that failed, or an answer that is no collision: what the protocol must raise. */
  ghost predicate Real(c: Call) {
    match c
    case ReadCall(read) => read.Failure?
    case SendCall(_, _, sent) => sent.Rejected? && !AboutNonce(sent.error)
    case WaitCall(_, _, waited) => waited.WaitRejected? && !AboutNonce(waited.error)
  }

  /** A send or a wait answered by a collision. */
  ghost predicate Collision(c: Call, index: nat) {
    match c
    case ReadCall(_) => false
    case SendCall(_, i, sent) => i == index && sent.Rejected? && AboutNonce(sent.error)
    case WaitCall(_, i, waited) => i == index && waited.WaitRejected? && AboutNonce(waited.error)
  }

  function ErrorOf(c: Call): Option<RpcError> {
    match c
    case ReadCall(Failure(e)) => Some(e)
    case SendCall(_, _, Rejected(e)) => Some(e)
    case WaitCall(_, _, WaitRejected(e)) => Some(e)
    case _ => None
  }

  /** Every outstanding index is sent, each once, on consecutive nonces in the order of the indices. */
  ghost predicate SendsOnce(sends: seq<Call>, nonce: nat, outstanding: seq<nat>) {
    && |sends| == |outstanding|
    && (forall q :: 0 <= q < |sends| ==> sends[q].SendCall?)
    && (forall q :: 0 <= q < |sends| ==>
          nonce <= sends[q].nonce < nonce + |outstanding| && sends[q].index == outstanding[sends[q].nonce - nonce])
    && (forall p, q :: 0 <= p < q < |sends| ==> sends[p].nonce != sends[q].nonce)
    && (forall n :: nonce <= n < nonce + |outstanding| ==> SentOn(sends, n))
  }

  ghost predicate SentOn(sends: seq<Call>, n: nat)
    requires forall q :: 0 <= q < |sends| ==> sends[q].SendCall?
  {
    exists q :: 0 <= q < |sends| && sends[q].nonce == n
  }

  /** Exactly what was accepted is waited for, in the order of the nonces. */
  ghost predicate WaitsFor(waits: seq<Call>, sends: seq<Call>)
    requires forall q :: 0 <= q < |sends| ==> sends[q].SendCall?
  {
    && (forall q :: 0 <= q < |waits| ==>
          waits[q].WaitCall? && SendCall(waits[q].nonce, waits[q].index, Accepted) in sends)
    && (forall q :: 0 <= q < |sends| && sends[q].sent.Accepted? ==>
          exists p :: 0 <= p < |waits| && waits[p].nonce == sends[q].nonce)
    && (forall p, q :: 0 <= p < q < |waits| ==> waits[p].nonce < waits[q].nonce)
  }

  ghost predicate NoReadIn(calls: seq<Call>) {
    forall q :: 0 <= q < |calls| ==> !calls[q].ReadCall?
  }

  /** `e` is the real failure among the calls that has the lowest nonce. */
  ghost predicate FirstReal(calls: seq<Call>, e: RpcError)
    requires NoReadIn(calls)
  {
    exists q :: 0 <= q < |calls| && FirstRealAt(calls, e, q)
  }

  ghost predicate FirstRealAt(calls: seq<Call>, e: RpcError, q: nat)
    requires q < |calls| && NoReadIn(calls)
  {
    && Real(calls[q]) && ErrorOf(calls[q]) == Some(e)
    && forall p :: 0 <= p < |calls| && Real(calls[p]) ==> calls[q].nonce <= calls[p].nonce
  }

  /** The indices of the collisions, each once: those of sends first, then those of waits, by nonce. */
  ghost predicate GoesOnWith(calls: seq<Call>, indices: seq<nat>)
    requires NoReadIn(calls)
  {
    && NoDup(indices)
    && (forall i :: i in indices <==> exists q :: 0 <= q < |calls| && Collision(calls[q], i))
    && forall j, k, p, q | 0 <= j < k < |indices| && 0 <= p < |calls| && 0 <= q < |calls|
         && Collision(calls[p], indices[j]) && Collision(calls[q], indices[k]) ::
         if calls[p].SendCall? == calls[q].SendCall? then calls[p].nonce < calls[q].nonce else calls[p].SendCall?
  }

  /** A transaction seen mined gets the receipt of that wait; nothing else changes. */
  ghost predicate Receipted(waits: seq<Call>, before: seq<Option<Receipt>>, after: seq<Option<Receipt>>, attempt: nat)
    requires forall q :: 0 <= q < |waits| ==> waits[q].WaitCall?
  {
    && |after| == |before|
    && (forall q :: 0 <= q < |waits| && waits[q].waited.Mined? ==>
          waits[q].index < |after| && after[waits[q].index] == Some(Receipt(attempt, waits[q].nonce)))
    && forall i :: 0 <= i < |before| ==>
         after[i] == before[i] || exists q :: 0 <= q < |waits| && waits[q].waited.Mined? && waits[q].index == i
  }

  ghost predicate NoneReal(calls: seq<Call>) {
    forall q :: 0 <= q < |calls| ==> !Real(calls[q])
  }

  /** What an attempt over these indices says and does: it reads; sends; stops at a real rejection
      before it waits; waits; stops at a real failure; returns if nothing collided; and otherwise goes
      on with exactly the indices that did. A receipt is that of the wait that saw the transaction
      mined. */
  ghost predicate AttemptHeard<S>(calls: seq<Call>, run: Run<S>, run': Run<S>, stop: Option<Outcome>, attempt: nat) {
    && calls != [] && calls[0].ReadCall?
    && match calls[0].read
       case Failure(e) => calls == [calls[0]] && stop == Some(Threw(e))
       case Success(nonce) =>
         var n := |run.outstanding|;
         && n < |calls| && SendsOnce(calls[1..n + 1], nonce, run.outstanding)
         && (forall q :: n < q < |calls| ==> calls[q].WaitCall?)
         && if !NoneReal(calls[1..n + 1]) then
              && |calls| == n + 1
              && exists e :: stop == Some(Threw(e)) && FirstReal(calls[1..n + 1], e)
            else
              && WaitsFor(calls[n + 1..], calls[1..n + 1])
              && if !NoneReal(calls[n + 1..]) then
                   exists e :: stop == Some(Threw(e)) && FirstReal(calls[n + 1..], e)
                 else
                   && GoesOnWith(calls[1..], run'.outstanding)
                   && Receipted(calls[n + 1..], run.receipts, run'.receipts, attempt)
                   && stop == if run'.outstanding == [] then Some(Returned(run'.receipts)) else None
  }

  // ---- Overhearing the sends ----

  function SendCalls(nonce: nat, indices: seq<nat>, arrived: seq<nat>, answers: map<nat, Sent>): seq<Call>
    requires forall a :: 0 <= a < |arrived| ==> arrived[a] < |indices| && arrived[a] in answers
  {
    seq(|arrived|, a requires 0 <= a < |arrived| =>
      SendCall(nonce + arrived[a], indices[arrived[a]], answers[arrived[a]]))
  }

  lemma {:induction false} DeliverOverheard<S>(env: Env<S>, w: (S, seq<Call>), nonce: nat, indices: seq<nat>,
                                               arrived: seq<nat>)
    requires forall a :: 0 <= a < |arrived| ==> arrived[a] < |indices|
    requires NoDup(arrived)
    ensures
      var (w', answers) := Deliver(Overheard(env), w, nonce, indices, arrived);
      && Deliver(env, w.0, nonce, indices, arrived) == (w'.0, answers)
      && w'.1 == w.1 + SendCalls(nonce, indices, arrived, answers)
  {
    hide Deliver;
    if arrived == [] {
      NothingDelivered(env, w, nonce, indices);
    } else {
      var init, p := arrived[..|arrived| - 1], arrived[|arrived| - 1];
      assert arrived == init + [p];
      DeliverOverheard(env, w, nonce, indices, init);
      var (w1, answers) := Deliver(Overheard(env), w, nonce, indices, init);
      DeliverLast(env, w.0, nonce, indices, init, p);
      DeliverLast(Overheard(env), w, nonce, indices, init, p);
      var (s2, sent) := env.send(w1.0, nonce + p, indices[p]);
      assert p !in init;
      OneMoreSend(nonce, indices, init, p, answers, sent);
    }
  }

  lemma NothingDelivered<S>(env: Env<S>, w: (S, seq<Call>), nonce: nat, indices: seq<nat>)
    ensures Deliver(Overheard(env), w, nonce, indices, []) == (w, map[])
    ensures Deliver(env, w.0, nonce, indices, []) == (w.0, map[])
    ensures SendCalls(nonce, indices, [], map[]) == []
  {
  }

  lemma DeliverLast<S>(env: Env<S>, s: S, nonce: nat, indices: seq<nat>, init: seq<nat>, p: nat)
    requires p < |indices| && forall i :: 0 <= i < |init| ==> init[i] < |indices|
    ensures
      var (s1, answers) := Deliver(env, s, nonce, indices, init);
      var (s2, sent) := env.send(s1, nonce + p, indices[p]);
      Deliver(env, s, nonce, indices, init + [p]) == (s2, answers[p := sent])
  {
    assert (init + [p])[..|init|] == init;
  }

  lemma OneMoreSend(nonce: nat, indices: seq<nat>, init: seq<nat>, p: nat, answers: map<nat, Sent>, sent: Sent)
    requires p < |indices| && p !in init
    requires forall a :: 0 <= a < |init| ==> init[a] < |indices| && init[a] in answers
    ensures SendCalls(nonce, indices, init + [p], answers[p := sent])
         == SendCalls(nonce, indices, init, answers) + [SendCall(nonce + p, indices[p], sent)]
  {
  }

  /** The records of the sends tell the answers the sends were given. */
  ghost predicate SendsFiled(sent: seq<Record>, sends: seq<Call>, attempt: nat, nonce: nat, indices: seq<nat>) {
    && Aligned(sent, attempt, nonce, indices) && SendsOnce(sends, nonce, indices)
    && forall q :: 0 <= q < |sends| ==> sent[sends[q].nonce - nonce].fate == SendFate(sends[q].sent)
  }

  lemma SendAllOverheard<S>(env: Env<S>, w: (S, seq<Call>), attempt: nat, nonce: nat, indices: seq<nat>)
    returns (sends: seq<Call>)
    ensures
      var (w', sent) := SendAll(Overheard(env), w, attempt, nonce, indices);
      && SendAll(env, w.0, attempt, nonce, indices) == (w'.0, sent)
      && w'.1 == w.1 + sends && SendsFiled(sent, sends, attempt, nonce, indices)
  {
    hide Deliver, IsOrder, SendsOnce;
    var order := Arrivals(Overheard(env), w, |indices|);
    ArrivalsOverheard(env, w, |indices|);
    DeliverOverheard(env, w, nonce, indices, order);
    var (w', answers) := Deliver(Overheard(env), w, nonce, indices, order);
    sends := SendCalls(nonce, indices, order, answers);
    SendsCover(nonce, indices, order, answers);
  }

  lemma ArrivalsOverheard<S>(env: Env<S>, w: (S, seq<Call>), n: nat)
    ensures var order := Arrivals(Overheard(env), w, n);
      && Arrivals(env, w.0, n) == order && IsOrder(order, n) && NoDup(order)
      && forall i :: 0 <= i < |order| ==> order[i] < n
  {
  }

  lemma SendsCover(nonce: nat, indices: seq<nat>, order: seq<nat>, answers: map<nat, Sent>)
    requires IsOrder(order, |indices|) && forall p :: p in order ==> p in answers
    ensures SendsOnce(SendCalls(nonce, indices, order, answers), nonce, indices)
  {
    var sends := SendCalls(nonce, indices, order, answers);
    DistinctCount(order);
    DistinctCount(InTurn(|indices|));
    InTurnIsOrder(|indices|);
    assert forall p :: p in order <==> p in ToSet(order);
    assert ToSet(order) == ToSet(InTurn(|indices|));
    forall n | nonce <= n < nonce + |indices| ensures SentOn(sends, n) {
      assert n - nonce in order;
      var q :| 0 <= q < |order| && order[q] == n - nonce;
      assert sends[q].nonce == n;
    }
  }

  lemma {:induction false} DistinctCount(s: seq<nat>)
    requires NoDup(s)
    ensures |ToSet(s)| == |s|
  {
    if s == [] {
    } else {
      var init, last := s[..|s| - 1], s[|s| - 1];
      DistinctCount(init);
      assert s == init + [last];
      assert ToSet(s) == ToSet(init) + {last} && last !in ToSet(init);
    }
  }

  // ---- Overhearing the waits ----

  /** The settled records tell the answers the waits were given, in the order of the records. */
  ghost predicate WaitsFiled(settled: seq<Record>, sent: seq<Record>, waits: seq<Call>, at: seq<nat>) {
    && |settled| == |sent| && |at| == |waits|
    && (forall q :: 0 <= q < |waits| ==> at[q] < |sent| && sent[at[q]].fate.Pending? && waits[q].WaitCall?)
    && (forall q :: 0 <= q < |waits| ==>
          waits[q].nonce == sent[at[q]].nonce && waits[q].index == sent[at[q]].index)
    && (forall q :: 0 <= q < |waits| ==> settled[at[q]] == sent[at[q]].(fate := WaitFate(waits[q].waited)))
    && (forall p, q :: 0 <= p < q < |at| ==> at[p] < at[q])
    && (forall k :: 0 <= k < |sent| ==> if sent[k].fate.Pending? then k in at else settled[k] == sent[k])
  }

  lemma {:induction false} WaitAllOverheard<S>(env: Env<S>, w: (S, seq<Call>), sent: seq<Record>)
    returns (waits: seq<Call>, at: seq<nat>)
    ensures
      var (w', settled) := WaitAll(Overheard(env), w, sent);
      && WaitAll(env, w.0, sent) == (w'.0, settled)
      && w'.1 == w.1 + waits && WaitsFiled(settled, sent, waits, at)
  {
    if sent == [] {
      waits, at := [], [];
    } else {
      var k := |sent| - 1;
      waits, at := WaitAllOverheard(env, w, sent[..k]);
      var (w1, settled) := WaitAll(Overheard(env), w, sent[..k]);
      if sent[k].fate.Pending? {
        var (s2, waited) := env.wait(w1.0, sent[k].nonce, sent[k].index);
        var call := WaitCall(sent[k].nonce, sent[k].index, waited);
        MoreFiled(settled, sent, waits, at, call);
        waits, at := waits + [call], at + [k];
      } else {
        StillFiled(settled, sent, waits, at);
      }
    }
  }

  lemma MoreFiled(settled: seq<Record>, sent: seq<Record>, waits: seq<Call>, at: seq<nat>, call: Call)
    requires sent != [] && WaitsFiled(settled, sent[..|sent| - 1], waits, at)
    requires call.WaitCall? && sent[|sent| - 1].fate.Pending?
    requires call.nonce == sent[|sent| - 1].nonce && call.index == sent[|sent| - 1].index
    ensures WaitsFiled(settled + [sent[|sent| - 1].(fate := WaitFate(call.waited))], sent, waits + [call],
                       at + [|sent| - 1])
  {
    hide WaitFate;
    var more := at + [|sent| - 1];
    assert more[|at|] == |sent| - 1;
    forall k | 0 <= k < |sent| && sent[k].fate.Pending? ensures k in more {
      if k < |sent| - 1 {
        assert sent[..|sent| - 1][k].fate.Pending?;
        assert k in at;
      }
    }
  }

  lemma StillFiled(settled: seq<Record>, sent: seq<Record>, waits: seq<Call>, at: seq<nat>)
    requires sent != [] && WaitsFiled(settled, sent[..|sent| - 1], waits, at)
    requires !sent[|sent| - 1].fate.Pending?
    ensures WaitsFiled(settled + [sent[|sent| - 1]], sent, waits, at)
  {
    hide WaitFate;
    forall k | 0 <= k < |sent| && sent[k].fate.Pending? ensures k in at {
      assert sent[..|sent| - 1][k].fate.Pending?;
    }
  }

  // ---- What the records say about the calls ----

  lemma FatesTell(sent: Sent, waited: Waited)
    ensures SendFate(sent) == if sent.Accepted? then Pending
                              else if AboutNonce(sent.error) then Taken else Broken(sent.error)
    ensures WaitFate(waited) == if waited.Mined? then Confirmed
                                else if AboutNonce(waited.error) then Replaced else Broken(waited.error)
  {
    hide IsNonceCollision, AboutNonce;
    if sent.Rejected? {
      CollisionIff(sent.error);
    }
    if waited.WaitRejected? {
      CollisionIff(waited.error);
    }
  }

  lemma SendsTell(sent: seq<Record>, sends: seq<Call>, attempt: nat, nonce: nat, indices: seq<nat>, q: nat)
    requires SendsFiled(sent, sends, attempt, nonce, indices) && q < |sends|
    ensures var k := sends[q].nonce - nonce;
      && 0 <= k < |sent| && sent[k].nonce == sends[q].nonce && sent[k].index == sends[q].index
      && (Real(sends[q]) <==> sent[k].fate.Broken?)
      && (Real(sends[q]) ==> ErrorOf(sends[q]) == Some(sent[k].fate.error))
      && (Collision(sends[q], sends[q].index) <==> sent[k].fate.Taken?)
      && (sends[q].sent.Accepted? <==> sent[k].fate.Pending?)
      && !sent[k].fate.Replaced? && !sent[k].fate.Confirmed?
  {
    hide AboutNonce, SendFate;
    FatesTell(sends[q].sent, Waited.Mined);
  }

  /** The call behind a record. */
  lemma CallOf(sent: seq<Record>, sends: seq<Call>, attempt: nat, nonce: nat, indices: seq<nat>, k: nat)
    returns (q: nat)
    requires SendsFiled(sent, sends, attempt, nonce, indices) && k < |sent|
    ensures q < |sends| && sends[q].nonce == nonce + k
  {
    assert SentOn(sends, nonce + k);
    q :| 0 <= q < |sends| && sends[q].nonce == nonce + k;
  }

  lemma SendsReal(sent: seq<Record>, sends: seq<Call>, attempt: nat, nonce: nat, indices: seq<nat>)
    requires SendsFiled(sent, sends, attempt, nonce, indices)
    ensures FirstError(sent).None? <==> NoneReal(sends)
    ensures FirstError(sent).Some? ==> FirstReal(sends, FirstError(sent).value)
  {
    hide Real, SendFate, FirstError;
    if FirstError(sent).Some? {
      var k := FirstErrorIs(sent);
      var q := CallOf(sent, sends, attempt, nonce, indices, k);
      SendsTell(sent, sends, attempt, nonce, indices, q);
      forall p | 0 <= p < |sends| && Real(sends[p]) ensures sends[q].nonce <= sends[p].nonce {
        SendsTell(sent, sends, attempt, nonce, indices, p);
      }
      assert FirstRealAt(sends, FirstError(sent).value, q);
    } else {
      FirstErrorNone(sent);
      forall p | 0 <= p < |sends| ensures !Real(sends[p]) {
        SendsTell(sent, sends, attempt, nonce, indices, p);
      }
    }
  }

  lemma WaitsTell(settled: seq<Record>, sent: seq<Record>, waits: seq<Call>, at: seq<nat>, q: nat)
    requires WaitsFiled(settled, sent, waits, at) && q < |waits|
    ensures var k := at[q];
      && k < |settled| && settled[k].nonce == waits[q].nonce && settled[k].index == waits[q].index
      && (Real(waits[q]) <==> settled[k].fate.Broken?)
      && (Real(waits[q]) ==> ErrorOf(waits[q]) == Some(settled[k].fate.error))
      && (Collision(waits[q], waits[q].index) <==> settled[k].fate.Replaced?)
      && (waits[q].waited.Mined? <==> settled[k].fate.Confirmed?)
      && !settled[k].fate.Taken? && !settled[k].fate.Pending?
  {
    hide AboutNonce, WaitFate;
    FatesTell(Accepted, waits[q].waited);
  }

  lemma WaitsReal(settled: seq<Record>, sent: seq<Record>, waits: seq<Call>, at: seq<nat>, attempt: nat, nonce: nat,
                  indices: seq<nat>)
    requires WaitsFiled(settled, sent, waits, at) && Aligned(sent, attempt, nonce, indices)
    requires FirstError(sent).None?
    ensures FirstError(settled).None? <==> NoneReal(waits)
    ensures FirstError(settled).Some? ==> FirstReal(waits, FirstError(settled).value)
  {
    hide Real, WaitFate, FirstError, Aligned;
    FirstErrorNone(sent);
    assert forall k :: 0 <= k < |sent| ==> sent[k] in sent;
    if FirstError(settled).Some? {
      var k := FirstErrorIs(settled);
      var q :| 0 <= q < |at| && at[q] == k;
      WaitsTell(settled, sent, waits, at, q);
      forall p | 0 <= p < |waits| && Real(waits[p]) ensures waits[q].nonce <= waits[p].nonce {
        WaitsTell(settled, sent, waits, at, p);
        NoncesInOrder(sent, attempt, nonce, indices, at[q], at[p]);
      }
      assert FirstRealAt(waits, FirstError(settled).value, q);
    } else {
      FirstErrorNone(settled);
      forall p | 0 <= p < |waits| ensures !Real(waits[p]) {
        WaitsTell(settled, sent, waits, at, p);
      }
    }
  }

  lemma NoncesInOrder(sent: seq<Record>, attempt: nat, nonce: nat, indices: seq<nat>, j: nat, k: nat)
    requires Aligned(sent, attempt, nonce, indices) && j < |sent| && k < |sent|
    ensures sent[j].nonce <= sent[k].nonce <==> j <= k
  {
  }

  lemma WaitsForAccepted(sent: seq<Record>, sends: seq<Call>, settled: seq<Record>, waits: seq<Call>, at: seq<nat>,
                         attempt: nat, nonce: nat, indices: seq<nat>)
    requires SendsFiled(sent, sends, attempt, nonce, indices) && WaitsFiled(settled, sent, waits, at)
    ensures WaitsFor(waits, sends)
  {
    hide SendsFiled, WaitsFiled, SendsOnce, Aligned;
    FiledSends(sent, sends, attempt, nonce, indices);
    FiledWaits(settled, sent, waits, at);
    forall q | 0 <= q < |waits| ensures SendCall(waits[q].nonce, waits[q].index, Accepted) in sends {
      AwaitedWasAccepted(sent, sends, settled, waits, at, attempt, nonce, indices, q);
    }
    forall q | 0 <= q < |sends| && sends[q].sent.Accepted?
      ensures exists p :: 0 <= p < |waits| && waits[p].nonce == sends[q].nonce {
      var p := AcceptedIsAwaited(sent, sends, settled, waits, at, attempt, nonce, indices, q);
    }
    WaitsInOrder(sent, settled, waits, at, attempt, nonce, indices);
  }

  lemma AwaitedWasAccepted(sent: seq<Record>, sends: seq<Call>, settled: seq<Record>, waits: seq<Call>, at: seq<nat>,
                           attempt: nat, nonce: nat, indices: seq<nat>, q: nat)
    requires SendsFiled(sent, sends, attempt, nonce, indices) && WaitsFiled(settled, sent, waits, at) && q < |waits|
    ensures waits[q].WaitCall? && SendCall(waits[q].nonce, waits[q].index, Accepted) in sends
  {
    hide SendFate, WaitFate;
    var p := CallOf(sent, sends, attempt, nonce, indices, at[q]);
    SendsTell(sent, sends, attempt, nonce, indices, p);
    assert sends[p] == SendCall(waits[q].nonce, waits[q].index, Accepted);
  }

  lemma AcceptedIsAwaited(sent: seq<Record>, sends: seq<Call>, settled: seq<Record>, waits: seq<Call>, at: seq<nat>,
                          attempt: nat, nonce: nat, indices: seq<nat>, q: nat)
    returns (p: nat)
    requires SendsFiled(sent, sends, attempt, nonce, indices) && WaitsFiled(settled, sent, waits, at)
    requires q < |sends| && sends[q].SendCall? && sends[q].sent.Accepted?
    ensures p < |waits| && waits[p].WaitCall? && waits[p].nonce == sends[q].nonce
  {
    hide SendFate, WaitFate, SendsOnce;
    SendsTell(sent, sends, attempt, nonce, indices, q);
    var k := sends[q].nonce - nonce;
    assert k in at;
    p :| 0 <= p < |at| && at[p] == k;
  }

  lemma WaitsInOrder(sent: seq<Record>, settled: seq<Record>, waits: seq<Call>, at: seq<nat>, attempt: nat, nonce: nat,
                     indices: seq<nat>)
    requires Aligned(sent, attempt, nonce, indices) && WaitsFiled(settled, sent, waits, at)
    ensures forall p, q :: 0 <= p < q < |waits| ==>
      waits[p].WaitCall? && waits[q].WaitCall? && waits[p].nonce < waits[q].nonce
  {
    hide WaitFate;
  }

  // ---- What collided, and what was mined ----

  lemma {:induction false} PickedInOrder(records: seq<Record>, p: Record -> bool, j: nat, k: nat, a: nat, b: nat)
    requires DistinctIndices(records) && a < |records| && b < |records| && p(records[a]) && p(records[b])
    requires j < k < |IndicesOf(records, p)|
    requires IndicesOf(records, p)[j] == records[a].index && IndicesOf(records, p)[k] == records[b].index
    ensures a < b
  {
    var n := |records| - 1;
    var init, last := records[..n], records[n];
    assert records == init + [last];
    LastPicked(init, last, p);
    IndicesMeaning(init, p);
    IndicesMeaning(records, p);
    if a < n && b < n {
      PickedInOrder(init, p, j, k, a, b);
    }
  }

  /** The record of a call that collided, and the way it was filed. */
  lemma CollisionIsLost(sent: seq<Record>, sends: seq<Call>, settled: seq<Record>, waits: seq<Call>, at: seq<nat>,
                        attempt: nat, nonce: nat, indices: seq<nat>, q: nat, i: nat)
    returns (k: nat)
    requires SendsFiled(sent, sends, attempt, nonce, indices) && WaitsFiled(settled, sent, waits, at)
    requires q < |sends + waits| && Collision((sends + waits)[q], i)
    ensures k < |settled| && settled[k].index == i && settled[k].nonce == (sends + waits)[q].nonce
    ensures settled[k].nonce == nonce + k
    ensures if (sends + waits)[q].SendCall? then settled[k].fate.Taken? else settled[k].fate.Replaced?
  {
    hide AboutNonce, SendFate, WaitFate;
    if q < |sends| {
      k := sends[q].nonce - nonce;
      SendsTell(sent, sends, attempt, nonce, indices, q);
    } else {
      k := at[q - |sends|];
      WaitsTell(settled, sent, waits, at, q - |sends|);
    }
  }

  lemma LostIsCollision(sent: seq<Record>, sends: seq<Call>, settled: seq<Record>, waits: seq<Call>, at: seq<nat>,
                        attempt: nat, nonce: nat, indices: seq<nat>, k: nat)
    returns (q: nat)
    requires SendsFiled(sent, sends, attempt, nonce, indices) && WaitsFiled(settled, sent, waits, at)
    requires k < |settled| && Lost(settled[k])
    ensures q < |sends + waits| && Collision((sends + waits)[q], settled[k].index)
  {
    hide AboutNonce, SendFate, WaitFate;
    if k in at {
      var p :| 0 <= p < |at| && at[p] == k;
      WaitsTell(settled, sent, waits, at, p);
      q := |sends| + p;
    } else {
      q := CallOf(sent, sends, attempt, nonce, indices, k);
      SendsTell(sent, sends, attempt, nonce, indices, q);
    }
  }

  lemma SettledAligned(sent: seq<Record>, settled: seq<Record>, waits: seq<Call>, at: seq<nat>, attempt: nat,
                       nonce: nat, indices: seq<nat>)
    requires Aligned(sent, attempt, nonce, indices) && WaitsFiled(settled, sent, waits, at) && NoDup(indices)
    ensures Aligned(settled, attempt, nonce, indices) && DistinctIndices(settled)
  {
    hide WaitFate;
    forall k | 0 <= k < |settled|
      ensures settled[k].attempt == attempt && settled[k].nonce == nonce + k && settled[k].index == indices[k] {
      if k in at {
        var q :| 0 <= q < |at| && at[q] == k;
      }
    }
  }

  lemma CollisionsGoOn(sent: seq<Record>, sends: seq<Call>, settled: seq<Record>, waits: seq<Call>, at: seq<nat>,
                       attempt: nat, nonce: nat, indices: seq<nat>)
    requires SendsFiled(sent, sends, attempt, nonce, indices) && WaitsFiled(settled, sent, waits, at)
    requires NoDup(indices)
    ensures NoReadIn(sends + waits)
    ensures GoesOnWith(sends + waits, Collided(settled))
  {
    hide AboutNonce, SendFate, WaitFate, Collided, Collision, Lost;
    var calls, out := sends + waits, Collided(settled);
    SettledAligned(sent, settled, waits, at, attempt, nonce, indices);
    CollidedMeaning(settled);
    forall i ensures i in out <==> exists q :: 0 <= q < |calls| && Collision(calls[q], i) {
      if i in out {
        var r :| r in settled && Lost(r) && r.index == i;
        var k :| 0 <= k < |settled| && settled[k] == r;
        var q := LostIsCollision(sent, sends, settled, waits, at, attempt, nonce, indices, k);
      }
      if q :| 0 <= q < |calls| && Collision(calls[q], i) {
        var k := CollisionIsLost(sent, sends, settled, waits, at, attempt, nonce, indices, q, i);
        LostNow(settled, k);
      }
    }
    forall j, k, p, q | 0 <= j < k < |out| && 0 <= p < |calls| && 0 <= q < |calls|
      && Collision(calls[p], out[j]) && Collision(calls[q], out[k])
      ensures if calls[p].SendCall? == calls[q].SendCall? then calls[p].nonce < calls[q].nonce else calls[p].SendCall?
    {
      var a := CollisionIsLost(sent, sends, settled, waits, at, attempt, nonce, indices, p, out[j]);
      var b := CollisionIsLost(sent, sends, settled, waits, at, attempt, nonce, indices, q, out[k]);
      LostNow(settled, a);
      LostNow(settled, b);
      CollidedInOrder(settled, j, k, a, b);
    }
  }

  lemma LostNow(records: seq<Record>, k: nat)
    requires k < |records| && (records[k].fate.Taken? || records[k].fate.Replaced?)
    ensures records[k] in records && Lost(records[k])
  {
  }

  /** Collisions of sends stand before collisions of waits, and each in the order of the records. */
  lemma CollidedInOrder(settled: seq<Record>, j: nat, k: nat, a: nat, b: nat)
    requires DistinctIndices(settled) && j < k < |Collided(settled)|
    requires a < |settled| && Lost(settled[a]) && settled[a].index == Collided(settled)[j]
    requires b < |settled| && Lost(settled[b]) && settled[b].index == Collided(settled)[k]
    ensures if settled[a].fate.Taken? == settled[b].fate.Taken? then a < b else settled[a].fate.Taken?
  {
    hide IndicesOf;
    var taken, replaced := IndicesOf(settled, IsTaken()), IndicesOf(settled, IsReplaced());
    IndicesMeaning(settled, IsTaken());
    IndicesMeaning(settled, IsReplaced());
    PickedOnce(settled, IsTaken(), a);
    PickedOnce(settled, IsTaken(), b);
    PickedOnce(settled, IsReplaced(), a);
    PickedOnce(settled, IsReplaced(), b);
    if k < |taken| {
      PickedInOrder(settled, IsTaken(), j, k, a, b);
    } else if j >= |taken| {
      PickedInOrder(settled, IsReplaced(), j - |taken|, k - |taken|, a, b);
    }
  }

  lemma PickedOnce(records: seq<Record>, p: Record -> bool, k: nat)
    requires DistinctIndices(records) && k < |records|
    ensures Picks(records, p, records[k].index) <==> p(records[k])
  {
    assert records[k] in records;
  }

  lemma ReceiptsFromWaits(sent: seq<Record>, settled: seq<Record>, waits: seq<Call>, at: seq<nat>, attempt: nat,
                          nonce: nat, indices: seq<nat>, before: seq<Option<Receipt>>)
    requires Aligned(sent, attempt, nonce, indices) && WaitsFiled(settled, sent, waits, at) && NoDup(indices)
    requires forall k :: 0 <= k < |sent| ==> !sent[k].fate.Confirmed?
    requires forall k :: 0 <= k < |indices| ==> indices[k] < |before| && before[indices[k]].None?
    ensures Receipted(waits, before, Stamp(before, settled), attempt)
  {
    hide Stamp, WaitFate;
    SettledAligned(sent, settled, waits, at, attempt, nonce, indices);
    StampMeaning(before, settled, attempt, nonce, indices);
    var after := Stamp(before, settled);
    forall q | 0 <= q < |waits| && waits[q].waited.Mined?
      ensures waits[q].index < |after| && after[waits[q].index] == Some(Receipt(attempt, waits[q].nonce)) {
      WaitsTell(settled, sent, waits, at, q);
      assert indices[at[q]] == waits[q].index;
    }
    forall i | 0 <= i < |before|
      ensures after[i] == before[i] || exists q :: 0 <= q < |waits| && waits[q].waited.Mined? && waits[q].index == i {
      if i in indices {
        var k :| 0 <= k < |indices| && indices[k] == i;
        if settled[k].fate.Confirmed? {
          var q :| 0 <= q < |at| && at[q] == k;
          WaitsTell(settled, sent, waits, at, q);
        }
      }
    }
  }

  // ---- Every attempt and every run ----

  /** The run without what was overheard. */
  function Unheard<S>(run: Run<(S, seq<Call>)>): Run<S> {
    Run(run.world.0, run.receipts, run.outstanding, run.trace)
  }

  /** Listening changes nothing, and the calls of the attempt are as described. */
  lemma AttemptOverheard<S>(env: Env<S>, run: Run<(S, seq<Call>)>, count: nat, attempt: nat)
    returns (calls: seq<Call>)
    requires attempt >= 1 && Sound(run, count, attempt - 1)
    ensures
      var (run', stop) := Attempt(Overheard(env), run, attempt);
      && Attempt(env, Unheard(run), attempt) == (Unheard(run'), stop)
      && run'.world.1 == run.world.1 + calls && AttemptHeard(calls, run, run', stop, attempt)
  {
    hide Attempt, AttemptHeard, SendAll, WaitAll, FirstError, Stamp, Collided, Sound, SendsFiled, WaitsFiled;
    var w := run.world;
    var (s0, read) := env.read(w.0);
    var asked := ReadCall(read);
    if read.Failure? {
      calls := [asked];
      ReadFails(Overheard(env), run, attempt);
      ReadFails(env, Unheard(run), attempt);
      HeardReadFails(asked, run, run.(world := (s0, w.1 + [asked])), attempt);
    } else {
      var w0 := (s0, w.1 + [asked]);
      var sends := SendAllOverheard(env, w0, attempt, read.value, run.outstanding);
      var (w1, sent) := SendAll(Overheard(env), w0, attempt, read.value, run.outstanding);
      if FirstError(sent).Some? {
        calls := [asked] + sends;
        SendFails(Overheard(env), run, attempt);
        SendFails(env, Unheard(run), attempt);
        HeardSendFails(asked, sends, sent, run, run.(world := w1, trace := run.trace + sent), attempt, read.value);
      } else {
        var waits, at := WaitAllOverheard(env, w1, sent);
        var (w2, settled) := WaitAll(Overheard(env), w1, sent);
        calls := [asked] + (sends + waits);
        Settles(Overheard(env), run, attempt);
        Settles(env, Unheard(run), attempt);
        HeardSettles(asked, sends, sent, waits, at, settled, run, w2, count, attempt, read.value);
        assert w.1 + [asked] + sends + waits == w.1 + calls;
      }
    }
  }

  lemma ReadFails<S>(env: Env<S>, run: Run<S>, attempt: nat)
    requires env.read(run.world).1.Failure?
    ensures var (s0, read) := env.read(run.world);
      Attempt(env, run, attempt) == (run.(world := s0), Some(Threw(read.error)))
  {
  }

  lemma SendFails<S>(env: Env<S>, run: Run<S>, attempt: nat)
    requires env.read(run.world).1.Success?
    requires var (s0, read) := env.read(run.world);
      FirstError(SendAll(env, s0, attempt, read.value, run.outstanding).1).Some?
    ensures
      var (s0, read) := env.read(run.world);
      var (s1, sent) := SendAll(env, s0, attempt, read.value, run.outstanding);
      Attempt(env, run, attempt)
      == (run.(world := s1, trace := run.trace + sent), Some(Threw(FirstError(sent).value)))
  {
    hide SendAll, FirstError;
  }

  function After<S>(run: Run<S>, s: S, settled: seq<Record>): (Run<S>, Option<Outcome>) {
    var run' := Run(s, Stamp(run.receipts, settled), Collided(settled), run.trace + settled);
    (run', if FirstError(settled).Some? then Some(Threw(FirstError(settled).value))
           else if Collided(settled) == [] then Some(Returned(run'.receipts)) else None)
  }

  lemma Settles<S>(env: Env<S>, run: Run<S>, attempt: nat)
    requires env.read(run.world).1.Success?
    requires var (s0, read) := env.read(run.world);
      FirstError(SendAll(env, s0, attempt, read.value, run.outstanding).1).None?
    ensures
      var (s0, read) := env.read(run.world);
      var (s1, sent) := SendAll(env, s0, attempt, read.value, run.outstanding);
      var (s2, settled) := WaitAll(env, s1, sent);
      Attempt(env, run, attempt) == After(run, s2, settled)
  {
    hide SendAll, WaitAll, FirstError, Stamp, Collided;
  }

  lemma HeardReadFails<S>(asked: Call, run: Run<S>, run': Run<S>, attempt: nat)
    requires asked.ReadCall? && asked.read.Failure?
    ensures AttemptHeard([asked], run, run', Some(Threw(asked.read.error)), attempt)
  {
  }

  lemma HeardSendFails<S>(asked: Call, sends: seq<Call>, sent: seq<Record>, run: Run<S>, run': Run<S>, attempt: nat,
                          nonce: nat)
    requires asked == ReadCall(Success(nonce)) && FirstError(sent).Some?
    requires SendsFiled(sent, sends, attempt, nonce, run.outstanding)
    ensures AttemptHeard([asked] + sends, run, run', Some(Threw(FirstError(sent).value)), attempt)
  {
    hide SendsOnce, NoneReal, FirstReal, WaitsFor, GoesOnWith, Receipted, SendsFiled, FirstError;
    FiledSends(sent, sends, attempt, nonce, run.outstanding);
    SendsReal(sent, sends, attempt, nonce, run.outstanding);
    assert sends + [] == sends;
    Cut(asked, sends, []);
  }

  lemma HeardSettles<S>(asked: Call, sends: seq<Call>, sent: seq<Record>, waits: seq<Call>, at: seq<nat>,
                        settled: seq<Record>, run: Run<S>, s: S, count: nat, attempt: nat, nonce: nat)
    requires attempt >= 1 && Sound(run, count, attempt - 1)
    requires asked == ReadCall(Success(nonce)) && FirstError(sent).None?
    requires SendsFiled(sent, sends, attempt, nonce, run.outstanding) && WaitsFiled(settled, sent, waits, at)
    ensures AttemptHeard([asked] + (sends + waits), run, After(run, s, settled).0, After(run, s, settled).1, attempt)
  {
    hide SendsOnce, NoneReal, FirstReal, WaitsFor, GoesOnWith, Receipted, SendsFiled, WaitsFiled, FirstError, Stamp,
         Collided, Sound, Aligned;
    var o := run.outstanding;
    FiledSends(sent, sends, attempt, nonce, o);
    SendsReal(sent, sends, attempt, nonce, o);
    FiledWaits(settled, sent, waits, at);
    WaitsReal(settled, sent, waits, at, attempt, nonce, o);
    WaitsForAccepted(sent, sends, settled, waits, at, attempt, nonce, o);
    OutstandingOpen(run, count, attempt);
    CollisionsGoOn(sent, sends, settled, waits, at, attempt, nonce, o);
    NothingConfirmed(sent, sends, attempt, nonce, o);
    ReceiptsFromWaits(sent, settled, waits, at, attempt, nonce, o, run.receipts);
    Cut(asked, sends, waits);
  }

  lemma FiledSends(sent: seq<Record>, sends: seq<Call>, attempt: nat, nonce: nat, indices: seq<nat>)
    requires SendsFiled(sent, sends, attempt, nonce, indices)
    ensures Aligned(sent, attempt, nonce, indices) && SendsOnce(sends, nonce, indices)
    ensures |sends| == |indices| && forall q :: 0 <= q < |sends| ==> sends[q].SendCall?
  {
  }

  lemma FiledWaits(settled: seq<Record>, sent: seq<Record>, waits: seq<Call>, at: seq<nat>)
    requires WaitsFiled(settled, sent, waits, at)
    ensures forall q :: 0 <= q < |waits| ==> waits[q].WaitCall?
  {
  }

  lemma NothingConfirmed(sent: seq<Record>, sends: seq<Call>, attempt: nat, nonce: nat, indices: seq<nat>)
    requires SendsFiled(sent, sends, attempt, nonce, indices)
    ensures forall k :: 0 <= k < |sent| ==> !sent[k].fate.Confirmed?
  {
    hide SendFate, AboutNonce;
    forall k | 0 <= k < |sent| ensures !sent[k].fate.Confirmed? {
      var q := CallOf(sent, sends, attempt, nonce, indices, k);
      SendsTell(sent, sends, attempt, nonce, indices, q);
    }
  }

  lemma OutstandingOpen<S>(run: Run<S>, count: nat, attempt: nat)
    requires attempt >= 1 && Sound(run, count, attempt - 1)
    ensures NoDup(run.outstanding)
    ensures forall k :: 0 <= k < |run.outstanding| ==>
      run.outstanding[k] < |run.receipts| && run.receipts[run.outstanding[k]].None?
  {
    assert forall k :: 0 <= k < |run.outstanding| ==> run.outstanding[k] in run.outstanding;
  }

  lemma Cut(read: Call, sends: seq<Call>, waits: seq<Call>)
    ensures var calls := [read] + (sends + waits);
      && calls[1..] == sends + waits && calls[1..|sends| + 1] == sends && calls[|sends| + 1..] == waits
  {
  }

  function Reads(calls: seq<Call>): nat {
    if calls == [] then 0 else Reads(calls[..|calls| - 1]) + if calls[|calls| - 1].ReadCall? then 1 else 0
  }

  /** Behind the real failure at q no attempt begins, and if it answered a send, nothing is waited for. */
  ghost predicate NothingAfter(calls: seq<Call>, q: nat)
    requires q < |calls|
  {
    forall p :: q < p < |calls| ==> !calls[p].ReadCall? && (calls[q].SendCall? ==> calls[p].SendCall?)
  }

  /** The failure at q is the one the protocol raises: of those of its kind, that of the lowest nonce. */
  ghost predicate Raised(calls: seq<Call>, q: nat, error: RpcError)
    requires q < |calls|
  {
    && Real(calls[q]) && ErrorOf(calls[q]) == Some(error)
    && forall p :: 0 <= p < |calls| && Real(calls[p]) && p != q ==>
         if calls[q].SendCall? then calls[p].SendCall? && calls[q].nonce <= calls[p].nonce
         else calls[q].WaitCall? && calls[p].WaitCall? && calls[q].nonce <= calls[p].nonce
  }

  /** A real failure ends the run within its attempt, and nothing else makes the protocol throw; it gives
      up only after the last attempt. */
  ghost predicate RaisesAtOnce(calls: seq<Call>, outcome: Outcome, attempts: nat) {
    && (forall q :: 0 <= q < |calls| && Real(calls[q]) ==> outcome.Threw? && NothingAfter(calls, q))
    && (outcome.Threw? ==> exists q :: 0 <= q < |calls| && Raised(calls, q, outcome.error))
    && Reads(calls) <= attempts && (outcome.Exhausted? ==> Reads(calls) == attempts)
  }

  lemma {:induction false} ReadsTogether(first: seq<Call>, rest: seq<Call>)
    ensures Reads(first + rest) == Reads(first) + Reads(rest)
  {
    if rest == [] {
      assert first + rest == first;
    } else {
      assert (first + rest)[..|first + rest| - 1] == first + rest[..|rest| - 1];
      ReadsTogether(first, rest[..|rest| - 1]);
    }
  }

  lemma {:induction false} NoReads(calls: seq<Call>)
    requires NoReadIn(calls)
    ensures Reads(calls) == 0
  {
    if calls == [] {
    } else {
      NoReads(calls[..|calls| - 1]);
    }
  }

  /** One attempt reads once, and ends the run exactly over its first real failure. */
  lemma AttemptRaises<S>(calls: seq<Call>, run: Run<S>, run': Run<S>, stop: Option<Outcome>, attempt: nat)
    requires AttemptHeard(calls, run, run', stop, attempt)
    ensures Reads(calls) == 1 && stop != Some(Exhausted(run'.outstanding))
    ensures stop.Some? ==> !stop.value.Exhausted?
    ensures forall q :: 0 <= q < |calls| && Real(calls[q]) ==>
      stop.Some? && stop.value.Threw? && NothingAfter(calls, q)
    ensures stop.Some? && stop.value.Threw? ==> exists q :: 0 <= q < |calls| && Raised(calls, q, stop.value.error)
  {
    hide Reads, AboutNonce, SendsOnce, WaitsFor, GoesOnWith, Receipted, ErrorOf, FirstReal, AttemptHeard, NoneReal,
         Real;
    HeardShape(calls, run, run', stop, attempt);
    OneRead(calls);
    if calls[0].read.Failure? {
      FailedRead(calls, run, run', stop, attempt);
    } else {
      var n := |run.outstanding|;
      HeardParts(calls, run, run', stop, attempt);
      if !NoneReal(calls[1..n + 1]) {
        RaisedAmong(calls, n, 1, n + 1, stop.value.error);
      } else if !NoneReal(calls[n + 1..]) {
        PartIsClean(calls, 1, n + 1);
        assert calls[n + 1..] == calls[n + 1..|calls|];
        RaisedAmong(calls, n, n + 1, |calls|, stop.value.error);
      } else {
        PartIsClean(calls, 1, n + 1);
        assert calls[n + 1..] == calls[n + 1..|calls|];
        PartIsClean(calls, n + 1, |calls|);
        GoodRead(calls[0]);
      }
    }
  }

  /** A read, then sends, then waits. */
  ghost predicate InPhases(calls: seq<Call>, n: nat) {
    && calls != [] && calls[0].ReadCall?
    && (forall q :: 0 < q < |calls| ==> if q <= n then calls[q].SendCall? else calls[q].WaitCall?)
  }

  lemma HeardShape<S>(calls: seq<Call>, run: Run<S>, run': Run<S>, stop: Option<Outcome>, attempt: nat)
    requires AttemptHeard(calls, run, run', stop, attempt)
    ensures InPhases(calls, |run.outstanding|)
    ensures calls[0].read.Failure? ==> calls == [calls[0]] && stop == Some(Threw(calls[0].read.error))
    ensures calls[0].read.Success? ==> |run.outstanding| < |calls|
  {
    hide NoneReal, FirstReal, WaitsFor, GoesOnWith, Receipted;
    var n := |run.outstanding|;
    if calls[0].read.Success? {
      forall q | 0 < q <= n ensures calls[q].SendCall? {
        assert calls[1..n + 1][q - 1] == calls[q];
      }
    }
  }

  lemma HeardParts<S>(calls: seq<Call>, run: Run<S>, run': Run<S>, stop: Option<Outcome>, attempt: nat)
    requires InPhases(calls, |run.outstanding|) && |run.outstanding| < |calls| && calls[0].read.Success?
    requires AttemptHeard(calls, run, run', stop, attempt)
    ensures Verdict(calls, calls[1..|run.outstanding| + 1], calls[|run.outstanding| + 1..], stop)
  {
    hide NoneReal, FirstReal, WaitsFor, GoesOnWith, Receipted, SendsOnce;
  }

  /** How an attempt with these sends and waits stops. */
  ghost predicate Verdict(calls: seq<Call>, sends: seq<Call>, waits: seq<Call>, stop: Option<Outcome>) {
    && NoReadIn(sends) && NoReadIn(waits)
    && if !NoneReal(sends) then
         |calls| == |sends| + 1 && stop.Some? && stop.value.Threw? && FirstReal(sends, stop.value.error)
       else if !NoneReal(waits) then stop.Some? && stop.value.Threw? && FirstReal(waits, stop.value.error)
       else stop.Some? ==> stop.value.Returned?
  }

  lemma FailedRead<S>(calls: seq<Call>, run: Run<S>, run': Run<S>, stop: Option<Outcome>, attempt: nat)
    requires calls != [] && calls[0].ReadCall? && calls[0].read.Failure?
    requires calls == [calls[0]] && stop == Some(Threw(calls[0].read.error))
    ensures NothingAfter(calls, 0) && Raised(calls, 0, stop.value.error)
  {
  }

  lemma GoodRead(c: Call)
    requires c.ReadCall? && c.read.Success?
    ensures !Real(c)
  {
  }

  lemma PartIsClean(calls: seq<Call>, lo: nat, hi: nat)
    requires lo <= hi <= |calls| && NoneReal(calls[lo..hi])
    ensures forall q :: lo <= q < hi ==> !Real(calls[q])
  {
    hide Real;
    forall q | lo <= q < hi ensures !Real(calls[q]) {
      assert calls[lo..hi][q - lo] == calls[q];
    }
  }

  /** The failure that is raised is among the sends, or among the waits, and everything else is clean. */
  lemma RaisedAmong(calls: seq<Call>, n: nat, lo: nat, hi: nat, e: RpcError)
    requires 1 <= lo <= hi == |calls| && InPhases(calls, n) && (lo == n + 1 || (lo == 1 && hi == n + 1))
    requires calls[0].read.Success? && forall q :: 0 < q < lo ==> !Real(calls[q])
    requires NoReadIn(calls[lo..hi]) && FirstReal(calls[lo..hi], e)
    ensures forall q :: 0 <= q < |calls| && Real(calls[q]) ==> NothingAfter(calls, q)
    ensures exists q :: 0 <= q < |calls| && Raised(calls, q, e)
  {
    hide ErrorOf, Real;
    GoodRead(calls[0]);
    var part := calls[lo..hi];
    var q :| 0 <= q < |part| && FirstRealAt(part, e, q);
    assert part[q] == calls[lo + q];
    forall p | lo <= p < hi && Real(calls[p]) ensures calls[lo + q].nonce <= calls[p].nonce {
      assert part[p - lo] == calls[p];
    }
    assert Raised(calls, lo + q, e);
  }

  lemma OneRead(calls: seq<Call>)
    requires calls != [] && calls[0].ReadCall? && forall q :: 0 < q < |calls| ==> !calls[q].ReadCall?
    ensures Reads(calls) == 1
  {
    NoReads(calls[1..]);
    ReadsTogether(calls[..1], calls[1..]);
    assert calls == calls[..1] + calls[1..];
    assert calls[..1][..0] == [];
  }

  /** What holds of the later attempts holds with a clean attempt in front. */
  lemma CleanInFront(first: seq<Call>, rest: seq<Call>, outcome: Outcome, attempts: nat)
    requires NoneReal(first) && Reads(first) == 1 && RaisesAtOnce(rest, outcome, attempts)
    ensures RaisesAtOnce(first + rest, outcome, attempts + 1)
  {
    hide Reads, Real, ErrorOf;
    ReadsTogether(first, rest);
    var calls, n := first + rest, |first|;
    forall q | 0 <= q < |calls| && Real(calls[q]) ensures outcome.Threw? && NothingAfter(calls, q) {
      assert calls[q] == rest[q - n] && NothingAfter(rest, q - n);
      assert forall p :: q < p < |calls| ==> calls[p] == rest[p - n];
    }
    if outcome.Threw? {
      var q :| 0 <= q < |rest| && Raised(rest, q, outcome.error);
      assert forall p :: 0 <= p < |calls| && Real(calls[p]) ==> p >= n && calls[p] == rest[p - n];
      assert Raised(calls, q + n, outcome.error);
    }
  }

  lemma {:induction false} RunOverheard<S>(env: Env<S>, run: Run<(S, seq<Call>)>, count: nat, attempt: nat,
                                           maxAttempts: nat)
    returns (calls: seq<Call>)
    requires 1 <= attempt <= maxAttempts + 1 && Sound(run, count, attempt - 1)
    ensures
      var (run', outcome) := Attempts(Overheard(env), run, attempt, maxAttempts);
      && Attempts(env, Unheard(run), attempt, maxAttempts) == (Unheard(run'), outcome)
      && run'.world.1 == run.world.1 + calls && RaisesAtOnce(calls, outcome, maxAttempts + 1 - attempt)
    decreases maxAttempts + 1 - attempt
  {
    hide Attempt, AttemptHeard, Sound, RaisesAtOnce, Real, ErrorOf;
    if attempt > maxAttempts {
      calls := [];
      NothingHeard(Exhausted(run.outstanding));
    } else {
      var first := AttemptOverheard(env, run, count, attempt);
      var (run', stop) := Attempt(Overheard(env), run, attempt);
      AttemptRaises(first, run, run', stop, attempt);
      AttemptKeepsSound(Overheard(env), run, count, attempt);
      if stop.None? {
        var rest := RunOverheard(env, run', count, attempt + 1, maxAttempts);
        calls := first + rest;
        assert run.world.1 + first + rest == run.world.1 + calls;
        CleanInFront(first, rest, Attempts(Overheard(env), run', attempt + 1, maxAttempts).1, maxAttempts - attempt);
      } else {
        calls := first;
        StoppedHeard(first, stop.value, maxAttempts + 1 - attempt);
      }
    }
  }

  lemma NothingHeard(outcome: Outcome)
    requires !outcome.Threw?
    ensures RaisesAtOnce([], outcome, 0)
  {
  }

  lemma StoppedHeard(calls: seq<Call>, outcome: Outcome, attempts: nat)
    requires Reads(calls) == 1 <= attempts && !outcome.Exhausted?
    requires forall q :: 0 <= q < |calls| && Real(calls[q]) ==> outcome.Threw? && NothingAfter(calls, q)
    requires outcome.Threw? ==> exists q :: 0 <= q < |calls| && Raised(calls, q, outcome.error)
    ensures RaisesAtOnce(calls, outcome, attempts)
  {
  }

  /** In every run against every environment: a failed read, and a send or a wait answered with an error
      that is not about the nonce, end the run in that attempt; what is thrown is the first of them in
      index order; nothing else is thrown; and the protocol gives up only after `maxAttempts` attempts. */
  lemma RealFailuresAreRaised<S>(env: Env<S>, s: S, count: nat, maxAttempts: nat)
    ensures
      var (run, outcome) := Attempts(Overheard(env), Start((s, []), count), 1, maxAttempts);
      && Attempts(env, Start(s, count), 1, maxAttempts) == (Unheard(run), outcome)
      && RaisesAtOnce(run.world.1, outcome, maxAttempts)
  {
    hide Attempts, RaisesAtOnce;
    var start: Run<(S, seq<Call>)> := Start((s, []), count);
    StartIsSound(start.world, count);
    assert Unheard(start) == Start(s, count);
    var calls := RunOverheard(env, start, count, 1, maxAttempts);
    assert [] + calls == calls;
  }
}
