/** Reading a chain in pieces: the deploy-block search, the chunked log fetch, the batched
    fan-out of read-only calls, and the choice of the first block to scan. */
module BlockScan {
  import opened Wrappers
  import opened Seqs
  import opened EventLog

  // ---- Deploy-block search ----

  /** Once present, code stays present up to the head. */
  ghost predicate Monotone(code: nat -> bool, head: nat) {
    forall a, b :: 0 <= a <= b <= head && code(a) ==> code(b)
  }

  /** The number of halvings that shrink an interval of width `n` to width 1. */
  function CeilLog2(n: nat): nat {
    if n <= 1 then 0 else 1 + CeilLog2((n + 1) / 2)
  }

  function Pow2(k: nat): nat {
    if k == 0 then 1 else 2 * Pow2(k - 1)
  }

  /** `CeilLog2` is the logarithm: the least power of two that reaches `n`. */
  lemma {:induction false} CeilLog2IsLeastPower(n: nat, k: nat)
    requires n >= 1
    ensures n <= Pow2(k) <==> CeilLog2(n) <= k
  {
    if n > 1 && k > 0 {
      CeilLog2IsLeastPower((n + 1) / 2, k - 1);
    } else if n == 1 {
      Pow2Positive(k);
    }
  }

  lemma Pow2Positive(k: nat)
    ensures Pow2(k) >= 1
  {
  }

  lemma {:induction false} CeilLog2Monotone(a: nat, b: nat)
    requires a <= b
    ensures CeilLog2(a) <= CeilLog2(b)
  {
    if a <= 1 {
    } else {
      CeilLog2Monotone((a + 1) / 2, (b + 1) / 2);
    }
  }

  /** `calls` counts the `getCode` requests. */
  method BinarySearchDeployBlock(code: nat -> bool, head: int) returns (block: Option<nat>, calls: nat)
    ensures block.None? <==> head < 0 || !code(head)
    ensures block.Some? ==> block.value <= head && code(block.value)
    ensures block.Some? && block.value > 0 ==> !code(block.value - 1)
    ensures block.Some? && Monotone(code, head) ==> forall b: nat :: b < block.value ==> !code(b)
    ensures head >= 1 ==> calls <= 2 + CeilLog2(head)
  {
    if head < 0 {
      return None, 0;
    }
    if !code(head) {
      return None, 1;
    }
    var lo: nat, hi: nat := 0, head;
    if hi == 0 {
      return Some(0), 1;
    }
    if code(0) {
      return Some(0), 2;
    }
    calls := 2;
    while lo + 1 < hi
      invariant 0 <= lo < hi <= head
      invariant !code(lo) && code(hi)
      invariant calls + CeilLog2(hi - lo) <= 2 + CeilLog2(head)
    {
      var mid := (lo + hi) / 2;
      CeilLog2Monotone(mid - lo, (hi - lo + 1) / 2);
      CeilLog2Monotone(hi - mid, (hi - lo + 1) / 2);
      calls := calls + 1;
      if !code(mid) {
        lo := mid;
      } else {
        hi := mid;
      }
    }
    return Some(hi), calls;
  }

  // ---- Chunked log fetch ----

  datatype Window = Window(first: int, last: int)

  /** The windows are adjacent, in order, no wider than `chunk`, and cover `[lo, hi]` exactly. */
  ghost predicate Tiles(windows: seq<Window>, lo: int, hi: int, chunk: int) {
    && (windows == [] <==> hi < lo)
    && (windows != [] ==> windows[0].first == lo && windows[|windows| - 1].last == hi)
    && (forall i :: 0 <= i < |windows| ==> 0 <= windows[i].last - windows[i].first < chunk)
    && (forall i :: 0 <= i < |windows| - 1 ==> windows[i].last - windows[i].first == chunk - 1)
    && (forall i :: 0 < i < |windows| ==> windows[i].first == windows[i - 1].last + 1)
  }

  lemma {:induction false} QueryAppend<K(!new)>(h: seq<Log<K>>, removal: bool, lo: int, mid: int, hi: int)
    requires Ordered(h) && lo <= mid + 1 && mid <= hi
    ensures Query(h, removal, lo, mid) + Query(h, removal, mid + 1, hi) == Query(h, removal, lo, hi)
  {
    if h == [] {
    } else {
      var init, l := h[..|h| - 1], h[|h| - 1];
      QueryAppend(init, removal, lo, mid, hi);
      if l.block <= mid {
        var p := (x: Log<K>) => x.removal == removal && mid + 1 <= x.block <= hi;
        forall x | x in init ensures !p(x) {
          var i :| 0 <= i < |init| && init[i] == x;
          assert h[i] == x;
        }
        FilterNone(init, p);
      }
    }
  }

  lemma EmptyWindow<K(!new)>(h: seq<Log<K>>, removal: bool, lo: int, hi: int)
    requires hi < lo
    ensures Query(h, removal, lo, hi) == []
  {
    FilterNone(h, (l: Log<K>) => l.removal == removal && lo <= l.block <= hi);
  }

  /** The requests a fetch makes: `step`-wide windows, the last one cut at `hi`. */
  function Windows(lo: int, hi: int, step: nat): seq<Window>
    requires step >= 1
    decreases hi - lo
  {
    if hi < lo then []
    else [Window(lo, if lo + step - 1 > hi then hi else lo + step - 1)] + Windows(lo + step, hi, step)
  }

  lemma {:induction false} WindowsTile(lo: int, hi: int, chunk: nat)
    requires chunk >= 1
    ensures Tiles(Windows(lo, hi, chunk), lo, hi, chunk)
    decreases hi - lo
  {
    if hi < lo {
    } else {
      WindowsTile(lo + chunk, hi, chunk);
      TilesFirst(lo, hi, chunk, Windows(lo + chunk, hi, chunk));
    }
  }

  lemma TilesFirst(lo: int, hi: int, chunk: nat, rest: seq<Window>)
    requires chunk >= 1 && lo <= hi && Tiles(rest, lo + chunk, hi, chunk)
    ensures Tiles([Window(lo, if lo + chunk - 1 > hi then hi else lo + chunk - 1)] + rest, lo, hi, chunk)
  {
    var w := Window(lo, if lo + chunk - 1 > hi then hi else lo + chunk - 1);
    var all := [w] + rest;
    assert forall i :: 0 < i < |all| ==> all[i] == rest[i - 1];
    assert all[|all| - 1] == if rest == [] then w else rest[|rest| - 1];
  }

  lemma {:induction false} WindowsCount(lo: int, hi: int, chunk: nat)
    requires chunk >= 1 && lo <= hi
    ensures |Windows(lo, hi, chunk)| == (hi - lo) / chunk + 1
    decreases hi - lo
  {
    if lo + chunk <= hi {
      WindowsCount(lo + chunk, hi, chunk);
      DivideOneLess(hi - lo, chunk);
    } else {
      assert Windows(lo + chunk, hi, chunk) == [];
      assert (hi - lo) / chunk == 0;
    }
  }

  lemma DivideOneLess(a: nat, b: nat)
    requires a >= b >= 1
    ensures a / b == (a - b) / b + 1
  {
    var q, r := (a - b) / b, (a - b) % b;
    assert a == (q + 1) * b + r;
    QuotientUnique(a, b, q + 1, r);
  }

  lemma QuotientUnique(a: nat, b: nat, q: nat, r: nat)
    requires b >= 1 && a == q * b + r && r < b
    ensures a / b == q
  {
    var p := a / b;
    MulMonotone(p + 1, q, b);
    MulMonotone(q + 1, p, b);
  }

  lemma MulMonotone(a: nat, b: nat, c: nat)
    ensures a <= b ==> a * c <= b * c
  {
  }

  /** `windows` records the requests made; the node answers each from the history. */
  method FetchLogsChunked<K(!new)>(h: seq<Log<K>>, removal: bool, fromBlock: nat, toBlock: int, chunk: nat)
    returns (out: seq<Log<K>>, windows: seq<Window>)
    requires Ordered(h) && chunk >= 1
    ensures out == Query(h, removal, fromBlock, toBlock)
    ensures Tiles(windows, fromBlock, toBlock, chunk)
    ensures |windows| == if toBlock < fromBlock then 0 else (toBlock - fromBlock) / chunk + 1
  {
    out, windows := [], [];
    var lo: int := fromBlock;
    ghost var fetched: int := fromBlock - 1;
    EmptyWindow(h, removal, fromBlock, fetched);
    while lo <= toBlock
      invariant fromBlock - 1 <= fetched < lo
      invariant lo <= toBlock ==> fetched == lo - 1
      invariant lo > toBlock ==> fetched == toBlock || (fetched == fromBlock - 1 && toBlock < fromBlock)
      invariant out == Query(h, removal, fromBlock, fetched)
      invariant windows + Windows(lo, toBlock, chunk) == Windows(fromBlock, toBlock, chunk)
      decreases toBlock - lo
    {
      hide Query, Windows, Ordered, Tiles;
      var hi := if lo + chunk - 1 > toBlock then toBlock else lo + chunk - 1;
      QueryAppend(h, removal, fromBlock, fetched, hi);
      out := out + Query(h, removal, lo, hi);
      StepWindows(windows, lo, toBlock, chunk);
      windows := windows + [Window(lo, hi)];
      lo, fetched := lo + chunk, hi;
    }
    if toBlock < fromBlock {
      EmptyWindow(h, removal, fromBlock, toBlock);
    }
    CompleteWindows(windows, fromBlock, toBlock, chunk);
  }

  lemma StepWindows(done: seq<Window>, lo: int, hi: int, step: nat)
    requires step >= 1 && lo <= hi
    ensures done + Windows(lo, hi, step)
         == done + [Window(lo, if lo + step - 1 > hi then hi else lo + step - 1)] + Windows(lo + step, hi, step)
  {
  }

  lemma CompleteWindows(windows: seq<Window>, lo: int, hi: int, step: nat)
    requires step >= 1 && windows == Windows(lo, hi, step)
    ensures Tiles(windows, lo, hi, step)
    ensures |windows| == if hi < lo then 0 else (hi - lo) / step + 1
  {
    WindowsTile(lo, hi, step);
    if lo <= hi {
      WindowsCount(lo, hi, step);
    }
  }

  // ---- Batched fan-out ----

  /** All batches but the last are full, and together they make up the total. */
  ghost predicate BatchesCover(batches: seq<nat>, batchSize: nat, total: nat) {
    && (forall i :: 0 <= i < |batches| ==> 1 <= batches[i] <= batchSize)
    && (forall i :: 0 <= i < |batches| - 1 ==> batches[i] == batchSize)
    && total == if batches == [] then 0 else (|batches| - 1) * batchSize + batches[|batches| - 1]
  }

  function AllOk<A, B, E>(items: seq<A>, fetcher: A -> Result<B, E>): bool {
    forall i :: 0 <= i < |items| ==> fetcher(items[i]).Success?
  }

  function Values<A, B, E>(items: seq<A>, fetcher: A -> Result<B, E>): seq<B>
    requires AllOk(items, fetcher)
  {
    seq(|items|, i requires 0 <= i < |items| => fetcher(items[i]).value)
  }

  datatype FetchError<E> = BadBatchSize | ItemFailed(error: E)

  ghost predicate FailsWithin<A, B, E>(items: seq<A>, fetcher: A -> Result<B, E>, lo: int, hi: int, error: E) {
    exists i :: 0 <= i < |items| && lo <= i < hi && fetcher(items[i]) == Failure(error)
  }

  lemma MoreOk<A, B, E>(items: seq<A>, fetcher: A -> Result<B, E>, k: nat)
    requires k < |items| && AllOk(items[..k], fetcher) && fetcher(items[k]).Success?
    ensures AllOk(items[..k + 1], fetcher)
    ensures Values(items[..k + 1], fetcher) == Values(items[..k], fetcher) + [fetcher(items[k]).value]
  {
    assert items[..k + 1] == items[..k] + [items[k]];
  }

  /** All calls of one batch, awaited together. */
  method AwaitBatch<A, B, E>(items: seq<A>, fetcher: A -> Result<B, E>, lo: nat, hi: nat)
    returns (settled: Result<seq<B>, E>)
    requires lo <= hi <= |items| && AllOk(items[..lo], fetcher)
    ensures settled.Success? <==> AllOk(items[..hi], fetcher)
    ensures settled.Success? ==> Values(items[..hi], fetcher) == Values(items[..lo], fetcher) + settled.value
    ensures settled.Failure? ==> FailsWithin(items, fetcher, lo, hi, settled.error)
  {
    var out: seq<B> := [];
    for k := lo to hi
      invariant AllOk(items[..k], fetcher)
      invariant Values(items[..k], fetcher) == Values(items[..lo], fetcher) + out
    {
      match fetcher(items[k]) {
        case Failure(error) =>
          assert items[..hi][k] == items[k];
          return Failure(error);
        case Success(value) =>
          MoreOk(items, fetcher, k);
          out := out + [value];
      }
    }
    return Success(out);
  }

  /** `batches` records how many calls were in flight together, batch by batch. A rejected call
      rejects its batch, and no later batch starts; which of several rejections in one batch
      surfaces is a race, so only membership in that batch is promised. */
  method FetchInBatches<A, B, E>(items: seq<A>, fetcher: A -> Result<B, E>, batchSize: int)
    returns (out: Result<seq<B>, FetchError<E>>, batches: seq<nat>)
    ensures out == Failure(BadBatchSize) <==> batchSize < 1
    ensures out.Success? <==> batchSize >= 1 && AllOk(items, fetcher)
    ensures out.Success? ==> out.value == Values(items, fetcher) && BatchesCover(batches, batchSize, |items|)
    ensures out.Failure? && out.error.ItemFailed? ==>
      && 0 <= (|batches| - 1) * batchSize < |items| && AllOk(items[..(|batches| - 1) * batchSize], fetcher)
      && FailsWithin(items, fetcher, (|batches| - 1) * batchSize, |batches| * batchSize, out.error.error)
    ensures forall i :: 0 <= i < |batches| ==> 1 <= batches[i] <= batchSize
  {
    if batchSize < 1 {
      return Failure(BadBatchSize), [];
    }
    out, batches := Success([]), [];
    var i: nat, done: nat := 0, 0;
    assert Values(items[..0], fetcher) == [];
    while i < |items|
      invariant Progressed(batches, batchSize, |items|, i, done)
      invariant AllOk(items[..done], fetcher)
      invariant out == Success(Values(items[..done], fetcher))
      decreases |items| - i
    {
      var end := if i + batchSize <= |items| then i + batchSize else |items|;
      NextBatch(batches, batchSize, |items|, i, done, end);
      hide Progressed;
      batches := batches + [end - i];
      var settled := AwaitBatch(items, fetcher, i, end);
      if settled.Failure? {
        assert items[..|items|] == items;
        FailedBatch(items, fetcher, i, end, settled.error);
        return Failure(ItemFailed(settled.error)), batches;
      }
      out := Success(out.value + settled.value);
      i, done := i + batchSize, end;
    }
    assert items[..|items|] == items;
  }

  /** After so many full batches, `i` items have been asked for, `done` of which exist. */
  ghost predicate Progressed(batches: seq<nat>, batchSize: nat, total: nat, i: nat, done: nat) {
    && i == |batches| * batchSize && done == (if i <= total then i else total)
    && BatchesCover(batches, batchSize, done)
    && (i <= total ==> forall k :: 0 <= k < |batches| ==> batches[k] == batchSize)
  }

  lemma NextBatch(batches: seq<nat>, batchSize: nat, total: nat, i: nat, done: nat, end: nat)
    requires batchSize >= 1 && i < total && Progressed(batches, batchSize, total, i, done)
    requires end == if i + batchSize <= total then i + batchSize else total
    ensures done == i && Progressed(batches + [end - i], batchSize, total, i + batchSize, end)
    ensures |batches| * batchSize == i && (|batches| + 1) * batchSize == i + batchSize
  {
    assert (|batches| + 1) * batchSize == |batches| * batchSize + batchSize;
  }

  lemma FailedBatch<A, B, E>(items: seq<A>, fetcher: A -> Result<B, E>, lo: nat, hi: nat, error: E)
    requires FailsWithin(items, fetcher, lo, hi, error)
    ensures !AllOk(items, fetcher) && forall more :: more >= hi ==> FailsWithin(items, fetcher, lo, more, error)
  {
  }

  // ---- Where to start ----

  datatype Source = Flag | Env | AutoDetect | DefaultZero

  datatype Start = Start(fromBlock: nat, source: Source)

  /** What the ladder may consult: the `--from-block` flag and the environment variables as
      parsed numbers (None when absent or empty), and the node for the search (None when the
      caller gave no manager address or the node cannot answer historical `getCode`). */
  datatype StartInputs = StartInputs(flag: Option<int>, env: seq<Option<int>>, search: Option<nat -> bool>)

  predicate EnvUsable(v: Option<int>) {
    v.Some? && v.value >= 0
  }

  /** No environment variable is a block number. */
  ghost predicate NoEnv(env: seq<Option<int>>) {
    forall i :: 0 <= i < |env| ==> env[i] == None || env[i].value < 0
  }

  /** Variable i is the first that is a block number, and `block` is its value. */
  ghost predicate EnvAt(env: seq<Option<int>>, block: nat, i: nat) {
    i < |env| && env[i] == Some(block) && NoEnv(env[..i])
  }

  /** The ladder: the flag, else the environment, else the deploy block the search finds, else 0. */
  ghost predicate StartsAt(inputs: StartInputs, head: int, s: Start) {
    if inputs.flag.Some? then s.source == Flag && s.fromBlock == inputs.flag.value
    else if !NoEnv(inputs.env) then s.source == Env && exists i :: EnvAt(inputs.env, s.fromBlock, i)
    else if inputs.search.Some? && 0 <= head && inputs.search.value(head) then
      s.source == AutoDetect && IsDeployBlock(inputs.search.value, head, s.fromBlock)
    else s == Start(0, DefaultZero)
  }

  /** Code is there but not in the block before; the least such block, if code stays once present. */
  ghost predicate IsDeployBlock(code: nat -> bool, head: nat, block: nat) {
    && block <= head && code(block) && (block > 0 ==> !code(block - 1))
    && (Monotone(code, head) ==> forall b: nat :: b < block ==> !code(b))
  }

  ghost predicate ChosenStart(inputs: StartInputs, head: int, fromBlock: nat) {
    exists source :: StartsAt(inputs, head, Start(fromBlock, source))
  }

  /** A later search finds the same block: the start is set by hand, or there is nothing to search, or
      the search sees the same answer at both heads and code that stays once deployed. */
  ghost predicate StableStart(inputs: StartInputs, searchHead: nat, searchHead': nat) {
    inputs.flag.Some? || !NoEnv(inputs.env) || inputs.search.None? ||
    var code := inputs.search.value;
    searchHead <= searchHead' && (code(searchHead) <==> code(searchHead'))
      && (code(searchHead) ==> Monotone(code, searchHead'))
  }

  lemma SameStart(inputs: StartInputs, searchHead: nat, searchHead': nat, fromBlock: nat, fromBlock': nat)
    requires StableStart(inputs, searchHead, searchHead')
    requires ChosenStart(inputs, searchHead, fromBlock) && ChosenStart(inputs, searchHead', fromBlock')
    ensures fromBlock == fromBlock'
  {
  }

  method ResolveStartingBlock(inputs: StartInputs, head: int) returns (r: Option<Start>)
    ensures r.None? <==> inputs.flag.Some? && inputs.flag.value < 0
    ensures r.Some? ==> StartsAt(inputs, head, r.value)
  {
    if inputs.flag.Some? {
      if inputs.flag.value < 0 {
        return None;
      }
      return Some(Start(inputs.flag.value, Flag));
    }
    for i := 0 to |inputs.env|
      invariant NoEnv(inputs.env[..i])
    {
      if EnvUsable(inputs.env[i]) {
        assert EnvAt(inputs.env, inputs.env[i].value, i);
        return Some(Start(inputs.env[i].value, Env));
      }
    }
    if inputs.search.Some? {
      var block, _ := BinarySearchDeployBlock(inputs.search.value, head);
      if block.Some? {
        return Some(Start(block.value, AutoDetect));
      }
    }
    return Some(Start(0, DefaultZero));
  }

  // ---- Fetch, merge and replay ----

  const EVENT_LOG_CHUNK := 5000

  /** The start cannot hide an event: nothing was chosen by hand, and the search, if it found code
      at its own head, looked at code that stays once deployed, is there at the audit's head, and is
      there at the block of every event the search could see. */
  ghost predicate CompleteStart<K>(inputs: StartInputs, h: seq<Log<K>>, head: nat, searchHead: nat) {
    && inputs.flag.None?
    && NoEnv(inputs.env)
    && (inputs.search.Some? && inputs.search.value(searchHead) ==>
          && Monotone(inputs.search.value, searchHead)
          && (head < searchHead ==> inputs.search.value(head))
          && forall i :: 0 <= i < |h| && h[i].block <= searchHead ==> inputs.search.value(h[i].block))
  }

  /** The keys a scan from block `lo` can report: live, in scope, last changed at `lo` or later. */
  ghost function Reported<K>(h: seq<Log<K>>, scope: K -> bool, lo: nat): set<K> {
    set k | k in State(h) && scope(k) && lo <= LastBlock(h, k)
  }

  /** None when the start is past the head. The contract is the audit's exactness: a clean skip
      counter certifies that each key is reported once, none that the manager does not hold, and
      that exactly the live keys whose last change is older than the start are missing. */
  method ReplayFrom<K(==, !new)>(h: seq<Log<K>>, head: nat, fromBlock: nat, scope: K -> bool)
    returns (live: Option<seq<K>>, skipped: nat)
    requires Ordered(h) && forall l :: l in h ==> l.block <= head
    ensures live.None? <==> fromBlock > head
    ensures live.Some? ==> live.value == Replay(Range(h, fromBlock, head), scope)
    ensures live.Some? ==> skipped == Undecodable(Range(h, fromBlock, head))
    ensures live.Some? && skipped == 0 ==>
      NoDup(live.value) && ToSet(live.value) == Reported(h, scope, fromBlock)
  {
    if fromBlock > head {
      return None, 0;
    }
    var added, _ := FetchLogsChunked(h, false, fromBlock, head, EVENT_LOG_CHUNK);
    var removed, _ := FetchLogsChunked(h, true, fromBlock, head, EVENT_LOG_CHUNK);
    var events := Merge(added, removed);
    MergeRestores(h, fromBlock, head);
    var keys;
    keys, skipped := ReplayEvents(events, scope);
    if skipped == 0 {
      NothingSkipped(events);
      ReplayIsState(events, scope);
      LateStart(h, fromBlock, head);
    }
    return Some(keys), skipped;
  }

  /** A complete start scans the whole history and reports the whole state. */
  lemma CompleteScan<K(!new)>(inputs: StartInputs, h: seq<Log<K>>, head: nat, searchHead: nat, s: Start,
                               scope: K -> bool)
    requires forall l :: l in h ==> l.block <= head
    requires StartsAt(inputs, searchHead, s)
    ensures CompleteStart(inputs, h, head, searchHead) ==>
      && s.fromBlock <= head
      && Range(h, s.fromBlock, head) == h
      && Reported(h, scope, s.fromBlock) == set k | k in State(h) && scope(k)
  {
    if CompleteStart(inputs, h, head, searchHead) {
      forall l | l in h ensures s.fromBlock <= l.block <= head {
        if s.source == AutoDetect && l.block <= searchHead {
          var i: nat :| 0 <= i < |h| && h[i] == l;
          assert inputs.search.value(h[i].block);
        }
      }
      FullRange(h, s.fromBlock, head);
      LiveKeysDated(h, s.fromBlock);
    }
  }

  lemma {:induction false} LiveKeysDated<K(!new)>(h: seq<Log<K>>, lo: nat)
    requires forall i :: 0 <= i < |h| ==> lo <= h[i].block
    ensures forall k :: k in State(h) ==> lo <= LastBlock(h, k)
  {
    if h == [] {
    } else {
      LiveKeysDated(h[..|h| - 1], lo);
    }
  }
}
