/** The manager's event history and its replay.

    A chain keeps a sequence of logs ordered by (block, index). Each log puts a key into the
    manager's live set or takes one out; for the selector audit a key is a
    (target, selector, role) triple, for the role audit an account. The audits fetch the two
    event topics in separate streams, merge them by position and fold them again. */
module EventLog {
  import opened Seqs

  /** `removal` is the log's topic. A log whose payload does not decode against the audit's ABI
      still changed the manager, but its replay can only skip it. */
  datatype Log<K> = Log(block: nat, index: nat, removal: bool, key: K, decodable: bool)

  predicate NotAfter<K>(a: Log<K>, b: Log<K>) {
    a.block < b.block || (a.block == b.block && a.index <= b.index)
  }

  /** Positions strictly increase, so no two logs share a (block, index) pair. */
  ghost predicate Ordered<K>(h: seq<Log<K>>) {
    forall i, j :: 0 <= i < j < |h| ==>
      h[i].block < h[j].block || (h[i].block == h[j].block && h[i].index < h[j].index)
  }

  /** What the manager really holds after the history `h`. */
  function State<K>(h: seq<Log<K>>): set<K> {
    if h == [] then {} else
    var l := h[|h| - 1];
    State(h[..|h| - 1]) + (if l.removal then {} else {l.key}) - if l.removal then {l.key} else {}
  }

  /** `eth_getLogs`: one topic, an inclusive block range, answered in chain order. */
  function Query<K>(h: seq<Log<K>>, removal: bool, lo: int, hi: int): seq<Log<K>> {
    Filter(h, (l: Log<K>) => l.removal == removal && lo <= l.block <= hi)
  }

  function Range<K>(h: seq<Log<K>>, lo: int, hi: int): seq<Log<K>> {
    Filter(h, (l: Log<K>) => lo <= l.block <= hi)
  }

  /** The merged stream: both topics concatenated, then sorted by (block, index). */
  function Merge<K>(added: seq<Log<K>>, removed: seq<Log<K>>): seq<Log<K>> {
    SortBy(added + removed, (a: Log<K>, b: Log<K>) => NotAfter(a, b))
  }

  /** One step of the replay. The live collection is insertion-ordered, as a JavaScript Map is. */
  function Step<K(==, !new)>(live: seq<K>, l: Log<K>, inScope: K -> bool): seq<K> {
    if !l.decodable || !inScope(l.key) then live
    else if l.removal then Drop(live, l.key)
    else Put(live, l.key)
  }

  function Replay<K(==, !new)>(events: seq<Log<K>>, inScope: K -> bool): seq<K> {
    if events == [] then []
    else Step(Replay(events[..|events| - 1], inScope), events[|events| - 1], inScope)
  }

  function Undecodable<K>(events: seq<Log<K>>): nat {
    if events == [] then 0
    else Undecodable(events[..|events| - 1]) + if events[|events| - 1].decodable then 0 else 1
  }

  /** The replay loop: skips and counts what does not decode, ignores keys out of scope. */
  method ReplayEvents<K(==, !new)>(events: seq<Log<K>>, inScope: K -> bool) returns (live: seq<K>, skipped: nat)
    ensures live == Replay(events, inScope)
    ensures skipped == Undecodable(events)
  {
    live, skipped := [], 0;
    for i := 0 to |events|
      invariant live == Replay(events[..i], inScope)
      invariant skipped == Undecodable(events[..i])
    {
      var ev := events[i];
      assert events[..i + 1][..i] == events[..i];
      if !ev.decodable {
        skipped := skipped + 1;
      } else if inScope(ev.key) {
        live := if ev.removal then Drop(live, ev.key) else Put(live, ev.key);
      }
    }
    assert events[..|events|] == events;
  }

  // ---- The merge restores the chain's own order ----

  lemma {:induction false} TopicsPartition<K(!new)>(h: seq<Log<K>>, lo: int, hi: int)
    ensures multiset(Query(h, false, lo, hi) + Query(h, true, lo, hi)) == multiset(Range(h, lo, hi))
  {
    if h == [] {
    } else {
      TopicsPartition(h[..|h| - 1], lo, hi);
    }
  }

  lemma {:induction false} RangeOrdered<K(!new)>(h: seq<Log<K>>, lo: int, hi: int)
    requires Ordered(h)
    ensures Ordered(Range(h, lo, hi))
  {
    if h == [] {
    } else {
      var init, last := h[..|h| - 1], h[|h| - 1];
      RangeOrdered(init, lo, hi);
      var r := Range(init, lo, hi);
      FilterIn(init, (l: Log<K>) => lo <= l.block <= hi);
      forall i | 0 <= i < |r| ensures NotAfter(r[i], last) && !NotAfter(last, r[i]) {
        assert r[i] in init;
        var k :| 0 <= k < |init| && init[k] == r[i];
        assert h[k] == r[i];
      }
    }
  }

  /** Splitting a history into its two topics and merging them by position gives it back. */
  lemma MergeRestores<K(!new)>(h: seq<Log<K>>, lo: int, hi: int)
    requires Ordered(h)
    ensures Merge(Query(h, false, lo, hi), Query(h, true, lo, hi)) == Range(h, lo, hi)
  {
    hide Query, Range, Ordered;
    var le := (a: Log<K>, b: Log<K>) => NotAfter(a, b);
    var both, r := Query(h, false, lo, hi) + Query(h, true, lo, hi), Range(h, lo, hi);
    TopicsPartition(h, lo, hi);
    RangeOrdered(h, lo, hi);
    SortBySorts(both, le);
    OrderedIsSorted(r);
    SortedUnique(r, SortBy(both, le), le);
  }

  lemma OrderedIsSorted<K(!new)>(r: seq<Log<K>>)
    requires Ordered(r)
    ensures Sorted(r, (a: Log<K>, b: Log<K>) => NotAfter(a, b))
    ensures forall x, y :: x in r && y in r && NotAfter(x, y) && NotAfter(y, x) ==> x == y
  {
    forall x, y | x in r && y in r && NotAfter(x, y) && NotAfter(y, x) ensures x == y {
      var i, j :| 0 <= i < |r| && 0 <= j < |r| && r[i] == x && r[j] == y;
    }
  }

  // ---- Replaying decodable events computes the manager's state ----

  lemma {:induction false} ReplayIsState<K(!new)>(h: seq<Log<K>>, inScope: K -> bool)
    requires forall l :: l in h && inScope(l.key) ==> l.decodable
    ensures NoDup(Replay(h, inScope))
    ensures ToSet(Replay(h, inScope)) == set k | k in State(h) && inScope(k)
  {
    if h == [] {
    } else {
      var init, l := h[..|h| - 1], h[|h| - 1];
      assert l in h;
      ReplayIsState(init, inScope);
      var live := Replay(init, inScope);
      assert Replay(h, inScope) == Step(live, l, inScope);
    }
  }

  /** The skip counter certifies the replay: it is zero iff every event decoded. */
  lemma {:induction false} NothingSkipped<K(!new)>(events: seq<Log<K>>)
    ensures Undecodable(events) == 0 <==> forall l :: l in events ==> l.decodable
  {
    if events == [] {
    } else {
      assert events == events[..|events| - 1] + [events[|events| - 1]];
      NothingSkipped(events[..|events| - 1]);
    }
  }

  /** The counter counts the events that do not decode. */
  lemma {:induction false} UndecodableCounts<K(!new)>(events: seq<Log<K>>)
    ensures Undecodable(events) == |set i | 0 <= i < |events| && !events[i].decodable|
  {
    var n, bad := |events| - 1, set i | 0 <= i < |events| && !events[i].decodable;
    if events == [] {
      assert bad == {};
    } else {
      UndecodableCounts(events[..n]);
      var before := set i | 0 <= i < n && !events[..n][i].decodable;
      assert bad == before + if events[n].decodable then {} else {n};
    }
  }

  /** The manager holds a key iff the last log about it puts it in. */
  lemma {:induction false} StateIsLast<K>(h: seq<Log<K>>, k: K)
    ensures k in State(h) <==>
      exists i :: 0 <= i < |h| && h[i].key == k && !h[i].removal && forall j :: i < j < |h| ==> h[j].key != k
  {
    if h == [] {
    } else {
      var n := |h| - 1;
      StateIsLast(h[..n], k);
      if h[n].key != k && k in State(h) {
        var i :| 0 <= i < n && h[..n][i].key == k && !h[..n][i].removal
          && forall j :: i < j < n ==> h[..n][j].key != k;
        assert h[i].key == k && !h[i].removal;
        forall j | i < j < |h| ensures h[j].key != k {
          if j < n {
            assert h[..n][j].key != k;
          }
        }
      }
      if i :| 0 <= i < n && h[i].key == k && !h[i].removal && forall j :: i < j < |h| ==> h[j].key != k {
        assert h[..n][i].key == k && !h[..n][i].removal;
        assert h[n].key != k;
      }
    }
  }

  /** Whatever does not decode: a replayed key is in scope. */
  lemma {:induction false} ReplayInScope<K(!new)>(h: seq<Log<K>>, inScope: K -> bool)
    ensures forall k :: k in Replay(h, inScope) ==> inScope(k)
  {
    if h == [] {
    } else {
      ReplayInScope(h[..|h| - 1], inScope);
      var live := Replay(h[..|h| - 1], inScope);
      assert forall k :: k in Replay(h, inScope) <==> k in ToSet(Replay(h, inScope));
      assert forall k :: k in live <==> k in ToSet(live);
    }
  }

  /** A history that went on: a scan up to a later head sees the old range and then the new logs. */
  lemma {:induction false} RangeGoesOn<K(!new)>(h: seq<Log<K>>, more: seq<Log<K>>, lo: int, head: int, head': int)
    requires lo <= head <= head'
    requires forall i :: 0 <= i < |h| ==> h[i].block <= head
    requires forall i :: 0 <= i < |more| ==> head < more[i].block <= head'
    ensures Range(h + more, lo, head') == Range(h, lo, head) + more
  {
    if more == [] {
      assert h + more == h;
      assert forall l :: l in h ==> l.block <= head;
      FilterEqual(h, (l: Log<K>) => lo <= l.block <= head', (l: Log<K>) => lo <= l.block <= head);
    } else {
      var n := |more| - 1;
      assert (h + more)[..|h + more| - 1] == h + more[..n];
      RangeGoesOn(h, more[..n], lo, head, head');
    }
  }

  lemma {:induction false} UndecodableGoesOn<K(!new)>(h: seq<Log<K>>, more: seq<Log<K>>)
    requires forall i :: 0 <= i < |more| ==> more[i].decodable
    ensures Undecodable(h + more) == Undecodable(h)
  {
    if more == [] {
      assert h + more == h;
    } else {
      assert (h + more)[..|h + more| - 1] == h + more[..|more| - 1];
      UndecodableGoesOn(h, more[..|more| - 1]);
    }
  }

  // ---- Replaying only from some block on ----

  /** The block of the last log about `k`, or -1. */
  function LastBlock<K(==)>(h: seq<Log<K>>, k: K): int {
    if h == [] then -1
    else if h[|h| - 1].key == k then h[|h| - 1].block
    else LastBlock(h[..|h| - 1], k)
  }

  lemma {:induction false} LastBlockBounded<K>(h: seq<Log<K>>, k: K, bound: int)
    requires bound >= -1 && forall l :: l in h ==> l.block <= bound
    ensures LastBlock(h, k) <= bound
  {
    if h == [] {
    } else {
      assert h[|h| - 1] in h;
      LastBlockBounded(h[..|h| - 1], k, bound);
    }
  }

  /** A scan that starts at block `lo` never invents a key: it reports exactly the live keys
      whose last change is not older than `lo`. */
  lemma {:induction false} LateStart<K(!new)>(h: seq<Log<K>>, lo: int, hi: int)
    requires Ordered(h) && forall l :: l in h ==> l.block <= hi
    ensures State(Range(h, lo, hi)) == ChangedFrom(h, lo)
  {
    hide ChangedFrom, Ordered, LastBlock;
    if h == [] {
      NothingChanged<K>(lo);
    } else {
      var init, l := h[..|h| - 1], h[|h| - 1];
      assert h == init + [l];
      InitOrdered(h);
      LateStart(init, lo, hi);
      ChangedPush(init, l, lo);
      if lo <= l.block {
        RangeTakes(init, l, lo, hi);
        StatePush(Range(init, lo, hi), l);
      } else {
        RangeSkips(init, l, lo, hi);
        NoneChanged(init, l.block, lo);
      }
    }
  }

  /** The live keys whose last change is not older than `lo`. */
  function ChangedFrom<K>(h: seq<Log<K>>, lo: int): set<K> {
    set k | k in State(h) && lo <= LastBlock(h, k)
  }

  lemma NothingChanged<K>(lo: int)
    ensures ChangedFrom<K>([], lo) == {}
  {
  }

  lemma InitOrdered<K>(h: seq<Log<K>>)
    requires Ordered(h) && h != []
    ensures Ordered(h[..|h| - 1])
    ensures forall x :: x in h[..|h| - 1] ==> x.block <= h[|h| - 1].block
  {
    BehindIsLater(h);
  }

  lemma ChangedPush<K>(init: seq<Log<K>>, l: Log<K>, lo: int)
    ensures ChangedFrom(init + [l], lo)
         == if lo > l.block then ChangedFrom(init, lo) - {l.key}
            else if l.removal then ChangedFrom(init, lo) - {l.key}
            else ChangedFrom(init, lo) + {l.key}
  {
    StatePush(init, l);
    assert (init + [l])[..|init|] == init;
  }

  lemma NoneChanged<K(!new)>(h: seq<Log<K>>, bound: int, lo: int)
    requires -1 <= bound < lo && forall l :: l in h ==> l.block <= bound
    ensures ChangedFrom(h, lo) == {}
  {
    forall k ensures LastBlock(h, k) <= bound {
      LastBlockBounded(h, k, bound);
    }
  }

  lemma RangeTakes<K(!new)>(init: seq<Log<K>>, l: Log<K>, lo: int, hi: int)
    requires lo <= l.block <= hi
    ensures Range(init + [l], lo, hi) == Range(init, lo, hi) + [l]
  {
    FilterPush(init, l, (x: Log<K>) => lo <= x.block <= hi);
  }

  lemma StatePush<K>(h: seq<Log<K>>, l: Log<K>)
    ensures State(h + [l]) == State(h) + (if l.removal then {} else {l.key}) - if l.removal then {l.key} else {}
  {
    assert (h + [l])[..|h|] == h;
  }

  lemma RangeSkips<K(!new)>(init: seq<Log<K>>, l: Log<K>, lo: int, hi: int)
    requires l.block < lo
    ensures Range(init + [l], lo, hi) == Range(init, lo, hi)
  {
    FilterPush(init, l, (x: Log<K>) => lo <= x.block <= hi);
  }

  lemma BehindIsLater<K>(h: seq<Log<K>>)
    requires Ordered(h) && h != []
    ensures forall x :: x in h[..|h| - 1] ==> x.block <= h[|h| - 1].block
  {
    forall x | x in h[..|h| - 1] ensures x.block <= h[|h| - 1].block {
      var i :| 0 <= i < |h| - 1 && h[i] == x;
    }
  }

  /** When no log is older than `lo`, nothing is lost. */
  lemma FullRange<K(!new)>(h: seq<Log<K>>, lo: int, hi: int)
    requires forall l :: l in h ==> lo <= l.block <= hi
    ensures Range(h, lo, hi) == h
  {
    FilterAll(h, (l: Log<K>) => lo <= l.block <= hi);
  }
}
