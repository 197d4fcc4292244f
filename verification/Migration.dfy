/** The migration generator: one removal per STALE finding, and the proof that running the
    generated script closes the loop. */
module Migration {
  import opened Wrappers
  import opened Seqs
  import opened EventLog
  import opened BlockScan
  import opened Artifacts
  import opened ArtifactWalks
  import opened SelectorAudit

  predicate IsStale(f: Finding) {
    !f.ok
  }

  /** The keys the generated script removes, in the order of its lines. */
  function Removals(findings: seq<Finding>): seq<Key> {
    Map(Filter(findings, IsStale), (f: Finding) => f.key)
  }

  /** Line j removes the key of finding `at[j]`; these are the findings that are not OK, in order. */
  ghost predicate LinesFor(lines: seq<Key>, findings: seq<Finding>, at: seq<nat>) {
    && |at| == |lines|
    && (forall j :: 0 <= j < |at| ==>
          at[j] < |findings| && !findings[at[j]].ok && lines[j] == findings[at[j]].key)
    && (forall j, k :: 0 <= j < k < |at| ==> at[j] < at[k])
    && (forall i :: 0 <= i < |findings| && !findings[i].ok ==> i in at)
  }

  lemma {:induction false} RemovalsInOrder(findings: seq<Finding>) returns (at: seq<nat>)
    ensures LinesFor(Removals(findings), findings, at)
  {
    hide Removals, LinesFor;
    if findings == [] {
      at := [];
      NothingRemoved();
    } else {
      var n := |findings| - 1;
      at := RemovalsInOrder(findings[..n]);
      assert findings == findings[..n] + [findings[n]];
      MoreRemovals(findings[..n], findings[n]);
      OneMoreLine(Removals(findings[..n]), findings[..n], at, findings[n]);
      at := at + if findings[n].ok then [] else [n];
    }
  }

  lemma OneMoreLine(lines: seq<Key>, init: seq<Finding>, at: seq<nat>, last: Finding)
    requires LinesFor(lines, init, at)
    ensures LinesFor(lines + if last.ok then [] else [last.key], init + [last],
                     at + if last.ok then [] else [|init|])
  {
    var findings, more := init + [last], at + if last.ok then [] else [|init|];
    forall i | 0 <= i < |findings| && !findings[i].ok ensures i in more {
      if i < |init| {
        assert !init[i].ok && i in at;
      } else {
        assert more[|at|] == i;
      }
    }
  }

  lemma NothingRemoved()
    ensures LinesFor(Removals([]), [], [])
  {
  }

  lemma MoreRemovals(init: seq<Finding>, last: Finding)
    ensures Removals(init + [last]) == Removals(init) + if last.ok then [] else [last.key]
  {
    FilterPush(init, last, IsStale);
    if !last.ok {
      MapPush(Filter(init, IsStale), last, (f: Finding) => f.key);
    }
  }

  /** `lintMissing` counts the MISSING findings of the deploy-code lint, which runs first. */
  method GenerateMigration(lintMissing: nat, findings: seq<Finding>) returns (script: Option<seq<Key>>)
    ensures script.None? <==> lintMissing > 0 || forall f :: f in findings ==> f.ok
    ensures script.Some? ==> script.value == Removals(findings)
    ensures script.Some? ==> exists at :: LinesFor(script.value, findings, at)
  {
    if lintMissing > 0 {
      return None;
    }
    var stale := Filter(findings, IsStale);
    FilterIn(findings, IsStale);
    if |stale| == 0 {
      assert forall f :: f in findings && IsStale(f) ==> f in stale;
      return None;
    }
    assert stale[0] in stale;
    var lines := PushEach(stale, (f: Finding) => f.key);
    ghost var at := RemovalsInOrder(findings);
    return Some(lines);
  }

  /** The logs a run of the script leaves behind: one removal per line, at increasing positions. */
  ghost predicate LogsOf(logs: seq<Log<Key>>, removals: seq<Key>) {
    |logs| == |removals| && forall i :: 0 <= i < |logs| ==>
      logs[i].removal && logs[i].decodable && logs[i].key == removals[i]
  }

  lemma {:induction false} ReplayRemovals(h: seq<Log<Key>>, logs: seq<Log<Key>>, removals: seq<Key>, scope: Key -> bool)
    requires LogsOf(logs, removals) && forall k :: k in removals ==> scope(k)
    ensures Replay(h + logs, scope) == Filter(Replay(h, scope), k => k !in removals)
  {
    if logs == [] {
      assert h + logs == h;
      FilterAll(Replay(h, scope), k => k !in removals);
    } else {
      var n := |logs| - 1;
      var gone := removals[..n];
      assert removals == gone + [removals[n]];
      ReplayRemovals(h, logs[..n], gone, scope);
      assert (h + logs)[..|h + logs| - 1] == h + logs[..n];
      FilterTwice(Replay(h, scope), k => k !in gone, Other(removals[n]), k => k !in removals);
    }
  }

  /** A STALE address loses all its mappings and an OK address none, so identification does not
      move: after the script the findings are the OK findings of before, unchanged and in order,
      no mapping is STALE, and generating again emits nothing. */
  lemma MigrationCloses(setup: Setup, names: map<Address, string>, h: seq<Log<Key>>, logs: seq<Log<Key>>,
                        scope: Key -> bool)
    requires TotalOrder(setup.le)
    requires LogsOf(logs, Removals(FindingsOf(setup, names, Replay(h, scope))))
    ensures
      var before := FindingsOf(setup, names, Replay(h, scope));
      var after := FindingsOf(setup, names, Replay(h + logs, scope));
      && after == Filter(before, (f: Finding) => f.ok)
      && (forall f :: f in after ==> f.ok)
      && Removals(after) == []
      && State(h + logs) == State(h) - ToSet(Removals(before))
  {
    var live := Replay(h, scope);
    var removals := Removals(FindingsOf(setup, names, live));
    RemovalsAreStale(setup, names, live);
    ReplayInScope(h, scope);
    ReplayRemovals(h, logs, removals, scope);
    SurvivorsStay(setup, names, live);
    StateRemovals(h, logs, removals);
  }

  /** Audit, generate, run, audit again. Whatever was skipped, wherever the scan started and whatever
      the filter: once the script's removals are mined behind the first audit's head, the second audit
      succeeds with exactly the first one's OK findings, and generating again emits nothing. */
  lemma AuditAgain(setup: Setup, filter: ContractFilter, h: seq<Log<Key>>, logs: seq<Log<Key>>, start: StartInputs,
                   head: nat, searchHead: nat, r: Result<seq<Finding>, AuditError>, skipped: nat, fromBlock: nat,
                   head': nat, searchHead': nat, r': Result<seq<Finding>, AuditError>, skipped': nat, fromBlock': nat)
    requires TotalOrder(setup.le) && head <= head' && StableStart(start, searchHead, searchHead')
    requires forall i :: 0 <= i < |h| ==> h[i].block <= head
    requires forall i :: 0 <= i < |logs| ==> head < logs[i].block <= head'
    requires AuditOutcome(setup, filter, true, h, head, searchHead, start, r, skipped, fromBlock) && r.Success?
    requires LogsOf(logs, Removals(r.value))
    requires AuditOutcome(setup, filter, true, h + logs, head', searchHead', start, r', skipped', fromBlock')
    ensures fromBlock' == fromBlock && skipped' == skipped
    ensures r' == Success(Filter(r.value, (f: Finding) => f.ok))
    ensures (forall f :: f in r'.value ==> f.ok) && Removals(r'.value) == []
  {
    hide ChosenStart, StableStart, FindingsOf, Removals, Replay;
    SameStart(start, searchHead, searchHead', fromBlock, fromBlock');
    RangeGoesOn(h, logs, fromBlock, head, head');
    UndecodableGoesOn(Range(h, fromBlock, head), logs);
    MigrationCloses(setup, NamesByAddress(setup.registry, filter), Range(h, fromBlock, head), logs,
                    Scope(setup.registry, filter));
  }

  lemma SurvivorsStay(setup: Setup, names: map<Address, string>, live: seq<Key>)
    requires TotalOrder(setup.le)
    ensures
      var before := FindingsOf(setup, names, live);
      var after := FindingsOf(setup, names, Filter(live, k => k !in Removals(before)));
      && after == Filter(before, (f: Finding) => f.ok)
      && (forall f :: f in after ==> f.ok)
      && Removals(after) == []
  {
    hide FindingFor, Removals, Identifiable;
    var before := FindingsOf(setup, names, live);
    var keep, isOk := (k: Key) => k !in Removals(before), (f: Finding) => f.ok;
    RemovalsAreStale(setup, names, live);
    FindingsKept(setup, names, live, keep);
    forall f | f in before ensures keep(f.key) == f.ok {
      var i :| 0 <= i < |live| && before[i] == f;
      KeptIffOk(setup, names, live, live[i]);
    }
    FilterEqual(before, (f: Finding) => keep(f.key), isOk);
    FilterIn(before, isOk);
    NothingStale(Filter(before, isOk));
  }

  lemma KeptIffOk(setup: Setup, names: map<Address, string>, live: seq<Key>, k: Key)
    requires TotalOrder(setup.le) && k in live
    ensures var f := FindingFor(setup, names, live, k);
      f.key == k && (f.ok <==> k !in Removals(FindingsOf(setup, names, live)))
  {
    AllOrNothing(setup, names, live, k);
    hide Resolve, Identifiable, Removals;
    RemovalsAreStale(setup, names, live);
  }

  lemma NothingStale(findings: seq<Finding>)
    requires forall f :: f in findings ==> f.ok
    ensures Removals(findings) == []
  {
    FilterNone(findings, IsStale);
  }

  ghost predicate StaleAt(findings: seq<Finding>, k: Key) {
    exists i :: 0 <= i < |findings| && !findings[i].ok && findings[i].key == k
  }

  lemma {:induction false} RemovalsMeaning(findings: seq<Finding>)
    ensures forall k :: k in Removals(findings) <==> StaleAt(findings, k)
  {
    var stale := Filter(findings, IsStale);
    FilterIn(findings, IsStale);
    forall k ensures k in Removals(findings) <==> StaleAt(findings, k) {
      if k in Removals(findings) {
        var j :| 0 <= j < |stale| && Removals(findings)[j] == k;
        assert stale[j] in stale;
      }
      if i :| 0 <= i < |findings| && !findings[i].ok && findings[i].key == k {
        assert findings[i] in stale;
        var j :| 0 <= j < |stale| && stale[j] == findings[i];
        assert Removals(findings)[j] == k;
      }
    }
  }

  /** A live mapping is removed iff its address is not identifiable. */
  lemma RemovalsAreStale(setup: Setup, names: map<Address, string>, live: seq<Key>)
    requires TotalOrder(setup.le)
    ensures forall k :: k in Removals(FindingsOf(setup, names, live))
                   <==> k in live && !Identifiable(setup.files, live, k.address)
  {
    hide Resolve, Identifiable, Removals;
    var findings := FindingsOf(setup, names, live);
    RemovalsMeaning(findings);
    forall i | 0 <= i < |live| ensures findings[i].key == live[i]
        && (findings[i].ok <==> Identifiable(setup.files, live, live[i].address)) {
      AllOrNothing(setup, names, live, live[i]);
    }
  }

  // ---- Removals that hang on the order of the directory walk ----

  /** With the artifacts walked in that order, the script would remove the mapping. */
  predicate RemovedInWalk(setup: Setup, walk: seq<Artifact>, names: map<Address, string>, live: seq<Key>, k: Key) {
    k in Removals(FindingsOf(setup.(files := walk), names, live))
  }

  /** One order of the directories removes a live mapping and another keeps it iff some file has all the
      selectors of its address and the directories can be walked so that each file is met either
      lacking one or under a name already taken. */
  lemma RemovalsHangOnWalk(setup: Setup, root: Entry, names: map<Address, string>, live: seq<Key>, k: Key)
    requires TotalOrder(setup.le) && k in live
    ensures (exists one, two :: IsWalk(root, one) && IsWalk(root, two)
               && RemovedInWalk(setup, one, names, live, k) && !RemovedInWalk(setup, two, names, live, k))
       <==> WalkDecides(root, SelectorsAt(live, k.address))
  {
    hide RemovedInWalk, OkInWalk, IsWalk, Hides, FilesOf, SelectorsAt;
    forall walk ensures RemovedInWalk(setup, walk, names, live, k) <==> !OkInWalk(setup, walk, names, live, k) {
      RemovedIffNotOk(setup, walk, names, live, k);
    }
    StatusOverWalks(setup, root, names, live, k);
  }

  lemma RemovedIffNotOk(setup: Setup, walk: seq<Artifact>, names: map<Address, string>, live: seq<Key>, k: Key)
    requires TotalOrder(setup.le) && k in live
    ensures RemovedInWalk(setup, walk, names, live, k) <==> !OkInWalk(setup, walk, names, live, k)
  {
    hide FindingFor, FindingsOf, Removals, Identifiable;
    RemovalsAreStale(setup.(files := walk), names, live);
    AllOrNothing(setup.(files := walk), names, live, k);
  }

  /** Two contracts of one name: the mapping is OK if the one that has the selector comes first, and
      STALE, with a removal emitted, if the other does. */
  lemma TwoOfOneName(names: map<Address, string>, le: (string, string) -> bool, a: Address)
    requires TotalOrder(le)
    ensures
      var f := Artifact("MockParticipantStorage", 1, 1, ["a"], true);
      var g := Artifact("MockParticipantStorage", 1, 1, ["b"], true);
      var k := Key(a, "a", 1);
      var root := Directory([Directory([File(f)]), Directory([File(g)])]);
      && IsWalk(root, [f, g]) && IsWalk(root, [g, f])
      && !RemovedInWalk(Setup([], map[], [f, g], le), [f, g], names, [k], k)
      && RemovedInWalk(Setup([], map[], [f, g], le), [g, f], names, [k], k)
  {
    var f := Artifact("MockParticipantStorage", 1, 1, ["a"], true);
    var g := Artifact("MockParticipantStorage", 1, 1, ["b"], true);
    var k := Key(a, "a", 1);
    TwoDirectories(f, g);
    StatusInWalkOfTwo(Setup([], map[], [f, g], le), f, g, names, k);
    StatusInWalkOfTwo(Setup([], map[], [f, g], le), g, f, names, k);
    hide RemovedInWalk, OkInWalk;
    RemovedIffNotOk(Setup([], map[], [f, g], le), [f, g], names, [k], k);
    RemovedIffNotOk(Setup([], map[], [f, g], le), [g, f], names, [k], k);
  }

  /** Of two files of one name, the first walked decides. */
  lemma StatusInWalkOfTwo(setup: Setup, f: Artifact, g: Artifact, names: map<Address, string>, k: Key)
    requires TotalOrder(setup.le) && f.name == g.name && f.entries > 0
    ensures OkInWalk(setup, [f, g], names, [k], k) <==> k.selector in f.selectors
  {
    hide FindingFor, FirstNamed;
    AllOrNothing(setup.(files := [f, g]), names, [k], k);
    OneSelector(k);
    forall n ensures FirstNamed([f, g], n) == if n == f.name then Some(f) else None {
      FirstOfTwo(f, g, n);
    }
    assert k.selector in f.selectors ==> Covers([f, g], f.name, [k.selector]);
  }

  lemma FirstOfTwo(f: Artifact, g: Artifact, n: string)
    requires f.name == g.name && f.entries > 0
    ensures FirstNamed([f, g], n) == if n == f.name then Some(f) else None
  {
    assert [f, g][..1] == [f] && [f][..0] == [];
    assert FirstNamed([], n) == None;
    assert FirstNamed([f], n) == if n == f.name then Some(f) else None;
  }

  lemma OneSelector(k: Key)
    ensures SelectorsAt([k], k.address) == [k.selector]
  {
    assert [k][..0] == [];
    assert SelectorsAt([], k.address) == [];
  }

  lemma {:induction false} StateRemovals(h: seq<Log<Key>>, logs: seq<Log<Key>>, removals: seq<Key>)
    requires LogsOf(logs, removals)
    ensures State(h + logs) == State(h) - ToSet(removals)
  {
    if logs == [] {
      assert h + logs == h;
    } else {
      var n := |logs| - 1;
      assert removals == removals[..n] + [removals[n]];
      StateRemovals(h, logs[..n], removals[..n]);
      assert (h + logs)[..|h + logs| - 1] == h + logs[..n];
    }
  }
}
