/** The on-chain selector audit: replay the manager's role-config events, identify the contract
    behind every address, and call each live mapping OK or STALE. */
module SelectorAudit {
  import opened Wrappers
  import opened Seqs
  import opened EventLog
  import opened BlockScan
  import opened Artifacts
  import opened ArtifactWalks

  /** Lower-cased. */
  type Address = string

  datatype Key = Key(address: Address, selector: Selector, role: nat)

  datatype RegistryEntry = RegistryEntry(name: string, address: Address)

  /** Everything the audit reads besides the event history. `nameToArtifact` is what the deploy
      tasks say about registry labels, `le` the locale's order of names. */
  datatype Setup = Setup(registry: seq<RegistryEntry>, nameToArtifact: map<string, string>,
                         files: seq<Artifact>, le: (string, string) -> bool)

  datatype Label = Registered(name: string) | Identified(artifact: string) | Unknown(address: Address)

  datatype Finding = Finding(key: Key, target: Label, ok: bool, unregistered: bool, artifactName: Option<string>)

  // ---- The visible registry ----

  /** None stands for an absent or empty `--contracts` argument. */
  type ContractFilter = Option<set<string>>

  predicate Visible(filter: ContractFilter, name: string) {
    filter.Some? ==> name in filter.value
  }

  /** Address to label; a later entry for the same address overwrites an earlier one. */
  function NamesByAddress(registry: seq<RegistryEntry>, filter: ContractFilter): map<Address, string> {
    if registry == [] then map[] else
    var m, e := NamesByAddress(registry[..|registry| - 1], filter), registry[|registry| - 1];
    if Visible(filter, e.name) then m[e.address := e.name] else m
  }

  function Lookup(names: map<Address, string>, a: Address): Option<string> {
    if a in names then Some(names[a]) else None
  }

  function Scope(registry: seq<RegistryEntry>, filter: ContractFilter): Key -> bool {
    var names := NamesByAddress(registry, filter);
    (k: Key) => filter.Some? ==> k.address in names
  }

  /** Entry i is about the address, and its name is chosen, if names were. */
  predicate Shows(registry: seq<RegistryEntry>, filter: ContractFilter, a: Address, i: nat) {
    i < |registry| && registry[i].address == a && (filter == None || registry[i].name in filter.value)
  }

  predicate LastShows(registry: seq<RegistryEntry>, filter: ContractFilter, a: Address, i: nat) {
    Shows(registry, filter, a, i) && forall j :: i < j < |registry| ==> !Shows(registry, filter, a, j)
  }

  /** An address bears the name of the last chosen entry about it. */
  lemma {:induction false} NamesAre(registry: seq<RegistryEntry>, filter: ContractFilter, a: Address)
    ensures var names := NamesByAddress(registry, filter);
      && (a in names <==> exists i :: 0 <= i < |registry| && Shows(registry, filter, a, i))
      && (a in names ==>
            exists i :: 0 <= i < |registry| && LastShows(registry, filter, a, i) && names[a] == registry[i].name)
  {
    if registry == [] {
    } else {
      var n := |registry| - 1;
      NamesAre(registry[..n], filter, a);
      assert forall i :: 0 <= i < n ==> (Shows(registry[..n], filter, a, i) <==> Shows(registry, filter, a, i));
      if Shows(registry, filter, a, n) {
        assert LastShows(registry, filter, a, n);
      } else if i :| 0 <= i < n && LastShows(registry[..n], filter, a, i)
                    && NamesByAddress(registry[..n], filter)[a] == registry[i].name {
        assert LastShows(registry, filter, a, i);
      }
    }
  }

  /** With names chosen, exactly the keys of addresses with a chosen entry are reported. */
  lemma ScopeIs(registry: seq<RegistryEntry>, filter: ContractFilter, k: Key)
    ensures Scope(registry, filter)(k)
       <==> filter == None || exists i :: 0 <= i < |registry| && Shows(registry, filter, k.address, i)
  {
    NamesAre(registry, filter, k.address);
  }

  // ---- Identification ----

  datatype Resolution = Resolution(artifactName: Option<string>, unregistered: bool, divergent: bool)

  predicate AbiCoversAll(files: seq<Artifact>, name: string, selectors: seq<Selector>) {
    var abi := LoadAbi(files, name);
    abi.Some? && forall s :: s in selectors ==> s in abi.value.selectors
  }

  /** The artifact the deploy tasks or the label itself name, and whether its name diverges. */
  function DirectLookup(setup: Setup, title: string): (Option<string>, bool) {
    if title in setup.nameToArtifact && setup.nameToArtifact[title] != ""
       && LoadAbi(setup.files, setup.nameToArtifact[title]).Some? then
      (Some(setup.nameToArtifact[title]), true)
    else if LoadAbi(setup.files, title).Some? then (Some(title), false)
    else (None, false)
  }

  /** An empty registry label is falsy and counts as unregistered. */
  function Resolve(setup: Setup, title: Option<string>, selectors: seq<Selector>): Resolution {
    var registered := title.Some? && title.value != "";
    var (named, divergent) := if registered then DirectLookup(setup, title.value) else (None, false);
    if named.Some? && AbiCoversAll(setup.files, named.value, selectors) then
      Resolution(named, !registered, divergent)
    else
      var fp := Fingerprint(selectors, IndexOf(setup.files), setup.le);
      Resolution(fp, !registered, divergent || (fp.Some? && registered && fp.value != title.value))
  }

  /** The selectors live at an address, in the order the replay first saw them. */
  function SelectorsAt(live: seq<Key>, a: Address): seq<Selector> {
    if live == [] then [] else
    var before, k := SelectorsAt(live[..|live| - 1], a), live[|live| - 1];
    if k.address == a then Put(before, k.selector) else before
  }

  function Classified(setup: Setup, names: map<Address, string>, r: Resolution, k: Key): Finding {
    var abi := if r.artifactName.Some? then LoadAbi(setup.files, r.artifactName.value) else None;
    Finding(k,
            match Lookup(names, k.address)
              case Some(name) => Registered(name)
              case None => if r.artifactName.Some? then Identified(r.artifactName.value) else Unknown(k.address),
            abi.Some? && k.selector in abi.value.selectors,
            r.unregistered,
            if r.divergent then r.artifactName else None)
  }

  function FindingFor(setup: Setup, names: map<Address, string>, live: seq<Key>, k: Key): Finding {
    Classified(setup, names, Resolve(setup, Lookup(names, k.address), SelectorsAt(live, k.address)), k)
  }

  function FindingsOf(setup: Setup, names: map<Address, string>, live: seq<Key>): seq<Finding> {
    Map(live, k => FindingFor(setup, names, live, k))
  }

  // ---- The audit ----

  function Addresses(live: seq<Key>): set<Address> {
    set k | k in live :: k.address
  }

  predicate Grouped(live: seq<Key>, byTarget: map<Address, seq<Selector>>) {
    && byTarget.Keys == Addresses(live)
    && forall a :: a in byTarget ==> byTarget[a] == SelectorsAt(live, a)
  }

  lemma {:induction false} NoSelectors(live: seq<Key>, a: Address)
    requires a !in Addresses(live)
    ensures SelectorsAt(live, a) == []
  {
    if live == [] {
    } else {
      assert live[|live| - 1] in live;
      NoSelectors(live[..|live| - 1], a);
    }
  }

  /** The selector joins those of its address. */
  function AddKey(byTarget: map<Address, seq<Selector>>, k: Key): map<Address, seq<Selector>> {
    byTarget[k.address := Put(if k.address in byTarget then byTarget[k.address] else [], k.selector)]
  }

  ghost predicate GroupedAs(live: seq<Key>, targets: seq<Address>, byTarget: map<Address, seq<Selector>>) {
    byTarget.Keys == ToSet(targets) && Grouped(live, byTarget)
  }

  lemma GroupedNext(live: seq<Key>, targets: seq<Address>, byTarget: map<Address, seq<Selector>>, i: nat)
    requires i < |live| && GroupedAs(live[..i], targets, byTarget)
    ensures GroupedAs(live[..i + 1], Put(targets, live[i].address), AddKey(byTarget, live[i]))
  {
    hide SelectorsAt;
    KeyAdded(live[..i], live[i], byTarget);
    assert live[..i + 1] == live[..i] + [live[i]];
  }

  lemma KeyAdded(live: seq<Key>, k: Key, byTarget: map<Address, seq<Selector>>)
    requires Grouped(live, byTarget)
    ensures Grouped(live + [k], AddKey(byTarget, k))
  {
    assert (live + [k])[..|live|] == live;
    if k.address !in byTarget {
      NoSelectors(live, k.address);
    }
  }

  method GroupSelectors(live: seq<Key>) returns (targets: seq<Address>, byTarget: map<Address, seq<Selector>>)
    ensures byTarget.Keys == ToSet(targets) == Addresses(live)
    ensures forall a :: a in byTarget ==> byTarget[a] == SelectorsAt(live, a)
  {
    targets, byTarget := [], map[];
    for i := 0 to |live|
      invariant GroupedAs(live[..i], targets, byTarget)
    {
      hide *;
      GroupedNext(live, targets, byTarget, i);
      targets, byTarget := Put(targets, live[i].address), AddKey(byTarget, live[i]);
    }
    assert live[..|live|] == live;
  }

  method ResolveAll(setup: Setup, names: map<Address, string>, live: seq<Key>)
    returns (resolved: map<Address, Resolution>)
    ensures forall k :: k in live ==> k.address in resolved
    ensures forall a :: a in resolved ==> resolved[a] == Resolve(setup, Lookup(names, a), SelectorsAt(live, a))
  {
    var targets, byTarget := GroupSelectors(live);
    resolved := map[];
    for i := 0 to |targets|
      invariant resolved.Keys == ToSet(targets[..i])
      invariant forall a :: a in resolved ==> resolved[a] == Resolve(setup, Lookup(names, a), SelectorsAt(live, a))
    {
      var a := targets[i];
      assert a in ToSet(targets);
      assert targets[..i + 1] == targets[..i] + [a];
      resolved := resolved[a := Resolve(setup, Lookup(names, a), byTarget[a])];
    }
    assert targets[..|targets|] == targets;
  }

  function ResolutionIn(resolved: map<Address, Resolution>, a: Address): Resolution {
    if a in resolved then resolved[a] else Resolution(None, false, false)
  }

  method ClassifyAll(setup: Setup, names: map<Address, string>, live: seq<Key>) returns (findings: seq<Finding>)
    ensures findings == FindingsOf(setup, names, live)
  {
    var resolved := ResolveAll(setup, names, live);
    findings := PushEach(live, (k: Key) => Classified(setup, names, ResolutionIn(resolved, k.address), k));
    forall i | 0 <= i < |live| ensures findings[i] == FindingsOf(setup, names, live)[i] {
      assert live[i] in live;
    }
  }

  datatype AuditError = FilterMatchesNothing | NoManager | NegativeStart | StartPastHead

  /** How an audit ends: the errors in the order of their checks, or the findings of the replay.
      `manager` says whether the registry knows the access manager. `head` is the last block of the
      scan; the deploy-block search reads the chain's head again, as `searchHead`. */
  ghost predicate AuditOutcome(setup: Setup, filter: ContractFilter, manager: bool, h: seq<Log<Key>>, head: nat,
                               searchHead: nat,
                               start: StartInputs, r: Result<seq<Finding>, AuditError>, skipped: nat, fromBlock: nat) {
    if filter.Some? && NamesByAddress(setup.registry, filter) == map[] then r == Failure(FilterMatchesNothing)
    else if !manager then r == Failure(NoManager)
    else if start.flag.Some? && start.flag.value < 0 then r == Failure(NegativeStart)
    else
      && ChosenStart(start, searchHead, fromBlock)
      && if fromBlock > head then r == Failure(StartPastHead) else
         && skipped == Undecodable(Range(h, fromBlock, head))
         && r == Success(FindingsOf(setup, NamesByAddress(setup.registry, filter),
                                    Replay(Range(h, fromBlock, head), Scope(setup.registry, filter))))
  }

  method RunOnchainSelectorsAudit(setup: Setup, filter: ContractFilter, manager: bool, h: seq<Log<Key>>, head: nat,
                                  searchHead: nat, start: StartInputs)
    returns (r: Result<seq<Finding>, AuditError>, skipped: nat, fromBlock: nat)
    requires Ordered(h) && forall l :: l in h ==> l.block <= head
    ensures AuditOutcome(setup, filter, manager, h, head, searchHead, start, r, skipped, fromBlock)
    ensures r.Success? && skipped == 0 ==>
      NoDup(Keys(r.value)) && ToSet(Keys(r.value)) == Reported(h, Scope(setup.registry, filter), fromBlock)
    ensures CompleteStart(start, h, head, searchHead) && manager && r != Failure(FilterMatchesNothing) ==>
      r.Success? && Range(h, fromBlock, head) == h
    ensures CompleteStart(start, h, head, searchHead) && r.Success? && skipped == 0 ==>
      ToSet(Keys(r.value)) == set k | k in State(h) && Scope(setup.registry, filter)(k)
    ensures r.Success? && TotalOrder(setup.le) ==>
      AllSaid(setup, NamesByAddress(setup.registry, filter), Keys(r.value), r.value)
  {
    skipped, fromBlock := 0, 0;
    var names := NamesByAddress(setup.registry, filter);
    if filter.Some? && names == map[] {
      return Failure(FilterMatchesNothing), 0, 0;
    }
    if !manager {
      return Failure(NoManager), 0, 0;
    }
    var s := ResolveStartingBlock(start, searchHead);
    if s.None? {
      return Failure(NegativeStart), 0, 0;
    }
    fromBlock := s.value.fromBlock;
    CompleteScan(start, h, head, searchHead, s.value, Scope(setup.registry, filter));
    var live;
    live, skipped := ReplayFrom(h, head, fromBlock, Scope(setup.registry, filter));
    if live.None? {
      return Failure(StartPastHead), skipped, fromBlock;
    }
    var findings := ClassifyAll(setup, names, live.value);
    KeysOfFindings(setup, names, live.value);
    if TotalOrder(setup.le) {
      FindingsSay(setup, names, live.value);
    }
    return Success(findings), skipped, fromBlock;
  }

  // ---- What the audit reports ----

  function Keys(findings: seq<Finding>): seq<Key> {
    Map(findings, (f: Finding) => f.key)
  }

  lemma KeysOfFindings(setup: Setup, names: map<Address, string>, live: seq<Key>)
    ensures Keys(FindingsOf(setup, names, live)) == live
  {
  }

  // ---- One status per address ----

  lemma {:induction false} SelectorsAtMember(live: seq<Key>, k: Key)
    requires k in live
    ensures k.selector in SelectorsAt(live, k.address)
  {
    var init, last := live[..|live| - 1], live[|live| - 1];
    assert live == init + [last];
    if k in init {
      SelectorsAtMember(init, k);
    }
    assert forall s :: s in SelectorsAt(live, k.address) <==> s in ToSet(SelectorsAt(live, k.address));
    assert forall s :: s in SelectorsAt(init, k.address) <==> s in ToSet(SelectorsAt(init, k.address));
  }

  /** Some artifact of the build knows every selector live at the address. */
  ghost predicate Identifiable(files: seq<Artifact>, live: seq<Key>, a: Address) {
    Recognised(files, SelectorsAt(live, a))
  }

  lemma LoadedCovers(files: seq<Artifact>, name: string, selectors: seq<Selector>)
    requires AbiCoversAll(files, name, selectors)
    ensures Recognised(files, selectors)
  {
    LoadedIsFirst(files, Aliases(name));
    assert Covers(files, LoadAbi(files, name).value.name, selectors);
  }

  lemma CoveringLoads(files: seq<Artifact>, name: string, selectors: seq<Selector>)
    requires Covers(files, name, selectors)
    ensures AbiCoversAll(files, name, selectors)
  {
    assert LoadAbi(files, name) == FirstNamed(files, name);
  }

  /** All or nothing: every mapping of an address gets the same status, whatever the registry says
      about it, and that status is OK iff one artifact knows all the address's live selectors. */
  lemma AllOrNothing(setup: Setup, names: map<Address, string>, live: seq<Key>, k: Key)
    requires TotalOrder(setup.le) && k in live
    ensures FindingFor(setup, names, live, k).ok <==> Identifiable(setup.files, live, k.address)
  {
    var sels := SelectorsAt(live, k.address);
    SelectorsAtMember(live, k);
    FingerprintIsBest(setup.files, sels, setup.le);
    var r := Resolve(setup, Lookup(names, k.address), sels);
    var fp := Fingerprint(sels, IndexOf(setup.files), setup.le);
    if r.artifactName.Some? {
      if r.artifactName != fp || AbiCoversAll(setup.files, r.artifactName.value, sels) {
        LoadedCovers(setup.files, r.artifactName.value, sels);
      } else {
        CoveringLoads(setup.files, fp.value, sels);
      }
    }
  }

  // ---- As what an address is identified ----

  /** The ABI has every selector that is live at the address. */
  ghost predicate KnowsLive(abi: Option<Artifact>, live: seq<Key>, a: Address) {
    abi.Some? && forall k :: k in live && k.address == a ==> k.selector in abi.value.selectors
  }

  ghost predicate NameKnows(files: seq<Artifact>, name: string, live: seq<Key>, a: Address) {
    KnowsLive(FirstNamed(files, name), live, a)
  }

  /** The name of an artifact that has them all and that no other such artifact beats: deployable first, then
      fewer functions, then the smaller name. None, if no artifact has them all. */
  ghost predicate BestFor(setup: Setup, live: seq<Key>, a: Address, best: Option<string>) {
    match best
    case None => forall n :: !NameKnows(setup.files, n, live, a)
    case Some(name) =>
      && NameKnows(setup.files, name, live, a)
      && forall n :: NameKnows(setup.files, n, live, a) ==>
           Beats(FirstNamed(setup.files, name).value, FirstNamed(setup.files, n).value, setup.le)
  }

  ghost predicate Beats(f: Artifact, g: Artifact, le: (string, string) -> bool) {
    && (g.deployable ==> f.deployable)
    && (f.deployable == g.deployable ==> f.functions <= g.functions)
    && (f.deployable == g.deployable && f.functions == g.functions ==> le(f.name, g.name))
  }

  /** The artifact to which the deploy tasks map a label, if it loads. */
  function Mapped(setup: Setup, title: string): Option<string> {
    if title in setup.nameToArtifact && setup.nameToArtifact[title] != ""
       && LoadAbi(setup.files, setup.nameToArtifact[title]).Some? then Some(setup.nameToArtifact[title])
    else None
  }

  /** An address without a label: the best artifact names it. */
  ghost predicate SaysOfStranger(setup: Setup, live: seq<Key>, a: Address, f: Finding, best: Option<string>) {
    && f.artifactName == None && BestFor(setup, live, a, best)
    && f.target == if best.Some? then Identified(best.value) else Unknown(a)
  }

  /** A labelled address: the mapped artifact or the label's own if that has all the selectors, else the
      best one; the artifact is named if it was mapped or is not the label. */
  ghost predicate SaysOfLabelled(setup: Setup, live: seq<Key>, a: Address, title: string, f: Finding,
                                 best: Option<string>) {
    && f.target == Registered(title)
    && match Mapped(setup, title)
       case Some(m) =>
         if KnowsLive(LoadAbi(setup.files, m), live, a) then f.artifactName == Some(m)
         else BestFor(setup, live, a, best) && f.artifactName == best
       case None =>
         if KnowsLive(LoadAbi(setup.files, title), live, a) then f.artifactName == None
         else BestFor(setup, live, a, best) && f.artifactName == if best == Some(title) then None else best
  }

  /** What a finding says about a live key at an address labelled like that. */
  ghost predicate SaysOf(setup: Setup, live: seq<Key>, title: Option<string>, k: Key, f: Finding) {
    && f.key == k
    && (f.ok <==> exists n :: NameKnows(setup.files, n, live, k.address))
    && (f.unregistered <==> title == None || title == Some(""))
    && match title
       case None => exists best :: SaysOfStranger(setup, live, k.address, f, best)
       case Some("") => f.artifactName == None && f.target == Registered("")
       case Some(name) => exists best :: SaysOfLabelled(setup, live, k.address, name, f, best)
  }

  lemma {:induction false} SelectorsAtAre(live: seq<Key>, a: Address, s: Selector)
    ensures s in SelectorsAt(live, a) <==> exists k :: k in live && k.address == a && k.selector == s
  {
    if live == [] {
    } else {
      var init, last := live[..|live| - 1], live[|live| - 1];
      assert live == init + [last];
      SelectorsAtAre(init, a, s);
      assert forall x :: x in SelectorsAt(live, a) <==> x in ToSet(SelectorsAt(live, a));
      assert forall x :: x in SelectorsAt(init, a) <==> x in ToSet(SelectorsAt(init, a));
    }
  }

  lemma KnowsLiveIsKnows(abi: Option<Artifact>, live: seq<Key>, a: Address)
    ensures KnowsLive(abi, live, a) <==> abi.Some? && forall s :: s in SelectorsAt(live, a) ==> s in abi.value.selectors
  {
    hide SelectorsAt;
    forall s { SelectorsAtAre(live, a, s); }
  }

  lemma FingerprintIsBestFor(setup: Setup, live: seq<Key>, a: Address)
    requires TotalOrder(setup.le) && SelectorsAt(live, a) != []
    ensures BestFor(setup, live, a, Fingerprint(SelectorsAt(live, a), IndexOf(setup.files), setup.le))
  {
    hide SelectorsAt, Fingerprint, KnowsLive, RanksBefore, FirstNamed;
    var sels := SelectorsAt(live, a);
    FingerprintIsBest(setup.files, sels, setup.le);
    forall n ensures NameKnows(setup.files, n, live, a) <==> Covers(setup.files, n, sels) {
      KnowsLiveIsKnows(FirstNamed(setup.files, n), live, a);
    }
    var r := Fingerprint(sels, IndexOf(setup.files), setup.le);
    if r.Some? {
      forall n | NameKnows(setup.files, n, live, a)
        ensures Beats(FirstNamed(setup.files, r.value).value, FirstNamed(setup.files, n).value, setup.le) {
        RankBeats(setup.files, r.value, n, setup.le);
      }
    }
  }

  lemma RankBeats(files: seq<Artifact>, a: string, b: string, le: (string, string) -> bool)
    requires FirstNamed(files, a).Some? && FirstNamed(files, b).Some? && RanksBefore(IndexOf(files), a, b, le)
    ensures Beats(FirstNamed(files, a).value, FirstNamed(files, b).value, le)
  {
    hide RanksBefore;
    RanksByFile(files, a, b, le);
    FirstNamedSome(files, a);
    FirstNamedSome(files, b);
  }

  /** Every finding of an audit, in the terms of the registry, the deploy tasks and the artifacts. */
  lemma FindingSays(setup: Setup, names: map<Address, string>, live: seq<Key>, i: nat)
    requires TotalOrder(setup.le) && i < |live|
    ensures SaysOf(setup, live, if live[i].address in names then Some(names[live[i].address]) else None, live[i],
                   FindingsOf(setup, names, live)[i])
  {
    hide SelectorsAt, Fingerprint, BestFor, KnowsLive, LoadAbi;
    var k := live[i];
    var sels, title := SelectorsAt(live, k.address), Lookup(names, k.address);
    var best := Fingerprint(sels, IndexOf(setup.files), setup.le);
    SelectorsAtMember(live, k);
    FingerprintIsBestFor(setup, live, k.address);
    OkIsKnown(setup, names, live, k);
    var f := FindingsOf(setup, names, live)[i];
    assert f == FindingFor(setup, names, live, k) && f.key == k;
    assert f.unregistered <==> title == None || title == Some("");
    if title == None {
      assert SaysOfStranger(setup, live, k.address, f, best);
    } else if title != Some("") {
      KnowsLiveIsKnows(LoadAbi(setup.files, title.value), live, k.address);
      if Mapped(setup, title.value).Some? {
        KnowsLiveIsKnows(LoadAbi(setup.files, Mapped(setup, title.value).value), live, k.address);
      }
      assert SaysOfLabelled(setup, live, k.address, title.value, f, best);
    }
  }

  ghost predicate AllSaid(setup: Setup, names: map<Address, string>, live: seq<Key>, findings: seq<Finding>) {
    |findings| == |live| && forall i :: 0 <= i < |live| ==>
      SaysOf(setup, live, Lookup(names, live[i].address), live[i], findings[i])
  }

  lemma FindingsSay(setup: Setup, names: map<Address, string>, live: seq<Key>)
    requires TotalOrder(setup.le)
    ensures AllSaid(setup, names, live, FindingsOf(setup, names, live))
  {
    hide SaysOf, FindingFor;
    forall i | 0 <= i < |live|
      ensures SaysOf(setup, live, Lookup(names, live[i].address), live[i], FindingsOf(setup, names, live)[i]) {
      FindingSays(setup, names, live, i);
    }
  }

  lemma OkIsKnown(setup: Setup, names: map<Address, string>, live: seq<Key>, k: Key)
    requires TotalOrder(setup.le) && k in live
    ensures FindingFor(setup, names, live, k).ok
       <==> exists n :: NameKnows(setup.files, n, live, k.address)
  {
    hide SelectorsAt, KnowsLive, FindingFor, FirstNamed;
    AllOrNothing(setup, names, live, k);
    var sels := SelectorsAt(live, k.address);
    if Recognised(setup.files, sels) {
      var n :| Covers(setup.files, n, sels);
      KnowsLiveIsKnows(FirstNamed(setup.files, n), live, k.address);
      assert NameKnows(setup.files, n, live, k.address);
    }
    if n :| NameKnows(setup.files, n, live, k.address) {
      KnowsLiveIsKnows(FirstNamed(setup.files, n), live, k.address);
      assert Covers(setup.files, n, sels);
      assert Recognised(setup.files, sels) && Identifiable(setup.files, live, k.address);
    }
  }

  // ---- Over all walks ----

  /** The status of a live mapping when the artifact directory is walked in that order. */
  predicate OkInWalk(setup: Setup, walk: seq<Artifact>, names: map<Address, string>, live: seq<Key>, k: Key) {
    FindingFor(setup.(files := walk), names, live, k).ok
  }

  /** A mapping is OK in every order of the directories iff they do not hide its address's selectors,
      and OK in some order iff one file has them all; in between, the order alone decides. */
  lemma StatusOverWalks(setup: Setup, root: Entry, names: map<Address, string>, live: seq<Key>, k: Key)
    requires TotalOrder(setup.le) && k in live
    ensures (forall walk | IsWalk(root, walk) :: OkInWalk(setup, walk, names, live, k))
       <==> !Hides(root, SelectorsAt(live, k.address))
    ensures (exists walk :: IsWalk(root, walk) && OkInWalk(setup, walk, names, live, k))
       <==> SomeKnows(FilesOf(root), SelectorsAt(live, k.address))
  {
    hide FindingFor, SelectorsAt, Hides, SomeKnows, IsWalk, Recognised;
    forall walk ensures OkInWalk(setup, walk, names, live, k) <==> Recognised(walk, SelectorsAt(live, k.address)) {
      AllOrNothing(setup.(files := walk), names, live, k);
    }
    AlwaysRecognised(root, SelectorsAt(live, k.address));
    SometimesRecognised(root, SelectorsAt(live, k.address));
  }

  // ---- Keeping some addresses only ----

  lemma {:induction false} SelectorsAtKept(live: seq<Key>, keep: Key -> bool, a: Address)
    requires forall k :: k in live && k.address == a ==> keep(k)
    ensures SelectorsAt(Filter(live, keep), a) == SelectorsAt(live, a)
  {
    if live == [] {
    } else {
      var init, last := live[..|live| - 1], live[|live| - 1];
      assert live == init + [last];
      SelectorsAtKept(init, keep, a);
      var f := Filter(init, keep);
      if keep(last) {
        assert Filter(live, keep) == f + [last];
        assert (f + [last])[..|f|] == f;
      } else {
        assert Filter(live, keep) == f;
      }
    }
  }

  /** Dropping whole addresses from the live mappings leaves the findings of the others alone. */
  lemma FindingsKept(setup: Setup, names: map<Address, string>, live: seq<Key>, keep: Key -> bool)
    requires forall j, k :: j in live && k in live && j.address == k.address ==> keep(j) == keep(k)
    ensures FindingsOf(setup, names, Filter(live, keep))
         == Filter(FindingsOf(setup, names, live), (f: Finding) => keep(f.key))
  {
    var kept := Filter(live, keep);
    FilterIn(live, keep);
    forall k | k in kept ensures FindingFor(setup, names, kept, k) == FindingFor(setup, names, live, k) {
      SelectorsAtKept(live, keep, k.address);
    }
    MapEqual(kept, k => FindingFor(setup, names, kept, k), k => FindingFor(setup, names, live, k));
    MapFilter(live, k => FindingFor(setup, names, live, k), keep, (f: Finding) => keep(f.key));
  }

  // ---- Auditing a subset of the contracts ----

  lemma StepFiltered(all: seq<Key>, l: Log<Key>, scope: Key -> bool)
    ensures Step(Filter(all, scope), l, scope) == Filter(Step(all, l, _ => true), scope)
  {
    FilterIn(all, scope);
    if l.decodable && l.removal {
      FilterCommutes(all, Other(l.key), scope);
      if !scope(l.key) {
        FilterAll(Filter(all, scope), Other(l.key));
      }
    } else if l.decodable && l.key !in all {
      FilterPush(all, l.key, scope);
    }
  }

  lemma {:induction false} ReplayFiltered(events: seq<Log<Key>>, scope: Key -> bool)
    ensures Replay(events, scope) == Filter(Replay(events, _ => true), scope)
  {
    if events == [] {
    } else {
      ReplayFiltered(events[..|events| - 1], scope);
      StepFiltered(Replay(events[..|events| - 1], _ => true), events[|events| - 1], scope);
    }
  }

  predicate LabelsAgree(registry: seq<RegistryEntry>, filter: ContractFilter, a: Address) {
    Lookup(NamesByAddress(registry, filter), a) == Lookup(NamesByAddress(registry, None), a)
  }

  /** What a status line says apart from the contract's name. */
  function Status(f: Finding): (Key, bool) {
    (f.key, f.ok)
  }

  /** Filtering commutes with auditing. The statuses under `--contracts` are those of the full
      audit restricted to the chosen addresses, in the same order, for every registry; the whole
      findings are so iff the filtered registry labels each live address as the full one does. */
  lemma FilteringCommutes(setup: Setup, filter: ContractFilter, events: seq<Log<Key>>)
    requires TotalOrder(setup.le)
    ensures
      var scope, all := Scope(setup.registry, filter), Scope(setup.registry, None);
      var narrow := FindingsOf(setup, NamesByAddress(setup.registry, filter), Replay(events, scope));
      var full := FindingsOf(setup, NamesByAddress(setup.registry, None), Replay(events, all));
      var restricted := Filter(full, (f: Finding) => scope(f.key));
      && Map(narrow, Status) == Map(restricted, Status)
      && (narrow == restricted
          <==> forall k :: k in Replay(events, scope) ==> LabelsAgree(setup.registry, filter, k.address))
  {
    var scope, all := Scope(setup.registry, filter), Scope(setup.registry, None);
    var names, fullNames := NamesByAddress(setup.registry, filter), NamesByAddress(setup.registry, None);
    var kept := Replay(events, scope);
    ReplaySameScope(events, all, _ => true);
    ReplayFiltered(events, scope);
    FindingsKept(setup, fullNames, Replay(events, all), scope);
    FilterIn(Replay(events, all), scope);
    RelabelledFindings(setup, filter, kept);
  }

  /** Whatever the registry says: the status is the same. */
  lemma SameStatus(setup: Setup, names: map<Address, string>, names': map<Address, string>, live: seq<Key>, k: Key)
    requires TotalOrder(setup.le) && k in live
    ensures Status(FindingFor(setup, names, live, k)) == Status(FindingFor(setup, names', live, k))
  {
    AllOrNothing(setup, names, live, k);
    AllOrNothing(setup, names', live, k);
    hide Resolve, Identifiable;
  }

  lemma RelabelledFindings(setup: Setup, filter: ContractFilter, live: seq<Key>)
    requires TotalOrder(setup.le)
    requires forall k :: k in live ==> Scope(setup.registry, filter)(k)
    ensures
      var narrow := FindingsOf(setup, NamesByAddress(setup.registry, filter), live);
      var full := FindingsOf(setup, NamesByAddress(setup.registry, None), live);
      && Map(narrow, Status) == Map(full, Status)
      && (narrow == full <==> forall k :: k in live ==> LabelsAgree(setup.registry, filter, k.address))
  {
    hide FindingFor, LabelsAgree, NamesByAddress, Scope;
    var names, fullNames := NamesByAddress(setup.registry, filter), NamesByAddress(setup.registry, None);
    var narrow, full := FindingsOf(setup, names, live), FindingsOf(setup, fullNames, live);
    forall i | 0 <= i < |live|
      ensures Status(narrow[i]) == Status(full[i])
      ensures narrow[i] == full[i] <==> LabelsAgree(setup.registry, filter, live[i].address)
    {
      SameStatus(setup, names, fullNames, live, live[i]);
      LabelsDiffer(setup, filter, live, live[i]);
    }
    assert Map(narrow, Status) == Map(full, Status);
    if narrow == full {
      forall k | k in live ensures LabelsAgree(setup.registry, filter, k.address) {
        var i :| 0 <= i < |live| && live[i] == k;
        assert narrow[i] == full[i];
      }
    }
  }

  lemma LabelsDiffer(setup: Setup, filter: ContractFilter, live: seq<Key>, k: Key)
    requires Scope(setup.registry, filter)(k)
    ensures FindingFor(setup, NamesByAddress(setup.registry, filter), live, k)
         == FindingFor(setup, NamesByAddress(setup.registry, None), live, k)
       <==> LabelsAgree(setup.registry, filter, k.address)
  {
    NarrowNamesKnown(setup.registry, filter, k.address);
  }

  lemma {:induction false} NarrowNamesKnown(registry: seq<RegistryEntry>, filter: ContractFilter, a: Address)
    ensures a in NamesByAddress(registry, filter) ==> a in NamesByAddress(registry, None)
    ensures filter.None? ==> NamesByAddress(registry, filter) == NamesByAddress(registry, None)
  {
    if registry == [] {
    } else {
      NarrowNamesKnown(registry[..|registry| - 1], filter, a);
    }
  }

  lemma {:induction false} ReplaySameScope(events: seq<Log<Key>>, p: Key -> bool, q: Key -> bool)
    requires forall k :: p(k) == q(k)
    ensures Replay(events, p) == Replay(events, q)
  {
    if events == [] {
    } else {
      ReplaySameScope(events[..|events| - 1], p, q);
    }
  }

  ghost predicate DistinctAddresses(registry: seq<RegistryEntry>) {
    forall i, j :: 0 <= i < j < |registry| ==> registry[i].address != registry[j].address
  }

  /** In a registry without two labels for one address, labels always agree. */
  lemma {:induction false} DistinctAddressesAgree(registry: seq<RegistryEntry>, filter: ContractFilter, a: Address)
    requires DistinctAddresses(registry) && a in NamesByAddress(registry, filter)
    ensures LabelsAgree(registry, filter, a)
  {
    var init, e := registry[..|registry| - 1], registry[|registry| - 1];
    NarrowNamesKnown(init, filter, a);
    if a in NamesByAddress(init, filter) {
      DistinctAddressesAgree(init, filter, a);
      NamesAre(init, filter, a);
    }
  }

  /** With two labels for one address the names can differ: `--contracts A` shows label A where the
      full audit shows the later label B. */
  lemma SharedAddressRelabels(a: Address)
    ensures var registry := [RegistryEntry("A", a), RegistryEntry("B", a)];
      Lookup(NamesByAddress(registry, Some({"A"})), a) == Some("A")
      && Lookup(NamesByAddress(registry, None), a) == Some("B")
  {
    var registry := [RegistryEntry("A", a), RegistryEntry("B", a)];
    assert registry[..1] == [RegistryEntry("A", a)];
    assert registry[..1][..0] == [];
    assert NamesByAddress(registry[..1], None) == map[a := "A"];
  }
}
