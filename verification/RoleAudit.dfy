/** The relayer-role audit: the addresses the trust suite advertises against the holders the
    grant/revoke history leaves on chain. */
module RoleAudit {
  import opened Wrappers
  import opened Seqs
  import opened EventLog
  import opened BlockScan

  type Address = string

  datatype Side = PN | PNH | PC

  /** One node's answer for one service; an absent list is empty. */
  datatype CtsAddresses = CtsAddresses(privateChain: seq<string>, publicChain: seq<string>,
                                       privateHub: seq<string>, dvpOperators: seq<string>)

  datatype Node = Node(id: string, privateRelayer: CtsAddresses, publicRelayer: CtsAddresses)

  datatype Source = Source(node: string, list: string)

  datatype Advertised = Advertised(source: Source, addresses: seq<string>)

  datatype Expected = Expected(account: Address, source: Source)

  /** The lists that count on a chain side, in the order they are read. */
  function ListsOf(n: Node, side: Side, includePublic: bool): seq<Advertised> {
    match side
    case PN =>
      [Advertised(Source(n.id, "private_relayer.private_chain_addresses"), n.privateRelayer.privateChain)]
      + if includePublic then
          [Advertised(Source(n.id, "public_relayer.private_chain_addresses"), n.publicRelayer.privateChain)]
        else []
    case PNH =>
      [Advertised(Source(n.id, "private_relayer.private_hub_addresses"), n.privateRelayer.privateHub),
       Advertised(Source(n.id, "private_relayer.private_hub_dvp_operator_addresses"), n.privateRelayer.dvpOperators)]
    case PC =>
      [Advertised(Source(n.id, "public_relayer.public_chain_addresses"), n.publicRelayer.publicChain)]
  }

  function AllLists(nodes: seq<Node>, side: Side, includePublic: bool): seq<Advertised> {
    if nodes == [] then []
    else AllLists(nodes[..|nodes| - 1], side, includePublic) + ListsOf(nodes[|nodes| - 1], side, includePublic)
  }

  /** The list advertises the account; `canonical` rejects non-addresses and lower-cases the rest. */
  predicate Lists(l: Advertised, account: Address, canonical: string -> Option<Address>) {
    exists i :: 0 <= i < |l.addresses| && canonical(l.addresses[i]) == Some(account)
  }

  predicate Knows(out: seq<Expected>, account: Address) {
    exists i :: 0 <= i < |out| && out[i].account == account
  }

  ghost predicate DistinctAccounts(out: seq<Expected>) {
    forall i, j :: 0 <= i < j < |out| ==> out[i].account != out[j].account
  }

  method AddList(out: seq<Expected>, l: Advertised, canonical: string -> Option<Address>) returns (r: seq<Expected>)
    requires DistinctAccounts(out)
    ensures DistinctAccounts(r) && out <= r
    ensures forall a :: Knows(r, a) <==> Knows(out, a) || Lists(l, a, canonical)
    ensures forall i :: |out| <= i < |r| ==> r[i].source == l.source && Lists(l, r[i].account, canonical)
  {
    r := out;
    for k := 0 to |l.addresses|
      invariant DistinctAccounts(r) && out <= r
      invariant forall a ::
        Knows(r, a) <==> Knows(out, a) || exists i :: 0 <= i < k && canonical(l.addresses[i]) == Some(a)
      invariant forall i :: |out| <= i < |r| ==> r[i].source == l.source && Lists(l, r[i].account, canonical)
    {
      var c := canonical(l.addresses[k]);
      if c.None? { continue; }
      ghost var before := r;
      if !(exists i :: 0 <= i < |r| && r[i].account == c.value) {
        r := r + [Expected(c.value, l.source)];
      }
      forall a ensures Knows(r, a) <==> Knows(before, a) || a == c.value {
        if Knows(before, a) {
          var i :| 0 <= i < |before| && before[i].account == a;
          assert r[i].account == a;
        }
        if r != before && a == c.value {
          assert r[|before|].account == a;
        }
      }
    }
  }

  // ---- Which lists count ----

  predicate Holds(addresses: seq<string>, account: Address, canonical: string -> Option<Address>) {
    exists i :: 0 <= i < |addresses| && canonical(addresses[i]) == Some(account)
  }

  /** The node's relayers advertise the account for a chain side. */
  predicate AdvertisedBy(n: Node, side: Side, includePublic: bool, account: Address,
                         canonical: string -> Option<Address>) {
    match side
    case PN => Holds(n.privateRelayer.privateChain, account, canonical)
               || (includePublic && Holds(n.publicRelayer.privateChain, account, canonical))
    case PNH => Holds(n.privateRelayer.privateHub, account, canonical)
                || Holds(n.privateRelayer.dvpOperators, account, canonical)
    case PC => Holds(n.publicRelayer.publicChain, account, canonical)
  }

  /** The name under which the node's advertising of an account is reported: that of the private relayer's
      chain or hub list where that has it, else that of the other list of the side. */
  function LabelOf(n: Node, side: Side, account: Address, canonical: string -> Option<Address>): string {
    match side
    case PN => if Holds(n.privateRelayer.privateChain, account, canonical)
               then "private_relayer.private_chain_addresses" else "public_relayer.private_chain_addresses"
    case PNH => if Holds(n.privateRelayer.privateHub, account, canonical)
                then "private_relayer.private_hub_addresses" else "private_relayer.private_hub_dvp_operator_addresses"
    case PC => "public_relayer.public_chain_addresses"
  }

  /** Node m is the first to advertise the account, and the source names it and its first such list. */
  ghost predicate FirstAt(nodes: seq<Node>, side: Side, includePublic: bool, e: Expected,
                          canonical: string -> Option<Address>, m: nat)
    requires m < |nodes|
  {
    && AdvertisedBy(nodes[m], side, includePublic, e.account, canonical)
    && (forall i :: 0 <= i < m ==> !AdvertisedBy(nodes[i], side, includePublic, e.account, canonical))
    && e.source == Source(nodes[m].id, LabelOf(nodes[m], side, e.account, canonical))
  }

  ghost predicate ListedFirst(nodes: seq<Node>, side: Side, includePublic: bool, e: Expected,
                              canonical: string -> Option<Address>) {
    exists m :: 0 <= m < |nodes| && FirstAt(nodes, side, includePublic, e, canonical, m)
  }

  /** Where the lists of node m begin. */
  function Offset(nodes: seq<Node>, side: Side, includePublic: bool, m: nat): nat
    requires m <= |nodes|
  {
    |AllLists(nodes[..m], side, includePublic)|
  }

  lemma {:induction false} ListsInParts(nodes: seq<Node>, side: Side, includePublic: bool, m: nat)
    requires m < |nodes|
    ensures var lists, own := AllLists(nodes, side, includePublic), ListsOf(nodes[m], side, includePublic);
      var from := Offset(nodes, side, includePublic, m);
      && Offset(nodes, side, includePublic, m + 1) == from + |own| <= |lists|
      && forall r :: 0 <= r < |own| ==> lists[from + r] == own[r]
  {
    hide ListsOf;
    var init := nodes[..|nodes| - 1];
    assert nodes[..m + 1][..m] == nodes[..m];
    assert nodes[..|nodes|] == nodes;
    if m < |nodes| - 1 {
      assert init[..m] == nodes[..m] && init[..m + 1] == nodes[..m + 1];
      ListsInParts(init, side, includePublic, m);
    }
  }

  lemma {:induction false} NodeOfList(nodes: seq<Node>, side: Side, includePublic: bool, j: nat) returns (m: nat)
    requires j < |AllLists(nodes, side, includePublic)|
    ensures m < |nodes|
    ensures var from := Offset(nodes, side, includePublic, m);
      && from <= j < from + |ListsOf(nodes[m], side, includePublic)|
      && AllLists(nodes, side, includePublic)[j] == ListsOf(nodes[m], side, includePublic)[j - from]
  {
    hide ListsOf;
    var n := |nodes| - 1;
    if j < Offset(nodes, side, includePublic, n) {
      m := NodeOfList(nodes[..n], side, includePublic, j);
      assert nodes[..n][..m] == nodes[..m];
    } else {
      m := n;
    }
  }

  lemma {:induction false} OffsetsGrow(nodes: seq<Node>, side: Side, includePublic: bool, i: nat, m: nat)
    requires i <= m <= |nodes|
    ensures Offset(nodes, side, includePublic, i) <= Offset(nodes, side, includePublic, m)
  {
    hide ListsOf;
    if i < m {
      OffsetsGrow(nodes, side, includePublic, i, m - 1);
      ListsInParts(nodes, side, includePublic, m - 1);
    }
  }

  /** A node's lists are those that count, in the order in which its labels prefer them. */
  lemma ListsCount(n: Node, side: Side, includePublic: bool, account: Address, canonical: string -> Option<Address>)
    ensures var own := ListsOf(n, side, includePublic);
      && (AdvertisedBy(n, side, includePublic, account, canonical)
          <==> exists r :: 0 <= r < |own| && Lists(own[r], account, canonical))
      && forall r | 0 <= r < |own| && FirstListerAt(own, Expected(account, own[r].source), canonical, r) ::
           own[r].source == Source(n.id, LabelOf(n, side, account, canonical))
  {
    var own := ListsOf(n, side, includePublic);
    assert forall r :: 0 <= r < |own| ==>
      (Lists(own[r], account, canonical) <==> Holds(own[r].addresses, account, canonical));
    assert AdvertisedBy(n, side, includePublic, account, canonical) ==>
      Lists(own[0], account, canonical) || (|own| > 1 && Lists(own[1], account, canonical));
  }

  lemma FirstListerIsFirst(nodes: seq<Node>, side: Side, includePublic: bool, e: Expected,
                           canonical: string -> Option<Address>)
    requires FirstLister(AllLists(nodes, side, includePublic), e, canonical)
    ensures ListedFirst(nodes, side, includePublic, e, canonical)
  {
    hide ListsOf, AllLists, Lists, AdvertisedBy, LabelOf;
    var lists := AllLists(nodes, side, includePublic);
    var j :| 0 <= j < |lists| && FirstListerAt(lists, e, canonical, j);
    var m := NodeOfList(nodes, side, includePublic, j);
    var from, own := Offset(nodes, side, includePublic, m), ListsOf(nodes[m], side, includePublic);
    ListsInParts(nodes, side, includePublic, m);
    ListsCount(nodes[m], side, includePublic, e.account, canonical);
    forall i | 0 <= i < j - from ensures !Lists(own[i], e.account, canonical) {
      assert lists[from + i] == own[i];
    }
    forall i | 0 <= i < m ensures !AdvertisedBy(nodes[i], side, includePublic, e.account, canonical) {
      EarlierNode(nodes, side, includePublic, e, canonical, j, i, m);
    }
    assert FirstListerAt(own, e, canonical, j - from);
    assert FirstAt(nodes, side, includePublic, e, canonical, m);
  }

  lemma EarlierNode(nodes: seq<Node>, side: Side, includePublic: bool, e: Expected,
                    canonical: string -> Option<Address>, j: nat, i: nat, m: nat)
    requires i < m < |nodes| && Offset(nodes, side, includePublic, m) <= j < |AllLists(nodes, side, includePublic)|
    requires FirstListerAt(AllLists(nodes, side, includePublic), e, canonical, j)
    ensures !AdvertisedBy(nodes[i], side, includePublic, e.account, canonical)
  {
    hide ListsOf, AllLists, Lists, AdvertisedBy, LabelOf;
    ListsInParts(nodes, side, includePublic, i);
    OffsetsGrow(nodes, side, includePublic, i + 1, m);
    ListsCount(nodes[i], side, includePublic, e.account, canonical);
    var from, own := Offset(nodes, side, includePublic, i), ListsOf(nodes[i], side, includePublic);
    forall r | 0 <= r < |own| ensures !Lists(own[r], e.account, canonical) {
      assert AllLists(nodes, side, includePublic)[from + r] == own[r];
    }
  }

  lemma SomeListIffSomeNode(nodes: seq<Node>, side: Side, includePublic: bool, a: Address,
                            canonical: string -> Option<Address>)
    ensures (exists l :: l in AllLists(nodes, side, includePublic) && Lists(l, a, canonical))
       <==> exists m :: 0 <= m < |nodes| && AdvertisedBy(nodes[m], side, includePublic, a, canonical)
  {
    hide ListsOf, AllLists, Lists, AdvertisedBy, LabelOf;
    var lists := AllLists(nodes, side, includePublic);
    if l :| l in lists && Lists(l, a, canonical) {
      var j :| 0 <= j < |lists| && lists[j] == l;
      var m := NodeOfList(nodes, side, includePublic, j);
      ListsCount(nodes[m], side, includePublic, a, canonical);
    }
    if m :| 0 <= m < |nodes| && AdvertisedBy(nodes[m], side, includePublic, a, canonical) {
      ListsCount(nodes[m], side, includePublic, a, canonical);
      ListsInParts(nodes, side, includePublic, m);
      var r :| 0 <= r < |ListsOf(nodes[m], side, includePublic)|
        && Lists(ListsOf(nodes[m], side, includePublic)[r], a, canonical);
      assert lists[Offset(nodes, side, includePublic, m) + r] in lists;
    }
  }

  /** Each advertised address is expected once, and nothing else is, under the first node that advertises
      it and that node's first list that does. */
  method ExpectedRelayerAddresses(nodes: seq<Node>, side: Side, includePublic: bool,
                                  canonical: string -> Option<Address>)
    returns (out: seq<Expected>)
    ensures DistinctAccounts(out)
    ensures forall a :: Knows(out, a) <==>
      exists m :: 0 <= m < |nodes| && AdvertisedBy(nodes[m], side, includePublic, a, canonical)
    ensures forall i :: 0 <= i < |out| ==> ListedFirst(nodes, side, includePublic, out[i], canonical)
  {
    out := [];
    var lists := AllLists(nodes, side, includePublic);
    for k := 0 to |lists|
      invariant DistinctAccounts(out)
      invariant forall a :: Knows(out, a) <==> exists j :: 0 <= j < k && Lists(lists[j], a, canonical)
      invariant AllFirst(lists[..k], out, canonical)
    {
      hide FirstLister, Knows, Lists, DistinctAccounts;
      ghost var before := out;
      out := AddList(out, lists[k], canonical);
      FirstWithList(lists, k, before, out, canonical);
    }
    assert lists[..|lists|] == lists;
    forall a
      ensures Knows(out, a) <==>
        exists m :: 0 <= m < |nodes| && AdvertisedBy(nodes[m], side, includePublic, a, canonical)
    {
      SomeListIffSomeNode(nodes, side, includePublic, a, canonical);
    }
    forall i | 0 <= i < |out|
      ensures ListedFirst(nodes, side, includePublic, out[i], canonical)
    {
      FirstListerIsFirst(nodes, side, includePublic, out[i], canonical);
    }
  }

  ghost predicate AllFirst(lists: seq<Advertised>, out: seq<Expected>, canonical: string -> Option<Address>) {
    forall i :: 0 <= i < |out| ==> FirstLister(lists, out[i], canonical)
  }

  lemma FirstWithList(lists: seq<Advertised>, k: nat, before: seq<Expected>, out: seq<Expected>,
                      canonical: string -> Option<Address>)
    requires k < |lists| && before <= out && DistinctAccounts(out) && AllFirst(lists[..k], before, canonical)
    requires forall i :: |before| <= i < |out| ==>
      out[i].source == lists[k].source && Lists(lists[k], out[i].account, canonical)
    requires forall a :: Knows(before, a) <==> exists j :: 0 <= j < k && Lists(lists[j], a, canonical)
    ensures AllFirst(lists[..k + 1], out, canonical)
  {
    hide FirstLister, Lists, Knows, DistinctAccounts;
    forall i | 0 <= i < |out| ensures FirstLister(lists[..k + 1], out[i], canonical) {
      if i < |before| {
        FirstListerGrows(lists, k, out[i], canonical);
      } else {
        NewcomerIsFirst(lists, k, before, out, i, canonical);
      }
    }
  }

  ghost predicate FirstLister(lists: seq<Advertised>, e: Expected, canonical: string -> Option<Address>) {
    exists j :: 0 <= j < |lists| && FirstListerAt(lists, e, canonical, j)
  }

  ghost predicate FirstListerAt(lists: seq<Advertised>, e: Expected, canonical: string -> Option<Address>, j: nat)
    requires j < |lists|
  {
    && lists[j].source == e.source && Lists(lists[j], e.account, canonical)
    && forall i :: 0 <= i < j ==> !Lists(lists[i], e.account, canonical)
  }

  lemma FirstListerGrows(lists: seq<Advertised>, k: nat, e: Expected, canonical: string -> Option<Address>)
    requires k < |lists| && FirstLister(lists[..k], e, canonical)
    ensures FirstLister(lists[..k + 1], e, canonical)
  {
    var j :| 0 <= j < k && FirstListerAt(lists[..k], e, canonical, j);
    assert FirstListerAt(lists[..k + 1], e, canonical, j);
  }

  lemma NewcomerIsFirst(lists: seq<Advertised>, k: nat, before: seq<Expected>, out: seq<Expected>, i: nat,
                        canonical: string -> Option<Address>)
    requires k < |lists| && before <= out && |before| <= i < |out| && DistinctAccounts(out)
    requires out[i].source == lists[k].source && Lists(lists[k], out[i].account, canonical)
    requires forall a :: Knows(before, a) <==> exists j :: 0 <= j < k && Lists(lists[j], a, canonical)
    ensures FirstLister(lists[..k + 1], out[i], canonical)
  {
    assert !Knows(before, out[i].account) by {
      assert forall j :: 0 <= j < |before| ==> before[j].account == out[j].account != out[i].account;
    }
    assert FirstListerAt(lists[..k + 1], out[i], canonical, k);
  }

  // ---- The audit ----

  datatype Status = OK | MISSING | UNEXPECTED

  datatype Finding = Finding(account: Address, status: Status, source: Option<Source>)

  function AskHolder(e: Expected, holders: seq<Address>): Finding {
    Finding(e.account, if e.account in holders then OK else MISSING, Some(e.source))
  }

  function Stranger(a: Address): Finding {
    Finding(a, UNEXPECTED, None)
  }

  function Diff(expected: seq<Expected>, holders: seq<Address>): seq<Finding> {
    Map(expected, e => AskHolder(e, holders)) + Map(Filter(holders, a => !Knows(expected, a)), Stranger)
  }

  method Classify(expected: seq<Expected>, holders: seq<Address>) returns (findings: seq<Finding>)
    ensures findings == Diff(expected, holders)
  {
    var strange := (a: Address) => !Knows(expected, a);
    var known := PushEach(expected, e => AskHolder(e, holders));
    var extra: seq<Finding> := [];
    for i := 0 to |holders|
      invariant extra == Map(Filter(holders[..i], strange), Stranger)
    {
      assert holders[..i + 1] == holders[..i] + [holders[i]];
      FilterPush(holders[..i], holders[i], strange);
      if !Knows(expected, holders[i]) {
        MapPush(Filter(holders[..i], strange), holders[i], Stranger);
        extra := extra + [Stranger(holders[i])];
      }
    }
    assert holders[..|holders|] == holders;
    return known + extra;
  }

  /** One finding per address of the union; OK is the intersection, MISSING and UNEXPECTED the
      two differences. */
  ghost predicate ExactFindings(findings: seq<Finding>, expected: seq<Expected>, holders: set<Address>) {
    && (forall i, j :: 0 <= i < j < |findings| ==> findings[i].account != findings[j].account)
    && (forall f :: f in findings ==>
          && (f.status == OK <==> Knows(expected, f.account) && f.account in holders)
          && (f.status == MISSING <==> Knows(expected, f.account) && f.account !in holders)
          && (f.status == UNEXPECTED <==> !Knows(expected, f.account) && f.account in holders)
          && match f.source
             case Some(source) => Expected(f.account, source) in expected
             case None => !Knows(expected, f.account))
    && (forall a :: Knows(expected, a) || a in holders ==> Reports(findings, a))
  }

  ghost predicate Reports(findings: seq<Finding>, a: Address) {
    exists i :: 0 <= i < |findings| && findings[i].account == a
  }

  lemma DiffIsExact(expected: seq<Expected>, holders: seq<Address>)
    requires DistinctAccounts(expected) && NoDup(holders)
    ensures ExactFindings(Diff(expected, holders), expected, ToSet(holders))
  {
    var findings, strange := Diff(expected, holders), Filter(holders, a => !Knows(expected, a));
    var n := |expected|;
    FilterIn(holders, a => !Knows(expected, a));
    FilterKeepsNoDup(holders, a => !Knows(expected, a));
    forall i | 0 <= i < |findings|
      ensures i < n ==> findings[i] == AskHolder(expected[i], holders) && Knows(expected, findings[i].account)
      ensures i >= n ==> findings[i] == Stranger(strange[i - n]) && !Knows(expected, findings[i].account)
                         && findings[i].account in holders
    {
      if i < n {
        assert expected[i].account == findings[i].account;
      } else {
        assert strange[i - n] in strange;
      }
    }
    forall a | Knows(expected, a) || a in ToSet(holders) ensures Reports(findings, a) {
      if Knows(expected, a) {
        var i :| 0 <= i < n && expected[i].account == a;
        assert findings[i].account == a;
      } else {
        assert a in strange;
        var i :| 0 <= i < |strange| && strange[i] == a;
        assert findings[n + i].account == a;
      }
    }
  }

  predicate Clean(findings: seq<Finding>) {
    forall f :: f in findings ==> f.status == OK
  }

  /** The audit passes iff the advertised set and the holder set are the same set. */
  lemma CleanIffEqual(findings: seq<Finding>, expected: seq<Expected>, holders: set<Address>)
    requires ExactFindings(findings, expected, holders)
    ensures Clean(findings) <==> forall a :: Knows(expected, a) <==> a in holders
  {
    if Clean(findings) {
      forall a ensures Knows(expected, a) <==> a in holders {
        if Knows(expected, a) || a in holders {
          var i :| 0 <= i < |findings| && findings[i].account == a;
          assert findings[i] in findings;
        }
      }
    }
  }

  datatype AuditError = NoManager | NegativeStart | UnknownRole | StartPastHead

  /** `h` is the history the node serves for the role's topic; `manager` says whether the registry
      knows the access manager; `roleId` 0 means the manager does not know the role's name. The
      deploy-block search reads the head before the audit does, as `searchHead`. */
  method RunRelayerRolesAudit(expected: seq<Expected>, manager: bool, roleId: nat, h: seq<Log<Address>>, head: nat,
                              searchHead: nat, start: StartInputs)
    returns (r: Result<seq<Finding>, AuditError>, skipped: nat, fromBlock: nat)
    requires DistinctAccounts(expected)
    requires Ordered(h) && forall l :: l in h ==> l.block <= head
    ensures r == Failure(NoManager) <==> !manager
    ensures r == Failure(NegativeStart) <==> manager && start.flag.Some? && start.flag.value < 0
    ensures r != Failure(NoManager) && r != Failure(NegativeStart) ==>
      && ChosenStart(start, searchHead, fromBlock)
      && (r == Failure(UnknownRole) <==> roleId == 0)
      && (r == Failure(StartPastHead) <==> roleId != 0 && fromBlock > head)
    ensures r.Success? ==> skipped == Undecodable(Range(h, fromBlock, head))
                           && r.value == Diff(expected, Replay(Range(h, fromBlock, head), _ => true))
    ensures r.Success? && skipped == 0 ==> ExactFindings(r.value, expected, Reported(h, _ => true, fromBlock))
    ensures CompleteStart(start, h, head, searchHead) && manager && roleId != 0 ==> r.Success?
    ensures CompleteStart(start, h, head, searchHead) && r.Success? && skipped == 0 ==>
      && ExactFindings(r.value, expected, State(h))
      && (Clean(r.value) <==> forall a :: Knows(expected, a) <==> a in State(h))
  {
    skipped, fromBlock := 0, 0;
    if !manager {
      return Failure(NoManager), 0, 0;
    }
    var s := ResolveStartingBlock(start, searchHead);
    if s.None? {
      return Failure(NegativeStart), 0, 0;
    }
    fromBlock := s.value.fromBlock;
    if roleId == 0 {
      return Failure(UnknownRole), 0, fromBlock;
    }
    CompleteScan(start, h, head, searchHead, s.value, _ => true);
    var holders;
    holders, skipped := ReplayFrom(h, head, fromBlock, _ => true);
    if holders.None? {
      return Failure(StartPastHead), skipped, fromBlock;
    }
    if skipped > 0 {
      ReplayNoDup(Range(h, fromBlock, head));
    }
    var findings := Classify(expected, holders.value);
    DiffIsExact(expected, holders.value);
    if skipped == 0 && CompleteStart(start, h, head, searchHead) {
      assert ToSet(holders.value) == State(h);
      CleanIffEqual(findings, expected, State(h));
    }
    return Success(findings), skipped, fromBlock;
  }

  lemma {:induction false} ReplayNoDup(h: seq<Log<Address>>)
    ensures NoDup(Replay(h, _ => true))
  {
    if h == [] {
    } else {
      ReplayNoDup(h[..|h| - 1]);
    }
  }
}
