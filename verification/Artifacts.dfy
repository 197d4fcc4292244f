/** Compiled contract artifacts: loading an ABI by name, indexing every artifact by selector,
    and identifying a contract by the selectors observed at its address. */
module Artifacts {
  import opened Wrappers
  import opened Seqs

  type Selector = string

  /** A parsed artifact file: `entries` is the length of its ABI, `functions` the number of its
      entries of type function, `selectors` their selectors in ABI order, `deployable` whether
      its bytecode is more than "0x". */
  datatype Artifact =
    Artifact(name: string, entries: nat, functions: nat, selectors: seq<Selector>, deployable: bool)

  /** The first file of that name with a non-empty ABI, in directory-walk order. */
  function FirstNamed(files: seq<Artifact>, name: string): Option<Artifact> {
    if files == [] then None else
    var earlier, last := FirstNamed(files[..|files| - 1], name), files[|files| - 1];
    if earlier.Some? then earlier
    else if last.name == name && last.entries > 0 then Some(last)
    else None
  }

  // ---- Loading an ABI through the naming aliases ----

  function ReplaceFirst(s: string, pat: string, subst: string): string {
    if |s| < |pat| || s == [] then s
    else if pat <= s then subst + s[|pat|..]
    else [s[0]] + ReplaceFirst(s[1..], pat, subst)
  }

  function Aliases(name: string): (r: seq<string>)
    ensures r != [] && r[0] == name
  {
    Put(Put(Put(Put([name], name + "V1"), name + "V2"),
            ReplaceFirst(name, "Replica", "V1")), ReplaceFirst(name, "RN", "RaylsNode"))
  }

  function FirstLoadable(files: seq<Artifact>, names: seq<string>): Option<Artifact> {
    if names == [] then None
    else if FirstNamed(files, names[0]).Some? then FirstNamed(files, names[0])
    else FirstLoadable(files, names[1..])
  }

  function LoadAbi(files: seq<Artifact>, name: string): Option<Artifact> {
    FirstLoadable(files, Aliases(name))
  }

  lemma {:induction false} FirstNamedSome(files: seq<Artifact>, name: string)
    ensures FirstNamed(files, name).Some? ==>
      var a := FirstNamed(files, name).value; a in files && a.name == name && a.entries > 0
  {
    if files == [] {
    } else {
      FirstNamedSome(files[..|files| - 1], name);
    }
  }

  /** File i is the first of that name whose ABI has an entry. */
  ghost predicate FirstOfName(files: seq<Artifact>, name: string, i: nat) {
    && i < |files| && files[i].name == name && files[i].entries > 0
    && forall j :: 0 <= j < i ==> !(files[j].name == name && files[j].entries > 0)
  }

  lemma {:induction false} FirstNamedIs(files: seq<Artifact>, name: string)
    ensures match FirstNamed(files, name)
            case Some(a) => exists i :: 0 <= i < |files| && FirstOfName(files, name, i) && files[i] == a
            case None => forall f :: f in files ==> !(f.name == name && f.entries > 0)
  {
    if files == [] {
    } else {
      var n := |files| - 1;
      FirstNamedIs(files[..n], name);
      if i :| 0 <= i < n && FirstOfName(files[..n], name, i) {
        assert FirstOfName(files, name, i);
      } else {
        assert files == files[..n] + [files[n]];
        if files[n].name == name && files[n].entries > 0 {
          assert FirstOfName(files, name, n);
        }
      }
    }
  }

  /** The pattern stands at p. */
  predicate StandsAt(s: string, pat: string, p: nat) {
    p <= |s| && pat <= s[p..]
  }

  lemma StandsInTail(s: string, pat: string, p: nat)
    requires s != []
    ensures StandsAt(s[1..], pat, p) <==> StandsAt(s, pat, p + 1)
  {
    if p < |s| {
      assert s[1..][p..] == s[p + 1..];
    }
  }

  /** String.prototype.replace with a string: nothing without an occurrence. */
  lemma {:induction false} NothingToReplace(s: string, pat: string, subst: string)
    requires pat != [] && forall p :: 0 <= p <= |s| ==> !StandsAt(s, pat, p)
    ensures ReplaceFirst(s, pat, subst) == s
  {
    if s == [] {
    } else {
      assert s[0..] == s && !StandsAt(s, pat, 0);
      assert s == [s[0]] + s[1..];
      forall p | 0 <= p <= |s| - 1 ensures !StandsAt(s[1..], pat, p) {
        StandsInTail(s, pat, p);
      }
      NothingToReplace(s[1..], pat, subst);
    }
  }

  /** Else the first one is replaced. */
  lemma {:induction false} ReplacesFirst(s: string, pat: string, subst: string, p: nat)
    requires pat != [] && StandsAt(s, pat, p) && forall i :: 0 <= i < p ==> !StandsAt(s, pat, i)
    ensures p + |pat| <= |s| && ReplaceFirst(s, pat, subst) == s[..p] + subst + s[p + |pat|..]
  {
    assert s[0..] == s;
    if p > 0 {
      assert !StandsAt(s, pat, 0);
      StandsInTail(s, pat, p - 1);
      forall i | 0 <= i < p - 1 ensures !StandsAt(s[1..], pat, i) {
        StandsInTail(s, pat, i);
      }
      ReplacesFirst(s[1..], pat, subst, p - 1);
      assert s[..p] == [s[0]] + s[1..][..p - 1] && s[p + |pat|..] == s[1..][p - 1 + |pat|..];
    }
  }

  /** A name's ABI is that of the first of its aliases that some file bears. */
  lemma LoadTries(files: seq<Artifact>, name: string)
    ensures LoadAbi(files, name) ==
      if FirstNamed(files, name).Some? then FirstNamed(files, name)
      else if FirstNamed(files, name + "V1").Some? then FirstNamed(files, name + "V1")
      else if FirstNamed(files, name + "V2").Some? then FirstNamed(files, name + "V2")
      else if FirstNamed(files, ReplaceFirst(name, "Replica", "V1")).Some? then
        FirstNamed(files, ReplaceFirst(name, "Replica", "V1"))
      else FirstNamed(files, ReplaceFirst(name, "RN", "RaylsNode"))
  {
    hide FirstNamed, ReplaceFirst, Put, Aliases, FirstLoadable;
    var a, b := ReplaceFirst(name, "Replica", "V1"), ReplaceFirst(name, "RN", "RaylsNode");
    var three := [name, name + "V1", name + "V2"];
    AliasesAre(name);
    LoadAppend(files, [name], [name + "V1", name + "V2"]);
    LoadAppend(files, [name + "V1"], [name + "V2"]);
    OnlyOne(files, name);
    OnlyOne(files, name + "V1");
    OnlyOne(files, name + "V2");
    OnlyOne(files, a);
    OnlyOne(files, b);
    assert three == [name] + [name + "V1", name + "V2"] && [name + "V1", name + "V2"] == [name + "V1"] + [name + "V2"];
    LoadPut(files, three, a);
    LoadPut(files, Put(three, a), b);
  }

  lemma AliasesAre(name: string)
    ensures Aliases(name) == Put(Put([name, name + "V1", name + "V2"], ReplaceFirst(name, "Replica", "V1")),
                                 ReplaceFirst(name, "RN", "RaylsNode"))
  {
    assert |name + "V1"| > |name| && (name + "V1")[|name| + 1] != (name + "V2")[|name| + 1];
    assert Put(Put([name], name + "V1"), name + "V2") == [name, name + "V1", name + "V2"];
  }

  lemma OnlyOne(files: seq<Artifact>, name: string)
    ensures FirstLoadable(files, [name]) == FirstNamed(files, name)
  {
    hide FirstNamed;
    assert [name][1..] == [];
  }

  lemma {:induction false} LoadAppend(files: seq<Artifact>, a: seq<string>, b: seq<string>)
    ensures FirstLoadable(files, a + b)
         == if FirstLoadable(files, a).Some? then FirstLoadable(files, a) else FirstLoadable(files, b)
  {
    hide FirstNamed;
    if a == [] {
      assert a + b == b;
    } else {
      assert (a + b)[1..] == a[1..] + b;
      LoadAppend(files, a[1..], b);
    }
  }

  /** A name that is tried already changes nothing. */
  lemma LoadPut(files: seq<Artifact>, names: seq<string>, name: string)
    ensures FirstLoadable(files, Put(names, name))
         == if FirstLoadable(files, names).Some? then FirstLoadable(files, names) else FirstNamed(files, name)
  {
    hide FirstNamed;
    if name in names {
      TriedFails(files, names, name);
    } else {
      OnlyOne(files, name);
      LoadAppend(files, names, [name]);
    }
  }

  lemma {:induction false} TriedFails(files: seq<Artifact>, names: seq<string>, name: string)
    requires name in names
    ensures FirstLoadable(files, names).None? ==> FirstNamed(files, name).None?
  {
    hide FirstNamed;
    if names[0] != name {
      TriedFails(files, names[1..], name);
    }
  }

  /** Whatever name it was asked for, a loaded ABI is the one its own name stands for. */
  lemma {:induction false} LoadedIsFirst(files: seq<Artifact>, names: seq<string>)
    ensures FirstLoadable(files, names).Some? ==>
      FirstNamed(files, FirstLoadable(files, names).value.name) == FirstLoadable(files, names)
  {
    if names == [] {
    } else {
      FirstNamedSome(files, names[0]);
      LoadedIsFirst(files, names[1..]);
    }
  }

  // ---- The selector index ----

  /** Each selector's artifact names form an insertion-ordered set. */
  datatype Index = Index(byName: map<string, Artifact>, bySelector: map<Selector, seq<string>>)

  function NamesFor(bySelector: map<Selector, seq<string>>, s: Selector): seq<string> {
    if s in bySelector then bySelector[s] else []
  }

  function AddSelectors(bySelector: map<Selector, seq<string>>, selectors: seq<Selector>, name: string)
    : map<Selector, seq<string>>
  {
    if selectors == [] then bySelector else
    var m, s := AddSelectors(bySelector, selectors[..|selectors| - 1], name), selectors[|selectors| - 1];
    m[s := Put(NamesFor(m, s), name)]
  }

  function AddFile(ix: Index, f: Artifact): Index {
    if f.entries == 0 || f.name in ix.byName then ix
    else Index(ix.byName[f.name := f], AddSelectors(ix.bySelector, f.selectors, f.name))
  }

  function IndexOf(files: seq<Artifact>): Index {
    if files == [] then Index(map[], map[])
    else AddFile(IndexOf(files[..|files| - 1]), files[|files| - 1])
  }

  lemma OneMoreFile(files: seq<Artifact>, i: nat)
    requires i < |files|
    ensures IndexOf(files[..i + 1]) == AddFile(IndexOf(files[..i]), files[i])
  {
    hide AddFile;
    assert files[..i + 1][..i] == files[..i];
  }

  method IndexSelectors(bySelector: map<Selector, seq<string>>, f: Artifact) returns (r: map<Selector, seq<string>>)
    ensures r == AddSelectors(bySelector, f.selectors, f.name)
  {
    r := bySelector;
    for j := 0 to |f.selectors|
      invariant r == AddSelectors(bySelector, f.selectors[..j], f.name)
    {
      assert f.selectors[..j + 1][..j] == f.selectors[..j];
      r := r[f.selectors[j] := Put(NamesFor(r, f.selectors[j]), f.name)];
    }
    assert f.selectors[..|f.selectors|] == f.selectors;
  }

  method BuildSelectorIndex(files: seq<Artifact>) returns (ix: Index)
    ensures ix == IndexOf(files)
  {
    var byName: map<string, Artifact>, bySelector: map<Selector, seq<string>> := map[], map[];
    for i := 0 to |files|
      invariant Index(byName, bySelector) == IndexOf(files[..i])
    {
      hide IndexOf, AddSelectors;
      var f := files[i];
      OneMoreFile(files, i);
      if f.entries == 0 || f.name in byName { continue; }
      byName := byName[f.name := f];
      bySelector := IndexSelectors(bySelector, f);
    }
    assert files[..|files|] == files;
    ix := Index(byName, bySelector);
  }

  lemma {:induction false} AddSelectorsMeaning(
      m: map<Selector, seq<string>>, selectors: seq<Selector>, name: string, s: Selector, n: string)
    ensures n in NamesFor(AddSelectors(m, selectors, name), s)
       <==> n in NamesFor(m, s) || (n == name && s in selectors)
  {
    if selectors == [] {
    } else {
      var init, last := selectors[..|selectors| - 1], selectors[|selectors| - 1];
      assert selectors == init + [last];
      AddSelectorsMeaning(m, init, name, s, n);
      var before := NamesFor(AddSelectors(m, init, name), s);
      assert n in Put(before, name) <==> n in before || n == name;
    }
  }

  /** The index says exactly which artifact a name stands for and which artifacts know a selector. */
  lemma {:induction false} IndexMeaning(files: seq<Artifact>, s: Selector, n: string)
    ensures var ix := IndexOf(files);
      && (if n in ix.byName then FirstNamed(files, n) == Some(ix.byName[n]) else FirstNamed(files, n) == None)
      && (n in NamesFor(ix.bySelector, s) <==> n in ix.byName && s in ix.byName[n].selectors)
  {
    if files == [] {
    } else {
      var ix, f := IndexOf(files[..|files| - 1]), files[|files| - 1];
      IndexMeaning(files[..|files| - 1], s, n);
      IndexMeaning(files[..|files| - 1], s, f.name);
      AddSelectorsMeaning(ix.bySelector, f.selectors, f.name, s, n);
    }
  }

  // ---- Fingerprinting ----

  /** `le(a, b)` is `a.localeCompare(b) <= 0`; only its being a total order on names matters. */
  ghost predicate TotalOrder(le: (string, string) -> bool) {
    Preorder(le) && forall a, b :: le(a, b) && le(b, a) ==> a == b
  }

  /** The comparator: deployable first, then fewer functions, then the smaller name. */
  predicate RanksBefore(ix: Index, a: string, b: string, le: (string, string) -> bool) {
    var da, db := a in ix.byName && ix.byName[a].deployable, b in ix.byName && ix.byName[b].deployable;
    if da != db then da else
    var fa: nat, fb: nat := if a in ix.byName then ix.byName[a].functions else 0,
                            if b in ix.byName then ix.byName[b].functions else 0;
    if fa != fb then fa < fb else le(a, b)
  }

  predicate HasAll(ix: Index, name: string, selectors: seq<Selector>) {
    forall s :: s in selectors ==> name in NamesFor(ix.bySelector, s)
  }

  function Fingerprint(selectors: seq<Selector>, ix: Index, le: (string, string) -> bool): Option<string> {
    if selectors == [] then None else
    var candidates := Filter(NamesFor(ix.bySelector, selectors[0]), n => HasAll(ix, n, selectors));
    if candidates == [] then None else
    Some(SortBy(candidates, (a, b) => RanksBefore(ix, a, b, le))[0])
  }

  method FingerprintByAllSelectors(selectors: seq<Selector>, ix: Index, le: (string, string) -> bool)
    returns (r: Option<string>)
    ensures r == Fingerprint(selectors, ix, le)
  {
    if selectors == [] {
      return None;
    }
    var first := NamesFor(ix.bySelector, selectors[0]);
    var candidates: seq<string> := [];
    for i := 0 to |first|
      invariant candidates == Filter(first[..i], n => HasAll(ix, n, selectors))
    {
      assert first[..i + 1][..i] == first[..i];
      if HasAll(ix, first[i], selectors) {
        candidates := candidates + [first[i]];
      }
    }
    assert first[..|first|] == first;
    if candidates == [] {
      return None;
    }
    candidates := SortBy(candidates, (a, b) => RanksBefore(ix, a, b, le));
    return Some(candidates[0]);
  }

  /** The artifact of that name has every one of the selectors. */
  predicate Covers(files: seq<Artifact>, name: string, selectors: seq<Selector>) {
    var a := FirstNamed(files, name);
    a.Some? && forall s :: s in selectors ==> s in a.value.selectors
  }

  lemma HasAllIsCovers(files: seq<Artifact>, name: string, selectors: seq<Selector>)
    requires selectors != []
    ensures HasAll(IndexOf(files), name, selectors) <==> Covers(files, name, selectors)
  {
    assert selectors[0] in selectors;
    forall s { IndexMeaning(files, s, name); }
  }

  lemma RankingIsPreorder(ix: Index, le: (string, string) -> bool)
    requires TotalOrder(le)
    ensures Preorder((a, b) => RanksBefore(ix, a, b, le))
  {
  }

  /** Nothing is identified iff no selector was observed or no artifact has them all; otherwise
      the result has them all and ranks first among the artifacts that do. */
  lemma FingerprintIsBest(files: seq<Artifact>, selectors: seq<Selector>, le: (string, string) -> bool)
    requires TotalOrder(le)
    ensures var r := Fingerprint(selectors, IndexOf(files), le);
      && (r == None <==> selectors == [] || forall n :: !Covers(files, n, selectors))
      && (r.Some? ==> Covers(files, r.value, selectors)
                      && forall n :: Covers(files, n, selectors) ==> RanksBefore(IndexOf(files), r.value, n, le))
  {
    if selectors != [] {
      var ix := IndexOf(files);
      var first, p := NamesFor(ix.bySelector, selectors[0]), (n: string) => HasAll(ix, n, selectors);
      var cmp := (a, b) => RanksBefore(ix, a, b, le);
      var candidates := Filter(first, p);
      FilterIn(first, p);
      forall n ensures n in candidates <==> Covers(files, n, selectors) {
        HasAllIsCovers(files, n, selectors);
        assert selectors[0] in selectors;
      }
      RankingIsPreorder(ix, le);
      SortBySorts(candidates, cmp);
      var sorted := SortBy(candidates, cmp);
      if candidates != [] {
        FirstOfSorted(candidates, cmp);
      } else {
        assert forall n :: n !in candidates;
      }
    }
  }

  /** The preference in the artifacts' own terms: against any other artifact that has all the
      selectors, the identified one is deployable if the other is; if that ties, it has no more
      functions; and if that ties too, its name is not behind. */
  lemma FingerprintPrefers(files: seq<Artifact>, selectors: seq<Selector>, le: (string, string) -> bool, other: string)
    requires TotalOrder(le) && selectors != [] && Covers(files, other, selectors)
    ensures var r := Fingerprint(selectors, IndexOf(files), le);
      && r.Some? && Covers(files, r.value, selectors)
      && var a, b := FirstNamed(files, r.value).value, FirstNamed(files, other).value;
         && (b.deployable ==> a.deployable)
         && (a.deployable == b.deployable ==> a.functions <= b.functions)
         && (a.deployable == b.deployable && a.functions == b.functions ==> le(r.value, other))
  {
    hide Fingerprint;
    FingerprintIsBest(files, selectors, le);
    var r := Fingerprint(selectors, IndexOf(files), le);
    IndexMeaning(files, "", r.value);
    IndexMeaning(files, "", other);
  }

  lemma FirstOfSorted<T(!new)>(s: seq<T>, le: (T, T) -> bool)
    requires s != [] && Preorder(le)
    ensures |SortBy(s, le)| == |s| && SortBy(s, le)[0] in s
    ensures forall x :: x in s ==> le(SortBy(s, le)[0], x)
  {
    SortBySorts(s, le);
    var t := SortBy(s, le);
    assert |multiset(t)| == |multiset(s)|;
    assert t[0] in multiset(t);
    forall x | x in s ensures le(t[0], x) {
      assert x in multiset(t);
      var i :| 0 <= i < |t| && t[i] == x;
      assert le(t[0], t[0]);
    }
  }
}
