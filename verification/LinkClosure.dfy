/** The library closure behind the Go bindings: a depth-first walk over link references with one
    shared `seen` set. */
module LinkClosure {
  import opened Wrappers
  import opened Seqs

  /** `source:library` names a library. */
  datatype Key = Key(source: string, library: string)

  /** One source file's entry in the link references. */
  datatype LinkGroup = LinkGroup(source: string, libraries: seq<string>)

  datatype Artifact = Artifact(bytecode: string, linkReferences: seq<LinkGroup>)

  /** The compiled artifacts on disk. */
  type Repository = map<Key, Artifact>

  datatype Library = Library(key: Key, artifact: Artifact)

  predicate Links(a: Artifact, k: Key) {
    exists g :: g in a.linkReferences && g.source == k.source && k.library in g.libraries
  }

  /** A walk along link edges that starts at a link of `a`; only artifacts on disk have edges. */
  ghost predicate Walk(repo: Repository, a: Artifact, path: seq<Key>) {
    && path != [] && Links(a, path[0])
    && forall i :: 0 <= i < |path| - 1 ==> path[i] in repo && Links(repo[path[i]], path[i + 1])
  }

  ghost predicate Reaches(repo: Repository, a: Artifact, k: Key) {
    exists path :: Walk(repo, a, path) && path[|path| - 1] == k
  }

  lemma DirectReach(repo: Repository, a: Artifact, k: Key)
    requires Links(a, k)
    ensures Reaches(repo, a, k)
  {
    assert Walk(repo, a, [k]);
  }

  lemma IndirectReach(repo: Repository, a: Artifact, k: Key, further: Key)
    requires Links(a, k) && k in repo && Reaches(repo, repo[k], further)
    ensures Reaches(repo, a, further)
  {
    var path :| Walk(repo, repo[k], path) && path[|path| - 1] == further;
    var longer := [k] + path;
    assert forall i :: 0 <= i < |longer| - 1 ==> longer[i] in repo && Links(repo[longer[i]], longer[i + 1]) by {
      forall i | 0 <= i < |longer| - 1 ensures longer[i] in repo && Links(repo[longer[i]], longer[i + 1]) {
        if i > 0 {
          assert longer[i] == path[i - 1] && longer[i + 1] == path[i - 1 + 1];
        }
      }
    }
    assert Walk(repo, a, longer);
  }

  function Keys(libs: seq<Library>): set<Key> {
    set l | l in libs :: l.key
  }

  /** Each key once, each with the artifact the repository holds for it. */
  ghost predicate Faithful(repo: Repository, libs: seq<Library>) {
    && (forall i :: 0 <= i < |libs| ==> libs[i].key in repo && libs[i].artifact == repo[libs[i].key])
    && (forall i, j :: 0 <= i < j < |libs| ==> libs[i].key != libs[j].key)
  }

  /** Every link of these libraries has been seen. */
  ghost predicate ClosedIn(repo: Repository, keys: set<Key>, seen: set<Key>) {
    forall k, l :: k in keys && k in repo && Links(repo[k], l) ==> l in seen
  }

  ghost predicate AllReached(repo: Repository, a: Artifact, keys: set<Key>) {
    forall k :: k in keys ==> Reaches(repo, a, k)
  }

  /** The links of `a` in the groups before `i`, and the first `j` of group i. */
  function LinkSet(a: Artifact, i: nat, j: nat): set<Key>
    requires i <= |a.linkReferences|
    requires j > 0 ==> i < |a.linkReferences| && j <= |a.linkReferences[i].libraries|
    decreases i, j
  {
    if j > 0 then LinkSet(a, i, j - 1) + {Key(a.linkReferences[i].source, a.linkReferences[i].libraries[j - 1])}
    else if i > 0 then LinkSet(a, i - 1, |a.linkReferences[i - 1].libraries|)
    else {}
  }

  lemma {:induction false} LinkSetHas(a: Artifact, i: nat, j: nat, k: Key)
    requires i <= |a.linkReferences|
    requires j > 0 ==> i < |a.linkReferences| && j <= |a.linkReferences[i].libraries|
    ensures k in LinkSet(a, i, j) <==>
      (exists g :: 0 <= g < i && InGroup(a.linkReferences[g], |a.linkReferences[g].libraries|, k))
      || (j > 0 && InGroup(a.linkReferences[i], j, k))
    decreases i, j
  {
    if j > 0 {
      LinkSetHas(a, i, j - 1, k);
    } else if i > 0 {
      LinkSetHas(a, i - 1, |a.linkReferences[i - 1].libraries|, k);
      assert InGroup(a.linkReferences[i - 1], 0, k) == false;
    }
  }

  /** The key is among the first `m` libraries of the group. */
  predicate InGroup(g: LinkGroup, m: nat, k: Key)
    requires m <= |g.libraries|
  {
    g.source == k.source && k.library in g.libraries[..m]
  }

  /** The set shared by all calls of one walk. */
  class Seen {
    var keys: set<Key>

    constructor ()
      ensures keys == {}
    {
      keys := {};
    }

    method Add(k: Key)
      modifies this
      ensures keys == old(keys) + {k}
    {
      keys := keys + {k};
    }
  }

  /** What a call has done when it returns the libraries it added to `seen`. */
  ghost predicate Collected(repo: Repository, a: Artifact, before: set<Key>, after: set<Key>, libs: seq<Library>) {
    && before <= after && Keys(libs) == after - before && Faithful(repo, libs)
    && ClosedIn(repo, after - before, after) && AllReached(repo, a, after - before)
  }

  method CollectLibraryArtifacts(repo: Repository, a: Artifact, seen: Seen) returns (r: Result<seq<Library>, Key>)
    modifies seen
    ensures r.Success? ==> Collected(repo, a, old(seen.keys), seen.keys, r.value)
                           && (forall k :: Links(a, k) ==> k in seen.keys)
    ensures r.Failure? ==> Reaches(repo, a, r.error) && r.error !in repo
    decreases |repo.Keys - seen.keys|, 2
  {
    var libs: seq<Library> := [];
    ghost var before := seen.keys;
    for i := 0 to |a.linkReferences|
      invariant Collected(repo, a, before, seen.keys, libs)
      invariant LinkSet(a, i, 0) <= seen.keys
    {
      ghost var start := seen.keys;
      Fewer(repo.Keys, before, start);
      var below := CollectGroup(repo, a, i, seen);
      if below.Failure? {
        return below;
      }
      Join(repo, a, before, start, seen.keys, libs, below.value);
      libs := libs + below.value;
    }
    AllLinked(a, seen.keys);
    return Success(libs);
  }

  /** The inner loop: the libraries of one source file. */
  method CollectGroup(repo: Repository, a: Artifact, i: nat, seen: Seen) returns (r: Result<seq<Library>, Key>)
    requires i < |a.linkReferences| && LinkSet(a, i, 0) <= seen.keys
    modifies seen
    ensures r.Success? ==> Collected(repo, a, old(seen.keys), seen.keys, r.value) && LinkSet(a, i + 1, 0) <= seen.keys
    ensures r.Failure? ==> Reaches(repo, a, r.error) && r.error !in repo
    decreases |repo.Keys - seen.keys|, 1
  {
    var libs: seq<Library> := [];
    ghost var before := seen.keys;
    var group := a.linkReferences[i];
    for j := 0 to |group.libraries|
      invariant Collected(repo, a, before, seen.keys, libs)
      invariant LinkSet(a, i, j) <= seen.keys
    {
      var key := Key(group.source, group.libraries[j]);
      ghost var start := seen.keys;
      if key !in seen.keys {
        Fewer(repo.Keys, before, start);
        LinkAt(a, i, j);
        var below := Visit(repo, a, key, seen);
        if below.Failure? {
          return below;
        }
        Join(repo, a, before, start, seen.keys, libs, below.value);
        libs := libs + below.value;
      }
    }
    return Success(libs);
  }

  /** A library not seen before: read it, then collect what it links to. */
  method Visit(repo: Repository, a: Artifact, key: Key, seen: Seen) returns (r: Result<seq<Library>, Key>)
    requires Links(a, key) && key !in seen.keys
    modifies seen
    ensures r.Success? ==> Collected(repo, a, old(seen.keys), seen.keys, r.value)
                           && key in seen.keys && old(seen.keys) <= seen.keys
    ensures r.Failure? ==> Reaches(repo, a, r.error) && r.error !in repo
    decreases |repo.Keys - seen.keys|, 0
  {
    DirectReach(repo, a, key);
    ghost var start := seen.keys;
    seen.Add(key);
    if key !in repo {
      return Failure(key);
    }
    FewerStill(repo.Keys, start, key);
    var deeper := CollectLibraryArtifacts(repo, repo[key], seen);
    if deeper.Failure? {
      IndirectReach(repo, a, key, deeper.error);
      return deeper;
    }
    Below(repo, a, start, key, seen.keys, deeper.value);
    return Success([Library(key, repo[key])] + deeper.value);
  }

  lemma LinkAt(a: Artifact, i: nat, j: nat)
    requires i < |a.linkReferences| && j < |a.linkReferences[i].libraries|
    ensures Links(a, Key(a.linkReferences[i].source, a.linkReferences[i].libraries[j]))
  {
  }

  lemma AllLinked(a: Artifact, seen: set<Key>)
    requires LinkSet(a, |a.linkReferences|, 0) <= seen
    ensures forall k :: Links(a, k) ==> k in seen
  {
    forall k | Links(a, k) ensures k in seen {
      var g :| g in a.linkReferences && g.source == k.source && k.library in g.libraries;
      var i :| 0 <= i < |a.linkReferences| && a.linkReferences[i] == g;
      assert g.libraries[..|g.libraries|] == g.libraries;
      assert InGroup(a.linkReferences[i], |g.libraries|, k);
      LinkSetHas(a, |a.linkReferences|, 0, k);
    }
  }

  lemma Fewer(all: set<Key>, before: set<Key>, seen: set<Key>)
    requires before <= seen
    ensures |all - seen| <= |all - before|
  {
    SubsetSize(all - seen, all - before);
  }

  lemma FewerStill(all: set<Key>, seen: set<Key>, key: Key)
    requires key in all && key !in seen
    ensures |all - (seen + {key})| < |all - seen|
  {
    SubsetSize(all - (seen + {key}), all - seen - {key});
  }

  lemma {:induction false} SubsetSize(a: set<Key>, b: set<Key>)
    requires a <= b
    ensures |a| <= |b|
  {
    if a == {} {
    } else {
      var x :| x in a;
      SubsetSize(a - {x}, b - {x});
    }
  }

  lemma KeysAppend(a: seq<Library>, b: seq<Library>)
    ensures Keys(a + b) == Keys(a) + Keys(b)
  {
    assert forall l :: l in a + b <==> l in a || l in b;
  }

  lemma FaithfulAppend(repo: Repository, a: seq<Library>, b: seq<Library>)
    requires Faithful(repo, a) && Faithful(repo, b) && Keys(a) !! Keys(b)
    ensures Faithful(repo, a + b)
  {
    assert forall i :: 0 <= i < |a| ==> a[i].key in Keys(a);
    assert forall i :: 0 <= i < |b| ==> b[i].key in Keys(b);
  }

  lemma AllReachedBelow(repo: Repository, a: Artifact, key: Key, added: set<Key>)
    requires key in repo && Links(a, key) && AllReached(repo, repo[key], added)
    ensures AllReached(repo, a, added + {key})
  {
    forall k | k in added + {key} ensures Reaches(repo, a, k) {
      if k in added {
        IndirectReach(repo, a, key, k);
      } else {
        DirectReach(repo, a, key);
      }
    }
  }

  /** One library and everything below it. */
  lemma Below(repo: Repository, a: Artifact, start: set<Key>, key: Key, after: set<Key>, deeper: seq<Library>)
    requires key !in start && key in repo && Links(a, key)
    requires Collected(repo, repo[key], start + {key}, after, deeper)
    requires forall k :: Links(repo[key], k) ==> k in after
    ensures Collected(repo, a, start, after, [Library(key, repo[key])] + deeper) && start <= after
  {
    var one, added := [Library(key, repo[key])], after - (start + {key});
    assert Keys(one) == {key};
    KeysAppend(one, deeper);
    FaithfulAppend(repo, one, deeper);
    AllReachedBelow(repo, a, key, added);
    assert after - start == added + {key};
  }

  /** Two stretches of one walk. */
  lemma Join(repo: Repository, a: Artifact, before: set<Key>, middle: set<Key>, after: set<Key>,
             libs: seq<Library>, more: seq<Library>)
    requires Collected(repo, a, before, middle, libs) && Collected(repo, a, middle, after, more)
    ensures Collected(repo, a, before, after, libs + more)
  {
    KeysAppend(libs, more);
    FaithfulAppend(repo, libs, more);
    assert after - before == (middle - before) + (after - middle);
  }

  // ---- The closure ----

  lemma {:induction false} ClosedContainsWalk(repo: Repository, a: Artifact, seen: set<Key>, path: seq<Key>)
    requires Walk(repo, a, path) && ClosedIn(repo, seen, seen) && forall k :: Links(a, k) ==> k in seen
    ensures path[|path| - 1] in seen
  {
    if |path| <= 1 {
    } else {
      var n := |path| - 1;
      assert Walk(repo, a, path[..n]);
      ClosedContainsWalk(repo, a, seen, path[..n]);
      assert Links(repo[path[n - 1]], path[n - 1 + 1]);
    }
  }

  /** The closure of one contract: every library reachable over link edges exactly once and nothing
      else, cyclic references included; it fails iff some reachable library has no artifact. */
  method LibrariesOf(repo: Repository, a: Artifact) returns (r: Result<seq<Library>, Key>)
    ensures r.Success? ==> Faithful(repo, r.value) && forall k :: k in Keys(r.value) <==> Reaches(repo, a, k)
    ensures r.Failure? ==> Reaches(repo, a, r.error) && r.error !in repo
    ensures r.Success? <==> forall k :: Reaches(repo, a, k) ==> k in repo
  {
    var seen := new Seen();
    r := CollectLibraryArtifacts(repo, a, seen);
    if r.Success? {
      assert Keys(r.value) == seen.keys;
      forall k | Reaches(repo, a, k) ensures k in seen.keys {
        var path :| Walk(repo, a, path) && path[|path| - 1] == k;
        ClosedContainsWalk(repo, a, seen.keys, path);
      }
      forall k | k in Keys(r.value) ensures k in repo {
        var l :| l in r.value && l.key == k;
        var i :| 0 <= i < |r.value| && r.value[i] == l;
      }
    }
  }
}
