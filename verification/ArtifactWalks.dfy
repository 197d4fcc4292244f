/** The walks of the artifact directory: which artifact each name stands for, and what an address is
    identified as, over all orders in which the directories can be listed. */
module ArtifactWalks {
  import opened Wrappers
  import opened Seqs
  import opened Artifacts

  // ---- The artifact directory and its walks ----

  datatype Entry = File(artifact: Artifact) | Directory(entries: seq<Entry>)

  function Size(e: Entry): nat {
    match e
    case File(_) => 1
    case Directory(entries) => 1 + SizeAll(entries)
  }

  function SizeAll(entries: seq<Entry>): nat {
    if entries == [] then 0 else Size(entries[0]) + SizeAll(entries[1..])
  }

  function Without<T>(s: seq<T>, i: nat): seq<T>
    requires i < |s|
  {
    s[..i] + s[i + 1..]
  }

  lemma {:induction false} SizeWithout(entries: seq<Entry>, i: nat)
    requires i < |entries|
    ensures SizeAll(entries) == Size(entries[i]) + SizeAll(Without(entries, i)) && Size(entries[i]) > 0
  {
    if i == 0 {
      assert Without(entries, 0) == entries[1..];
    } else {
      SizeWithout(entries[1..], i - 1);
      assert Without(entries, i)[1..] == Without(entries[1..], i - 1);
    }
  }

  /** The walk of a directory lists its entries in some order, and finishes each subdirectory before it
      goes on. */
  ghost predicate IsWalk(e: Entry, walk: seq<Artifact>)
    decreases Size(e), 0
  {
    match e
    case File(artifact) => walk == [artifact]
    case Directory(entries) => IsWalkOf(entries, walk)
  }

  ghost predicate IsWalkOf(entries: seq<Entry>, walk: seq<Artifact>)
    decreases SizeAll(entries), 2
  {
    if entries == [] then walk == []
    else exists i, n :: 0 <= i < |entries| && 0 <= n <= |walk| && StartsWithEntry(entries, walk, i, n)
  }

  /** The walk begins with the entry in position i, which takes n files. */
  ghost predicate StartsWithEntry(entries: seq<Entry>, walk: seq<Artifact>, i: nat, n: nat)
    requires i < |entries| && n <= |walk|
    decreases SizeAll(entries), 1
  {
    SizeWithout(entries, i);
    IsWalk(entries[i], walk[..n]) && IsWalkOf(Without(entries, i), walk[n..])
  }

  function FilesOf(e: Entry): seq<Artifact>
    decreases Size(e), 0
  {
    match e
    case File(artifact) => [artifact]
    case Directory(entries) => FilesIn(entries)
  }

  function FilesIn(entries: seq<Entry>): seq<Artifact>
    decreases SizeAll(entries), 1
  {
    if entries == [] then [] else FilesOf(entries[0]) + FilesIn(entries[1..])
  }

  lemma {:induction false} FilesWithout(entries: seq<Entry>, i: nat)
    requires i < |entries|
    ensures forall f :: f in FilesIn(entries) <==> f in FilesOf(entries[i]) || f in FilesIn(Without(entries, i))
  {
    if i == 0 {
      assert Without(entries, 0) == entries[1..];
    } else {
      FilesWithout(entries[1..], i - 1);
      assert Without(entries, i)[1..] == Without(entries[1..], i - 1);
    }
  }

  lemma {:induction false} WalkFiles(e: Entry, walk: seq<Artifact>)
    requires IsWalk(e, walk)
    ensures forall f :: f in walk <==> f in FilesOf(e)
    decreases Size(e), 0
  {
    match e
    case File(_) =>
    case Directory(entries) => WalkFilesOf(entries, walk);
  }

  lemma {:induction false} WalkFilesOf(entries: seq<Entry>, walk: seq<Artifact>)
    requires IsWalkOf(entries, walk)
    ensures forall f :: f in walk <==> f in FilesIn(entries)
    decreases SizeAll(entries), 1
  {
    if entries == [] {
    } else {
      var i, n :| 0 <= i < |entries| && 0 <= n <= |walk| && StartsWithEntry(entries, walk, i, n);
      SizeWithout(entries, i);
      WalkFiles(entries[i], walk[..n]);
      WalkFilesOf(Without(entries, i), walk[n..]);
      FilesWithout(entries, i);
      assert walk == walk[..n] + walk[n..];
    }
  }

  /** One entry, then the others. */
  lemma WalkFrom(entries: seq<Entry>, i: nat, first: seq<Artifact>, rest: seq<Artifact>)
    requires i < |entries| && IsWalk(entries[i], first) && IsWalkOf(Without(entries, i), rest)
    ensures IsWalkOf(entries, first + rest)
  {
    assert (first + rest)[..|first|] == first && (first + rest)[|first|..] == rest;
    assert StartsWithEntry(entries, first + rest, i, |first|);
  }

  /** Every directory can be walked, and with any of its files in front. */
  lemma {:induction false} SomeWalk(e: Entry) returns (walk: seq<Artifact>)
    ensures IsWalk(e, walk)
    decreases Size(e), 0
  {
    match e
    case File(artifact) => walk := [artifact];
    case Directory(entries) => walk := SomeWalkOf(entries);
  }

  lemma {:induction false} SomeWalkOf(entries: seq<Entry>) returns (walk: seq<Artifact>)
    ensures IsWalkOf(entries, walk)
    decreases SizeAll(entries), 1
  {
    if entries == [] {
      walk := [];
    } else {
      SizeWithout(entries, 0);
      var first := SomeWalk(entries[0]);
      var rest := SomeWalkOf(Without(entries, 0));
      WalkFrom(entries, 0, first, rest);
      walk := first + rest;
    }
  }

  lemma {:induction false} FrontWalk(e: Entry, f: Artifact) returns (walk: seq<Artifact>)
    requires f in FilesOf(e)
    ensures IsWalk(e, walk) && walk != [] && walk[0] == f
    decreases Size(e), 0
  {
    match e
    case File(artifact) => walk := [artifact];
    case Directory(entries) =>
      var i := EntryOf(entries, f);
      SizeWithout(entries, i);
      var first := FrontWalk(entries[i], f);
      var rest := SomeWalkOf(Without(entries, i));
      WalkFrom(entries, i, first, rest);
      walk := first + rest;
  }

  lemma {:induction false} EntryOf(entries: seq<Entry>, f: Artifact) returns (i: nat)
    requires f in FilesIn(entries)
    ensures i < |entries| && f in FilesOf(entries[i])
    decreases |entries|
  {
    if f in FilesOf(entries[0]) {
      i := 0;
    } else {
      var j := EntryOf(entries[1..], f);
      i := j + 1;
    }
  }

  // ---- What depends on the order of the walk ----

  /** Files of one name and a non-empty ABI are copies of each other. */
  ghost predicate CopiesAgree(files: seq<Artifact>) {
    forall f, g :: f in files && g in files && f.name == g.name && f.entries > 0 && g.entries > 0 ==> f == g
  }

  /** Both walks give every name the same artifact. */
  ghost predicate SameNames(files: seq<Artifact>, walk: seq<Artifact>) {
    forall name :: FirstNamed(files, name) == FirstNamed(walk, name)
  }

  lemma {:induction false} FirstNamedFinds(files: seq<Artifact>, f: Artifact)
    requires f in files && f.entries > 0
    ensures FirstNamed(files, f.name).Some?
  {
    var init, last := files[..|files| - 1], files[|files| - 1];
    assert files == init + [last];
    if f in init {
      FirstNamedFinds(init, f);
    }
  }

  lemma FirstNamedOrderFree(files: seq<Artifact>, walk: seq<Artifact>, name: string)
    requires (forall f :: f in files <==> f in walk) && CopiesAgree(files)
    ensures FirstNamed(files, name) == FirstNamed(walk, name)
  {
    FirstNamedSome(files, name);
    FirstNamedSome(walk, name);
    var a, b := FirstNamed(files, name), FirstNamed(walk, name);
    if a.Some? {
      FirstNamedFinds(walk, a.value);
    }
    if b.Some? {
      FirstNamedFinds(files, b.value);
    }
  }

  lemma {:induction false} EarlierWins(head: seq<Artifact>, rest: seq<Artifact>, name: string)
    ensures FirstNamed(head + rest, name)
         == if FirstNamed(head, name).Some? then FirstNamed(head, name) else FirstNamed(rest, name)
  {
    if rest == [] {
      assert head + rest == head;
    } else {
      assert (head + rest)[..|head + rest| - 1] == head + rest[..|rest| - 1];
      EarlierWins(head, rest[..|rest| - 1], name);
    }
  }

  lemma FrontIsFirst(walk: seq<Artifact>)
    requires walk != [] && walk[0].entries > 0
    ensures FirstNamed(walk, walk[0].name) == Some(walk[0])
  {
    var f := walk[0];
    assert walk == [f] + walk[1..];
    assert [f][..0] == [];
    assert FirstNamed([], f.name) == None;
    EarlierWins([f], walk[1..], f.name);
  }

  ghost predicate NamesOrderFree(root: Entry) {
    forall one, two | IsWalk(root, one) && IsWalk(root, two) :: SameNames(one, two)
  }

  /** The first occurrence of every name is the same in all walks iff same-named files are copies. */
  lemma NamesOrderFreeIff(root: Entry)
    ensures NamesOrderFree(root) <==> CopiesAgree(FilesOf(root))
  {
    var files := FilesOf(root);
    if CopiesAgree(files) {
      forall one, two | IsWalk(root, one) && IsWalk(root, two) ensures SameNames(one, two) {
        WalkFiles(root, one);
        WalkFiles(root, two);
        forall name { FirstNamedOrderFree(one, two, name); }
      }
    }
    if NamesOrderFree(root) {
      forall f, g | f in files && g in files && f.name == g.name && f.entries > 0 && g.entries > 0 ensures f == g {
        var one := FrontWalk(root, f);
        var two := FrontWalk(root, g);
        FrontIsFirst(one);
        FrontIsFirst(two);
        assert SameNames(one, two);
        assert Some(f) == FirstNamed(one, f.name) == FirstNamed(two, f.name) == Some(g);
      }
    }
  }

  /** Two walks that give every name the same artifact identify the same artifact, in whatever order
      the selectors were seen. */
  lemma FingerprintOrderFree(files: seq<Artifact>, walk: seq<Artifact>,
                             selectors: seq<Selector>, selectors': seq<Selector>, le: (string, string) -> bool)
    requires TotalOrder(le) && SameNames(files, walk) && ToSet(selectors) == ToSet(selectors')
    ensures Fingerprint(selectors, IndexOf(files), le) == Fingerprint(selectors', IndexOf(walk), le)
  {
    hide Fingerprint;
    FingerprintIsBest(files, selectors, le);
    FingerprintIsBest(walk, selectors', le);
    assert selectors == [] <==> selectors' == [] by {
      if selectors != [] { assert selectors[0] in ToSet(selectors'); }
      if selectors' != [] { assert selectors'[0] in ToSet(selectors); }
    }
    forall n ensures Covers(files, n, selectors) == Covers(walk, n, selectors') {
      assert forall s :: s in selectors <==> s in ToSet(selectors);
      assert forall s :: s in selectors' <==> s in ToSet(selectors');
    }
    var r, r' := Fingerprint(selectors, IndexOf(files), le), Fingerprint(selectors', IndexOf(walk), le);
    if r.Some? && r'.Some? {
      RankingAgrees(files, walk, r.value, r'.value, le);
      RankingAgrees(files, walk, r'.value, r.value, le);
    }
  }

  lemma RankingAgrees(files: seq<Artifact>, walk: seq<Artifact>, a: string, b: string, le: (string, string) -> bool)
    requires SameNames(files, walk)
    ensures RanksBefore(IndexOf(files), a, b, le) == RanksBefore(IndexOf(walk), a, b, le)
  {
    forall n ensures var ix, ix' := IndexOf(files), IndexOf(walk);
        && (n in ix.byName <==> n in ix'.byName)
        && (n in ix.byName ==> ix.byName[n] == ix'.byName[n])
    {
      IndexMeaning(files, "", n);
      IndexMeaning(walk, "", n);
    }
  }

  // ---- Keeping some files from being the first of their name ----

  function NamesIn(files: seq<Artifact>): set<string> {
    set f | f in files && f.entries > 0 :: f.name
  }

  /** With these names taken, the entry can be walked so that no other name comes to stand for a barred
      file: a file must be free, or its name taken; the entries of a directory must be such in some
      order. */
  predicate Avoids(taken: set<string>, e: Entry, barred: set<Artifact>)
    decreases Size(e), 0
  {
    match e
    case File(f) => f.entries == 0 || f !in barred || f.name in taken
    case Directory(entries) => AvoidsAll(taken, entries, barred)
  }

  /** Greedily: the first entry that avoids them is walked next, and takes its names. */
  predicate AvoidsAll(taken: set<string>, entries: seq<Entry>, barred: set<Artifact>)
    decreases SizeAll(entries), 2
  {
    if entries == [] then true else
    var i := NextAvoiding(taken, entries, barred, 0);
    if i == |entries| then false else
    SizeWithout(entries, i);
    AvoidsAll(taken + NamesIn(FilesOf(entries[i])), Without(entries, i), barred)
  }

  function NextAvoiding(taken: set<string>, entries: seq<Entry>, barred: set<Artifact>, from: nat): (i: nat)
    requires from <= |entries|
    ensures from <= i <= |entries|
    decreases SizeAll(entries), 1, |entries| - from
  {
    if from == |entries| then from else
    SizeWithout(entries, from);
    if Avoids(taken, entries[from], barred) then from else NextAvoiding(taken, entries, barred, from + 1)
  }

  lemma {:induction false} NextAvoidingFound(taken: set<string>, entries: seq<Entry>, barred: set<Artifact>, from: nat)
    requires from <= |entries|
    ensures var i := NextAvoiding(taken, entries, barred, from);
      && (i < |entries| ==> Avoids(taken, entries[i], barred))
      && forall j :: from <= j < i ==> !Avoids(taken, entries[j], barred)
    decreases |entries| - from
  {
    if from == |entries| {
    } else {
      NextAvoidingFound(taken, entries, barred, from + 1);
    }
  }

  /** No name stands for a barred file in the walk, once the names in `taken` are settled. */
  ghost predicate Clears(taken: set<string>, walk: seq<Artifact>, barred: set<Artifact>) {
    forall name :: name !in taken ==> !Bars(walk, name, barred)
  }

  predicate Bars(walk: seq<Artifact>, name: string, barred: set<Artifact>) {
    FirstNamed(walk, name).Some? && FirstNamed(walk, name).value in barred
  }

  lemma ClearsParts(taken: set<string>, first: seq<Artifact>, rest: seq<Artifact>, barred: set<Artifact>)
    ensures Clears(taken, first + rest, barred)
       <==> Clears(taken, first, barred) && Clears(taken + NamesIn(first), rest, barred)
  {
    forall name
      ensures FirstNamed(first, name).Some? <==> name in NamesIn(first)
      ensures Bars(first + rest, name, barred)
           == if name in NamesIn(first) then Bars(first, name, barred) else Bars(rest, name, barred)
    {
      EarlierWins(first, rest, name);
      FirstNamedSome(first, name);
      if f :| f in first && f.entries > 0 && f.name == name {
        FirstNamedFinds(first, f);
      }
    }
  }

  /** An entry that can avoid the barred files has a walk that does. */
  lemma {:induction false} AvoidingWalk(taken: set<string>, e: Entry, barred: set<Artifact>)
    returns (walk: seq<Artifact>)
    requires Avoids(taken, e, barred)
    ensures IsWalk(e, walk) && Clears(taken, walk, barred)
    decreases Size(e), 0
  {
    match e
    case File(f) =>
      walk := [f];
      OneFile(taken, f, barred);
    case Directory(entries) => walk := AvoidingWalkOf(taken, entries, barred);
  }

  lemma OneFile(taken: set<string>, f: Artifact, barred: set<Artifact>)
    ensures Clears(taken, [f], barred) <==> f.entries == 0 || f !in barred || f.name in taken
  {
    assert [f][..0] == [];
    forall name ensures FirstNamed([f], name) == if name == f.name && f.entries > 0 then Some(f) else None {
      assert FirstNamed([], name) == None;
    }
    assert f.name !in taken && f.entries > 0 && f in barred ==> Bars([f], f.name, barred);
  }

  lemma {:induction false} AvoidingWalkOf(taken: set<string>, entries: seq<Entry>, barred: set<Artifact>)
    returns (walk: seq<Artifact>)
    requires AvoidsAll(taken, entries, barred)
    ensures IsWalkOf(entries, walk) && Clears(taken, walk, barred)
    decreases SizeAll(entries), 1
  {
    if entries == [] {
      walk := [];
      assert forall name :: FirstNamed([], name) == None;
    } else {
      var i := NextAvoiding(taken, entries, barred, 0);
      NextAvoidingFound(taken, entries, barred, 0);
      SizeWithout(entries, i);
      var first := AvoidingWalk(taken, entries[i], barred);
      WalkNames(entries[i], first);
      var rest := AvoidingWalkOf(taken + NamesIn(first), Without(entries, i), barred);
      WalkFrom(entries, i, first, rest);
      ClearsParts(taken, first, rest, barred);
      walk := first + rest;
    }
  }

  /** Taking more names away only helps. */
  lemma ClearsMore(taken: set<string>, more: set<string>, walk: seq<Artifact>, barred: set<Artifact>)
    requires Clears(taken, walk, barred) && taken <= more
    ensures Clears(more, walk, barred)
  {
  }

  /** If some walk avoids them, so does the greedy one. */
  lemma {:induction false} ClearsAvoids(taken: set<string>, e: Entry, walk: seq<Artifact>, barred: set<Artifact>)
    requires IsWalk(e, walk) && Clears(taken, walk, barred)
    ensures Avoids(taken, e, barred)
    decreases Size(e), 0
  {
    match e
    case File(f) => OneFile(taken, f, barred);
    case Directory(entries) => ClearsAvoidsAll(taken, entries, walk, barred);
  }

  lemma {:induction false} ClearsAvoidsAll(taken: set<string>, entries: seq<Entry>, walk: seq<Artifact>,
                                         barred: set<Artifact>)
    requires IsWalkOf(entries, walk) && Clears(taken, walk, barred)
    ensures AvoidsAll(taken, entries, barred)
    decreases SizeAll(entries), 1
  {
    if entries == [] {
    } else {
      var k, n :| 0 <= k < |entries| && 0 <= n <= |walk| && StartsWithEntry(entries, walk, k, n);
      assert walk == walk[..n] + walk[n..];
      ClearsParts(taken, walk[..n], walk[n..], barred);
      SizeWithout(entries, k);
      ClearsAvoids(taken, entries[k], walk[..n], barred);
      var i := NextAvoiding(taken, entries, barred, 0);
      NextAvoidingFound(taken, entries, barred, 0);
      SizeWithout(entries, i);
      var rest := DropEntry(taken, entries, walk, i, barred);
      ClearsAvoidsAll(taken + NamesIn(FilesOf(entries[i])), Without(entries, i), rest, barred);
    }
  }

  /** Leaving one entry out of such a walk, its names being taken beforehand, brings no barred file in. */
  lemma {:induction false} DropEntry(taken: set<string>, entries: seq<Entry>, walk: seq<Artifact>, i: nat,
                                     barred: set<Artifact>)
    returns (rest: seq<Artifact>)
    requires i < |entries| && IsWalkOf(entries, walk) && Clears(taken, walk, barred)
    ensures IsWalkOf(Without(entries, i), rest) && Clears(taken + NamesIn(FilesOf(entries[i])), rest, barred)
    decreases |entries|
  {
    hide Clears, NamesIn, IsWalk;
    var names := NamesIn(FilesOf(entries[i]));
    var k, n :| 0 <= k < |entries| && 0 <= n <= |walk| && StartsWithEntry(entries, walk, k, n);
    var first, later := walk[..n], walk[n..];
    assert walk == first + later;
    ClearsParts(taken, first, later, barred);
    WalkNames(entries[k], first);
    if k == i {
      rest := later;
    } else {
      var j, m := if i < k then i else i - 1, if k < i then k else k - 1;
      TwoOut(entries, i, k);
      var shorter := DropEntry(taken + NamesIn(first), Without(entries, k), later, j, barred);
      assert taken + NamesIn(first) + names == taken + names + NamesIn(first);
      ClearsMore(taken, taken + names, first, barred);
      ClearsParts(taken + names, first, shorter, barred);
      WalkFrom(Without(entries, i), m, first, shorter);
      rest := first + shorter;
    }
  }

  lemma WalkNames(e: Entry, walk: seq<Artifact>)
    requires IsWalk(e, walk)
    ensures NamesIn(walk) == NamesIn(FilesOf(e))
  {
    hide IsWalk;
    WalkFiles(e, walk);
  }

  /** Leaving two positions out, in either order. */
  lemma TwoOut<T>(s: seq<T>, i: nat, k: nat)
    requires i < |s| && k < |s| && i != k
    ensures var j, m := if i < k then i else i - 1, if k < i then k else k - 1;
      && j < |Without(s, k)| && Without(s, k)[j] == s[i]
      && m < |Without(s, i)| && Without(s, i)[m] == s[k]
      && Without(Without(s, k), j) == Without(Without(s, i), m)
  {
    var j, m := if i < k then i else i - 1, if k < i then k else k - 1;
    WithoutAt(s, k);
    WithoutAt(s, i);
    WithoutAt(Without(s, k), j);
    WithoutAt(Without(s, i), m);
  }

  lemma WithoutAt<T>(s: seq<T>, i: nat)
    requires i < |s|
    ensures |Without(s, i)| == |s| - 1
    ensures forall x :: 0 <= x < |s| - 1 ==> Without(s, i)[x] == s[if x < i then x else x + 1]
  {
  }

  // ---- Whether an address is identified at all, over all walks ----

  predicate Knows(f: Artifact, selectors: seq<Selector>) {
    forall s :: s in selectors ==> s in f.selectors
  }

  /** In this walk, some artifact has all the selectors. */
  ghost predicate Recognised(walk: seq<Artifact>, selectors: seq<Selector>) {
    exists n :: Covers(walk, n, selectors)
  }

  /** A file with an ABI that has all the selectors. */
  ghost predicate SomeKnows(files: seq<Artifact>, selectors: seq<Selector>) {
    exists f :: f in files && f.entries > 0 && Knows(f, selectors)
  }

  /** Some walk identifies the selectors iff some file knows them all. */
  lemma SometimesRecognised(root: Entry, selectors: seq<Selector>)
    ensures (exists walk :: IsWalk(root, walk) && Recognised(walk, selectors)) <==> SomeKnows(FilesOf(root), selectors)
  {
    if walk :| IsWalk(root, walk) && Recognised(walk, selectors) {
      var n :| Covers(walk, n, selectors);
      FirstNamedSome(walk, n);
      WalkFiles(root, walk);
      assert Knows(FirstNamed(walk, n).value, selectors);
    }
    if f :| f in FilesOf(root) && f.entries > 0 && Knows(f, selectors) {
      var walk := FrontWalk(root, f);
      FrontIsFirst(walk);
      assert Covers(walk, f.name, selectors);
    }
  }

  function Knowing(root: Entry, selectors: seq<Selector>): set<Artifact> {
    set f | f in FilesOf(root) && f.entries > 0 && Knows(f, selectors)
  }

  /** The directory can hide the selectors: walked so that no name stands for a file that has them all. */
  predicate Hides(root: Entry, selectors: seq<Selector>) {
    Avoids({}, root, Knowing(root, selectors))
  }

  lemma RecognisedUnlessClear(root: Entry, walk: seq<Artifact>, selectors: seq<Selector>)
    requires IsWalk(root, walk)
    ensures Recognised(walk, selectors) <==> !Clears({}, walk, Knowing(root, selectors))
  {
    hide IsWalk;
    WalkFiles(root, walk);
    forall name ensures Covers(walk, name, selectors) <==> Bars(walk, name, Knowing(root, selectors)) {
      FirstNamedSome(walk, name);
    }
  }

  /** Every walk identifies the selectors iff the directory does not hide them: its entries cannot be
      peeled one by one, each lacking a selector wherever its name is new. */
  lemma AlwaysRecognised(root: Entry, selectors: seq<Selector>)
    ensures (forall walk | IsWalk(root, walk) :: Recognised(walk, selectors)) <==> !Hides(root, selectors)
  {
    hide IsWalk, Recognised, Clears, Avoids, Knowing;
    if Hides(root, selectors) {
      var walk := AvoidingWalk({}, root, Knowing(root, selectors));
      RecognisedUnlessClear(root, walk, selectors);
    } else {
      forall walk | IsWalk(root, walk) ensures Recognised(walk, selectors) {
        RecognisedUnlessClear(root, walk, selectors);
        if Clears({}, walk, Knowing(root, selectors)) {
          ClearsAvoids({}, root, walk, Knowing(root, selectors));
        }
      }
    }
  }

  /** The walk alone decides: some file knows all the selectors, but the directory can hide it. */
  ghost predicate WalkDecides(root: Entry, selectors: seq<Selector>) {
    SomeKnows(FilesOf(root), selectors) && Hides(root, selectors)
  }

  /** Two subdirectories with one file each can be walked either way. */
  lemma TwoDirectories(f: Artifact, g: Artifact)
    ensures IsWalk(Directory([Directory([File(f)]), Directory([File(g)])]), [f, g])
    ensures IsWalk(Directory([Directory([File(f)]), Directory([File(g)])]), [g, f])
  {
    var entries := [Directory([File(f)]), Directory([File(g)])];
    OneFileWalk(f);
    OneFileWalk(g);
    assert Without(entries, 0) == [entries[1]] && Without(entries, 1) == [entries[0]];
    OnlyEntry(entries[0], [f]);
    OnlyEntry(entries[1], [g]);
    WalkFrom(entries, 0, [f], [g]);
    WalkFrom(entries, 1, [g], [f]);
    assert [f] + [g] == [f, g] && [g] + [f] == [g, f];
  }

  lemma OneFileWalk(f: Artifact)
    ensures IsWalk(Directory([File(f)]), [f])
  {
    OnlyEntry(File(f), [f]);
  }

  lemma OnlyEntry(e: Entry, walk: seq<Artifact>)
    requires IsWalk(e, walk)
    ensures IsWalkOf([e], walk)
  {
    assert Without([e], 0) == [];
    WalkFrom([e], 0, walk, []);
    assert walk + [] == walk;
  }

  /** Finishing one directory before the next can protect: each of the two names has a file that lacks
      the selector, but none of the walks meets both of those first. */
  lemma DirectoriesProtect(name: string, other: string, s: Selector, t: Selector)
    requires name != other && s != t
    ensures
      var knowing := (n: string) => File(Artifact(n, 1, 1, [s], true));
      var lacking := (n: string) => File(Artifact(n, 1, 1, [t], true));
      var root := Directory([Directory([knowing(name), lacking(other)]), Directory([lacking(name), knowing(other)])]);
      !Hides(root, [s])
  {
    var one, two := Artifact(name, 1, 1, [s], true), Artifact(other, 1, 1, [t], true);
    var three, four := Artifact(name, 1, 1, [t], true), Artifact(other, 1, 1, [s], true);
    assert s in [s] && t !in [s] && s !in [t];
    var entries := [Directory([File(one), File(two)]), Directory([File(three), File(four)])];
    var barred := Knowing(Directory(entries), [s]);
    FourFiles(one, two, three, four);
    assert one in barred && two !in barred && three !in barred && four in barred;
    FreeThenBarred([File(one), File(two)], 1, 0, barred);
    FreeThenBarred([File(three), File(four)], 0, 1, barred);
    assert !Avoids({}, entries[0], barred) && !Avoids({}, entries[1], barred);
    NextAvoidingFound({}, entries, barred, 0);
    assert !AvoidsAll({}, entries, barred) && !Avoids({}, Directory(entries), barred);
  }

  lemma FourFiles(one: Artifact, two: Artifact, three: Artifact, four: Artifact)
    ensures
      var root := Directory([Directory([File(one), File(two)]), Directory([File(three), File(four)])]);
      forall f :: f in FilesOf(root) <==> f in [one, two, three, four]
  {
    FilesOfTwo(File(one), File(two));
    FilesOfTwo(File(three), File(four));
    FilesOfTwo(Directory([File(one), File(two)]), Directory([File(three), File(four)]));
  }

  lemma FilesOfTwo(one: Entry, two: Entry)
    ensures FilesOf(Directory([one, two])) == FilesOf(one) + FilesOf(two)
  {
    assert [one, two][1..] == [two] && [two][1..] == [];
    assert FilesIn([two]) == FilesOf(two) + FilesIn([]);
  }

  lemma FreeThenBarred(entries: seq<Entry>, i: nat, k: nat, barred: set<Artifact>)
    requires |entries| == 2 && i < 2 && k < 2 && i != k && entries[i].File? && entries[k].File?
    requires entries[i].artifact !in barred && entries[k].artifact in barred
    requires entries[i].artifact.name != entries[k].artifact.name
    requires entries[i].artifact.entries > 0 && entries[k].artifact.entries > 0
    ensures !AvoidsAll({}, entries, barred)
  {
    NextAvoidingFound({}, entries, barred, 0);
    assert Avoids({}, entries[i], barred) && !Avoids({}, entries[k], barred);
    assert NextAvoiding({}, entries, barred, 0) == i;
    var taken := {} + NamesIn(FilesOf(entries[i]));
    assert Without(entries, i) == [entries[k]];
    assert !Avoids(taken, entries[k], barred);
    NextAvoidingFound(taken, [entries[k]], barred, 0);
  }

  // ---- As what an address is identified ----

  /** The comparator on files. */
  predicate RanksNoLater(f: Artifact, g: Artifact, le: (string, string) -> bool) {
    if f.deployable != g.deployable then f.deployable
    else if f.functions != g.functions then f.functions < g.functions
    else le(f.name, g.name)
  }

  function Identified(walk: seq<Artifact>, selectors: seq<Selector>, le: (string, string) -> bool): Option<string> {
    Fingerprint(selectors, IndexOf(walk), le)
  }

  /** The files that must not come first for `f` to be the one identified: the others of its name, and
      those of another name that know the selectors and do not rank behind it. */
  function Rivals(root: Entry, f: Artifact, selectors: seq<Selector>, le: (string, string) -> bool): set<Artifact> {
    set g | g in FilesOf(root) && g.entries > 0
      && if g.name == f.name then g != f else Knows(g, selectors) && !RanksNoLater(f, g, le)
  }

  /** The file knows the selectors, and some walk meets no rival of it first. */
  predicate CanWin(root: Entry, f: Artifact, selectors: seq<Selector>, le: (string, string) -> bool) {
    f in Knowing(root, selectors) && Avoids({}, root, Rivals(root, f, selectors, le))
  }

  lemma RanksByFile(walk: seq<Artifact>, a: string, b: string, le: (string, string) -> bool)
    requires FirstNamed(walk, a).Some? && FirstNamed(walk, b).Some?
    ensures RanksBefore(IndexOf(walk), a, b, le)
       <==> RanksNoLater(FirstNamed(walk, a).value, FirstNamed(walk, b).value, le)
  {
    FirstNamedSome(walk, a);
    FirstNamedSome(walk, b);
    IndexMeaning(walk, "", a);
    IndexMeaning(walk, "", b);
  }

  /** What a walk identifies stands for a file none of whose rivals is the first of its name. */
  lemma IdentifiedWins(root: Entry, walk: seq<Artifact>, selectors: seq<Selector>, le: (string, string) -> bool)
    requires TotalOrder(le) && IsWalk(root, walk) && Identified(walk, selectors, le).Some?
    ensures var first := FirstNamed(walk, Identified(walk, selectors, le).value);
      && first.Some? && first.value.name == Identified(walk, selectors, le).value
      && first.value in Knowing(root, selectors)
      && Clears({}, walk, Rivals(root, first.value, selectors, le))
  {
    hide IsWalk, Fingerprint, RanksBefore, RanksNoLater;
    FingerprintIsBest(walk, selectors, le);
    WalkFiles(root, walk);
    var name := Identified(walk, selectors, le).value;
    FirstNamedSome(walk, name);
    var f := FirstNamed(walk, name).value;
    forall n ensures !Bars(walk, n, Rivals(root, f, selectors, le)) {
      FirstNamedSome(walk, n);
      if n != name && Covers(walk, n, selectors) {
        RanksByFile(walk, name, n, le);
      }
    }
  }

  lemma RanksAntisymmetric(f: Artifact, g: Artifact, le: (string, string) -> bool)
    requires TotalOrder(le) && RanksNoLater(f, g, le) && RanksNoLater(g, f, le)
    ensures f.name == g.name
  {
  }

  /** A walk on which no rival of a knowing file comes first identifies that file. */
  lemma WinnerIsIdentified(root: Entry, walk: seq<Artifact>, f: Artifact, selectors: seq<Selector>,
                           le: (string, string) -> bool)
    requires TotalOrder(le) && IsWalk(root, walk) && selectors != [] && f in Knowing(root, selectors)
    requires Clears({}, walk, Rivals(root, f, selectors, le))
    ensures Identified(walk, selectors, le) == Some(f.name)
  {
    hide IsWalk, Fingerprint, RanksBefore, RanksNoLater;
    FingerprintIsBest(walk, selectors, le);
    WalkFiles(root, walk);
    FirstNamedFinds(walk, f);
    FirstNamedSome(walk, f.name);
    assert !Bars(walk, f.name, Rivals(root, f, selectors, le));
    assert FirstNamed(walk, f.name) == Some(f) && Covers(walk, f.name, selectors);
    var r := Identified(walk, selectors, le).value;
    FirstNamedSome(walk, r);
    RanksByFile(walk, r, f.name, le);
    if r != f.name {
      assert !Bars(walk, r, Rivals(root, f, selectors, le));
      RanksAntisymmetric(f, FirstNamed(walk, r).value, le);
    }
  }

  /** What some walk identifies: a name iff some file of that name can win, nothing iff no selector was
      observed or the directory can hide them. */
  lemma IdentifiedIff(root: Entry, selectors: seq<Selector>, le: (string, string) -> bool, x: Option<string>)
    requires TotalOrder(le)
    ensures (exists walk :: IsWalk(root, walk) && Identified(walk, selectors, le) == x)
       <==> if x == None then selectors == [] || Hides(root, selectors)
            else selectors != [] && exists f :: CanWin(root, f, selectors, le) && f.name == x.value
  {
    hide IsWalk, Fingerprint, Clears, Avoids, Rivals, Knowing;
    if walk :| IsWalk(root, walk) && Identified(walk, selectors, le) == x {
      if x == None {
        NothingIdentified(walk, selectors, le);
        AlwaysRecognised(root, selectors);
      } else {
        IdentifiedWins(root, walk, selectors, le);
        var f := FirstNamed(walk, x.value).value;
        ClearsAvoids({}, root, walk, Rivals(root, f, selectors, le));
        SomethingSeen(walk, selectors, le);
      }
    }
    if x == None && (selectors == [] || Hides(root, selectors)) {
      UnidentifiedWalk(root, selectors, le);
    }
    if x != None && selectors != [] {
      if f :| CanWin(root, f, selectors, le) && f.name == x.value {
        var walk := AvoidingWalk({}, root, Rivals(root, f, selectors, le));
        WinnerIsIdentified(root, walk, f, selectors, le);
      }
    }
  }

  lemma SomethingSeen(walk: seq<Artifact>, selectors: seq<Selector>, le: (string, string) -> bool)
    requires Identified(walk, selectors, le).Some?
    ensures selectors != []
  {
  }

  lemma NothingIdentified(walk: seq<Artifact>, selectors: seq<Selector>, le: (string, string) -> bool)
    requires TotalOrder(le)
    ensures Identified(walk, selectors, le) == None <==> selectors == [] || !Recognised(walk, selectors)
  {
    hide Fingerprint;
    FingerprintIsBest(walk, selectors, le);
  }

  lemma UnidentifiedWalk(root: Entry, selectors: seq<Selector>, le: (string, string) -> bool)
    requires TotalOrder(le) && (selectors == [] || Hides(root, selectors))
    ensures exists walk :: IsWalk(root, walk) && Identified(walk, selectors, le) == None
  {
    hide IsWalk, Identified, Recognised, Hides;
    AlwaysRecognised(root, selectors);
    var walk := SomeWalk(root);
    NothingIdentified(walk, selectors, le);
    if selectors != [] {
      walk :| IsWalk(root, walk) && !Recognised(walk, selectors);
      NothingIdentified(walk, selectors, le);
    }
  }

  /** Every order of the directories identifies the same artifact, or none. */
  ghost predicate IdentificationOrderFree(root: Entry, selectors: seq<Selector>, le: (string, string) -> bool) {
    forall one, two | IsWalk(root, one) && IsWalk(root, two) ::
      Identified(one, selectors, le) == Identified(two, selectors, le)
  }

  /** Exactly when: no selector was observed, no file knows them all, or the directory cannot hide them
      and all files that can win have one name. */
  lemma IdentificationOrderFreeIff(root: Entry, selectors: seq<Selector>, le: (string, string) -> bool)
    requires TotalOrder(le)
    ensures IdentificationOrderFree(root, selectors, le)
       <==> || selectors == []
            || !SomeKnows(FilesOf(root), selectors)
            || (!Hides(root, selectors)
                && forall f, g | CanWin(root, f, selectors, le) && CanWin(root, g, selectors, le) :: f.name == g.name)
  {
    hide IsWalk, Identified, Hides, CanWin, SomeKnows, Recognised;
    if selectors == [] || !SomeKnows(FilesOf(root), selectors) {
      forall walk | IsWalk(root, walk) ensures Identified(walk, selectors, le) == None {
        SometimesRecognised(root, selectors);
        NothingIdentified(walk, selectors, le);
      }
    } else {
      var some := KnowingWalk(root, selectors, le);
      IdentifiedIff(root, selectors, le, None);
      if IdentificationOrderFree(root, selectors, le) {
        forall f, g | CanWin(root, f, selectors, le) && CanWin(root, g, selectors, le) ensures f.name == g.name {
          IdentifiedIff(root, selectors, le, Some(f.name));
          IdentifiedIff(root, selectors, le, Some(g.name));
        }
      }
      forall walk | IsWalk(root, walk) {
        IdentifiedIff(root, selectors, le, Identified(walk, selectors, le));
      }
    }
  }

  lemma KnowingWalk(root: Entry, selectors: seq<Selector>, le: (string, string) -> bool)
    returns (walk: seq<Artifact>)
    requires TotalOrder(le) && selectors != [] && SomeKnows(FilesOf(root), selectors)
    ensures IsWalk(root, walk) && Identified(walk, selectors, le).Some?
  {
    hide IsWalk, Identified, SomeKnows, Recognised;
    SometimesRecognised(root, selectors);
    walk :| IsWalk(root, walk) && Recognised(walk, selectors);
    NothingIdentified(walk, selectors, le);
  }
}
