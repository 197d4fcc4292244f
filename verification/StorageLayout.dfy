/** The upgrade check on storage layouts. */
module StorageLayout {
  import opened Wrappers

  datatype Variable = Variable(name: string, slot: nat, offset: nat, kind: string)

  type Layout = seq<Variable>

  predicate SamePlace(a: Variable, b: Variable) {
    a.slot == b.slot && a.offset == b.offset && a.kind == b.kind
  }

  /** The old (slot, type, offset) list is a prefix of the new one; names are free. */
  predicate Extends(older: Layout, newer: Layout) {
    |older| <= |newer| && forall i :: 0 <= i < |older| ==> SamePlace(older[i], newer[i])
  }

  method CompareStorageLayoutObjects(older: Layout, newer: Layout) returns (safe: bool)
    ensures safe <==> older == [] || newer == [] || Extends(older, newer)
  {
    if |older| == 0 || |newer| == 0 {
      return true;
    }
    for i := 0 to |older|
      invariant i <= |newer| && forall j :: 0 <= j < i ==> SamePlace(older[j], newer[j])
    {
      if i >= |newer| {
        return false;
      }
      if older[i].slot != newer[i].slot {
        return false;
      }
      if older[i].kind != newer[i].kind {
        return false;
      }
      if older[i].offset != newer[i].offset {
        return false;
      }
    }
    return true;
  }

  /** The variant that looks the artifacts up: a missing artifact, or one without layout, passes. */
  method CompareStorageLayouts(older: Option<Option<Layout>>, newer: Option<Option<Layout>>) returns (safe: bool)
    ensures older == None || older == Some(None) || newer == None || newer == Some(None) ==> safe
    ensures older.Some? && older.value.Some? && newer.Some? && newer.value.Some? ==>
      (safe <==> Accepts(older.value.value, newer.value.value))
  {
    if older.None? || newer.None? {
      return true;
    }
    safe := CompareStorageLayoutObjects(LayoutOf(older), LayoutOf(newer));
  }

  function LayoutOf(artifact: Option<Option<Layout>>): Layout {
    match artifact
    case Some(Some(layout)) => layout
    case _ => []
  }

  predicate Accepts(older: Layout, newer: Layout) {
    older == [] || newer == [] || Extends(older, newer)
  }

  // ---- What acceptance means ----

  type Storage = nat -> int

  /** How a compiler reads a variable: from its type, its place, and the storage. */
  type Decoder = (string, nat, nat, Storage) -> int

  function Read(decode: Decoder, s: Storage, v: Variable): int {
    decode(v.kind, v.slot, v.offset, s)
  }

  /** Under every decoder and every storage, the old variables read the same in the new layout. */
  ghost predicate ReadsTheSame(older: Layout, newer: Layout) {
    |older| <= |newer| && forall decode: Decoder, s: Storage, i: nat ::
      i < |older| ==> Read(decode, s, newer[i]) == Read(decode, s, older[i])
  }

  /** On layouts that are there, the check accepts exactly the upgrades that keep every reading. */
  lemma AcceptsIffReadsTheSame(older: Layout, newer: Layout)
    requires older != [] && newer != []
    ensures Accepts(older, newer) <==> ReadsTheSame(older, newer)
  {
    if ReadsTheSame(older, newer) {
      forall i: nat | i < |older| ensures SamePlace(older[i], newer[i]) {
        var v := older[i];
        var decode: Decoder := (kind, slot, offset, s) =>
          if kind == v.kind && slot == v.slot && offset == v.offset then 1 else 0;
        assert Read(decode, n => 0, newer[i]) == Read(decode, n => 0, older[i]);
      }
    }
  }

  // ---- Chains of upgrades ----

  /** Every upgrade of the chain passes the check, and no layout is missing. */
  ghost predicate Chain(layouts: seq<Layout>) {
    && (forall k :: 0 <= k < |layouts| ==> layouts[k] != [])
    && (forall k :: 0 <= k < |layouts| - 1 ==> Accepts(layouts[k], layouts[k + 1]))
  }

  /** Through any number of accepted upgrades every original variable keeps its place, so it reads
      the same value from any storage. */
  lemma {:induction false} ChainReadsTheSame(layouts: seq<Layout>)
    requires layouts != [] && Chain(layouts)
    ensures Extends(layouts[0], layouts[|layouts| - 1])
    ensures ReadsTheSame(layouts[0], layouts[|layouts| - 1])
  {
    var n := |layouts| - 1;
    if n == 0 {
    } else {
      ChainReadsTheSame(layouts[..n]);
      assert Accepts(layouts[n - 1], layouts[n - 1 + 1]);
      assert forall i :: 0 <= i < |layouts[0]| ==> SamePlace(layouts[..n][0][i], layouts[n - 1][i]);
    }
  }

  /** A chain is only as good as its links: with acceptance on both sides, the whole is accepted
      unless the layout in the middle is missing. */
  lemma TransitiveUnlessMissing(a: Layout, b: Layout, c: Layout)
    requires Accepts(a, b) && Accepts(b, c)
    ensures Accepts(a, c) || b == []
  {
    if a != [] && b != [] && c != [] {
      assert forall i :: 0 <= i < |a| ==> SamePlace(a[i], b[i]) && SamePlace(b[i], c[i]);
    }
  }

  /** Through a missing layout anything passes: for any two layouts that fail the check directly. */
  lemma MissingLayoutHides(a: Layout, c: Layout)
    requires !Accepts(a, c)
    ensures Accepts(a, []) && Accepts([], c) && !ReadsTheSame(a, c)
  {
    AcceptsIffReadsTheSame(a, c);
  }

  // ---- Bytes ----

  const WORD := 32

  function First(v: Variable): nat {
    WORD * v.slot + v.offset
  }

  /** How wide a build makes each type. The check never looks at this table, so the two builds bring
      one each. */
  type Sizes = string -> nat

  /** Byte addresses of a variable in a build. */
  predicate Occupies(size: Sizes, v: Variable, address: nat) {
    First(v) <= address < First(v) + size(v.kind)
  }

  function Bytes(size: Sizes, s: Storage, v: Variable): seq<int> {
    seq(size(v.kind), k requires 0 <= k => s(First(v) + k))
  }

  ghost predicate SizesAgree(size: Sizes, size': Sizes, layout: Layout) {
    forall i :: 0 <= i < |layout| ==> size(layout[i].kind) == size'(layout[i].kind)
  }

  /** What the compiler guarantees: offsets are within a slot, and no variable is empty. */
  ghost predicate WellFormed(size: Sizes, layout: Layout) {
    forall i :: 0 <= i < |layout| ==> layout[i].offset < WORD && size(layout[i].kind) > 0
  }

  /** The new build finds the bytes of each old variable where the old build put them. */
  ghost predicate BytesKept(size: Sizes, size': Sizes, older: Layout, newer: Layout) {
    |older| <= |newer| && forall i, s :: 0 <= i < |older| ==> Bytes(size', s, newer[i]) == Bytes(size, s, older[i])
  }

  predicate KindsKept(older: Layout, newer: Layout) {
    |older| <= |newer| && forall i :: 0 <= i < |older| ==> older[i].kind == newer[i].kind
  }

  /** Two builds see the same bytes of a variable in every storage iff it starts at the same address
      and is as wide. */
  lemma SameBytesIff(size: Sizes, size': Sizes, a: Variable, b: Variable)
    requires size(a.kind) > 0
    ensures (forall s :: Bytes(size', s, b) == Bytes(size, s, a))
      <==> First(a) == First(b) && size(a.kind) == size'(b.kind)
  {
    if forall s :: Bytes(size', s, b) == Bytes(size, s, a) {
      var where: Storage := n => n;
      assert Bytes(size', where, b) == Bytes(size, where, a);
      assert Bytes(size, where, a)[0] == First(a) && Bytes(size', where, b)[0] == First(b);
    }
    if First(a) == First(b) && size(a.kind) == size'(b.kind) {
      forall s ensures Bytes(size', s, b) == Bytes(size, s, a) {
        assert forall k: nat :: k < size(a.kind) ==> Bytes(size', s, b)[k] == Bytes(size, s, a)[k];
      }
    }
  }

  lemma SamePlaceIff(a: Variable, b: Variable)
    requires a.offset < WORD && b.offset < WORD
    ensures First(a) == First(b) <==> a.slot == b.slot && a.offset == b.offset
  {
  }

  /** On layouts that are there the check is exact about bytes: together with builds that agree on the
      width of the old types, acceptance means that every old variable keeps its type and that the new
      build finds its bytes in every storage; and nothing less is accepted. */
  lemma AcceptsIffBytesKept(size: Sizes, size': Sizes, older: Layout, newer: Layout)
    requires older != [] && newer != [] && WellFormed(size, older) && WellFormed(size', newer)
    ensures Accepts(older, newer) && SizesAgree(size, size', older)
       <==> BytesKept(size, size', older, newer) && KindsKept(older, newer)
  {
    if |older| <= |newer| {
      forall i | 0 <= i < |older|
        ensures (forall s :: Bytes(size', s, newer[i]) == Bytes(size, s, older[i]))
           <==> older[i].slot == newer[i].slot && older[i].offset == newer[i].offset
                && size(older[i].kind) == size'(newer[i].kind)
      {
        SameBytesIff(size, size', older[i], newer[i]);
        SamePlaceIff(older[i], newer[i]);
      }
      hide Bytes;
    }
  }

  // ---- Writes to the variables an upgrade adds ----

  /** What the compiler guarantees of a layout: no two variables share a byte. */
  ghost predicate Disjoint(size: Sizes, layout: Layout) {
    forall i, j, address: nat :: 0 <= i < j < |layout| && Occupies(size, layout[i], address) ==>
      !Occupies(size, layout[j], address)
  }

  datatype Write = Write(variable: nat, byte: nat, value: int)

  /** Runs of the upgraded contract that write byte by byte, each within one of its variables. */
  function After(size: Sizes, layout: Layout, s: Storage, writes: seq<Write>): Storage
    requires forall w :: w in writes ==> w.variable < |layout| && w.byte < size(layout[w.variable].kind)
  {
    if writes == [] then s else
    var before, w := After(size, layout, s, writes[..|writes| - 1]), writes[|writes| - 1];
    var target := First(layout[w.variable]) + w.byte;
    (address: nat) => if address == target then w.value else before(address)
  }

  /** After an accepted upgrade, whatever the new build writes to the variables it added, an old
      variable still holds the bytes of the old build, unless its type has become narrower. */
  lemma {:induction false} AddedVariablesDoNotDisturb(size: Sizes, size': Sizes, older: Layout, newer: Layout,
                                                      s: Storage, writes: seq<Write>, i: nat)
    requires older != [] && newer != [] && Accepts(older, newer) && Disjoint(size', newer) && i < |older|
    requires size(older[i].kind) <= size'(older[i].kind)
    requires forall w :: w in writes ==> |older| <= w.variable < |newer| && w.byte < size'(newer[w.variable].kind)
    ensures Bytes(size, After(size', newer, s, writes), older[i]) == Bytes(size, s, older[i])
  {
    if writes == [] {
    } else {
      var init, w := writes[..|writes| - 1], writes[|writes| - 1];
      assert w in writes;
      AddedVariablesDoNotDisturb(size, size', older, newer, s, init, i);
      var target := First(newer[w.variable]) + w.byte;
      assert SamePlace(older[i], newer[i]);
      assert Occupies(size', newer[w.variable], target);
      assert !Occupies(size', newer[i], target);
      var before, later := After(size', newer, s, init), After(size', newer, s, writes);
      OneWrite(size, before, later, older[i], target);
    }
  }

  lemma OneWrite(size: Sizes, before: Storage, later: Storage, v: Variable, target: nat)
    requires forall address: nat :: address != target ==> later(address) == before(address)
    requires !Occupies(size, v, target)
    ensures Bytes(size, later, v) == Bytes(size, before, v)
  {
    forall k: nat | k < size(v.kind) ensures Bytes(size, later, v)[k] == Bytes(size, before, v)[k] {
      assert Occupies(size, v, First(v) + k);
    }
  }

  /** Some variable of the layout has the byte, under these widths. */
  ghost predicate Covered(size: Sizes, layout: Layout, address: nat) {
    exists j :: 0 <= j < |layout| && Occupies(size, layout[j], address)
  }

  /** Each byte that the old build gave the variable still belongs to an old variable in the new one. */
  ghost predicate StaysCovered(size: Sizes, size': Sizes, older: Layout, v: Variable) {
    forall address: nat :: Occupies(size, v, address) ==> Covered(size', older, address)
  }

  ghost predicate ByAdded(size': Sizes, older: Layout, newer: Layout, writes: seq<Write>) {
    forall w :: w in writes ==> |older| <= w.variable < |newer| && w.byte < size'(newer[w.variable].kind)
  }

  /** No upgrade that is accepted, and whose variables share no byte, can write to the variable's bytes
      through variables it added. */
  ghost predicate Undisturbed(size: Sizes, size': Sizes, older: Layout, v: Variable) {
    forall newer, s, writes | Extends(older, newer) && Disjoint(size', newer) && ByAdded(size', older, newer, writes) ::
      Bytes(size, After(size', newer, s, writes), v) == Bytes(size, s, v)
  }

  lemma {:induction false} CoveredIsUndisturbed(size: Sizes, size': Sizes, older: Layout, newer: Layout, s: Storage,
                                                writes: seq<Write>, v: Variable)
    requires Extends(older, newer) && Disjoint(size', newer) && ByAdded(size', older, newer, writes)
    requires StaysCovered(size, size', older, v)
    ensures Bytes(size, After(size', newer, s, writes), v) == Bytes(size, s, v)
  {
    if writes == [] {
    } else {
      var init, w := writes[..|writes| - 1], writes[|writes| - 1];
      assert w in writes;
      CoveredIsUndisturbed(size, size', older, newer, s, init, v);
      var target := First(newer[w.variable]) + w.byte;
      assert Occupies(size', newer[w.variable], target);
      if Occupies(size, v, target) {
        var j :| 0 <= j < |older| && Occupies(size', older[j], target);
        assert SamePlace(older[j], newer[j]) && Occupies(size', newer[j], target);
      }
      OneWrite(size, After(size', newer, s, init), After(size', newer, s, writes), v, target);
    }
  }

  /** The upgrade that adds a one-byte variable at a free address. */
  function Intruder(older: Layout, kind: string, address: nat): Layout {
    older + [Variable("added", address / WORD, address % WORD, kind)]
  }

  lemma IntruderDisturbs(size: Sizes, size': Sizes, older: Layout, v: Variable, kind: string, address: nat)
    requires Disjoint(size', older) && size'(kind) == 1 && Occupies(size, v, address) && !Covered(size', older, address)
    ensures
      var newer, s: Storage, writes := Intruder(older, kind, address), _ => 0, [Write(|older|, 0, 1)];
      && Extends(older, newer) && Disjoint(size', newer) && ByAdded(size', older, newer, writes)
      && Bytes(size, After(size', newer, s, writes), v) != Bytes(size, s, v)
  {
    var newer, s: Storage, writes := Intruder(older, kind, address), _ => 0, [Write(|older|, 0, 1)];
    var added := newer[|older|];
    assert First(added) == address;
    assert forall i :: 0 <= i < |older| ==> newer[i] == older[i];
    assert forall a: nat :: Occupies(size', added, a) <==> a == address;
    assert writes[..0] == [];
    var later := After(size', newer, s, writes);
    assert later(address) == 1;
    assert Bytes(size, later, v)[address - First(v)] == 1 && Bytes(size, s, v)[address - First(v)] == 0;
  }

  /** With some one-byte type to add, an old variable is safe from all variables that accepted upgrades
      add iff each of its bytes still belongs to some old variable under the new widths. */
  lemma UndisturbedIff(size: Sizes, size': Sizes, older: Layout, v: Variable, kind: string)
    requires Disjoint(size', older) && size'(kind) == 1
    ensures Undisturbed(size, size', older, v) <==> StaysCovered(size, size', older, v)
  {
    if StaysCovered(size, size', older, v) {
      forall newer, s, writes | Extends(older, newer) && Disjoint(size', newer) && ByAdded(size', older, newer, writes)
        ensures Bytes(size, After(size', newer, s, writes), v) == Bytes(size, s, v) {
        CoveredIsUndisturbed(size, size', older, newer, s, writes, v);
      }
    } else {
      var address: nat :| Occupies(size, v, address) && !Covered(size', older, address);
      IntruderDisturbs(size, size', older, v, kind, address);
    }
  }

  /** The exception is real: a type that has become narrower by whole slots makes room for a new
      variable, the upgrade is accepted, and a write to the new variable hits the old one's bytes. */
  lemma NarrowerTypeIsOverwritten(size: Sizes, size': Sizes, v: Variable, slots: nat, kind: string)
    requires size'(v.kind) <= 32 * slots < size(v.kind) && v.offset == 0 && size'(kind) > 0
    ensures
      var older, newer := [v], [v, Variable("added", v.slot + slots, 0, kind)];
      var s: Storage := _ => 0;
      && Accepts(older, newer) && Disjoint(size', newer)
      && Bytes(size, After(size', newer, s, [Write(1, 0, 1)]), v) != Bytes(size, s, v)
  {
    var newer := [v, Variable("added", v.slot + slots, 0, kind)];
    var s: Storage, writes := _ => 0, [Write(1, 0, 1)];
    assert writes[..0] == [];
    var later := After(size', newer, s, writes);
    assert later(First(v) + WORD * slots) == 1;
    assert Bytes(size, later, v)[WORD * slots] == 1 && Bytes(size, s, v)[WORD * slots] == 0;
  }
}
