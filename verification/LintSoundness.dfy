/** Soundness of the lint, step by step: every scope of a run realises a frame of the code, and a
    name that the resolvers can see unshadowed has, in that scope, only the value they conclude. */
module LintSoundness {
  import opened Wrappers
  import opened Seqs
  import opened LintSyntax
  import opened LintSemantics

  // ---- Which binder a use sees ----

  /** `const` and `let`; what `var` declares belongs to the function. */
  predicate DeclaresName(s: Stmt, name: string) {
    s.Decl? && !s.kind.Var? && Takes(s.target, name)
  }

  /** All statements of the block, also those behind the use. */
  function Whole(f: Frame): seq<Stmt>
    requires f.InBlock?
  {
    f.before + Listed(f.rest)
  }

  predicate DeclaredIn(block: seq<Stmt>, name: string) {
    exists k :: 0 <= k < |block| && DeclaresName(block[k], name)
  }

  predicate HoistedIn(block: seq<Stmt>, name: string) {
    exists k :: 0 <= k < |block| && name in HoistedBy(block[k])
  }

  /** The block is the body of a function, or the program, and some `var` inside declares the name. */
  predicate HoistedAt(ctx: Context, name: string)
    requires ctx != []
  {
    ctx[0].InBlock? && (ctx[1..] == [] || ctx[1].InArrow?) && HoistedIn(Whole(ctx[0]), name)
  }

  predicate Binds(ctx: Context, name: string)
    requires ctx != []
  {
    match ctx[0]
    case InBlock(_, _) => DeclaredIn(Whole(ctx[0]), name) || HoistedAt(ctx, name)
    case InArrow(params, _) => TakenAmong(params, name)
  }

  ghost predicate DeclaredOnce(block: seq<Stmt>, name: string) {
    forall i, j :: 0 <= i < j < |block| ==> !(DeclaresName(block[i], name) && DeclaresName(block[j], name))
  }

  /** The constant the resolver stops at is the name's nearest binder, and its block's only one. */
  ghost predicate ConstVisible(ctx: Context, name: string) {
    ctx != [] &&
    if ctx[0].InBlock? && DeclaredAmong(ctx[0].before, name).Some? then
      DeclaredOnce(Whole(ctx[0]), name) && !HoistedAt(ctx, name)
    else !Binds(ctx, name) && ConstVisible(ctx[1..], name)
  }

  ghost predicate ArrayVisible(ctx: Context, recv: Expr) {
    ArrayTexts(ctx, recv).Some? && (recv.Id? ==> ConstVisible(ctx, recv.name))
  }

  /** An arrow whose first parameter the lint expands to the elements of an array it sees. */
  ghost predicate Expanded(ctx: Context) {
    && ctx != [] && ctx[0].InArrow? && ctx[0].role.MapCallback? && ArrayVisible(ctx[1..], ctx[0].role.recv)
    && ctx[0].params != [] && ctx[0].params[0].Named? && !TakenAmong(ctx[0].params[1..], ctx[0].params[0].name)
  }

  function Elements(ctx: Context): seq<string>
    requires ctx != [] && ctx[0].InArrow? && ctx[0].role.MapCallback? && ArrayTexts(ctx[1..], ctx[0].role.recv).Some?
  {
    ArrayTexts(ctx[1..], ctx[0].role.recv).value
  }

  /** The arrow the resolver stops at is the name's nearest binder, by its first parameter. */
  ghost predicate ParamVisible(ctx: Context, name: string) {
    ctx != [] &&
    if ctx[0].InArrow? && Seen(ctx[0].params, name) then Expanded(ctx) && ctx[0].params[0] == Named(name)
    else !Binds(ctx, name) && ParamVisible(ctx[1..], name)
  }

  lemma {:induction false} VisibleResolves(ctx: Context, name: string)
    ensures ConstVisible(ctx, name) ==> ConstInitializer(ctx, name).Some?
    ensures ParamVisible(ctx, name) ==> MapValues(ctx, name).Some?
  {
    if ctx == [] {
    } else {
      VisibleResolves(ctx[1..], name);
    }
  }

  // ---- What a name stands for ----

  /** Anything is what the lint does not know. */
  datatype Meaning = IsText(text: string) | IsArray(texts: seq<string>) | Anything

  function InitMeaning(init: Expr): Meaning {
    if init.Str? then IsText(init.text)
    else if init.Arr? && Texts(init.items).Some? then IsArray(Texts(init.items).value)
    else Anything
  }

  /** What a declaration says about its names. */
  function StmtMeaning(s: Stmt): Meaning
    requires s.Decl?
  {
    if s.kind.Const? && s.target.Named? then InitMeaning(s.init) else Anything
  }

  function ArrayOf(texts: seq<string>): Value {
    VArr(Map(texts, t => VStr(t)))
  }

  predicate FitsMeaning(m: Meaning, v: Value) {
    match m
    case IsText(text) => v == VStr(text)
    case IsArray(texts) => v == ArrayOf(texts)
    case Anything => true
  }

  predicate IsElement(texts: seq<string>, v: Value) {
    v.VStr? && v.text in texts
  }

  /** A value the name may have where the context sees it. */
  ghost predicate NameOk(ctx: Context, name: string, v: Value) {
    && (ConstVisible(ctx, name) && ConstInitializer(ctx, name).Some? ==>
          FitsMeaning(InitMeaning(ConstInitializer(ctx, name).value), v))
    && (ParamVisible(ctx, name) && MapValues(ctx, name).Some? ==> IsElement(MapValues(ctx, name).value, v))
  }

  // ---- Code whose call sites are listed ----

  predicate KnownExpr(sites: seq<Site>, ctx: Context, role: Role, e: Expr)
    decreases e
  {
    match e
    case Str(_) => true
    case Id(_) => true
    case Arr(items) => KnownAll(sites, ctx, Elsewhere, items)
    case Arrow(params, body, result) =>
      var inner := Inside(InArrow(params, role), ctx);
      KnownBlock(sites, inner, [], body)
        && KnownExpr(sites, Inside(InBlock(Listed(body), Empty), inner), Elsewhere, result)
    case MethodCall(recv, property, callback, rest) =>
      && KnownExpr(sites, ctx, Elsewhere, recv) && KnownExpr(sites, ctx, RoleIn(property, recv), callback)
      && KnownAll(sites, ctx, RoleIn(property, recv), rest)
    case Call(callee, args) => KnownExpr(sites, ctx, Elsewhere, callee) && KnownAll(sites, ctx, Elsewhere, args)
    case GetFunction(arg) => Site(ctx, arg) in sites && KnownExpr(sites, ctx, Elsewhere, arg)
    case Template(parts) => KnownAll(sites, ctx, Elsewhere, parts)
    case Ternary(c, yes, no) =>
      KnownExpr(sites, ctx, Elsewhere, c) && KnownExpr(sites, ctx, Elsewhere, yes)
        && KnownExpr(sites, ctx, Elsewhere, no)
  }

  predicate KnownAll(sites: seq<Site>, ctx: Context, role: Role, es: Exprs)
    decreases es
  {
    es.More? ==> KnownExpr(sites, ctx, role, es.head) && KnownAll(sites, ctx, role, es.tail)
  }

  predicate KnownBlock(sites: seq<Site>, ctx: Context, before: seq<Stmt>, stmts: Stmts)
    decreases stmts
  {
    stmts.Then? ==>
      && KnownStmt(sites, Inside(InBlock(before, stmts), ctx), stmts.first)
      && KnownBlock(sites, ctx, before + [stmts.first], stmts.others)
  }

  predicate KnownStmt(sites: seq<Site>, ctx: Context, s: Stmt)
    decreases s
  {
    match s
    case Decl(_, _, init) => KnownExpr(sites, ctx, Elsewhere, init)
    case Do(e) => KnownExpr(sites, ctx, Elsewhere, e)
    case Block(stmts) => KnownBlock(sites, ctx, [], stmts)
  }

  // ---- Scopes realise frames ----

  /** The listed call sites, and the code behind each scope of the heap. */
  datatype World = World(sites: seq<Site>, homes: seq<Context>)

  function HomesOf(heap: seq<Scope>): seq<Context> {
    Map(heap, (s: Scope) => s.home)
  }

  function At(sites: seq<Site>, st: State): World {
    World(sites, HomesOf(st.heap))
  }

  ghost predicate Grows(w: World, w': World) {
    w.sites == w'.sites && w.homes <= w'.homes
  }

  /** The same binders: the same arrow, or the same block wherever the use stands in it. */
  predicate SameFrames(home: Context, ctx: Context) {
    && home != [] && ctx != [] && home[1..] == ctx[1..]
    && (ctx[0].InArrow? ==> home[0] == ctx[0])
    && (ctx[0].InBlock? ==> home[0].InBlock? && Whole(home[0]) == Whole(ctx[0]))
  }

  predicate Realises(w: World, scope: nat, ctx: Context) {
    scope < |w.homes| && SameFrames(w.homes[scope], ctx)
  }

  /** An environment of the code around `ctx`; the program's own block has none. */
  predicate ParentRealises(w: World, parent: Option<nat>, k: nat, outer: Context) {
    if outer == [] then parent.None? else parent.Some? && parent.value < k && Realises(w, parent.value, outer)
  }

  predicate CodeOk(w: World, v: Value)
    requires v.VClosure?
  {
    && v.ctx != [] && v.ctx[0].InArrow? && v.ctx[0].params == v.params && Realises(w, v.scope, v.ctx[1..])
    && KnownBlock(w.sites, v.ctx, [], v.body)
    && KnownExpr(w.sites, Inside(InBlock(Listed(v.body), Empty), v.ctx), Elsewhere, v.result)
  }

  /** A closure that may go anywhere: the lint concludes nothing about its parameters. */
  ghost predicate Good(w: World, v: Value) {
    match v
    case VArr(items) => forall i :: 0 <= i < |items| ==> Good(w, items[i])
    case VClosure(_, _, _, ctx, _) => CodeOk(w, v) && !Expanded(ctx)
    case _ => true
  }

  /** A value that the scope of `home` may hold for the name. */
  ghost predicate VarOk(home: Context, name: string, v: Value)
    requires home != []
  {
    && (home[0].InBlock? && DeclaredOnce(Whole(home[0]), name) && !HoistedAt(home, name) ==>
          forall i :: 0 <= i < |Whole(home[0])| && DeclaresName(Whole(home[0])[i], name) ==>
            FitsMeaning(StmtMeaning(Whole(home[0])[i]), v))
    && (Expanded(home) && home[0].params[0] == Named(name) ==> IsElement(Elements(home), v))
  }

  ghost predicate ScopeOk(w: World, k: nat, s: Scope) {
    && s.home != [] && ParentRealises(w, s.parent, k, s.home[1..])
    && (forall name :: name in s.vars <==> Binds(s.home, name))
    && (forall name :: name in s.hoisted ==> HoistedAt(s.home, name))
    && (forall name :: name in s.vars && s.vars[name].Some? ==>
          Good(w, s.vars[name].value) && VarOk(s.home, name, s.vars[name].value))
  }

  ghost predicate ObsOk(sites: seq<Site>, o: Obs) {
    && o.site in sites
    && (o.site.arg.Id? ==> NameOk(o.site.ctx, o.site.arg.name, o.value))
    && (o.site.arg.Str? ==> o.value == VStr(o.site.arg.text))
  }

  ghost predicate HeapOk(w: World, heap: seq<Scope>) {
    forall k :: 0 <= k < |heap| ==> ScopeOk(w, k, heap[k])
  }

  ghost predicate Inv(sites: seq<Site>, st: State) {
    HeapOk(At(sites, st), st.heap) && forall k :: 0 <= k < |st.trace| ==> ObsOk(sites, st.trace[k])
  }

  lemma {:induction false} GoodGrows(w: World, w': World, v: Value)
    requires Grows(w, w') && Good(w, v)
    ensures Good(w', v)
    decreases v
  {
    match v
    case VArr(items) =>
      forall i | 0 <= i < |items| ensures Good(w', items[i]) {
        GoodGrows(w, w', items[i]);
      }
    case VClosure(_, _, _, _, _) =>
    case _ =>
  }

  lemma ScopeGrows(w: World, w': World, k: nat, s: Scope)
    requires Grows(w, w') && ScopeOk(w, k, s)
    ensures ScopeOk(w', k, s)
  {
    forall name | name in s.vars && s.vars[name].Some? ensures Good(w', s.vars[name].value) {
      GoodGrows(w, w', s.vars[name].value);
    }
  }

  /** A new scope at the end of the heap. */
  lemma PushOk(sites: seq<Site>, st: State, s: Scope)
    requires Inv(sites, st) && ScopeOk(At(sites, st), |st.heap|, s)
    ensures var st' := st.(heap := st.heap + [s]); Inv(sites, st') && Grows(At(sites, st), At(sites, st'))
    ensures HomesOf(st.heap + [s])[|st.heap|] == s.home
  {
    var st' := st.(heap := st.heap + [s]);
    MapPush(st.heap, s, (s: Scope) => s.home);
    forall k | 0 <= k < |st'.heap| ensures ScopeOk(At(sites, st'), k, st'.heap[k]) {
      ScopeGrows(At(sites, st), At(sites, st'), k, st'.heap[k]);
    }
  }

  // ---- Looking a name up ----

  lemma {:induction false} DeclaredIsFirst(before: seq<Stmt>, name: string) returns (i: nat)
    requires DeclaredAmong(before, name).Some?
    ensures i < |before| && Declares(before[i], name) && DeclaredAmong(before, name) == Some(before[i].init)
  {
    if Declares(before[0], name) {
      i := 0;
    } else {
      var j := DeclaredIsFirst(before[1..], name);
      i := j + 1;
    }
  }

  /** In the scope of the frame a visible name resolves in, the value is what the lint concludes. */
  lemma FoundHere(home: Context, ctx: Context, name: string, v: Value)
    requires SameFrames(home, ctx) && Binds(home, name) && VarOk(home, name, v)
    ensures NameOk(ctx, name, v)
  {
    if ctx[0].InBlock? {
      if ConstVisible(ctx, name) {
        assert Binds(ctx, name);
        var i := DeclaredIsFirst(ctx[0].before, name);
        assert Whole(ctx[0])[i] == ctx[0].before[i];
        assert DeclaresName(Whole(home[0])[i], name);
      }
    } else {
      assert home == ctx;
    }
  }

  lemma NotHere(ctx: Context, name: string, v: Value)
    requires ctx != [] && !Binds(ctx, name) && NameOk(ctx[1..], name, v)
    ensures NameOk(ctx, name, v)
  {
    if ctx[0].InBlock? && DeclaredAmong(ctx[0].before, name).Some? {
      var i := DeclaredIsFirst(ctx[0].before, name);
      assert DeclaresName(Whole(ctx[0])[i], name);
    }
    if ctx[0].InArrow? && Seen(ctx[0].params, name) {
      SeenIsTaken(ctx[0].params, name);
    }
  }

  lemma SeenIsTaken(params: seq<Binder>, name: string)
    requires Seen(params, name)
    ensures TakenAmong(params, name)
  {
    var i :| 0 <= i < |params| && (params[i] == Named(name) || params[i] == Rest(name));
    assert Takes(params[i], name);
  }

  lemma {:induction false} LookupOk(w: World, heap: seq<Scope>, scope: nat, ctx: Context, name: string)
    requires HeapOk(w, heap) && w.homes == HomesOf(heap) && Realises(w, scope, ctx)
    ensures var v := Lookup(heap, scope, name); v.Some? ==> Good(w, v.value) && NameOk(ctx, name, v.value)
    decreases scope
  {
    var s := heap[scope];
    assert ScopeOk(w, scope, s) && s.home == w.homes[scope];
    if name in s.vars {
      if s.vars[name].Some? {
        FoundHere(s.home, ctx, name, s.vars[name].value);
      }
    } else if s.parent.Some? {
      SameBinders(s.home, ctx, name);
      LookupOk(w, heap, s.parent.value, ctx[1..], name);
      if Lookup(heap, scope, name).Some? {
        NotHere(ctx, name, Lookup(heap, scope, name).value);
      }
    }
  }

  lemma SameBinders(home: Context, ctx: Context, name: string)
    requires SameFrames(home, ctx)
    ensures Binds(home, name) <==> Binds(ctx, name)
    ensures HoistedAt(home, name) <==> HoistedAt(ctx, name)
  {
    assert ctx[1..] != [] ==> ctx[1] == ctx[1..][0] && home[1] == home[1..][0];
  }

  // ---- New scopes ----

  lemma DeclaredInFirst(s: Stmt, others: seq<Stmt>, name: string)
    ensures DeclaredIn([s] + others, name) <==> DeclaresName(s, name) || DeclaredIn(others, name)
    ensures HoistedIn([s] + others, name) <==> name in HoistedBy(s) || HoistedIn(others, name)
  {
    var all := [s] + others;
    assert all[0] == s;
    assert forall k :: 0 < k < |all| ==> all[k] == others[k - 1];
    assert forall k :: 0 <= k < |others| ==> others[k] == all[k + 1];
  }

  lemma {:induction false} DeclaredNamesBind(stmts: Stmts, name: string)
    ensures name in DeclaredNames(stmts) <==> DeclaredIn(Listed(stmts), name)
    ensures name in HoistedNames(stmts) <==> HoistedIn(Listed(stmts), name)
  {
    if stmts.Empty? {
    } else {
      DeclaredNamesBind(stmts.others, name);
      DeclaredInFirst(stmts.first, Listed(stmts.others), name);
    }
  }

  lemma BlockBinds(stmts: Stmts, outer: Context, name: string)
    ensures var home := Inside(InBlock([], stmts), outer);
      && (Binds(home, name) <==> name in DeclaredNames(stmts) || name in HoistedHere(stmts, outer))
      && (HoistedAt(home, name) <==> name in HoistedHere(stmts, outer))
  {
    var home := Inside(InBlock([], stmts), outer);
    assert home[1..] == outer && Whole(home[0]) == Listed(stmts);
    assert outer != [] ==> home[1] == outer[0];
    DeclaredNamesBind(stmts, name);
  }

  /** What a `var` starts with may be held by any scope. */
  lemma StartGood(w: World, heap: seq<Scope>, parent: Option<nat>, name: string)
    requires HeapOk(w, heap)
    ensures var v := AtStart(heap, parent, name); v.Some? ==> Good(w, v.value)
  {
    if parent.Some? && parent.value < |heap| {
      assert ScopeOk(w, parent.value, heap[parent.value]);
    }
  }

  lemma BlockScopeOk(w: World, heap: seq<Scope>, stmts: Stmts, parent: Option<nat>, outer: Context)
    requires HeapOk(w, heap) && ParentRealises(w, parent, |heap|, outer)
    ensures ScopeOk(w, |heap|, BlockScope(heap, stmts, parent, outer))
  {
    hide Good, HoistedNames, DeclaredNames, ParentRealises;
    var s := BlockScope(heap, stmts, parent, outer);
    assert s.home[1..] == outer;
    forall name ensures name in s.vars <==> Binds(s.home, name)
        ensures name in s.hoisted ==> HoistedAt(s.home, name) {
      BlockBinds(stmts, outer, name);
    }
    forall name | name in s.vars && s.vars[name].Some?
      ensures Good(w, s.vars[name].value) && VarOk(s.home, name, s.vars[name].value) {
      StartGood(w, heap, parent, name);
    }
  }

  lemma EnterOk(sites: seq<Site>, st: State, stmts: Stmts, parent: Option<nat>, outer: Context)
    requires Inv(sites, st) && ParentRealises(At(sites, st), parent, |st.heap|, outer)
    ensures var st' := Enter(st, stmts, parent, outer);
      && Inv(sites, st') && Grows(At(sites, st), At(sites, st'))
      && HomesOf(st'.heap)[|st.heap|] == Inside(InBlock([], stmts), outer)
  {
    BlockScopeOk(At(sites, st), st.heap, stmts, parent, outer);
    PushOk(sites, st, BlockScope(st.heap, stmts, parent, outer));
  }

  /** The last parameter that takes the name is the i-th, and gives it the value. */
  predicate BoundAt(o: Oracle, clock: nat, params: seq<Binder>, args: seq<Value>, name: string, i: nat) {
    && i < |params| && Takes(params[i], name) && !TakenAmong(params[i + 1..], name)
    && name in Bind(o, clock, params, args)
    && Bind(o, clock, params, args)[name] == Some(ParamValue(o, clock, params[i], args, i, name))
  }

  lemma TakenInLast(params: seq<Binder>, last: Binder, name: string)
    ensures TakenAmong(params + [last], name) <==> TakenAmong(params, name) || Takes(last, name)
  {
    var all := params + [last];
    assert all[|params|] == last;
    assert forall k :: 0 <= k < |params| ==> all[k] == params[k];
  }

  lemma BindLast(o: Oracle, clock: nat, params: seq<Binder>, args: seq<Value>, name: string)
    requires params != []
    ensures
      var n := |params| - 1;
      var all, init := Bind(o, clock, params, args), Bind(o, clock, params[..n], args);
      && (name in all <==> Takes(params[n], name) || name in init)
      && (name in all ==>
            all[name] == if Takes(params[n], name) then Some(ParamValue(o, clock, params[n], args, n, name))
                         else init[name])
  {
    hide ParamValue;
  }

  lemma {:induction false} BindsParams(o: Oracle, clock: nat, params: seq<Binder>, args: seq<Value>, name: string)
    ensures name in Bind(o, clock, params, args) <==> TakenAmong(params, name)
    ensures name in Bind(o, clock, params, args) ==> exists i :: BoundAt(o, clock, params, args, name, i)
  {
    hide ParamValue;
    if params == [] {
    } else {
      var n := |params| - 1;
      assert params == params[..n] + [params[n]];
      BindLast(o, clock, params, args, name);
      BindsParams(o, clock, params[..n], args, name);
      TakenInLast(params[..n], params[n], name);
      if Takes(params[n], name) {
        assert params[n + 1..] == [] && BoundAt(o, clock, params, args, name, n);
      } else if name in Bind(o, clock, params[..n], args) {
        var i :| BoundAt(o, clock, params[..n], args, name, i);
        assert params[i + 1..] == params[..n][i + 1..] + [params[n]];
        TakenInLast(params[..n][i + 1..], params[n], name);
        assert BoundAt(o, clock, params, args, name, i);
      }
    }
  }

  ghost predicate AllGood(w: World, vs: seq<Value>) {
    forall i :: 0 <= i < |vs| ==> Good(w, vs[i])
  }

  /** Arguments a closure with this code may be called with. */
  ghost predicate ArgsFit(w: World, ctx: Context, args: seq<Value>) {
    AllGood(w, args) && (Expanded(ctx) ==> IsElement(Elements(ctx), Argument(args, 0)))
  }

  lemma {:induction false} PartGood(w: World, v: Value, path: seq<nat>)
    requires Good(w, v)
    ensures Good(w, PartOf(v, path))
    decreases |path|
  {
    if path == [] {
    } else if v.VArr? && path[0] < |v.items| {
      PartGood(w, v.items[path[0]], path[1..]);
    }
  }

  lemma FetchGood(w: World, source: Source, given: seq<Value>)
    requires AllGood(w, given)
    ensures Good(w, Fetch(source, given))
  {
    if source.Part? {
      PartGood(w, Argument(given, source.given), source.path);
    }
  }

  lemma ParamGood(w: World, o: Oracle, clock: nat, b: Binder, args: seq<Value>, i: nat, name: string)
    requires AllGood(w, args)
    ensures Good(w, ParamValue(o, clock, b, args, i, name))
  {
    if b.Pattern? {
      FetchGood(w, o.source(clock, name), [Argument(args, i)]);
    }
  }

  lemma ArgumentsOk(w: World, o: Oracle, st: State, closure: Value, args: seq<Value>)
    requires closure.VClosure? && CodeOk(w, closure) && ArgsFit(w, closure.ctx, args) && closure.scope < |st.heap|
    ensures ScopeOk(w, |st.heap|, ArgumentScope(o, st, closure, args))
  {
    hide Good, Bind, ParamValue;
    var vars := Bind(o, st.clock, closure.params, args);
    forall name ensures name in vars <==> Binds(closure.ctx, name) {
      BindsParams(o, st.clock, closure.params, args, name);
    }
    forall name | name in vars && vars[name].Some?
      ensures Good(w, vars[name].value) && VarOk(closure.ctx, name, vars[name].value) {
      BindsParams(o, st.clock, closure.params, args, name);
      var i: nat :| BoundAt(o, st.clock, closure.params, args, name, i);
      ParamGood(w, o, st.clock, closure.params[i], args, i, name);
      ElementFits(w, o, st.clock, closure.ctx, args, name, i);
    }
  }

  lemma ElementFits(w: World, o: Oracle, clock: nat, ctx: Context, args: seq<Value>, name: string, i: nat)
    requires ctx != [] && ctx[0].InArrow? && ArgsFit(w, ctx, args)
    requires i < |ctx[0].params| && Takes(ctx[0].params[i], name)
    ensures VarOk(ctx, name, ParamValue(o, clock, ctx[0].params[i], args, i, name))
  {
    var params := ctx[0].params;
    if Expanded(ctx) && params[0] == Named(name) {
      assert forall j :: 0 < j < |params| ==> params[1..][j - 1] == params[j];
      assert i == 0;
    }
  }

  lemma CallOk(sites: seq<Site>, o: Oracle, st: State, closure: Value, args: seq<Value>)
    requires closure.VClosure? && Inv(sites, st) && CodeOk(At(sites, st), closure)
      && ArgsFit(At(sites, st), closure.ctx, args)
    ensures
      var entered := Called(o, st, closure, args);
      && Inv(sites, entered) && Grows(At(sites, st), At(sites, entered))
      && HomesOf(entered.heap)[|st.heap| + 1] == Inside(InBlock([], closure.body), closure.ctx)
  {
    hide Good, BlockScope, VarOk;
    var s := ArgumentScope(o, st, closure, args);
    ArgumentsOk(At(sites, st), o, st, closure, args);
    assert Inv(sites, Tick(st));
    PushOk(sites, Tick(st), s);
    var called := Tick(st).(heap := st.heap + [s]);
    EnterOk(sites, called, closure.body, Some(|st.heap|), closure.ctx);
  }

  // ---- Declarations ----

  /** A scope may be given a value that it may hold. */
  lemma InitialiseOk(sites: seq<Site>, st: State, k: nat, name: string, v: Value)
    requires Inv(sites, st) && Good(At(sites, st), v) && k < |st.heap|
    requires st.heap[k].home != [] && VarOk(st.heap[k].home, name, v)
    ensures var st' := Initialise(st, k, name, v); Inv(sites, st') && At(sites, st') == At(sites, st)
  {
    hide Good, VarOk, ParentRealises;
    var st', w := Initialise(st, k, name, v), At(sites, st);
    assert HomesOf(st'.heap) == HomesOf(st.heap);
    forall j | 0 <= j < |st'.heap| ensures ScopeOk(w, j, st'.heap[j]) {
      assert ScopeOk(w, j, st.heap[j]);
    }
  }

  lemma {:induction false} HoistScopeIn(heap: seq<Scope>, scope: nat, name: string)
    ensures var k := HoistScope(heap, scope, name); k.Some? ==> k.value < |heap| && name in heap[k.value].hoisted
    decreases scope
  {
    if scope < |heap| && heap[scope].parent.Some? && heap[scope].parent.value < scope {
      HoistScopeIn(heap, heap[scope].parent.value, name);
    }
  }

  /** A declaration in the block of `ctx` may give the name such a value. */
  lemma AssignOk(sites: seq<Site>, st: State, ctx: Context, scope: nat, s: Stmt, name: string, v: Value)
    requires Ready(sites, st, scope, ctx) && Good(At(sites, st), v)
    requires ctx != [] && ctx[0].InBlock? && s in Whole(ctx[0]) && s.Decl? && Takes(s.target, name)
      && FitsMeaning(StmtMeaning(s), v)
    ensures var st' := Assign(st, scope, s.kind, name, v); Inv(sites, st') && At(sites, st') == At(sites, st)
  {
    hide Good, VarOk, Initialise;
    var w := At(sites, st);
    if s.kind.Var? {
      HoistScopeIn(st.heap, scope, name);
      var k := HoistScope(st.heap, scope, name);
      if k.Some? {
        assert ScopeOk(w, k.value, st.heap[k.value]);
        HoistedFits(st.heap[k.value].home, name, v);
        InitialiseOk(sites, st, k.value, name, v);
      }
    } else {
      assert ScopeOk(w, scope, st.heap[scope]) && w.homes[scope] == st.heap[scope].home;
      DeclaredFits(st.heap[scope].home, ctx, s, name, v);
      InitialiseOk(sites, st, scope, name, v);
    }
  }

  lemma HoistedFits(home: Context, name: string, v: Value)
    requires home != [] && HoistedAt(home, name)
    ensures VarOk(home, name, v)
  {
  }

  lemma DeclaredFits(home: Context, ctx: Context, s: Stmt, name: string, v: Value)
    requires SameFrames(home, ctx) && ctx[0].InBlock? && s in Whole(ctx[0])
    requires s.Decl? && DeclaresName(s, name) && FitsMeaning(StmtMeaning(s), v)
    ensures VarOk(home, name, v)
  {
    var block := Whole(ctx[0]);
    var i :| 0 <= i < |block| && block[i] == s;
    assert DeclaresName(block[i], name);
    if DeclaredOnce(block, name) {
      assert forall j :: 0 <= j < |block| && DeclaresName(block[j], name) ==> j == i;
    }
  }

  lemma {:induction false} AssignEachOk(sites: seq<Site>, o: Oracle, clock: nat, st: State, ctx: Context, scope: nat,
                                        s: Stmt, names: seq<string>, v: Value)
    requires Ready(sites, st, scope, ctx) && Good(At(sites, st), v)
    requires ctx != [] && ctx[0].InBlock? && s in Whole(ctx[0])
    requires s.Decl? && s.target.Pattern? && names <= s.target.names
    ensures var st' := AssignEach(o, clock, st, scope, s.kind, names, v);
      Inv(sites, st') && At(sites, st') == At(sites, st)
  {
    hide Inv, Realises, Good, Assign;
    if names == [] {
    } else {
      var n := |names| - 1;
      AssignEachOk(sites, o, clock, st, ctx, scope, s, names[..n], v);
      FetchOne(At(sites, st), o.source(clock, names[n]), v);
      assert names[n] == s.target.names[n];
      AssignOk(sites, AssignEach(o, clock, st, scope, s.kind, names[..n], v), ctx, scope, s, names[n],
               Fetch(o.source(clock, names[n]), [v]));
    }
  }

  lemma FetchOne(w: World, source: Source, v: Value)
    requires Good(w, v)
    ensures Good(w, Fetch(source, [v]))
  {
    FetchGood(w, source, [v]);
  }

  lemma TickReady(sites: seq<Site>, st: State, scope: nat, ctx: Context)
    requires Ready(sites, st, scope, ctx)
    ensures Ready(sites, Tick(st), scope, ctx) && At(sites, Tick(st)) == At(sites, st)
  {
  }

  lemma DeclareOk(sites: seq<Site>, o: Oracle, st: State, ctx: Context, scope: nat, s: Stmt, v: Value)
    requires Ready(sites, st, scope, ctx) && Good(At(sites, st), v)
    requires ctx != [] && ctx[0].InBlock? && s in Whole(ctx[0]) && s.Decl? && FitsMeaning(StmtMeaning(s), v)
    ensures var st' := Declare(o, st, scope, s.kind, s.target, v); Inv(sites, st') && At(sites, st') == At(sites, st)
  {
    hide Ready, Good, FitsMeaning, AssignEach, Assign, At;
    if s.target.Pattern? {
      TickReady(sites, st, scope, ctx);
      AssignEachOk(sites, o, st.clock, Tick(st), ctx, scope, s, s.target.names, v);
    } else {
      AssignOk(sites, st, ctx, scope, s, s.target.name, v);
    }
  }

  // ---- Every step keeps the invariant ----

  /** An arrow in this place is no map callback whose array the lint sees. */
  ghost predicate Plain(ctx: Context, role: Role) {
    role.MapCallback? ==> !ArrayVisible(ctx, role.recv)
  }

  /** What evaluating `e` may yield. */
  ghost predicate ResultOk(w: World, ctx: Context, role: Role, e: Expr, v: Value) {
    && (Plain(ctx, role) || !e.Arrow? ==> Good(w, v))
    && (e.Arrow? ==> v.VClosure? && CodeOk(w, v) && v.ctx == Inside(InArrow(e.params, role), ctx))
    && (e.Str? ==> v == VStr(e.text))
    && (e.Id? ==> NameOk(ctx, e.name, v))
    && (e.Arr? && Texts(e.items).Some? ==> v == ArrayOf(Texts(e.items).value))
  }

  /** The run may go on from `st`, in code of `ctx` that has `scope` for its names. */
  ghost predicate Ready(sites: seq<Site>, st: State, scope: nat, ctx: Context) {
    Inv(sites, st) && Realises(At(sites, st), scope, ctx)
  }

  ghost predicate Kept(sites: seq<Site>, st: State, st': State) {
    Inv(sites, st') && Grows(At(sites, st), At(sites, st'))
  }

  ghost predicate OutOk(sites: seq<Site>, st: State, ctx: Context, role: Role, e: Expr, out: Out) {
    Kept(sites, st, out.st) && (out.Ok? ==> ResultOk(At(sites, out.st), ctx, role, e, out.v))
  }

  lemma KeptSelf(sites: seq<Site>, st: State)
    requires Inv(sites, st)
    ensures Kept(sites, st, st)
  {
  }

  lemma KeptTwice(sites: seq<Site>, st: State, st1: State, st2: State)
    requires Kept(sites, st, st1) && Kept(sites, st1, st2)
    ensures Kept(sites, st, st2)
  {
  }

  lemma StillReady(sites: seq<Site>, st: State, st1: State, scope: nat, ctx: Context)
    requires Ready(sites, st, scope, ctx) && Kept(sites, st, st1)
    ensures Ready(sites, st1, scope, ctx)
  {
  }

  lemma StillGood(sites: seq<Site>, st: State, st1: State, v: Value)
    requires Kept(sites, st, st1) && Good(At(sites, st), v)
    ensures Good(At(sites, st1), v)
  {
    GoodGrows(At(sites, st), At(sites, st1), v);
  }

  lemma TickKeeps(sites: seq<Site>, st: State)
    requires Inv(sites, st)
    ensures Inv(sites, Tick(st)) && Kept(sites, st, Tick(st)) && At(sites, Tick(st)) == At(sites, st)
  {
  }

  lemma KeptInv(sites: seq<Site>, st: State, st1: State)
    requires Kept(sites, st, st1)
    ensures Inv(sites, st1)
  {
  }

  lemma ReadyInv(sites: seq<Site>, st: State, scope: nat, ctx: Context)
    requires Ready(sites, st, scope, ctx)
    ensures Inv(sites, st) && Kept(sites, st, st)
  {
  }

  lemma ObserveKeeps(sites: seq<Site>, st: State, ctx: Context, arg: Expr, v: Value)
    requires Inv(sites, st) && Site(ctx, arg) in sites && ResultOk(At(sites, st), ctx, Elsewhere, arg, v)
    ensures Kept(sites, st, Observe(st, Obs(Site(ctx, arg), v)))
  {
    assert ObsOk(sites, Obs(Site(ctx, arg), v));
  }

  /** A value that may go anywhere is a result of every expression of no particular form. */
  lemma GoodResult(w: World, ctx: Context, role: Role, e: Expr, v: Value)
    requires Good(w, v) && !e.Arrow? && !e.Str? && !e.Id? && !e.Arr?
    ensures ResultOk(w, ctx, role, e, v)
  {
  }

  lemma ResultIsGood(w: World, ctx: Context, role: Role, e: Expr, v: Value)
    requires ResultOk(w, ctx, role, e, v) && Plain(ctx, role)
    ensures Good(w, v)
  {
  }

  lemma EvalKeeps(sites: seq<Site>, fuel: nat, o: Oracle, st: State, ctx: Context, scope: nat, role: Role, e: Expr)
    requires Ready(sites, st, scope, ctx) && KnownExpr(sites, ctx, role, e)
    ensures OutOk(sites, st, ctx, role, e, Eval(fuel, o, st, ctx, scope, role, e))
    decreases fuel, 5
  {
    hide OutOk;
    ReadyInv(sites, st, scope, ctx);
    if fuel == 0 {
      StopKeeps(sites, o, st, ctx, scope, role, e);
    } else {
      match e
      case Str(_) => LeafKeeps(sites, fuel, o, st, ctx, scope, role, e);
      case Id(_) => LeafKeeps(sites, fuel, o, st, ctx, scope, role, e);
      case Arrow(_, _, _) => LeafKeeps(sites, fuel, o, st, ctx, scope, role, e);
      case Arr(_) => ArrKeeps(sites, fuel, o, st, ctx, scope, role, e);
      case MethodCall(_, _, _, _) => MethodCallKeeps(sites, fuel, o, st, ctx, scope, role, e);
      case Call(_, _) => CallKeeps(sites, fuel, o, st, ctx, scope, role, e);
      case GetFunction(_) => GetFunctionKeeps(sites, fuel, o, st, ctx, scope, role, e);
      case Template(_) => TemplateKeeps(sites, fuel, o, st, ctx, scope, role, e);
      case Ternary(_, _, _) => TernaryKeeps(sites, fuel, o, st, ctx, scope, role, e);
    }
  }

  lemma StopKeeps(sites: seq<Site>, o: Oracle, st: State, ctx: Context, scope: nat, role: Role, e: Expr)
    requires Kept(sites, st, st)
    ensures OutOk(sites, st, ctx, role, e, Eval(0, o, st, ctx, scope, role, e))
  {
  }

  /** Literals, names and arrows. */
  lemma LeafKeeps(sites: seq<Site>, fuel: nat, o: Oracle, st: State, ctx: Context, scope: nat, role: Role, e: Expr)
    requires Ready(sites, st, scope, ctx) && KnownExpr(sites, ctx, role, e) && fuel > 0
    requires e.Str? || e.Id? || e.Arrow?
    ensures OutOk(sites, st, ctx, role, e, Eval(fuel, o, st, ctx, scope, role, e))
  {
    hide Kept, Inv, NameOk, Good, CodeOk, Lookup, At, Realises;
    ReadyInv(sites, st, scope, ctx);
    if e.Id? {
      NameKeeps(sites, st, ctx, scope, e.name);
    } else if e.Arrow? {
      ArrowKeeps(sites, st, ctx, scope, role, e);
    } else {
      assert Good(At(sites, st), VStr(e.text)) by { TextGood(At(sites, st), e.text); }
    }
  }

  lemma TextGood(w: World, text: string)
    ensures Good(w, VStr(text))
  {
  }

  lemma NameKeeps(sites: seq<Site>, st: State, ctx: Context, scope: nat, name: string)
    requires Ready(sites, st, scope, ctx)
    ensures var v := Lookup(st.heap, scope, name);
      v.Some? ==> Good(At(sites, st), v.value) && NameOk(ctx, name, v.value)
  {
    hide Good, NameOk, Lookup;
    LookupOk(At(sites, st), st.heap, scope, ctx, name);
  }

  lemma ArrowKeeps(sites: seq<Site>, st: State, ctx: Context, scope: nat, role: Role, e: Expr)
    requires Ready(sites, st, scope, ctx) && e.Arrow? && KnownExpr(sites, ctx, role, e)
    ensures ResultOk(At(sites, st), ctx, role, e,
                     VClosure(e.params, e.body, e.result, Inside(InArrow(e.params, role), ctx), scope))
  {
    hide Inv, KnownExpr, ResultOk;
    ArrowOk(At(sites, st), ctx, scope, role, e);
  }

  lemma ArrowOk(w: World, ctx: Context, scope: nat, role: Role, e: Expr)
    requires Realises(w, scope, ctx) && e.Arrow? && KnownExpr(w.sites, ctx, role, e)
    ensures ResultOk(w, ctx, role, e, VClosure(e.params, e.body, e.result, Inside(InArrow(e.params, role), ctx), scope))
  {
    assert Inside(InArrow(e.params, role), ctx)[1..] == ctx;
  }

  lemma ArrKeeps(sites: seq<Site>, fuel: nat, o: Oracle, st: State, ctx: Context, scope: nat, role: Role, e: Expr)
    requires Ready(sites, st, scope, ctx) && KnownExpr(sites, ctx, role, e) && e.Arr? && fuel > 0
    ensures OutOk(sites, st, ctx, role, e, Eval(fuel, o, st, ctx, scope, role, e))
    decreases fuel, 0
  {
    hide Ready, Kept, Inv, Realises, Grows, Good, CodeOk, NameOk, At, HomesOf;
    NoneGood(At(sites, st));
    EvalAllKeeps(sites, fuel - 1, o, st, ctx, scope, Elsewhere, e.items, []);
    if Texts(e.items).Some? {
      TextsEvaluate(fuel - 1, o, st, ctx, scope, e.items, []);
      assert [] + ArrayOf(Texts(e.items).value).items == ArrayOf(Texts(e.items).value).items;
    }
  }

  /** An array of string literals evaluates to those strings. */
  lemma {:induction false} TextsEvaluate(fuel: nat, o: Oracle, st: State, ctx: Context, scope: nat, es: Exprs,
                                         done: seq<Value>)
    requires Texts(es).Some?
    ensures var out := EvalAll(fuel, o, st, ctx, scope, Elsewhere, es, done);
      out.st == st && (out.Ok? ==> out.v == VArr(done + ArrayOf(Texts(es).value).items))
    decreases fuel
  {
    if fuel == 0 {
    } else {
      match es
      case NoMore => assert done + [] == done;
      case More(e, tail) =>
        if fuel > 1 {
          TextsEvaluate(fuel - 1, o, st, ctx, scope, tail, done + [VStr(e.text)]);
          var t := Texts(tail).value;
          assert Texts(es).value == [e.text] + t;
          assert ArrayOf([e.text] + t).items == [VStr(e.text)] + ArrayOf(t).items;
          assert done + [VStr(e.text)] + ArrayOf(t).items == done + ([VStr(e.text)] + ArrayOf(t).items);
        }
    }
  }

  lemma TemplateKeeps(sites: seq<Site>, fuel: nat, o: Oracle, st: State, ctx: Context, scope: nat, role: Role, e: Expr)
    requires Ready(sites, st, scope, ctx) && KnownExpr(sites, ctx, role, e) && e.Template? && fuel > 0
    ensures OutOk(sites, st, ctx, role, e, Eval(fuel, o, st, ctx, scope, role, e))
    decreases fuel, 0
  {
    hide Ready, Kept, Inv, Realises, Grows, Good, CodeOk, NameOk, At, HomesOf, ResultOk, Outside, AllGood;
    NoneGood(At(sites, st));
    EvalAllKeeps(sites, fuel - 1, o, st, ctx, scope, Elsewhere, e.parts, []);
    var out := EvalAll(fuel - 1, o, st, ctx, scope, Elsewhere, e.parts, []);
    if out.Ok? {
      ItemsGood(At(sites, out.st), out.v);
      LeaveKeeps(sites, fuel - 1, o, st, out.st, out.v.items, ctx, role, e);
    }
  }

  lemma ItemsGood(w: World, v: Value)
    requires Good(w, v) && v.VArr?
    ensures AllGood(w, v.items)
  {
  }

  /** Values handed to code outside the script. */
  lemma LeaveKeeps(sites: seq<Site>, fuel: nat, o: Oracle, st: State, st1: State, given: seq<Value>,
                   ctx: Context, role: Role, e: Expr)
    requires Kept(sites, st, st1) && AllGood(At(sites, st1), given)
    requires !e.Arrow? && !e.Str? && !e.Id? && !e.Arr?
    ensures OutOk(sites, st, ctx, role, e, Outside(fuel, o, st1, given))
    decreases fuel, 2
  {
    hide Ready, Kept, Inv, Realises, Grows, Good, At, ResultOk, Outside, AllGood;
    KeptInv(sites, st, st1);
    OutsideKeeps(sites, fuel, o, st1, given);
    var out := Outside(fuel, o, st1, given);
    KeptTwice(sites, st, st1, out.st);
    if out.Ok? {
      GoodResult(At(sites, out.st), ctx, role, e, out.v);
    }
  }

  lemma OutsideKeeps(sites: seq<Site>, fuel: nat, o: Oracle, st: State, given: seq<Value>)
    requires Inv(sites, st) && AllGood(At(sites, st), given)
    ensures var out := Outside(fuel, o, st, given);
      Kept(sites, st, out.st) && (out.Ok? ==> Good(At(sites, out.st), out.v))
    decreases fuel, 1
  {
    hide Kept, Inv, Realises, Grows, Good, CodeOk, At, HomesOf, ArgsFit, Apply, AllGood, Fetch;
    KeptSelf(sites, st);
    TickKeeps(sites, st);
    if fuel == 0 {
    } else if given == [] || !o.truth(st.clock) {
      FetchGood(At(sites, st), o.source(st.clock, ""), given);
    } else {
      var f := given[o.choice(st.clock) % |given|];
      if f.VClosure? {
        var args := Map(o.arguments(st.clock), source => Fetch(source, given));
        CalledBack(At(sites, st), f, given, o.choice(st.clock) % |given|, o.arguments(st.clock));
        ApplyKeeps(sites, fuel - 1, o, Tick(st), f, args);
        var out := Apply(fuel - 1, o, Tick(st), f, args);
        KeptTwice(sites, st, Tick(st), out.st);
        if out.Ok? {
          KeptInv(sites, st, out.st);
          GivenGrows(sites, st, out.st, given, out.v);
          OutsideKeeps(sites, fuel - 1, o, out.st, given + [out.v]);
          KeptTwice(sites, st, out.st, Outside(fuel - 1, o, out.st, given + [out.v]).st);
        }
      } else {
        OutsideKeeps(sites, fuel - 1, o, Tick(st), given);
        KeptTwice(sites, st, Tick(st), Outside(fuel - 1, o, Tick(st), given).st);
      }
    }
  }

  lemma CalledBack(w: World, f: Value, given: seq<Value>, i: nat, sources: seq<Source>)
    requires AllGood(w, given) && i < |given| && f == given[i] && f.VClosure?
    ensures CodeOk(w, f) && ArgsFit(w, f.ctx, Map(sources, source => Fetch(source, given)))
  {
    hide Fetch;
    forall j | 0 <= j < |sources| ensures Good(w, Fetch(sources[j], given)) {
      FetchGood(w, sources[j], given);
    }
  }

  lemma GivenGrows(sites: seq<Site>, st: State, st1: State, given: seq<Value>, v: Value)
    requires Kept(sites, st, st1) && AllGood(At(sites, st), given) && Good(At(sites, st1), v)
    ensures AllGood(At(sites, st1), given + [v])
  {
    forall i | 0 <= i < |given| ensures Good(At(sites, st1), given[i]) {
      GoodGrows(At(sites, st), At(sites, st1), given[i]);
    }
  }

  lemma TernaryKeeps(sites: seq<Site>, fuel: nat, o: Oracle, st: State, ctx: Context, scope: nat, role: Role, e: Expr)
    requires Ready(sites, st, scope, ctx) && KnownExpr(sites, ctx, role, e) && e.Ternary? && fuel > 0
    ensures OutOk(sites, st, ctx, role, e, Eval(fuel, o, st, ctx, scope, role, e))
    decreases fuel, 0
  {
    hide Ready, Kept, Inv, Realises, Grows, Good, CodeOk, NameOk, At, HomesOf, ResultOk;
    EvalKeeps(sites, fuel - 1, o, st, ctx, scope, Elsewhere, e.condition);
    var out := Eval(fuel - 1, o, st, ctx, scope, Elsewhere, e.condition);
    if out.Ok? {
      var st1, branch := Tick(out.st), if o.truth(out.st.clock) then e.yes else e.no;
      KeptInv(sites, st, out.st);
      TickKeeps(sites, out.st);
      KeptTwice(sites, st, out.st, st1);
      StillReady(sites, st, st1, scope, ctx);
      EvalKeeps(sites, fuel - 1, o, st1, ctx, scope, Elsewhere, branch);
      var end := Eval(fuel - 1, o, st1, ctx, scope, Elsewhere, branch);
      KeptTwice(sites, st, st1, end.st);
      if end.Ok? {
        ResultIsGood(At(sites, end.st), ctx, Elsewhere, branch, end.v);
        GoodResult(At(sites, end.st), ctx, role, e, end.v);
      }
    }
  }

  lemma GetFunctionKeeps(sites: seq<Site>, fuel: nat, o: Oracle, st: State, ctx: Context, scope: nat, role: Role,
                         e: Expr)
    requires Ready(sites, st, scope, ctx) && KnownExpr(sites, ctx, role, e) && e.GetFunction? && fuel > 0
    ensures OutOk(sites, st, ctx, role, e, Eval(fuel, o, st, ctx, scope, role, e))
    decreases fuel, 0
  {
    hide Ready, Kept, Inv, Realises, Grows, CodeOk, NameOk, At, HomesOf;
    EvalKeeps(sites, fuel - 1, o, st, ctx, scope, Elsewhere, e.arg);
    var out := Eval(fuel - 1, o, st, ctx, scope, Elsewhere, e.arg);
    if out.Ok? {
      KeptInv(sites, st, out.st);
      ObserveKeeps(sites, out.st, ctx, e.arg, out.v);
      KeptTwice(sites, st, out.st, Observe(out.st, Obs(Site(ctx, e.arg), out.v)));
    }
  }

  lemma EvalAllKeeps(sites: seq<Site>, fuel: nat, o: Oracle, st: State, ctx: Context, scope: nat, role: Role,
                     es: Exprs, done: seq<Value>)
    requires Ready(sites, st, scope, ctx) && KnownAll(sites, ctx, role, es)
    ensures var out := EvalAll(fuel, o, st, ctx, scope, role, es, done);
      && Kept(sites, st, out.st)
      && (out.Ok? ==> out.v.VArr?)
      && (out.Ok? && Plain(ctx, role) && Good(At(sites, st), VArr(done)) ==> Good(At(sites, out.st), out.v))
    decreases fuel, 1
  {
    hide Ready, Kept, Inv, Realises, Grows, Good, CodeOk, NameOk, At, HomesOf, ResultOk;
    ReadyInv(sites, st, scope, ctx);
    if fuel == 0 || es.NoMore? {
    } else {
      EvalKeeps(sites, fuel - 1, o, st, ctx, scope, role, es.head);
      var out := Eval(fuel - 1, o, st, ctx, scope, role, es.head);
      if out.Ok? {
        StillReady(sites, st, out.st, scope, ctx);
        EvalAllKeeps(sites, fuel - 1, o, out.st, ctx, scope, role, es.tail, done + [out.v]);
        KeptTwice(sites, st, out.st, EvalAll(fuel - 1, o, out.st, ctx, scope, role, es.tail, done + [out.v]).st);
        if Plain(ctx, role) && Good(At(sites, st), VArr(done)) {
          StillGood(sites, st, out.st, VArr(done));
          ResultIsGood(At(sites, out.st), ctx, role, es.head, out.v);
          OneMoreGood(At(sites, out.st), done, out.v);
        }
      }
    }
  }

  lemma NoneGood(w: World)
    ensures Good(w, VArr([]))
  {
  }

  lemma OneMoreGood(w: World, done: seq<Value>, v: Value)
    requires Good(w, VArr(done)) && Good(w, v)
    ensures Good(w, VArr(done + [v]))
  {
  }

  // ---- Callbacks ----

  /** The receiver of a map whose array the lint sees really is that array. */
  lemma ReceiverIsArray(w: World, ctx: Context, recv: Expr, v: Value)
    requires ResultOk(w, ctx, Elsewhere, recv, v) && ArrayVisible(ctx, recv)
    ensures v == ArrayOf(ArrayTexts(ctx, recv).value)
  {
  }

  /** A map callback may be called on every element of its array; anything else may go anywhere. */
  ghost predicate CallbackOk(w: World, cb: Value, recv: Value) {
    && Good(w, recv)
    && if cb.VClosure? && recv.VArr? then
         && CodeOk(w, cb)
         && (Expanded(cb.ctx) ==> forall k :: 0 <= k < |recv.items| ==> IsElement(Elements(cb.ctx), recv.items[k]))
       else Good(w, cb)
  }

  lemma CallbackGrows(w: World, w': World, cb: Value, recv: Value)
    requires Grows(w, w') && CallbackOk(w, cb, recv)
    ensures CallbackOk(w', cb, recv)
  {
    GoodGrows(w, w', recv);
    if !(cb.VClosure? && recv.VArr?) {
      GoodGrows(w, w', cb);
    }
  }

  function Triple(recv: Value, k: nat): seq<Value>
    requires recv.VArr? && k < |recv.items|
  {
    [recv.items[k], VNum(k), recv]
  }

  /** A callback is either any value, or a closure whose first parameter the lint expands to the
      elements of the receiver. */
  lemma CallbackFromRole(w: World, ctx: Context, property: string, recv: Expr, v: Value, callback: Expr, cb: Value)
    requires ResultOk(w, ctx, Elsewhere, recv, v) && ResultOk(w, ctx, RoleIn(property, recv), callback, cb)
    ensures CallbackOk(w, cb, v)
  {
    if cb.VClosure? && v.VArr? {
      if Expanded(cb.ctx) {
        assert callback.Arrow? && property == "map";
        assert cb.ctx[1..] == ctx;
        ReceiverIsArray(w, ctx, recv, v);
        assert forall k :: 0 <= k < |v.items| ==> v.items[k].text in ArrayTexts(ctx, recv).value;
      }
    } else if callback.Arrow? {
      OpaqueReceiver(w, ctx, property, recv, v);
    }
  }

  /** Where a call is no map over an array, its arrows are no callbacks the lint expands. */
  lemma OpaqueReceiver(w: World, ctx: Context, property: string, recv: Expr, v: Value)
    requires ResultOk(w, ctx, Elsewhere, recv, v) && !(property == "map" && v.VArr?)
    ensures Plain(ctx, RoleIn(property, recv))
  {
    if property == "map" && ArrayVisible(ctx, recv) {
      ReceiverIsArray(w, ctx, recv, v);
    }
  }

  lemma MethodCallKeeps(sites: seq<Site>, fuel: nat, o: Oracle, st: State, ctx: Context, scope: nat, role: Role,
                        e: Expr)
    requires Ready(sites, st, scope, ctx) && KnownExpr(sites, ctx, role, e) && e.MethodCall? && fuel > 0
    ensures OutOk(sites, st, ctx, role, e, Eval(fuel, o, st, ctx, scope, role, e))
    decreases fuel, 4
  {
    hide Ready, Kept, Inv, Realises, Grows, Good, CodeOk, NameOk, At, HomesOf, ResultOk, CallbackOk, Visit, EvalAll,
      Outside,
         Plain, AllGood;
    var inner := RoleIn(e.property, e.recv);
    EvalKeeps(sites, fuel - 1, o, st, ctx, scope, Elsewhere, e.recv);
    var out := Eval(fuel - 1, o, st, ctx, scope, Elsewhere, e.recv);
    if out.Ok? {
      StillReady(sites, st, out.st, scope, ctx);
      EvalKeeps(sites, fuel - 1, o, out.st, ctx, scope, inner, e.callback);
      var cb := Eval(fuel - 1, o, out.st, ctx, scope, inner, e.callback);
      KeptTwice(sites, st, out.st, cb.st);
      if cb.Ok? {
        StillReady(sites, st, cb.st, scope, ctx);
        NoneGood(At(sites, cb.st));
        EvalAllKeeps(sites, fuel - 1, o, cb.st, ctx, scope, inner, e.rest, []);
        var more := EvalAll(fuel - 1, o, cb.st, ctx, scope, inner, e.rest, []);
        KeptTwice(sites, st, cb.st, more.st);
        if more.Ok? {
          CallbackReady(sites, out.st, cb.st, more.st, ctx, e, out.v, cb.v);
          if e.property == "map" && out.v.VArr? {
            VisitStart(sites, fuel - 1, o, st, more.st, ctx, role, e, cb.v, out.v);
          } else {
            OpaqueReceiver(At(sites, out.st), ctx, e.property, e.recv, out.v);
            AnyCallback(sites, out.st, cb.st, more.st, ctx, inner, e, out.v, cb.v, more.v);
            LeaveKeeps(sites, fuel - 1, o, st, more.st, [out.v, cb.v] + more.v.items, ctx, role, e);
          }
        }
      }
    }
  }

  lemma AnyCallback(sites: seq<Site>, st1: State, st2: State, st3: State, ctx: Context, inner: Role, e: Expr,
                    recv: Value, cb: Value, more: Value)
    requires e.MethodCall? && Kept(sites, st1, st2) && Kept(sites, st2, st3) && Plain(ctx, inner)
    requires ResultOk(At(sites, st1), ctx, Elsewhere, e.recv, recv)
      && ResultOk(At(sites, st2), ctx, inner, e.callback, cb)
    requires more.VArr? && Good(At(sites, st3), more)
    ensures AllGood(At(sites, st3), [recv, cb] + more.items)
  {
    hide ResultOk, Kept, Good, AllGood, At, ArrayVisible;
    ResultIsGood(At(sites, st1), ctx, Elsewhere, e.recv, recv);
    ResultIsGood(At(sites, st2), ctx, inner, e.callback, cb);
    StillGood(sites, st1, st2, recv);
    StillGood(sites, st2, st3, recv);
    StillGood(sites, st2, st3, cb);
    ThreeGood(At(sites, st3), recv, cb, more);
  }

  lemma ThreeGood(w: World, recv: Value, cb: Value, more: Value)
    requires Good(w, recv) && Good(w, cb) && Good(w, more) && more.VArr?
    ensures AllGood(w, [recv, cb] + more.items)
  {
  }

  lemma CallbackReady(sites: seq<Site>, st1: State, st2: State, st3: State, ctx: Context, e: Expr, recv: Value,
                      cb: Value)
    requires e.MethodCall? && Kept(sites, st1, st2) && Kept(sites, st2, st3)
    requires ResultOk(At(sites, st1), ctx, Elsewhere, e.recv, recv)
    requires ResultOk(At(sites, st2), ctx, RoleIn(e.property, e.recv), e.callback, cb)
    ensures CallbackOk(At(sites, st3), cb, recv)
  {
    StillGood(sites, st1, st2, recv);
    CallbackFromRole(At(sites, st2), ctx, e.property, e.recv, recv, e.callback, cb);
    CallbackGrows(At(sites, st2), At(sites, st3), cb, recv);
  }

  lemma VisitStart(sites: seq<Site>, fuel: nat, o: Oracle, st: State, st1: State, ctx: Context, role: Role, e: Expr,
                   cb: Value, recv: Value)
    requires Kept(sites, st, st1) && CallbackOk(At(sites, st1), cb, recv) && recv.VArr?
    requires !e.Arrow? && !e.Str? && !e.Id? && !e.Arr?
    ensures OutOk(sites, st, ctx, role, e, Visit(fuel, o, st1, cb, recv, 0, []))
    decreases fuel, 3
  {
    hide Kept, Inv, Good, At, CallbackOk, Visit, ResultOk;
    KeptInv(sites, st, st1);
    NoneGood(At(sites, st1));
    VisitKeeps(sites, fuel, o, st1, cb, recv, 0, []);
    var out := Visit(fuel, o, st1, cb, recv, 0, []);
    KeptTwice(sites, st, st1, out.st);
    if out.Ok? {
      GoodResult(At(sites, out.st), ctx, role, e, out.v);
    }
  }

  lemma VisitKeeps(sites: seq<Site>, fuel: nat, o: Oracle, st: State, cb: Value, recv: Value, i: nat, done: seq<Value>)
    requires Inv(sites, st) && CallbackOk(At(sites, st), cb, recv) && Good(At(sites, st), VArr(done)) && recv.VArr?
    ensures var out := Visit(fuel, o, st, cb, recv, i, done);
      Kept(sites, st, out.st) && (out.Ok? ==> Good(At(sites, out.st), out.v))
    decreases fuel, 2
  {
    hide Kept, Inv, Realises, Grows, Good, CodeOk, At, HomesOf, CallbackOk, ArgsFit, Apply, Outside, AllGood;
    KeptSelf(sites, st);
    if fuel == 0 {
    } else {
      if !cb.VClosure? {
        NoCallback(At(sites, st), cb, recv);
        OutsideKeeps(sites, fuel - 1, o, st, [recv, cb]);
      } else if i < |recv.items| {
        CallbackArgs(At(sites, st), cb, recv, i);
        ApplyKeeps(sites, fuel - 1, o, st, cb, Triple(recv, i));
        var out := Apply(fuel - 1, o, st, cb, Triple(recv, i));
        if out.Ok? {
          KeptInv(sites, st, out.st);
          StillCallback(sites, st, out.st, cb, recv);
          StillGood(sites, st, out.st, VArr(done));
          OneMoreGood(At(sites, out.st), done, out.v);
          VisitKeeps(sites, fuel - 1, o, out.st, cb, recv, i + 1, done + [out.v]);
          KeptTwice(sites, st, out.st, Visit(fuel - 1, o, out.st, cb, recv, i + 1, done + [out.v]).st);
        }
      }
    }
  }

  lemma NoCallback(w: World, cb: Value, recv: Value)
    requires CallbackOk(w, cb, recv) && !cb.VClosure?
    ensures AllGood(w, [recv, cb])
  {
  }

  lemma StillCallback(sites: seq<Site>, st: State, st1: State, cb: Value, recv: Value)
    requires Kept(sites, st, st1) && CallbackOk(At(sites, st), cb, recv)
    ensures CallbackOk(At(sites, st1), cb, recv)
  {
    CallbackGrows(At(sites, st), At(sites, st1), cb, recv);
  }

  lemma CallbackArgs(w: World, cb: Value, recv: Value, i: nat)
    requires CallbackOk(w, cb, recv) && cb.VClosure? && recv.VArr? && i < |recv.items|
    ensures CodeOk(w, cb) && ArgsFit(w, cb.ctx, Triple(recv, i))
  {
  }

  lemma CallKeeps(sites: seq<Site>, fuel: nat, o: Oracle, st: State, ctx: Context, scope: nat, role: Role, e: Expr)
    requires Ready(sites, st, scope, ctx) && KnownExpr(sites, ctx, role, e) && e.Call? && fuel > 0
    ensures OutOk(sites, st, ctx, role, e, Eval(fuel, o, st, ctx, scope, role, e))
    decreases fuel, 4
  {
    hide Ready, Kept, Inv, Realises, Grows, Good, CodeOk, NameOk, At, HomesOf, ResultOk, ArgsFit, Apply, EvalAll,
      Outside;
    NoneGood(At(sites, st));
    EvalKeeps(sites, fuel - 1, o, st, ctx, scope, Elsewhere, e.callee);
    var f := Eval(fuel - 1, o, st, ctx, scope, Elsewhere, e.callee);
    if f.Ok? {
      ResultIsGood(At(sites, f.st), ctx, Elsewhere, e.callee, f.v);
      StillReady(sites, st, f.st, scope, ctx);
      StillGood(sites, st, f.st, VArr([]));
      EvalAllKeeps(sites, fuel - 1, o, f.st, ctx, scope, Elsewhere, e.args, []);
      var actuals := EvalAll(fuel - 1, o, f.st, ctx, scope, Elsewhere, e.args, []);
      KeptTwice(sites, st, f.st, actuals.st);
      if actuals.Ok? {
        KeptInv(sites, st, actuals.st);
        StillGood(sites, f.st, actuals.st, f.v);
        CalledKeeps(sites, fuel, o, st, actuals.st, ctx, role, e, f.v, actuals.v);
      }
    }
  }

  /** The call itself, once callee and arguments are evaluated. */
  lemma CalledKeeps(sites: seq<Site>, fuel: nat, o: Oracle, st: State, st1: State, ctx: Context, role: Role, e: Expr,
                    f: Value, actuals: Value)
    requires fuel > 0 && Kept(sites, st, st1) && e.Call? && actuals.VArr?
    requires Good(At(sites, st1), f) && Good(At(sites, st1), actuals)
    ensures OutOk(sites, st, ctx, role, e, if f.VClosure? then Apply(fuel - 1, o, st1, f, actuals.items)
                                          else Outside(fuel - 1, o, st1, actuals.items))
    decreases fuel, 3
  {
    hide Kept, Inv, Grows, Good, CodeOk, At, ResultOk, ArgsFit, Apply, Outside, AllGood;
    KeptInv(sites, st, st1);
    if f.VClosure? {
      AnyArgs(At(sites, st1), f, actuals);
      ApplyKeeps(sites, fuel - 1, o, st1, f, actuals.items);
      var out := Apply(fuel - 1, o, st1, f, actuals.items);
      KeptTwice(sites, st, st1, out.st);
      if out.Ok? {
        GoodResult(At(sites, out.st), ctx, role, e, out.v);
      }
    } else {
      ItemsGood(At(sites, st1), actuals);
      LeaveKeeps(sites, fuel - 1, o, st, st1, actuals.items, ctx, role, e);
    }
  }

  lemma AnyArgs(w: World, f: Value, actuals: Value)
    requires f.VClosure? && actuals.VArr? && Good(w, f) && Good(w, actuals)
    ensures CodeOk(w, f) && ArgsFit(w, f.ctx, actuals.items)
  {
  }

  lemma ApplyKeeps(sites: seq<Site>, fuel: nat, o: Oracle, st: State, closure: Value, args: seq<Value>)
    requires closure.VClosure? && Inv(sites, st)
    requires CodeOk(At(sites, st), closure) && ArgsFit(At(sites, st), closure.ctx, args)
    ensures var out := Apply(fuel, o, st, closure, args);
      Kept(sites, st, out.st) && (out.Ok? ==> Good(At(sites, out.st), out.v))
    decreases fuel, 0
  {
    hide Ready, Kept, Inv, Realises, Grows, Good, CodeOk, NameOk, HomesOf, ResultOk, ArgsFit, Called, KnownBlock,
      KnownExpr;
    KeptSelf(sites, st);
    if fuel > 0 {
      var entered, scope := Called(o, st, closure, args), |st.heap| + 1;
      var first := Inside(InBlock([], closure.body), closure.ctx);
      var last := Inside(InBlock(Listed(closure.body), Empty), closure.ctx);
      CalledReady(sites, o, st, closure, args);
      CodeKnown(At(sites, st), closure);
      ExecKeeps(sites, fuel - 1, o, entered, closure.ctx, scope, [], closure.body);
      var out := Exec(fuel - 1, o, entered, closure.ctx, scope, [], closure.body);
      KeptTwice(sites, st, entered, out.st);
      if out.Ok? {
        StillReady(sites, entered, out.st, scope, first);
        OtherPosition(sites, out.st, scope, closure.ctx, [], closure.body, Listed(closure.body), Empty);
        EvalKeeps(sites, fuel - 1, o, out.st, last, scope, Elsewhere, closure.result);
        var end := Eval(fuel - 1, o, out.st, last, scope, Elsewhere, closure.result);
        KeptTwice(sites, st, out.st, end.st);
        if end.Ok? {
          ResultIsGood(At(sites, end.st), last, Elsewhere, closure.result, end.v);
        }
      }
    }
  }

  lemma CodeKnown(w: World, closure: Value)
    requires closure.VClosure? && CodeOk(w, closure)
    ensures KnownBlock(w.sites, closure.ctx, [], closure.body)
    ensures KnownExpr(w.sites, Inside(InBlock(Listed(closure.body), Empty), closure.ctx), Elsewhere, closure.result)
  {
  }

  lemma CalledReady(sites: seq<Site>, o: Oracle, st: State, closure: Value, args: seq<Value>)
    requires closure.VClosure? && Inv(sites, st) && CodeOk(At(sites, st), closure)
      && ArgsFit(At(sites, st), closure.ctx, args)
    ensures var entered := Called(o, st, closure, args);
      Kept(sites, st, entered) && Ready(sites, entered, |st.heap| + 1, Inside(InBlock([], closure.body), closure.ctx))
  {
    CallOk(sites, o, st, closure, args);
  }

  /** A scope that realises a block from one of its positions realises it from every other. */
  lemma SameBlock(w: World, scope: nat, ctx: Context, before: seq<Stmt>, rest: Stmts, before': seq<Stmt>, rest': Stmts)
    requires Realises(w, scope, Inside(InBlock(before, rest), ctx)) && before + Listed(rest) == before' + Listed(rest')
    ensures Realises(w, scope, Inside(InBlock(before', rest'), ctx))
  {
    assert Inside(InBlock(before, rest), ctx)[1..] == ctx && Inside(InBlock(before', rest'), ctx)[1..] == ctx;
  }

  lemma OtherPosition(sites: seq<Site>, st: State, scope: nat, ctx: Context, before: seq<Stmt>, rest: Stmts,
                      before': seq<Stmt>, rest': Stmts)
    requires Ready(sites, st, scope, Inside(InBlock(before, rest), ctx))
      && before + Listed(rest) == before' + Listed(rest')
    ensures Ready(sites, st, scope, Inside(InBlock(before', rest'), ctx))
  {
    SameBlock(At(sites, st), scope, ctx, before, rest, before', rest');
  }

  lemma ExecKeeps(sites: seq<Site>, fuel: nat, o: Oracle, st: State, ctx: Context, scope: nat, before: seq<Stmt>,
                  stmts: Stmts)
    requires Ready(sites, st, scope, Inside(InBlock(before, stmts), ctx)) && KnownBlock(sites, ctx, before, stmts)
    ensures Kept(sites, st, Exec(fuel, o, st, ctx, scope, before, stmts).st)
    decreases fuel, 1
  {
    hide Ready, Kept, Inv, Realises, Grows, Good, CodeOk, At, HomesOf, Step;
    ReadyInv(sites, st, scope, Inside(InBlock(before, stmts), ctx));
    if fuel == 0 || stmts.Empty? {
    } else {
      var s, here := stmts.first, Inside(InBlock(before, stmts), ctx);
      assert Whole(here[0])[|before|] == s;
      StepKeeps(sites, fuel, o, st, here, scope, s);
      var out := Step(fuel, o, st, here, scope, s);
      if out.Ok? {
        assert before + Listed(stmts) == before + [s] + Listed(stmts.others);
        StillReady(sites, st, out.st, scope, here);
        OtherPosition(sites, out.st, scope, ctx, before, stmts, before + [s], stmts.others);
        ExecKeeps(sites, fuel - 1, o, out.st, ctx, scope, before + [s], stmts.others);
        KeptTwice(sites, st, out.st, Exec(fuel - 1, o, out.st, ctx, scope, before + [s], stmts.others).st);
      }
    }
  }

  lemma StepKeeps(sites: seq<Site>, fuel: nat, o: Oracle, st: State, here: Context, scope: nat, s: Stmt)
    requires Ready(sites, st, scope, here) && KnownStmt(sites, here, s) && fuel > 0
    requires here != [] && here[0].InBlock? && s in Whole(here[0])
    ensures Kept(sites, st, Step(fuel, o, st, here, scope, s).st)
    decreases fuel, 0
  {
    hide Ready, Kept, Inv, Realises, Grows, Good, CodeOk, At, HomesOf, ResultOk, Declare, Enter, Whole;
    match s
    case Decl(kind, target, init) =>
      EvalKeeps(sites, fuel - 1, o, st, here, scope, Elsewhere, init);
      var value := Eval(fuel - 1, o, st, here, scope, Elsewhere, init);
      if value.Ok? {
        StillReady(sites, st, value.st, scope, here);
        DeclareKeeps(sites, o, value.st, here, scope, s, value.v);
        KeptTwice(sites, st, value.st, Declare(o, value.st, scope, kind, target, value.v));
      }
    case Do(e) => EvalKeeps(sites, fuel - 1, o, st, here, scope, Elsewhere, e);
    case Block(inner) =>
      var entered := Enter(st, inner, Some(scope), here);
      BlockReady(sites, st, here, scope, inner);
      ExecKeeps(sites, fuel - 1, o, entered, here, |st.heap|, [], inner);
      KeptTwice(sites, st, entered, Exec(fuel - 1, o, entered, here, |st.heap|, [], inner).st);
  }

  lemma DeclareKeeps(sites: seq<Site>, o: Oracle, st: State, here: Context, scope: nat, s: Stmt, v: Value)
    requires Ready(sites, st, scope, here) && here != [] && here[0].InBlock? && s in Whole(here[0]) && s.Decl?
    requires ResultOk(At(sites, st), here, Elsewhere, s.init, v)
    ensures Kept(sites, st, Declare(o, st, scope, s.kind, s.target, v))
  {
    hide Good, Declare, Inv;
    DeclareOk(sites, o, st, here, scope, s, v);
  }

  lemma BlockReady(sites: seq<Site>, st: State, here: Context, scope: nat, inner: Stmts)
    requires Ready(sites, st, scope, here) && here != []
    ensures var entered := Enter(st, inner, Some(scope), here);
      Kept(sites, st, entered) && Ready(sites, entered, |st.heap|, Inside(InBlock([], inner), here))
  {
    EnterOk(sites, st, inner, Some(scope), here);
  }
}
