/** What the lint's verdict is worth, and where it is not. */
module LintResults {
  import opened Wrappers
  import opened Seqs
  import opened LintSyntax
  import opened LintSemantics
  import opened LintSoundness

  // ---- All call sites are listed ----

  ghost predicate ListedIn(these: seq<Site>, sites: seq<Site>) {
    forall s :: s in these ==> s in sites
  }

  lemma ListedParts(a: seq<Site>, b: seq<Site>, sites: seq<Site>)
    requires ListedIn(a + b, sites)
    ensures ListedIn(a, sites) && ListedIn(b, sites)
  {
    assert forall x :: x in a ==> x in a + b;
    assert forall x :: x in b ==> x in a + b;
  }

  lemma {:induction false} ExprKnown(sites: seq<Site>, ctx: Context, role: Role, e: Expr)
    requires ListedIn(SitesIn(ctx, role, e), sites)
    ensures KnownExpr(sites, ctx, role, e)
    decreases e
  {
    hide ListedIn;
    match e
    case Str(_) =>
    case Id(_) =>
    case Arr(items) => AllKnown(sites, ctx, Elsewhere, items);
    case Arrow(params, body, result) =>
      var inner := Inside(InArrow(params, role), ctx);
      var last := Inside(InBlock(Listed(body), Empty), inner);
      ListedParts(SitesInBlock(inner, [], body), SitesIn(last, Elsewhere, result), sites);
      BlockKnown(sites, inner, [], body);
      ExprKnown(sites, last, Elsewhere, result);
    case MethodCall(recv, property, callback, rest) =>
      var inner := RoleIn(property, recv);
      ListedParts(SitesIn(ctx, Elsewhere, recv) + SitesIn(ctx, inner, callback), SitesAmong(ctx, inner, rest), sites);
      ListedParts(SitesIn(ctx, Elsewhere, recv), SitesIn(ctx, inner, callback), sites);
      ExprKnown(sites, ctx, Elsewhere, recv);
      ExprKnown(sites, ctx, inner, callback);
      AllKnown(sites, ctx, inner, rest);
    case Call(callee, args) =>
      ListedParts(SitesIn(ctx, Elsewhere, callee), SitesAmong(ctx, Elsewhere, args), sites);
      ExprKnown(sites, ctx, Elsewhere, callee);
      AllKnown(sites, ctx, Elsewhere, args);
    case GetFunction(arg) =>
      ListedParts([Site(ctx, arg)], SitesIn(ctx, Elsewhere, arg), sites);
      ListedOne(Site(ctx, arg), sites);
      ExprKnown(sites, ctx, Elsewhere, arg);
    case Template(parts) => AllKnown(sites, ctx, Elsewhere, parts);
    case Ternary(c, yes, no) =>
      ListedParts(SitesIn(ctx, Elsewhere, c) + SitesIn(ctx, Elsewhere, yes), SitesIn(ctx, Elsewhere, no), sites);
      ListedParts(SitesIn(ctx, Elsewhere, c), SitesIn(ctx, Elsewhere, yes), sites);
      ExprKnown(sites, ctx, Elsewhere, c);
      ExprKnown(sites, ctx, Elsewhere, yes);
      ExprKnown(sites, ctx, Elsewhere, no);
  }

  lemma ListedOne(site: Site, sites: seq<Site>)
    requires ListedIn([site], sites)
    ensures site in sites
  {
    assert site in [site];
  }

  lemma {:induction false} AllKnown(sites: seq<Site>, ctx: Context, role: Role, es: Exprs)
    requires ListedIn(SitesAmong(ctx, role, es), sites)
    ensures KnownAll(sites, ctx, role, es)
    decreases es
  {
    if es.NoMore? {
    } else {
      ListedParts(SitesIn(ctx, role, es.head), SitesAmong(ctx, role, es.tail), sites);
      ExprKnown(sites, ctx, role, es.head);
      AllKnown(sites, ctx, role, es.tail);
    }
  }

  lemma {:induction false} BlockKnown(sites: seq<Site>, ctx: Context, before: seq<Stmt>, stmts: Stmts)
    requires ListedIn(SitesInBlock(ctx, before, stmts), sites)
    ensures KnownBlock(sites, ctx, before, stmts)
    decreases stmts
  {
    if stmts.Empty? {
    } else {
      var here := Inside(InBlock(before, stmts), ctx);
      ListedParts(SitesAt(here, stmts.first), SitesInBlock(ctx, before + [stmts.first], stmts.others), sites);
      StmtKnown(sites, here, stmts.first);
      BlockKnown(sites, ctx, before + [stmts.first], stmts.others);
    }
  }

  lemma {:induction false} StmtKnown(sites: seq<Site>, ctx: Context, s: Stmt)
    requires ListedIn(SitesAt(ctx, s), sites)
    ensures KnownStmt(sites, ctx, s)
    decreases s
  {
    match s
    case Decl(_, _, init) => ExprKnown(sites, ctx, Elsewhere, init);
    case Do(e) => ExprKnown(sites, ctx, Elsewhere, e);
    case Block(stmts) => BlockKnown(sites, ctx, [], stmts);
  }

  // ---- Soundness ----

  /** The binder the lint takes a name for is the one the use sees: nothing nearer binds the name,
      the constant is its block's only binding of it, the map parameter is the callback's first,
      and the same holds of the array behind the map. */
  ghost predicate Visible(site: Site) {
    site.arg.Id? ==>
      if MapValues(site.ctx, site.arg.name).Some? then ParamVisible(site.ctx, site.arg.name)
      else ConstVisible(site.ctx, site.arg.name)
  }

  /** Whatever a run passes to getFunction is passed at a call site the lint has listed, and is one of
      the texts it checked there, unless it reported the site UNCHECKED or took the name for another
      binder than the one the use sees. The run may be cut short at any point. */
  lemma LintIsSound(program: Stmts, fuel: nat, o: Oracle, k: nat)
    requires k < |Run(fuel, o, program).st.trace|
    ensures var obs := Run(fuel, o, program).st.trace[k];
      && obs.site in ProgramSites(program)
      && (Checked(obs.site).Some? && Visible(obs.site) ==> obs.value.VStr? && obs.value.text in Checked(obs.site).value)
  {
    var sites, start := ProgramSites(program), State([], [], 0);
    BlockKnown(sites, [], [], program);
    EnterOk(sites, start, program, None, []);
    var entered := Enter(start, program, None, []);
    assert Ready(sites, entered, 0, Inside(InBlock([], program), []));
    ExecKeeps(sites, fuel, o, entered, [], 0, [], program);
    var obs := Run(fuel, o, program).st.trace[k];
    assert ObsOk(sites, obs);
    if Checked(obs.site).Some? && Visible(obs.site) {
      VisibleIsChecked(obs);
    }
  }

  lemma VisibleIsChecked(obs: Obs)
    requires Checked(obs.site).Some? && Visible(obs.site)
    requires obs.site.arg.Id? ==> NameOk(obs.site.ctx, obs.site.arg.name, obs.value)
    requires obs.site.arg.Str? ==> obs.value == VStr(obs.site.arg.text)
    ensures obs.value.VStr? && obs.value.text in Checked(obs.site).value
  {
  }

  /** Nothing MISSING and nothing UNCHECKED against the ABI's function names. */
  ghost predicate Clean(program: Stmts, abi: string -> bool) {
    && (forall l :: l in AllLiterals(ProgramSites(program)) ==> abi(l.text))
    && Filter(ProgramSites(program), IsUnchecked()) == []
  }

  lemma {:induction false} LiteralListed(sites: seq<Site>, site: Site, text: string)
    requires site in sites && Checked(site).Some? && text in Checked(site).value
    ensures Literal(site, text) in AllLiterals(sites)
  {
    var init, last := sites[..|sites| - 1], sites[|sites| - 1];
    assert sites == init + [last];
    if site == last {
      var i :| 0 <= i < |Checked(site).value| && Checked(site).value[i] == text;
      assert LiteralsOf(site)[i] == Literal(site, text);
    } else {
      LiteralListed(init, site, text);
    }
  }

  /** A clean lint means that no run ever asks the ABI for a function it does not have. */
  lemma CleanLintNeverMisses(program: Stmts, abi: string -> bool, fuel: nat, o: Oracle, k: nat)
    requires forall s :: s in ProgramSites(program) ==> Visible(s)
    requires Clean(program, abi) && k < |Run(fuel, o, program).st.trace|
    ensures var v := Run(fuel, o, program).st.trace[k].value; v.VStr? && abi(v.text)
  {
    LintIsSound(program, fuel, o, k);
    var obs := Run(fuel, o, program).st.trace[k];
    FilterIn(ProgramSites(program), IsUnchecked());
    assert forall s :: s in ProgramSites(program) ==> !IsUnchecked()(s);
    LiteralListed(ProgramSites(program), obs.site, obs.value.text);
  }

  // ---- Programs without shadowing ----

  function NamesOf(params: seq<Binder>): set<string> {
    set p, name | p in params && name in NamesIn(p) :: name
  }

  ghost predicate DistinctParams(params: seq<Binder>) {
    forall i, j, name :: 0 <= i < j < |params| && Takes(params[i], name) ==> !Takes(params[j], name)
  }

  ghost predicate DistinctDecls(block: seq<Stmt>) {
    forall name :: DeclaredOnce(block, name)
  }

  /** The names of a function body or a program. */
  function BodyNames(stmts: Stmts): set<string> {
    DeclaredNames(stmts) + HoistedNames(stmts)
  }

  /** No name is bound again where a binding of it is in scope: `bound` are the names in scope. Two
      bindings of one name side by side are no matter. */
  ghost predicate ClearExpr(bound: set<string>, e: Expr)
    decreases e, 0
  {
    match e
    case Str(_) => true
    case Id(_) => true
    case Arr(items) => ClearAll(bound, items)
    case Arrow(params, body, result) =>
      && NamesOf(params) !! bound && DistinctParams(params)
      && ClearBody(bound + NamesOf(params), body)
      && ClearExpr(bound + NamesOf(params) + BodyNames(body), result)
    case MethodCall(recv, _, callback, rest) => ClearExpr(bound, recv) && ClearExpr(bound, callback)
      && ClearAll(bound, rest)
    case Call(callee, args) => ClearExpr(bound, callee) && ClearAll(bound, args)
    case GetFunction(arg) => ClearExpr(bound, arg)
    case Template(parts) => ClearAll(bound, parts)
    case Ternary(c, yes, no) => ClearExpr(bound, c) && ClearExpr(bound, yes) && ClearExpr(bound, no)
  }

  ghost predicate ClearAll(bound: set<string>, es: Exprs)
    decreases es, 0
  {
    es.More? ==> ClearExpr(bound, es.head) && ClearAll(bound, es.tail)
  }

  ghost predicate ClearBlock(bound: set<string>, stmts: Stmts)
    decreases stmts, 1
  {
    DeclaredNames(stmts) !! bound && DistinctDecls(Listed(stmts)) && ClearStmts(bound + DeclaredNames(stmts), stmts)
  }

  ghost predicate ClearBody(bound: set<string>, stmts: Stmts)
    decreases stmts, 1
  {
    && BodyNames(stmts) !! bound && DeclaredNames(stmts) !! HoistedNames(stmts) && DistinctDecls(Listed(stmts))
    && ClearStmts(bound + BodyNames(stmts), stmts)
  }

  ghost predicate ClearStmts(bound: set<string>, stmts: Stmts)
    decreases stmts, 0
  {
    stmts.Then? ==> ClearStmt(bound, stmts.first) && ClearStmts(bound, stmts.others)
  }

  ghost predicate ClearStmt(bound: set<string>, s: Stmt)
    decreases s, 0
  {
    match s
    case Decl(_, _, init) => ClearExpr(bound, init)
    case Do(e) => ClearExpr(bound, e)
    case Block(stmts) => ClearBlock(bound, stmts)
  }

  ghost predicate NoShadowing(program: Stmts) {
    ClearBody({}, program)
  }

  ghost predicate BoundIn(ctx: Context, name: string) {
    ctx != [] && (Binds(ctx, name) || BoundIn(ctx[1..], name))
  }

  ghost predicate OnceEach(ctx: Context)
    requires ctx != []
  {
    match ctx[0]
    case InBlock(_, _) =>
      DistinctDecls(Whole(ctx[0])) && forall name :: HoistedAt(ctx, name) ==> !DeclaredIn(Whole(ctx[0]), name)
    case InArrow(params, _) => DistinctParams(params)
  }

  /** The frames of a use bind different names, each once. */
  ghost predicate ClearCtx(ctx: Context) {
    ctx != [] ==>
      && OnceEach(ctx) && (forall name :: Binds(ctx, name) ==> !BoundIn(ctx[1..], name)) && ClearCtx(ctx[1..])
  }

  ghost predicate AllClear(sites: seq<Site>) {
    forall s :: s in sites ==> ClearCtx(s.ctx)
  }

  ghost predicate InScope(ctx: Context, bound: set<string>) {
    ClearCtx(ctx) && forall name :: BoundIn(ctx, name) ==> name in bound
  }

  lemma BothClear(a: seq<Site>, b: seq<Site>)
    requires AllClear(a) && AllClear(b)
    ensures AllClear(a + b)
  {
  }

  lemma ArrowInScope(ctx: Context, bound: set<string>, params: seq<Binder>, role: Role)
    requires InScope(ctx, bound) && NamesOf(params) !! bound && DistinctParams(params)
    ensures InScope(Inside(InArrow(params, role), ctx), bound + NamesOf(params))
  {
    var inner := Inside(InArrow(params, role), ctx);
    assert inner[1..] == ctx;
    forall name | TakenAmong(params, name) ensures name in NamesOf(params) {
      var i :| 0 <= i < |params| && Takes(params[i], name);
      assert params[i] in params && name in NamesIn(params[i]);
    }
  }

  /** The block declares `names`, each once and none of `outer`; in a body, with what `var` declares. */
  ghost predicate BlockClear(ctx: Context, outer: set<string>, names: set<string>, block: seq<Stmt>) {
    && names !! outer && DistinctDecls(block) && (forall name :: DeclaredIn(block, name) ==> name in names)
    && (ctx == [] || ctx[0].InArrow? ==>
          forall name :: HoistedIn(block, name) ==> name in names && !DeclaredIn(block, name))
  }

  lemma BlockInScope(ctx: Context, outer: set<string>, names: set<string>, before: seq<Stmt>, rest: Stmts)
    requires InScope(ctx, outer) && BlockClear(ctx, outer, names, before + Listed(rest))
    ensures InScope(Inside(InBlock(before, rest), ctx), outer + names)
  {
    hide DistinctDecls;
    var inner := Inside(InBlock(before, rest), ctx);
    assert inner[1..] == ctx && Whole(inner[0]) == before + Listed(rest);
    assert ctx != [] ==> inner[1] == ctx[0];
  }

  lemma BodyIsClear(ctx: Context, bound: set<string>, stmts: Stmts)
    requires BodyNames(stmts) !! bound && DeclaredNames(stmts) !! HoistedNames(stmts) && DistinctDecls(Listed(stmts))
    ensures BlockClear(ctx, bound, BodyNames(stmts), [] + Listed(stmts))
    ensures BlockClear(ctx, bound, BodyNames(stmts), Listed(stmts) + Listed(Empty))
  {
    hide DistinctDecls, DeclaredNames, HoistedNames;
    assert [] + Listed(stmts) == Listed(stmts) && Listed(stmts) + Listed(Empty) == Listed(stmts);
    forall name
      ensures name in DeclaredNames(stmts) <==> DeclaredIn(Listed(stmts), name)
      ensures name in HoistedNames(stmts) <==> HoistedIn(Listed(stmts), name) {
      DeclaredNamesBind(stmts, name);
    }
  }

  lemma NestedIsClear(ctx: Context, bound: set<string>, stmts: Stmts)
    requires DeclaredNames(stmts) !! bound && DistinctDecls(Listed(stmts)) && ctx != [] && ctx[0].InBlock?
    ensures BlockClear(ctx, bound, DeclaredNames(stmts), [] + Listed(stmts))
  {
    hide DistinctDecls, DeclaredNames;
    assert [] + Listed(stmts) == Listed(stmts);
    forall name ensures name in DeclaredNames(stmts) <==> DeclaredIn(Listed(stmts), name) {
      DeclaredNamesBind(stmts, name);
    }
  }

  lemma {:induction false} ExprSitesClear(ctx: Context, bound: set<string>, role: Role, e: Expr)
    requires InScope(ctx, bound) && ClearExpr(bound, e)
    ensures AllClear(SitesIn(ctx, role, e))
    decreases e, 2
  {
    hide InScope, AllClear, DistinctDecls, DistinctParams, NamesOf, BodyNames, ClearBody;
    match e
    case Str(_) => NoSites();
    case Id(_) => NoSites();
    case Arr(items) => AllSitesClear(ctx, bound, Elsewhere, items);
    case Arrow(params, body, result) => ArrowSitesClear(ctx, bound, role, e);
    case MethodCall(recv, property, callback, rest) =>
      var inner := RoleIn(property, recv);
      ExprSitesClear(ctx, bound, Elsewhere, recv);
      ExprSitesClear(ctx, bound, inner, callback);
      AllSitesClear(ctx, bound, inner, rest);
      BothClear(SitesIn(ctx, Elsewhere, recv), SitesIn(ctx, inner, callback));
      BothClear(SitesIn(ctx, Elsewhere, recv) + SitesIn(ctx, inner, callback), SitesAmong(ctx, inner, rest));
    case Call(callee, args) =>
      ExprSitesClear(ctx, bound, Elsewhere, callee);
      AllSitesClear(ctx, bound, Elsewhere, args);
      BothClear(SitesIn(ctx, Elsewhere, callee), SitesAmong(ctx, Elsewhere, args));
    case GetFunction(arg) =>
      ExprSitesClear(ctx, bound, Elsewhere, arg);
      OneSiteClear(ctx, bound, arg);
      BothClear([Site(ctx, arg)], SitesIn(ctx, Elsewhere, arg));
    case Template(parts) => AllSitesClear(ctx, bound, Elsewhere, parts);
    case Ternary(c, yes, no) =>
      ExprSitesClear(ctx, bound, Elsewhere, c);
      ExprSitesClear(ctx, bound, Elsewhere, yes);
      ExprSitesClear(ctx, bound, Elsewhere, no);
      BothClear(SitesIn(ctx, Elsewhere, c), SitesIn(ctx, Elsewhere, yes));
      BothClear(SitesIn(ctx, Elsewhere, c) + SitesIn(ctx, Elsewhere, yes), SitesIn(ctx, Elsewhere, no));
  }

  lemma NoSites()
    ensures AllClear([])
  {
  }

  lemma OneSiteClear(ctx: Context, bound: set<string>, arg: Expr)
    requires InScope(ctx, bound)
    ensures AllClear([Site(ctx, arg)])
  {
  }

  lemma {:induction false} ArrowSitesClear(ctx: Context, bound: set<string>, role: Role, e: Expr)
    requires InScope(ctx, bound) && e.Arrow? && ClearExpr(bound, e)
    ensures AllClear(SitesIn(ctx, role, e))
    decreases e, 1
  {
    hide InScope, AllClear, BlockClear;
    var inner, names := Inside(InArrow(e.params, role), ctx), bound + NamesOf(e.params);
    var last := Inside(InBlock(Listed(e.body), Empty), inner);
    ArrowInScope(ctx, bound, e.params, role);
    BodyIsClear(inner, names, e.body);
    BlockSitesClear(inner, names, BodyNames(e.body), [], e.body);
    BlockInScope(inner, names, BodyNames(e.body), Listed(e.body), Empty);
    ExprSitesClear(last, names + BodyNames(e.body), Elsewhere, e.result);
    BothClear(SitesInBlock(inner, [], e.body), SitesIn(last, Elsewhere, e.result));
  }

  lemma {:induction false} AllSitesClear(ctx: Context, bound: set<string>, role: Role, es: Exprs)
    requires InScope(ctx, bound) && ClearAll(bound, es)
    ensures AllClear(SitesAmong(ctx, role, es))
    decreases es, 2
  {
    hide InScope, AllClear;
    if es.NoMore? {
      NoSites();
    } else {
      ExprSitesClear(ctx, bound, role, es.head);
      AllSitesClear(ctx, bound, role, es.tail);
      BothClear(SitesIn(ctx, role, es.head), SitesAmong(ctx, role, es.tail));
    }
  }

  /** The rest of a block that declares `names`, within code that binds `outer`. */
  lemma {:induction false} BlockSitesClear(ctx: Context, outer: set<string>, names: set<string>, before: seq<Stmt>,
                                           stmts: Stmts)
    requires InScope(ctx, outer) && BlockClear(ctx, outer, names, before + Listed(stmts))
    requires ClearStmts(outer + names, stmts)
    ensures AllClear(SitesInBlock(ctx, before, stmts))
    decreases stmts, 2
  {
    hide InScope, AllClear, BlockClear;
    if stmts.Empty? {
      NoSites();
    } else {
      var here := Inside(InBlock(before, stmts), ctx);
      BlockInScope(ctx, outer, names, before, stmts);
      StmtSitesClear(here, outer + names, stmts.first);
      assert before + [stmts.first] + Listed(stmts.others) == before + Listed(stmts);
      BlockSitesClear(ctx, outer, names, before + [stmts.first], stmts.others);
      BothClear(SitesAt(here, stmts.first), SitesInBlock(ctx, before + [stmts.first], stmts.others));
    }
  }

  lemma {:induction false} StmtSitesClear(ctx: Context, bound: set<string>, s: Stmt)
    requires InScope(ctx, bound) && ClearStmt(bound, s) && ctx != [] && ctx[0].InBlock?
    ensures AllClear(SitesAt(ctx, s))
    decreases s, 2
  {
    match s
    case Decl(_, _, init) => ExprSitesClear(ctx, bound, Elsewhere, init);
    case Do(e) => ExprSitesClear(ctx, bound, Elsewhere, e);
    case Block(stmts) =>
      NestedIsClear(ctx, bound, stmts);
      BlockSitesClear(ctx, bound, DeclaredNames(stmts), [], stmts);
  }

  lemma {:induction false} FoundIsBound(ctx: Context, name: string)
    ensures ConstInitializer(ctx, name).Some? || MapValues(ctx, name).Some? ==> BoundIn(ctx, name)
  {
    if ctx == [] {
    } else {
      FoundIsBound(ctx[1..], name);
      if ctx[0].InBlock? && DeclaredAmong(ctx[0].before, name).Some? {
        var i := DeclaredIsFirst(ctx[0].before, name);
        assert Whole(ctx[0])[i] == ctx[0].before[i];
        assert DeclaresName(Whole(ctx[0])[i], name);
      }
      if ctx[0].InArrow? && Seen(ctx[0].params, name) {
        SeenIsTaken(ctx[0].params, name);
      }
    }
  }

  lemma {:induction false} ClearConst(ctx: Context, name: string)
    requires ClearCtx(ctx) && ConstInitializer(ctx, name).Some?
    ensures ConstVisible(ctx, name)
  {
    if ctx[0].InBlock? && DeclaredAmong(ctx[0].before, name).Some? {
      var i := DeclaredIsFirst(ctx[0].before, name);
      assert DeclaresName(Whole(ctx[0])[i], name);
    } else {
      FoundIsBound(ctx[1..], name);
      ClearConst(ctx[1..], name);
    }
  }

  lemma {:induction false} ClearParam(ctx: Context, name: string)
    requires ClearCtx(ctx) && MapValues(ctx, name).Some? && BoundFirst(ctx, name)
    ensures ParamVisible(ctx, name)
  {
    if ctx[0].InArrow? && Seen(ctx[0].params, name) {
      var recv := ctx[0].role.recv;
      if recv.Id? {
        ClearConst(ctx[1..], recv.name);
      }
    } else {
      FoundIsBound(ctx[1..], name);
      ClearParam(ctx[1..], name);
    }
  }

  /** If the site's argument is a map parameter, it is the callback's first. */
  predicate FirstParameter(site: Site) {
    site.arg.Id? && MapValues(site.ctx, site.arg.name).Some? ==> BoundFirst(site.ctx, site.arg.name)
  }

  /** In a program without shadowing, the lint takes every name it resolves for the right binder,
      except for later parameters of map callbacks. */
  lemma NoShadowingIsVisible(program: Stmts, site: Site)
    requires NoShadowing(program) && site in ProgramSites(program)
    requires Checked(site).Some? && FirstParameter(site)
    ensures Visible(site)
  {
    BodyIsClear([], {}, program);
    BlockSitesClear([], {}, BodyNames(program), [], program);
    if site.arg.Id? {
      if MapValues(site.ctx, site.arg.name).Some? {
        ClearParam(site.ctx, site.arg.name);
      } else {
        ClearConst(site.ctx, site.arg.name);
      }
    }
  }

  /** Without shadowing and with first parameters only, a clean lint is a guarantee for every run. */
  lemma CleanWithoutShadowing(program: Stmts, abi: string -> bool, fuel: nat, o: Oracle, k: nat)
    requires NoShadowing(program) && forall s :: s in ProgramSites(program) ==> FirstParameter(s)
    requires Clean(program, abi) && k < |Run(fuel, o, program).st.trace|
    ensures var v := Run(fuel, o, program).st.trace[k].value; v.VStr? && abi(v.text)
  {
    FilterIn(ProgramSites(program), IsUnchecked());
    assert forall s :: s in ProgramSites(program) ==> !IsUnchecked()(s);
    forall s | s in ProgramSites(program) ensures Visible(s) {
      NoShadowingIsVisible(program, s);
    }
    CleanLintNeverMisses(program, abi, fuel, o, k);
  }

  /** Any number of sibling maps whose callbacks share a parameter name. */
  function SiblingMaps(arrays: seq<Exprs>, name: string): Stmts {
    if arrays == [] then Empty
    else Then(Do(MethodCall(Arr(arrays[0]), "map", Probe([Named(name)], name), NoMore)), SiblingMaps(arrays[1..], name))
  }

  lemma {:induction false} ClearLiterals(bound: set<string>, items: Exprs)
    requires Texts(items).Some?
    ensures ClearAll(bound, items)
  {
    if items.NoMore? {
    } else {
      ClearLiterals(bound, items.tail);
    }
  }

  /** Reusing a name side by side is no shadowing. */
  lemma {:induction false} SiblingsDoNotShadow(arrays: seq<Exprs>, name: string)
    requires forall k :: 0 <= k < |arrays| ==> Texts(arrays[k]).Some?
    ensures NoShadowing(SiblingMaps(arrays, name))
  {
    hide ClearExpr, DistinctDecls;
    SiblingsDeclareNothing(arrays, name);
    SiblingsAreClear(arrays, name);
    assert {} + BodyNames(SiblingMaps(arrays, name)) == {};
  }

  lemma {:induction false} SiblingsDeclareNothing(arrays: seq<Exprs>, name: string)
    ensures BodyNames(SiblingMaps(arrays, name)) == {} && DistinctDecls(Listed(SiblingMaps(arrays, name)))
    ensures forall s :: s in Listed(SiblingMaps(arrays, name)) ==> s.Do?
  {
    if arrays == [] {
    } else {
      var program := SiblingMaps(arrays, name);
      SiblingsDeclareNothing(arrays[1..], name);
      assert HoistedBy(program.first) == {} && DeclaredNames(program) == DeclaredNames(program.others);
      assert Listed(program) == [program.first] + Listed(program.others);
      NothingDeclared(Listed(program));
    }
  }

  lemma NothingDeclared(block: seq<Stmt>)
    requires forall s :: s in block ==> s.Do?
    ensures DistinctDecls(block)
  {
    assert forall i :: 0 <= i < |block| ==> block[i] in block;
  }

  lemma {:induction false} SiblingsAreClear(arrays: seq<Exprs>, name: string)
    requires forall k :: 0 <= k < |arrays| ==> Texts(arrays[k]).Some?
    ensures ClearStmts({}, SiblingMaps(arrays, name))
  {
    if arrays == [] {
    } else {
      SiblingsAreClear(arrays[1..], name);
      ClearLiterals({}, arrays[0]);
      ProbeIsClear(name);
      assert ClearStmt({}, SiblingMaps(arrays, name).first);
    }
  }

  lemma ProbeIsClear(name: string)
    ensures ClearExpr({}, Probe([Named(name)], name))
  {
    assert Named(name) in [Named(name)] && name in NamesIn(Named(name));
    assert BodyNames(Empty) == {} && Listed(Empty) == [];
  }

  // ---- What the lint does resolve ----

  /** Nothing on the way out binds the name: no constant in a block, no parameter of an arrow. */
  predicate Free(inner: Context, name: string) {
    forall k :: 0 <= k < |inner| ==> match inner[k]
      case InBlock(before, _) => DeclaredAmong(before, name).None?
      case InArrow(params, _) => !Seen(params, name)
  }

  /** The constant literal that the use sees is the one that is checked: the nearest one that
      precedes the use, the first of its name in its block, however deep inside the use stands. */
  lemma {:induction false} ConstantIsChecked(inner: Context, before: seq<Stmt>, name: string, text: string,
                                             later: seq<Stmt>, rest: Stmts, outer: Context)
    requires Free(inner, name) && DeclaredAmong(before, name).None? && MapValues(outer, name).None?
    ensures var block := InBlock(before + [Decl(Const, Named(name), Str(text))] + later, rest);
      Checked(Site(inner + [block] + outer, Id(name))) == Some([text])
  {
    var here := InBlock(before + [Decl(Const, Named(name), Str(text))] + later, rest);
    var ctx := inner + [here] + outer;
    if inner == [] {
      assert ctx[0] == here && ctx[1..] == outer;
      DeclaredAfter(before, Decl(Const, Named(name), Str(text)), later);
    } else {
      assert ctx[0] == inner[0] && ctx[1..] == inner[1..] + [here] + outer;
      ConstantIsChecked(inner[1..], before, name, text, later, rest, outer);
    }
  }

  lemma {:induction false} DeclaredAfter(before: seq<Stmt>, d: Stmt, later: seq<Stmt>)
    requires d.Decl? && d.kind.Const? && d.target.Named? && DeclaredAmong(before, d.target.name).None?
    ensures DeclaredAmong(before + [d] + later, d.target.name) == Some(d.init)
  {
    if before == [] {
    } else {
      assert (before + [d] + later)[1..] == before[1..] + [d] + later;
      DeclaredAfter(before[1..], d, later);
    }
  }

  // ---- The map expansion, element by element ----

  /** `(params) => iface.getFunction(name)`. */
  function Probe(params: seq<Binder>, name: string): Expr {
    Arrow(params, Empty, GetFunction(Id(name)))
  }

  function ProbeCtx(ctx: Context, role: Role, params: seq<Binder>): Context {
    Inside(InArrow(params, role), ctx)
  }

  function ProbeSite(ctx: Context, role: Role, params: seq<Binder>, name: string): Site {
    Site(Inside(InBlock([], Empty), ProbeCtx(ctx, role, params)), Id(name))
  }

  function ProbeClosure(ctx: Context, role: Role, params: seq<Binder>, name: string, scope: nat): Value {
    VClosure(params, Empty, GetFunction(Id(name)), ProbeCtx(ctx, role, params), scope)
  }

  /** Parameter i is the last that takes the name. */
  predicate LastTakes(params: seq<Binder>, i: nat, name: string) {
    i < |params| && Takes(params[i], name) && !TakenAmong(params[i + 1..], name)
  }

  lemma {:induction false} BindLookup(o: Oracle, clock: nat, params: seq<Binder>, args: seq<Value>, i: nat,
                                      name: string)
    requires LastTakes(params, i, name)
    ensures name in Bind(o, clock, params, args)
    ensures Bind(o, clock, params, args)[name] == Some(ParamValue(o, clock, params[i], args, i, name))
  {
    hide Bind, ParamValue;
    var n := |params| - 1;
    BindLast(o, clock, params, args, name);
    if i == n {
    } else {
      assert params[i + 1..] == params[..n][i + 1..] + [params[n]];
      TakenInLast(params[..n][i + 1..], params[n], name);
      BindLookup(o, clock, params[..n], args, i, name);
    }
  }

  lemma ProbeLookup(o: Oracle, st: State, closure: Value, i: nat, name: string, args: seq<Value>)
    requires closure.VClosure? && closure.body.Empty? && LastTakes(closure.params, i, name)
    ensures var entered := Called(o, st, closure, args);
      && Lookup(entered.heap, |st.heap| + 1, name) == Some(ParamValue(o, st.clock, closure.params[i], args, i, name))
      && entered.trace == st.trace
  {
    hide ParamValue, LastTakes;
    var entered := Called(o, st, closure, args);
    BindLookup(o, st.clock, closure.params, args, i, name);
    var inner, outer := entered.heap[|st.heap| + 1], entered.heap[|st.heap|];
    assert outer.vars == Bind(o, st.clock, closure.params, args);
    assert inner.vars == map[] && inner.parent == Some(|st.heap|);
    assert Lookup(entered.heap, |st.heap|, name) == outer.vars[name];
  }

  // ---- Running single statements ----

  lemma NothingToRun(fuel: nat, o: Oracle, st: State, ctx: Context, scope: nat, before: seq<Stmt>)
    requires fuel > 0
    ensures Exec(fuel, o, st, ctx, scope, before, Empty) == Ok(st, VOpaque)
  {
  }

  lemma RunFirst(fuel: nat, o: Oracle, st: State, ctx: Context, scope: nat, before: seq<Stmt>, stmts: Stmts, st1: State)
    requires fuel > 0 && stmts.Then?
    requires Step(fuel, o, st, Inside(InBlock(before, stmts), ctx), scope, stmts.first) == Ok(st1, VOpaque)
    ensures Exec(fuel, o, st, ctx, scope, before, stmts)
         == Exec(fuel - 1, o, st1, ctx, scope, before + [stmts.first], stmts.others)
  {
    hide Step;
  }

  /** `kind name = "text"`. */
  lemma DeclareText(fuel: nat, o: Oracle, st: State, ctx: Context, scope: nat, kind: Kind, name: string, text: string)
    requires fuel > 1
    ensures Step(fuel, o, st, ctx, scope, Decl(kind, Named(name), Str(text)))
         == Ok(Assign(st, scope, kind, name, VStr(text)), VOpaque)
  {
    hide Assign;
    assert Eval(fuel - 1, o, st, ctx, scope, Elsewhere, Str(text)) == Ok(st, VStr(text));
  }

  /** `iface.getFunction(name)`. */
  lemma Ask(fuel: nat, o: Oracle, st: State, ctx: Context, scope: nat, name: string, v: Value)
    requires fuel > 1 && Lookup(st.heap, scope, name) == Some(v)
    ensures Eval(fuel, o, st, ctx, scope, Elsewhere, GetFunction(Id(name)))
         == Ok(Observe(st, Obs(Site(ctx, Id(name)), v)), VOpaque)
  {
    hide Lookup;
    assert Eval(fuel - 1, o, st, ctx, scope, Elsewhere, Id(name)) == Ok(st, v);
  }

  lemma AskStops(fuel: nat, o: Oracle, st: State, ctx: Context, scope: nat, name: string)
    requires fuel <= 1
    ensures Eval(fuel, o, st, ctx, scope, Elsewhere, GetFunction(Id(name))) == Stop(st)
  {
    assert Eval(0, o, st, ctx, scope, Elsewhere, Id(name)) == Stop(st);
  }

  /** A call of an arrow without statements is its result. */
  lemma CallResult(fuel: nat, o: Oracle, st: State, closure: Value, args: seq<Value>)
    requires closure.VClosure? && closure.body.Empty? && fuel > 1
    ensures Apply(fuel, o, st, closure, args)
         == Eval(fuel - 1, o, Called(o, st, closure, args), Inside(InBlock([], Empty), closure.ctx), |st.heap| + 1,
                 Elsewhere, closure.result)
  {
    hide Eval, Called;
    NothingToRun(fuel - 1, o, Called(o, st, closure, args), closure.ctx, |st.heap| + 1, []);
  }

  /** One call of the probe observes what the named parameter is given. */
  lemma ProbeObserves(fuel: nat, o: Oracle, st: State, ctx: Context, role: Role, params: seq<Binder>, i: nat,
                      name: string, scope: nat, args: seq<Value>)
    requires LastTakes(params, i, name)
    ensures var out := Apply(fuel, o, st, ProbeClosure(ctx, role, params, name, scope), args);
      && (fuel > 2 ==> out.Ok?)
      && (out.Ok? ==> out.st.trace == st.trace + [Obs(ProbeSite(ctx, role, params, name),
                                                      ParamValue(o, st.clock, params[i], args, i, name))])
  {
    hide Eval, Called, TakenAmong, ParamValue;
    var closure := ProbeClosure(ctx, role, params, name, scope);
    var entered, inner := Called(o, st, closure, args), Inside(InBlock([], Empty), closure.ctx);
    if fuel > 1 {
      CallResult(fuel, o, st, closure, args);
      if fuel == 2 {
        AskStops(1, o, entered, inner, |st.heap| + 1, name);
      } else {
        ProbeLookup(o, st, closure, i, name, args);
        Ask(fuel - 1, o, entered, inner, |st.heap| + 1, name, ParamValue(o, st.clock, params[i], args, i, name));
      }
    }
  }

  function Observations(site: Site, vs: seq<Value>): seq<Obs> {
    Map(vs, v => Obs(site, v))
  }

  lemma OnlyParameter(name: string)
    ensures LastTakes([Named(name)], 0, name)
  {
  }

  lemma {:induction false} VisitObserves(fuel: nat, o: Oracle, st: State, ctx: Context, role: Role, name: string,
                                         scope: nat, items: seq<Value>, k: nat, done: seq<Value>)
    requires k <= |items|
    ensures var out := Visit(fuel, o, st, ProbeClosure(ctx, role, [Named(name)], name, scope), VArr(items), k, done);
      out.Ok? ==> out.st.trace == st.trace + Observations(ProbeSite(ctx, role, [Named(name)], name), items[k..])
    decreases fuel
  {
    hide ProbeSite, Apply, LastTakes;
    var site, closure := ProbeSite(ctx, role, [Named(name)], name), ProbeClosure(ctx, role, [Named(name)], name, scope);
    if fuel == 0 || k == |items| {
    } else {
      var args := [items[k], VNum(k), VArr(items)];
      OnlyParameter(name);
      ProbeObserves(fuel - 1, o, st, ctx, role, [Named(name)], 0, name, scope, args);
      var out := Apply(fuel - 1, o, st, closure, args);
      if out.Ok? {
        VisitObserves(fuel - 1, o, out.st, ctx, role, name, scope, items, k + 1, done + [out.v]);
        OneObservation(site, items, k);
      }
    }
  }

  lemma OneObservation(site: Site, items: seq<Value>, k: nat)
    requires k < |items|
    ensures Observations(site, items[k..]) == [Obs(site, items[k])] + Observations(site, items[k + 1..])
  {
    assert items[k..] == [items[k]] + items[k + 1..];
  }

  lemma ProbeIsChecked(ctx: Context, recv: Expr, params: seq<Binder>, name: string)
    requires ArrayTexts(ctx, recv).Some? && Seen(params, name)
    ensures Checked(ProbeSite(ctx, MapCallback(recv), params, name)) == ArrayTexts(ctx, recv)
  {
    var f := InArrow(params, MapCallback(recv));
    var inner := Inside(f, ctx);
    assert inner[0] == f && inner[1..] == ctx;
    assert MapValues(inner, name) == ArrayTexts(ctx, recv);
    assert Inside(InBlock([], Empty), inner)[1..] == inner;
  }

  /** Expanding `recv.map(name => iface.getFunction(name))` is exact, for an inline array as for a
      constant one: a completed run asks for the array's elements, each once, in order, and those
      are the texts the lint checked. */
  lemma ExpansionIsExact(sites: seq<Site>, fuel: nat, o: Oracle, st: State, ctx: Context, scope: nat, recv: Expr,
                         name: string)
    requires Ready(sites, st, scope, ctx) && ArrayVisible(ctx, recv)
    ensures
      var site := ProbeSite(ctx, MapCallback(recv), [Named(name)], name);
      && Checked(site) == ArrayTexts(ctx, recv)
      && var probe := Probe([Named(name)], name);
         var out := Eval(fuel, o, st, ctx, scope, Elsewhere, MethodCall(recv, "map", probe, NoMore));
         out.Ok? ==> out.st.trace == st.trace + Observations(site, ArrayOf(ArrayTexts(ctx, recv).value).items)
  {
    hide *;
    ItsNameIsSeen(name);
    VisibleArray(ctx, recv);
    ProbeIsChecked(ctx, recv, [Named(name)], name);
    if fuel <= 1 {
      TooLittleFuel(fuel, o, st, ctx, scope, recv, Probe([Named(name)], name));
    } else {
      ArrayEvaluates(sites, fuel - 1, o, st, ctx, scope, recv);
      MapProbeAsks(fuel, o, st, ctx, scope, recv, name, ArrayOf(ArrayTexts(ctx, recv).value));
    }
  }

  lemma VisibleArray(ctx: Context, recv: Expr)
    requires ArrayVisible(ctx, recv)
    ensures ArrayTexts(ctx, recv).Some? && ArrayOf(ArrayTexts(ctx, recv).value).VArr?
  {
    hide ConstVisible;
  }

  lemma ItsNameIsSeen(name: string)
    ensures Seen([Named(name)], name)
  {
  }

  lemma TooLittleFuel(fuel: nat, o: Oracle, st: State, ctx: Context, scope: nat, recv: Expr, callback: Expr)
    requires fuel <= 1
    ensures Eval(fuel, o, st, ctx, scope, Elsewhere, MethodCall(recv, "map", callback, NoMore)).Stop?
  {
  }

  lemma MapProbeAsks(fuel: nat, o: Oracle, st: State, ctx: Context, scope: nat, recv: Expr, name: string, whole: Value)
    requires fuel > 1 && whole.VArr?
    requires var out := Eval(fuel - 1, o, st, ctx, scope, Elsewhere, recv); out.st == st && (out.Ok? ==> out.v == whole)
    ensures var probe := Probe([Named(name)], name);
      var out := Eval(fuel, o, st, ctx, scope, Elsewhere, MethodCall(recv, "map", probe, NoMore));
      out.Ok? ==>
        out.st.trace == st.trace + Observations(ProbeSite(ctx, MapCallback(recv), [Named(name)], name), whole.items)
  {
    hide ProbeSite, Observations, Visit, EvalAll;
    var params := [Named(name)];
    if Eval(fuel - 1, o, st, ctx, scope, Elsewhere, recv).Ok? {
      MapCalls(fuel, o, st, ctx, scope, recv, Probe(params, name), whole);
      VisitObserves(fuel - 1, o, st, ctx, MapCallback(recv), name, scope, whole.items, 0, []);
      assert whole.items[0..] == whole.items;
    }
  }

  /** A map over an array whose callback is an arrow visits the array with the arrow's closure. */
  lemma MapCalls(fuel: nat, o: Oracle, st: State, ctx: Context, scope: nat, recv: Expr, callback: Expr, whole: Value)
    requires fuel > 1 && whole.VArr? && callback.Arrow?
    requires Eval(fuel - 1, o, st, ctx, scope, Elsewhere, recv) == Ok(st, whole)
    ensures
      var out := Eval(fuel, o, st, ctx, scope, Elsewhere, MethodCall(recv, "map", callback, NoMore));
      var inner := Inside(InArrow(callback.params, MapCallback(recv)), ctx);
      var closure := VClosure(callback.params, callback.body, callback.result, inner, scope);
      out == Visit(fuel - 1, o, st, closure, whole, 0, [])
  {
    hide Visit;
    assert Eval(fuel - 1, o, st, ctx, scope, MapCallback(recv), callback).Ok?;
    assert EvalAll(fuel - 1, o, st, ctx, scope, MapCallback(recv), NoMore, []) == Ok(st, VArr([]));
  }

  lemma ArrayEvaluates(sites: seq<Site>, fuel: nat, o: Oracle, st: State, ctx: Context, scope: nat, recv: Expr)
    requires Ready(sites, st, scope, ctx) && ArrayVisible(ctx, recv) && fuel > 0
    ensures var out := Eval(fuel, o, st, ctx, scope, Elsewhere, recv);
      out.st == st && (out.Ok? ==> out.v == ArrayOf(ArrayTexts(ctx, recv).value))
  {
    hide *;
    VisibleArray(ctx, recv);
    if recv.Arr? {
      LiteralArray(fuel, o, st, ctx, scope, recv);
    } else {
      NamedArray(sites, fuel, o, st, ctx, scope, recv);
    }
  }

  lemma LiteralArray(fuel: nat, o: Oracle, st: State, ctx: Context, scope: nat, recv: Expr)
    requires recv.Arr? && ArrayTexts(ctx, recv).Some? && fuel > 0
    ensures var out := Eval(fuel, o, st, ctx, scope, Elsewhere, recv);
      out.st == st && (out.Ok? ==> out.v == ArrayOf(ArrayTexts(ctx, recv).value))
  {
    hide ConstInitializer;
    TextsEvaluate(fuel - 1, o, st, ctx, scope, recv.items, []);
    var vs := ArrayOf(Texts(recv.items).value).items;
    assert [] + vs == vs;
  }

  lemma NamedArray(sites: seq<Site>, fuel: nat, o: Oracle, st: State, ctx: Context, scope: nat, recv: Expr)
    requires Ready(sites, st, scope, ctx) && ArrayVisible(ctx, recv) && !recv.Arr? && fuel > 0
    ensures var out := Eval(fuel, o, st, ctx, scope, Elsewhere, recv);
      out.st == st && (out.Ok? ==> out.v == ArrayOf(ArrayTexts(ctx, recv).value))
  {
    hide ConstVisible, ScopeOk, Good, ParamVisible, ArrayOf;
    LookupOk(At(sites, st), st.heap, scope, ctx, recv.name);
  }

  // ---- Names the lint takes for the wrong binder ----

  /** Everything the environment supplies is this text. */
  function Always(text: string): Oracle {
    Oracle((clock, name) => Own(text), clock => [], clock => 0, clock => true)
  }

  lemma OneText(fuel: nat, o: Oracle, st: State, ctx: Context, scope: nat, text: string)
    requires fuel > 3
    ensures Texts(More(Str(text), NoMore)) == Some([text])
    ensures Eval(fuel, o, st, ctx, scope, Elsewhere, Arr(More(Str(text), NoMore))) == Ok(st, VArr([VStr(text)]))
  {
    assert Texts(NoMore) == Some([]) && [text] + [] == [text];
    assert Eval(fuel - 2, o, st, ctx, scope, Elsewhere, Str(text)) == Ok(st, VStr(text));
    assert [] + [VStr(text)] == [VStr(text)];
    assert EvalAll(fuel - 2, o, st, ctx, scope, Elsewhere, NoMore, [VStr(text)]) == Ok(st, VArr([VStr(text)]));
  }

  /** `["text"].map(params => iface.getFunction(name))`: one call, with element, index and array. */
  lemma OneCallback(o: Oracle, st: State, ctx: Context, scope: nat, text: string, params: seq<Binder>, i: nat,
                    name: string)
    requires LastTakes(params, i, name)
    ensures
      var recv, whole := Arr(More(Str(text), NoMore)), VArr([VStr(text)]);
      var out := Eval(9, o, st, ctx, scope, Elsewhere, MethodCall(recv, "map", Probe(params, name), NoMore));
      && out.Ok?
      && out.st.trace == st.trace + [Obs(ProbeSite(ctx, MapCallback(recv), params, name),
                                         ParamValue(o, st.clock, params[i], [VStr(text), VNum(0), whole], i, name))]
  {
    hide ProbeSite, LastTakes, ParamValue, Apply, Eval;
    var recv, whole := Arr(More(Str(text), NoMore)), VArr([VStr(text)]);
    OneText(8, o, st, ctx, scope, text);
    MapCalls(9, o, st, ctx, scope, recv, Probe(params, name), whole);
    var cb := ProbeClosure(ctx, MapCallback(recv), params, name, scope);
    ProbeObserves(7, o, st, ctx, MapCallback(recv), params, i, name, scope, [VStr(text), VNum(0), whole]);
    var out := Apply(7, o, st, cb, [VStr(text), VNum(0), whole]);
    assert Visit(7, o, out.st, cb, whole, 1, [] + [out.v]) == Ok(out.st, VArr([] + [out.v]));
    assert Visit(8, o, st, cb, whole, 0, []) == Visit(7, o, out.st, cb, whole, 1, [] + [out.v]);
  }

  /** In a callback's second parameter the lint sees the array's texts too, but it is the index. */
  lemma IndexIsMisread(o: Oracle, st: State, ctx: Context, scope: nat, text: string, name: string, index: string)
    requires name != index
    ensures
      var recv, params := Arr(More(Str(text), NoMore)), [Named(name), Named(index)];
      var out := Eval(9, o, st, ctx, scope, Elsewhere, MethodCall(recv, "map", Probe(params, index), NoMore));
      var site := ProbeSite(ctx, MapCallback(recv), params, index);
      && Checked(site) == Some([text])
      && out.Ok? && out.st.trace == st.trace + [Obs(site, VNum(0))]
  {
    var params := [Named(name), Named(index)];
    assert params[1] == Named(index);
    assert LastTakes(params, 1, index);
    hide Eval, ProbeSite;
    OneText(9, o, st, ctx, scope, text);
    ProbeIsChecked(ctx, Arr(More(Str(text), NoMore)), params, index);
    OneCallback(o, st, ctx, scope, text, params, 1, index);
  }

  /** The rest of the arguments is seen as an element too, but it is an array. */
  lemma RestIsMisread(o: Oracle, st: State, ctx: Context, scope: nat, text: string, name: string)
    ensures
      var recv, params := Arr(More(Str(text), NoMore)), [Rest(name)];
      var out := Eval(9, o, st, ctx, scope, Elsewhere, MethodCall(recv, "map", Probe(params, name), NoMore));
      var site := ProbeSite(ctx, MapCallback(recv), params, name);
      && Checked(site) == Some([text])
      && out.Ok? && out.st.trace == st.trace + [Obs(site, VArr([VStr(text), VNum(0), VArr([VStr(text)])]))]
  {
    var params := [Rest(name)];
    assert params[0] == Rest(name);
    assert LastTakes(params, 0, name);
    hide Eval, ProbeSite;
    OneText(9, o, st, ctx, scope, text);
    ProbeIsChecked(ctx, Arr(More(Str(text), NoMore)), params, name);
    OneCallback(o, st, ctx, scope, text, params, 0, name);
  }

  /** A block without a constant of the name, or an arrow without a parameter the lint sees, does not
      change what it concludes. */
  lemma WalkOut(f: Frame, ctx: Context, name: string)
    requires f.InBlock? ==> DeclaredAmong(f.before, name).None?
    requires f.InArrow? ==> !Seen(f.params, name)
    ensures Checked(Site(Inside(f, ctx), Id(name))) == Checked(Site(ctx, Id(name)))
  {
    assert Inside(f, ctx)[1..] == ctx;
  }

  lemma ConstantHere(before: seq<Stmt>, rest: Stmts, name: string, text: string)
    requires DeclaredAmong(before, name) == Some(Str(text))
    ensures Checked(Site([InBlock(before, rest)], Id(name))) == Some([text])
  {
    var ctx := [InBlock(before, rest)];
    assert ctx[1..] == [];
    assert MapValues(ctx, name) == None;
  }

  /** A destructuring parameter of the same name hides a constant at run time, but not from the lint:
      whatever the name is given is passed, and the constant is checked. */
  lemma PatternIsMisread(st: State, scope: nat, before: seq<Stmt>, rest: Stmts, item: string, names: seq<string>,
                         name: string, text: string, other: string)
    requires DeclaredAmong(before, name) == Some(Str(text)) && name in names
    ensures
      var ctx, recv, params := [InBlock(before, rest)], Arr(More(Str(item), NoMore)), [Pattern(names)];
      var probe := Probe(params, name);
      var out := Eval(9, Always(other), st, ctx, scope, Elsewhere, MethodCall(recv, "map", probe, NoMore));
      var site := ProbeSite(ctx, MapCallback(recv), params, name);
      && Checked(site) == Some([text]) && !Visible(site)
      && out.Ok? && out.st.trace == st.trace + [Obs(site, VStr(other))]
  {
    var ctx, recv, params := [InBlock(before, rest)], Arr(More(Str(item), NoMore)), [Pattern(names)];
    assert params[0] == Pattern(names);
    assert LastTakes(params, 0, name);
    hide Eval;
    OneCallback(Always(other), st, ctx, scope, item, params, 0, name);
    ConstantHere(before, rest, name, text);
    var f := InArrow(params, MapCallback(recv));
    WalkOut(f, ctx, name);
    WalkOut(InBlock([], Empty), Inside(f, ctx), name);
    PatternNotVisible(f, ctx, name);
  }

  lemma NoExpansion(f: Frame, ctx: Context, name: string)
    requires f.InArrow? ==> !Seen(f.params, name)
    ensures MapValues(Inside(f, ctx), name) == MapValues(ctx, name)
  {
    assert Inside(f, ctx)[1..] == ctx;
  }

  lemma PatternNotVisible(f: Frame, ctx: Context, name: string)
    requires f.InArrow? && !Seen(f.params, name) && TakenAmong(f.params, name) && |ctx| == 1 && ctx[0].InBlock?
    ensures !Visible(Site(Inside(InBlock([], Empty), Inside(f, ctx)), Id(name)))
  {
    var all := Inside(InBlock([], Empty), Inside(f, ctx));
    assert all[1..] == Inside(f, ctx) && all[1] == f && all[1..][1..] == ctx && ctx[1..] == [];
    NoExpansion(f, ctx, name);
    NoExpansion(InBlock([], Empty), Inside(f, ctx), name);
    assert MapValues(ctx, name).None?;
    assert Binds(Inside(f, ctx), name) && !ConstVisible(Inside(f, ctx), name);
  }

  /** So does a plain parameter. */
  lemma ParameterIsMisread(o: Oracle, st: State, scope: nat, before: seq<Stmt>, rest: Stmts, name: string, text: string,
                           other: string)
    requires DeclaredAmong(before, name) == Some(Str(text)) && text != other
    ensures
      var ctx := [InBlock(before, rest)];
      var out := Eval(9, o, st, ctx, scope, Elsewhere, Call(Probe([Named(name)], name), More(Str(other), NoMore)));
      var site := ProbeSite(ctx, Elsewhere, [Named(name)], name);
      && Checked(site) == Some([text])
      && out.Ok? && out.st.trace == st.trace + [Obs(site, VStr(other))]
  {
    hide Apply, ProbeSite, LastTakes;
    var ctx, params := [InBlock(before, rest)], [Named(name)];
    ParameterWalk(before, rest, name, text);
    var args := [] + [VStr(other)];
    assert Eval(8, o, st, ctx, scope, Elsewhere, Probe(params, name))
        == Ok(st, ProbeClosure(ctx, Elsewhere, params, name, scope));
    assert EvalAll(8, o, st, ctx, scope, Elsewhere, More(Str(other), NoMore), []) == Ok(st, VArr(args));
    OnlyParameter(name);
    ProbeObserves(8, o, st, ctx, Elsewhere, params, 0, name, scope, args);
  }

  lemma ParameterWalk(before: seq<Stmt>, rest: Stmts, name: string, text: string)
    requires DeclaredAmong(before, name) == Some(Str(text))
    ensures Checked(ProbeSite([InBlock(before, rest)], Elsewhere, [Named(name)], name)) == Some([text])
  {
    var ctx := [InBlock(before, rest)];
    var inner := ProbeCtx(ctx, Elsewhere, [Named(name)]);
    assert inner[1..] == ctx && ctx[1..] == [] && Inside(InBlock([], Empty), inner)[1..] == inner;
    assert MapValues(inner, name) == None && MapValues(Inside(InBlock([], Empty), inner), name) == None;
    assert ConstString(ctx, name) == Some(text) && ConstString(inner, name) == Some(text);
  }

  /** So does a `let` in an inner block. */
  lemma LetIsMisread(o: Oracle, st: State, scope: nat, before: seq<Stmt>, rest: Stmts, name: string, text: string,
                     other: string)
    requires DeclaredAmong(before, name) == Some(Str(text)) && text != other
    ensures
      var ctx := [InBlock(before, rest)];
      var letOther, use := Decl(Let, Named(name), Str(other)), Do(GetFunction(Id(name)));
      var block := Then(letOther, Then(use, Empty));
      var out := Exec(9, o, Enter(st, block, Some(scope), ctx), ctx, |st.heap|, [], block);
      var site := Site(Inside(InBlock([letOther], Then(use, Empty)), ctx), Id(name));
      && Checked(site) == Some([text])
      && out.Ok? && out.st.trace == st.trace + [Obs(site, VStr(other))]
  {
    hide Step, Assign, Enter, Exec, Checked;
    var ctx, d, use := [InBlock(before, rest)], Decl(Let, Named(name), Str(other)), Do(GetFunction(Id(name)));
    var block, entered := Then(d, Then(use, Empty)), Enter(st, Then(d, Then(use, Empty)), Some(scope), ctx);
    var here := Inside(InBlock([d], Then(use, Empty)), ctx);
    var st1 := Assign(entered, |st.heap|, Let, name, VStr(other));
    LetHides(st, ctx, scope, name, other);
    DeclareText(9, o, entered, Inside(InBlock([], block), ctx), |st.heap|, Let, name, other);
    RunFirst(9, o, entered, ctx, |st.heap|, [], block, st1);
    assert [] + [d] == [d];
    AskFirst(8, o, st1, ctx, |st.heap|, [d], name, VStr(other));
    ConstantHere(before, rest, name, text);
    WalkOut(InBlock([d], Then(use, Empty)), ctx, name);
  }

  /** A block that ends in `iface.getFunction(name);`. */
  lemma AskFirst(fuel: nat, o: Oracle, st: State, ctx: Context, scope: nat, before: seq<Stmt>, name: string, v: Value)
    requires fuel > 2 && Lookup(st.heap, scope, name) == Some(v)
    ensures
      var last := Then(Do(GetFunction(Id(name))), Empty);
      Exec(fuel, o, st, ctx, scope, before, last)
      == Ok(Observe(st, Obs(Site(Inside(InBlock(before, last), ctx), Id(name)), v)), VOpaque)
  {
    hide Eval, Lookup;
    var last := Then(Do(GetFunction(Id(name))), Empty);
    var here := Inside(InBlock(before, last), ctx);
    Ask(fuel - 1, o, st, here, scope, name, v);
    var st1 := Observe(st, Obs(Site(here, Id(name)), v));
    RunFirst(fuel, o, st, ctx, scope, before, last, st1);
    NothingToRun(fuel - 1, o, st1, ctx, scope, before + [last.first]);
  }

  lemma LetHides(st: State, ctx: Context, scope: nat, name: string, other: string)
    requires ctx != [] && ctx[0].InBlock?
    ensures
      var d, use := Decl(Let, Named(name), Str(other)), Do(GetFunction(Id(name)));
      var entered := Enter(st, Then(d, Then(use, Empty)), Some(scope), ctx);
      var st1 := Assign(entered, |st.heap|, Let, name, VStr(other));
      && DeclaredAmong([d], name).None?
      && Lookup(st1.heap, |st.heap|, name) == Some(VStr(other)) && st1.trace == st.trace
  {
    var d, use := Decl(Let, Named(name), Str(other)), Do(GetFunction(Id(name)));
    assert [d][1..] == [];
    assert DeclaredNames(Then(use, Empty)) == {} && DeclaredNames(Then(d, Then(use, Empty))) == {name};
  }

  /** `() => { { var name = "other"; } return iface.getFunction(name); }` */
  function VarArrow(name: string, other: string): Expr {
    Arrow([], VarBody(name, other), GetFunction(Id(name)))
  }

  function VarBody(name: string, other: string): Stmts {
    Then(Block(VarBlock(name, other)), Empty)
  }

  function VarBlock(name: string, other: string): Stmts {
    Then(Decl(Var, Named(name), Str(other)), Empty)
  }

  /** And so does a `var`, from any block inside the function. */
  lemma VarIsMisread(o: Oracle, st: State, scope: nat, before: seq<Stmt>, rest: Stmts, name: string, text: string,
                     other: string)
    requires DeclaredAmong(before, name) == Some(Str(text)) && text != other
    ensures
      var ctx := [InBlock(before, rest)];
      var out := Eval(9, o, st, ctx, scope, Elsewhere, Call(VarArrow(name, other), NoMore));
      var body := InBlock(Listed(VarBody(name, other)), Empty);
      var site := Site(Inside(body, Inside(InArrow([], Elsewhere), ctx)), Id(name));
      && Checked(site) == Some([text]) && !Visible(site)
      && out.Ok? && out.st.trace == st.trace + [Obs(site, VStr(other))]
  {
    hide *;
    VarWalk(before, rest, name, text, other);
    var ctx, body := [InBlock(before, rest)], VarBody(name, other);
    var closure := VClosure([], body, GetFunction(Id(name)), Inside(InArrow([], Elsewhere), ctx), scope);
    VarClosure(ctx, name, other);
    CallOfArrow(9, o, st, ctx, scope, VarArrow(name, other), closure);
    VarRuns(7, o, st, closure, name, other);
  }

  lemma VarClosure(ctx: Context, name: string, other: string)
    ensures VarArrow(name, other) == Arrow([], VarBody(name, other), GetFunction(Id(name)))
    ensures Inside(InArrow([], Elsewhere), ctx) != [] && Inside(InArrow([], Elsewhere), ctx)[0].InArrow?
  {
  }

  lemma VarWalk(before: seq<Stmt>, rest: Stmts, name: string, text: string, other: string)
    requires DeclaredAmong(before, name) == Some(Str(text))
    ensures
      var arrow := Inside(InArrow([], Elsewhere), [InBlock(before, rest)]);
      var site := Site(Inside(InBlock(Listed(VarBody(name, other)), Empty), arrow), Id(name));
      Checked(site) == Some([text]) && !Visible(site)
  {
    var ctx, body := [InBlock(before, rest)], VarBody(name, other);
    var f := InArrow([], Elsewhere);
    ConstantHere(before, rest, name, text);
    WalkOut(f, ctx, name);
    assert Listed(body) == [body.first] && [body.first][1..] == [] && DeclaredAmong([body.first], name).None?;
    WalkOut(InBlock(Listed(body), Empty), Inside(f, ctx), name);
    VarNotVisible(body, f, ctx, name, other);
  }

  lemma VarNotVisible(body: Stmts, f: Frame, ctx: Context, name: string, other: string)
    requires body == VarBody(name, other) && f == InArrow([], Elsewhere) && |ctx| == 1 && ctx[0].InBlock?
    ensures !Visible(Site(Inside(InBlock(Listed(body), Empty), Inside(f, ctx)), Id(name)))
  {
    var block := InBlock(Listed(body), Empty);
    var all := Inside(block, Inside(f, ctx));
    assert all[1..] == Inside(f, ctx) && all[1] == f && all[1..][1..] == ctx && ctx[1..] == [];
    assert Whole(block) == [body.first] + [] && Whole(block)[0] == body.first;
    assert HoistedNames(VarBlock(name, other)) == {name};
    assert name in HoistedBy(Whole(block)[0]);
    assert HoistedAt(all, name) && Binds(all, name);
    assert [body.first][1..] == [] && DeclaredAmong([body.first], name).None?;
    NoExpansion(f, ctx, name);
    NoExpansion(block, Inside(f, ctx), name);
    assert MapValues(ctx, name).None?;
  }

  lemma CallOfArrow(fuel: nat, o: Oracle, st: State, ctx: Context, scope: nat, e: Expr, closure: Value)
    requires fuel > 2 && e.Arrow?
    requires closure == VClosure(e.params, e.body, e.result, Inside(InArrow(e.params, Elsewhere), ctx), scope)
    ensures Eval(fuel, o, st, ctx, scope, Elsewhere, Call(e, NoMore)) == Apply(fuel - 1, o, st, closure, [])
  {
    hide Apply;
    assert Eval(fuel - 1, o, st, ctx, scope, Elsewhere, e) == Ok(st, closure);
    assert EvalAll(fuel - 1, o, st, ctx, scope, Elsewhere, NoMore, []) == Ok(st, VArr([]));
  }

  lemma VarRuns(fuel: nat, o: Oracle, st: State, closure: Value, name: string, other: string)
    requires fuel > 5 && closure.VClosure? && closure.params == [] && closure.ctx != [] && closure.ctx[0].InArrow?
    requires closure.body == VarBody(name, other) && closure.result == GetFunction(Id(name))
    ensures
      var site := Site(Inside(InBlock(Listed(closure.body), Empty), closure.ctx), Id(name));
      var out := Apply(fuel + 1, o, st, closure, []);
      out.Ok? && out.st.trace == st.trace + [Obs(site, VStr(other))]
  {
    hide Called, Enter, Assign, Step, Eval;
    var entered, k, block := Called(o, st, closure, []), |st.heap| + 1, VarBlock(name, other);
    var here := Inside(InBlock([], closure.body), closure.ctx);
    var nested := Enter(entered, block, Some(k), here);
    var st1 := Assign(nested, |entered.heap|, Var, name, VStr(other));
    VarHides(o, st, closure, name, other);
    NestedBlock(fuel, o, entered, here, k, block, name, other);
    RunFirst(fuel, o, entered, closure.ctx, k, [], closure.body, st1);
    NothingToRun(fuel - 1, o, st1, closure.ctx, k, [] + [closure.body.first]);
    Ask(fuel, o, st1, Inside(InBlock(Listed(closure.body), Empty), closure.ctx), k, name, VStr(other));
  }

  lemma NestedBlock(fuel: nat, o: Oracle, st: State, here: Context, scope: nat, block: Stmts, name: string,
                    other: string)
    requires fuel > 3 && block == VarBlock(name, other)
    ensures Step(fuel, o, st, here, scope, Block(block))
         == Ok(Assign(Enter(st, block, Some(scope), here), |st.heap|, Var, name, VStr(other)), VOpaque)
  {
    hide Assign, Enter, Eval;
    var nested := Enter(st, block, Some(scope), here);
    var st1 := Assign(nested, |st.heap|, Var, name, VStr(other));
    DeclareText(fuel - 1, o, nested, Inside(InBlock([], block), here), |st.heap|, Var, name, other);
    RunFirst(fuel - 1, o, nested, here, |st.heap|, [], block, st1);
    NothingToRun(fuel - 2, o, st1, here, |st.heap|, [] + [block.first]);
  }

  lemma VarHides(o: Oracle, st: State, closure: Value, name: string, other: string)
    requires closure.VClosure? && closure.params == [] && closure.ctx != [] && closure.ctx[0].InArrow?
    requires closure.body == VarBody(name, other)
    ensures
      var entered, k := Called(o, st, closure, []), |st.heap| + 1;
      var nested := Enter(entered, VarBlock(name, other), Some(k), Inside(InBlock([], closure.body), closure.ctx));
      var st1 := Assign(nested, |entered.heap|, Var, name, VStr(other));
      && |entered.heap| == k + 1
      && Lookup(st1.heap, k, name) == Some(VStr(other)) && st1.trace == st.trace
  {
    var entered, k, block := Called(o, st, closure, []), |st.heap| + 1, VarBlock(name, other);
    var nested := Enter(entered, block, Some(k), Inside(InBlock([], closure.body), closure.ctx));
    assert HoistedNames(Empty) == {} && HoistedNames(block) == {name} && HoistedNames(closure.body) == {name};
    assert name in entered.heap[k].hoisted && name in entered.heap[k].vars;
    assert nested.heap[k + 1].hoisted == {} && nested.heap[k + 1].parent == Some(k);
    assert HoistScope(nested.heap, k, name) == Some(k);
    assert HoistScope(nested.heap, k + 1, name) == Some(k);
  }
}
