/** The deploy-code lint: syntax, the three resolvers, and the classification of call sites.

    The walk up the parents of a node becomes a context, a stack of frames from the inside out. */
module LintSyntax {
  import opened Wrappers
  import opened Seqs

  datatype Exprs = NoMore | More(head: Expr, tail: Exprs)

  /** What a parameter or a declaration binds: one name, the rest of the arguments, or the names of a
      destructuring pattern. The parameters of a function that is no arrow are patterns too: the lint
      does not see their names. */
  datatype Binder = Named(name: string) | Rest(name: string) | Pattern(names: seq<string>)

  /** `recv.property(callback, ...rest)`; a block of an arrow ends in `return result`, and an
      expression-bodied arrow is one whose block has no other statement. Template stands for every
      expression the lint does not look into; Ternary for the conditional operator. */
  datatype Expr =
    | Str(text: string)
    | Id(name: string)
    | Arr(items: Exprs)
    | Arrow(params: seq<Binder>, body: Stmts, result: Expr)
    | MethodCall(recv: Expr, property: string, callback: Expr, rest: Exprs)
    | Call(callee: Expr, args: Exprs)
    | GetFunction(arg: Expr)
    | Template(parts: Exprs)
    | Ternary(condition: Expr, yes: Expr, no: Expr)

  datatype Stmts = Empty | Then(first: Stmt, others: Stmts)

  datatype Kind = Const | Let | Var

  datatype Stmt = Decl(kind: Kind, target: Binder, init: Expr) | Do(expr: Expr) | Block(stmts: Stmts)

  // ---- Contexts ----

  /** What an arrow is an argument of: a call of `.map` on some receiver, or anything else. */
  datatype Role = MapCallback(recv: Expr) | Elsewhere

  /** Inside the first statement of `rest` in a block whose statements are `before` and then `rest`
      (or in the closing `return` of an arrow, if `rest` is empty), or inside an arrow. */
  datatype Frame = InBlock(before: seq<Stmt>, rest: Stmts) | InArrow(params: seq<Binder>, role: Role)

  type Context = seq<Frame>

  function Inside(f: Frame, ctx: Context): Context {
    [f] + ctx
  }

  function RoleIn(property: string, recv: Expr): Role {
    if property == "map" then MapCallback(recv) else Elsewhere
  }

  // ---- Resolving an identifier to a constant ----

  predicate Declares(s: Stmt, name: string) {
    s.Decl? && s.kind.Const? && s.target == Named(name)
  }

  /** The first `const` of that name among the statements. */
  function DeclaredAmong(before: seq<Stmt>, name: string): Option<Expr> {
    if before == [] then None
    else if Declares(before[0], name) then Some(before[0].init)
    else DeclaredAmong(before[1..], name)
  }

  /** The initializer of the nearest `const` that precedes the use in an enclosing block. */
  function ConstInitializer(ctx: Context, name: string): Option<Expr> {
    if ctx == [] then None
    else if ctx[0].InBlock? && DeclaredAmong(ctx[0].before, name).Some? then DeclaredAmong(ctx[0].before, name)
    else ConstInitializer(ctx[1..], name)
  }

  function ConstString(ctx: Context, name: string): Option<string> {
    match ConstInitializer(ctx, name)
    case Some(Str(text)) => Some(text)
    case _ => None
  }

  method ResolveConst(ctx: Context, name: string) returns (init: Option<Expr>)
    ensures init == ConstInitializer(ctx, name)
  {
    for level := 0 to |ctx|
      invariant ConstInitializer(ctx[level..], name) == ConstInitializer(ctx, name)
    {
      if ctx[level].InBlock? {
        var statements := ctx[level].before;
        for k := 0 to |statements|
          invariant DeclaredAmong(statements[k..], name) == DeclaredAmong(statements, name)
        {
          if Declares(statements[k], name) {
            return Some(statements[k].init);
          }
        }
      }
    }
    return None;
  }

  method ResolveConstBinding(ctx: Context, name: string) returns (text: Option<string>)
    ensures text == ConstString(ctx, name)
  {
    var init := ResolveConst(ctx, name);
    if init.Some? && init.value.Str? {
      return Some(init.value.text);
    }
    return None;
  }

  // ---- Resolving an array ----

  function Prefixed(texts: seq<string>, others: Option<seq<string>>): Option<seq<string>> {
    if others.Some? then Some(texts + others.value) else None
  }

  /** The texts, when every element is a string literal. */
  function Texts(items: Exprs): Option<seq<string>> {
    match items
    case NoMore => Some([])
    case More(Str(text), tail) =>
      Prefixed([text], Texts(tail))
    case More(_, _) => None
  }

  lemma PrefixedAgain(out: seq<string>, texts: seq<string>, others: Option<seq<string>>)
    ensures Prefixed(out, Prefixed(texts, others)) == Prefixed(out + texts, others)
    ensures Prefixed([], others) == others
  {
    if others.Some? {
      assert out + (texts + others.value) == out + texts + others.value;
      assert [] + others.value == others.value;
    }
  }

  method ExtractStringArrayElements(items: Exprs) returns (values: Option<seq<string>>)
    ensures values == Texts(items)
  {
    var out: seq<string>, left := [], items;
    PrefixedAgain([], [], Texts(items));
    while left.More?
      invariant Texts(items) == Prefixed(out, Texts(left))
      decreases left
    {
      if !left.head.Str? {
        return None;
      }
      PrefixedAgain(out, [left.head.text], Texts(left.tail));
      out, left := out + [left.head.text], left.tail;
    }
    assert out + [] == out;
    return Some(out);
  }

  function ArrayTexts(ctx: Context, recv: Expr): Option<seq<string>> {
    match recv
    case Arr(items) => Texts(items)
    case Id(name) =>
      var init := ConstInitializer(ctx, name);
      if init.Some? && init.value.Arr? then Texts(init.value.items) else None
    case _ => None
  }

  // ---- Resolving a parameter of a `.map` callback ----

  /** The parameters that are plain identifiers include the name; a rest parameter is one. */
  predicate Seen(params: seq<Binder>, name: string) {
    Named(name) in params || Rest(name) in params
  }

  predicate Takes(b: Binder, name: string) {
    match b
    case Named(n) => n == name
    case Rest(n) => n == name
    case Pattern(names) => name in names
  }

  predicate TakenAmong(params: seq<Binder>, name: string) {
    exists i :: 0 <= i < |params| && Takes(params[i], name)
  }

  /** The values an identifier may stand for as a parameter of the nearest arrow that binds it. */
  function MapValues(ctx: Context, name: string): Option<seq<string>> {
    if ctx == [] then None
    else if ctx[0].InArrow? && Seen(ctx[0].params, name) then
      if ctx[0].role.MapCallback? then ArrayTexts(ctx[1..], ctx[0].role.recv) else None
    else MapValues(ctx[1..], name)
  }

  /** The binding arrow takes the identifier as its first parameter, not (also) as a later one. */
  predicate BoundFirst(ctx: Context, name: string) {
    if ctx == [] then false
    else if ctx[0].InArrow? && Seen(ctx[0].params, name) then
      ctx[0].params[0] == Named(name) && !TakenAmong(ctx[0].params[1..], name)
    else BoundFirst(ctx[1..], name)
  }

  method ResolveLiteralArrayReceiver(ctx: Context, recv: Expr) returns (values: Option<seq<string>>)
    ensures values == ArrayTexts(ctx, recv)
  {
    if recv.Arr? {
      values := ExtractStringArrayElements(recv.items);
      return;
    }
    if recv.Id? {
      var init := ResolveConst(ctx, recv.name);
      if init.Some? && init.value.Arr? {
        values := ExtractStringArrayElements(init.value.items);
        return;
      }
    }
    return None;
  }

  method ResolveMapArrowParam(ctx: Context, name: string) returns (values: Option<seq<string>>)
    ensures values == MapValues(ctx, name)
  {
    for level := 0 to |ctx|
      invariant MapValues(ctx[level..], name) == MapValues(ctx, name)
    {
      var frame := ctx[level];
      assert ctx[level..][0] == frame && ctx[level..][1..] == ctx[level + 1..];
      if frame.InArrow? && Seen(frame.params, name) {
        if frame.role.Elsewhere? {
          return None;
        }
        values := ResolveLiteralArrayReceiver(ctx[level + 1..], frame.role.recv);
        return;
      }
    }
    return None;
  }

  // ---- Call sites ----

  datatype Site = Site(ctx: Context, arg: Expr)

  /** The texts a site is checked against, or None when it is UNCHECKED. */
  function Checked(site: Site): Option<seq<string>> {
    match site.arg
    case Str(text) => Some([text])
    case Id(name) =>
      var expansion := MapValues(site.ctx, name);
      if expansion.Some? then expansion else
      var text := ConstString(site.ctx, name);
      if text.Some? then Some([text.value]) else None
    case _ => None
  }

  // ---- What an identifier resolves to ----

  /** The list of string literals with these texts. */
  function Strings(texts: seq<string>): Exprs {
    if texts == [] then NoMore else More(Str(texts[0]), Strings(texts[1..]))
  }

  lemma {:induction false} TextsAre(items: Exprs, texts: seq<string>)
    ensures Texts(items) == Some(texts) <==> items == Strings(texts)
  {
    if items.More? && items.head.Str? {
      if texts == [] {
      } else {
        TextsAre(items.tail, texts[1..]);
        assert texts == [texts[0]] + texts[1..];
        if Texts(items) == Some(texts) {
          assert texts == [items.head.text] + Texts(items.tail).value;
        }
      }
    }
  }

  predicate IsConst(s: Stmt, name: string) {
    s.Decl? && s.kind == Const && s.target == Named(name)
  }

  /** Statement k is the first `const` of the name. */
  ghost predicate FirstConst(before: seq<Stmt>, name: string, k: nat) {
    k < |before| && IsConst(before[k], name) && forall j :: 0 <= j < k ==> !IsConst(before[j], name)
  }

  ghost predicate HasConst(f: Frame, name: string) {
    f.InBlock? && exists k :: 0 <= k < |f.before| && IsConst(f.before[k], name)
  }

  /** At that level stands the nearest block with a `const` of the name before the use; statement k is the
      first one there. */
  ghost predicate ConstAt(ctx: Context, name: string, level: nat, k: nat) {
    && level < |ctx| && ctx[level].InBlock? && FirstConst(ctx[level].before, name, k)
    && forall l :: 0 <= l < level ==> !HasConst(ctx[l], name)
  }

  ghost predicate ConstFrom(ctx: Context, name: string, init: Expr, level: nat, k: nat) {
    ConstAt(ctx, name, level, k) && ctx[level].before[k].init == init
  }

  ghost predicate ConstIs(ctx: Context, name: string, init: Expr) {
    exists level: nat, k: nat :: ConstFrom(ctx, name, init, level, k)
  }

  lemma {:induction false} DeclaredAmongIs(before: seq<Stmt>, name: string) returns (k: nat)
    ensures match DeclaredAmong(before, name)
            case Some(init) => FirstConst(before, name, k) && before[k].init == init
            case None => forall j :: 0 <= j < |before| ==> !IsConst(before[j], name)
  {
    k := 0;
    if before != [] && !IsConst(before[0], name) {
      var j := DeclaredAmongIs(before[1..], name);
      k := j + 1;
      assert forall i :: 0 < i < |before| ==> before[i] == before[1..][i - 1];
    }
  }

  lemma {:induction false} ConstInitializerIs(ctx: Context, name: string)
    ensures match ConstInitializer(ctx, name)
            case Some(init) => ConstIs(ctx, name, init)
            case None => forall l :: 0 <= l < |ctx| ==> !HasConst(ctx[l], name)
  {
    hide DeclaredAmong;
    if ctx != [] {
      if ctx[0].InBlock? {
        var k := DeclaredAmongIs(ctx[0].before, name);
        if DeclaredAmong(ctx[0].before, name).Some? {
          assert ConstFrom(ctx, name, ctx[0].before[k].init, 0, k);
        }
      }
      if !(ctx[0].InBlock? && DeclaredAmong(ctx[0].before, name).Some?) {
        ConstInitializerIs(ctx[1..], name);
        assert forall l :: 0 < l < |ctx| ==> ctx[l] == ctx[1..][l - 1];
        if ConstInitializer(ctx, name).Some? {
          var init := ConstInitializer(ctx, name).value;
          var level: nat, m: nat :| ConstFrom(ctx[1..], name, init, level, m);
          assert ConstFrom(ctx, name, init, level + 1, m);
        }
      }
    }
  }

  lemma OneConst(ctx: Context, name: string, one: Expr, two: Expr)
    requires ConstIs(ctx, name, one) && ConstIs(ctx, name, two)
    ensures one == two
  {
    var level: nat, k: nat :| ConstFrom(ctx, name, one, level, k);
    var level': nat, k': nat :| ConstFrom(ctx, name, two, level', k');
    assert HasConst(ctx[level], name) && HasConst(ctx[level'], name);
  }

  /** Resolved to exactly the initializer of that constant. */
  lemma ConstIff(ctx: Context, name: string, init: Expr)
    ensures ConstInitializer(ctx, name) == Some(init) <==> ConstIs(ctx, name, init)
  {
    hide ConstInitializer;
    ConstInitializerIs(ctx, name);
    if ConstIs(ctx, name, init) {
      var level: nat, k: nat :| ConstFrom(ctx, name, init, level, k);
      assert HasConst(ctx[level], name);
      OneConst(ctx, name, init, ConstInitializer(ctx, name).value);
    }
  }

  /** The receiver of a `.map` is an array of these string literals, or a constant set to one. */
  ghost predicate ReceiverIs(ctx: Context, recv: Expr, texts: seq<string>) {
    recv == Arr(Strings(texts)) || (recv.Id? && ConstIs(ctx, recv.name, Arr(Strings(texts))))
  }

  lemma ReceiverIff(ctx: Context, recv: Expr, texts: seq<string>)
    ensures ArrayTexts(ctx, recv) == Some(texts) <==> ReceiverIs(ctx, recv, texts)
  {
    hide ConstInitializer, ConstIs, Texts;
    if recv.Arr? {
      TextsAre(recv.items, texts);
    } else if recv.Id? {
      ConstIff(ctx, recv.name, Arr(Strings(texts)));
      if ConstInitializer(ctx, recv.name).Some? && ConstInitializer(ctx, recv.name).value.Arr? {
        TextsAre(ConstInitializer(ctx, recv.name).value.items, texts);
      }
    }
  }

  predicate PlainlyIn(f: Frame, name: string) {
    f.InArrow? && (Named(name) in f.params || Rest(name) in f.params)
  }

  /** The nearest arrow with a parameter of that name, destructuring parameters apart. */
  ghost predicate BoundAt(ctx: Context, name: string, level: nat) {
    level < |ctx| && PlainlyIn(ctx[level], name) && forall l :: 0 <= l < level ==> !PlainlyIn(ctx[l], name)
  }

  /** That arrow is the callback of a `.map` over these texts. */
  ghost predicate ExpandsAt(ctx: Context, name: string, texts: seq<string>, level: nat) {
    && BoundAt(ctx, name, level) && ctx[level].role.MapCallback?
    && ReceiverIs(ctx[level + 1..], ctx[level].role.recv, texts)
  }

  ghost predicate ExpandsTo(ctx: Context, name: string, texts: seq<string>) {
    exists level: nat :: ExpandsAt(ctx, name, texts, level)
  }

  lemma {:induction false} ExpandsIff(ctx: Context, name: string, texts: seq<string>)
    ensures MapValues(ctx, name) == Some(texts) <==> ExpandsTo(ctx, name, texts)
  {
    hide ArrayTexts, ReceiverIs;
    if ctx != [] {
      if PlainlyIn(ctx[0], name) {
        assert BoundAt(ctx, name, 0);
        assert forall level: nat :: BoundAt(ctx, name, level) ==> level == 0;
        if ctx[0].role.MapCallback? {
          ReceiverIff(ctx[1..], ctx[0].role.recv, texts);
          assert ExpandsAt(ctx, name, texts, 0) <==> ReceiverIs(ctx[1..], ctx[0].role.recv, texts);
        }
      } else {
        ExpandsIff(ctx[1..], name, texts);
        if level: nat :| ExpandsAt(ctx[1..], name, texts, level) {
          OneFrameOut(ctx, name, texts, level);
        }
        if level: nat :| ExpandsAt(ctx, name, texts, level) {
          OneFrameOut(ctx, name, texts, level - 1);
        }
      }
    }
  }

  lemma OneFrameOut(ctx: Context, name: string, texts: seq<string>, level: nat)
    requires ctx != [] && !PlainlyIn(ctx[0], name)
    ensures ExpandsAt(ctx, name, texts, level + 1) <==> ExpandsAt(ctx[1..], name, texts, level)
  {
    hide ReceiverIs;
    assert forall l :: 0 < l < |ctx| ==> ctx[l] == ctx[1..][l - 1];
    assert forall l :: 0 <= l < |ctx| - 1 ==> ctx[1..][l] == ctx[l + 1];
    if level + 1 < |ctx| {
      assert ctx[1..][level + 1..] == ctx[level + 2..];
    }
  }

  /** What the argument of a call may be, by the lint: a literal is itself; an identifier runs over the array
      of its map, or else is its constant's text; nothing is known of anything else. */
  ghost predicate StandsFor(site: Site, texts: seq<string>) {
    match site.arg
    case Str(text) => texts == [text]
    case Id(name) =>
      || ExpandsTo(site.ctx, name, texts)
      || ((forall others :: !ExpandsTo(site.ctx, name, others))
          && |texts| == 1 && ConstIs(site.ctx, name, Str(texts[0])))
    case _ => false
  }

  lemma CheckedIff(site: Site, texts: seq<string>)
    ensures Checked(site) == Some(texts) <==> StandsFor(site, texts)
  {
    hide MapValues, ExpandsTo, ConstInitializer, ConstIs;
    if site.arg.Id? {
      var name := site.arg.name;
      forall others ensures MapValues(site.ctx, name) == Some(others) <==> ExpandsTo(site.ctx, name, others) {
        ExpandsIff(site.ctx, name, others);
      }
      if |texts| == 1 {
        ConstIff(site.ctx, name, Str(texts[0]));
        assert texts == [texts[0]];
      }
      if MapValues(site.ctx, name).Some? {
        assert ExpandsTo(site.ctx, name, MapValues(site.ctx, name).value);
      }
    }
  }

  /** The getFunction calls below `e`, outermost first. `role` matters if `e` is an arrow. */
  function SitesIn(ctx: Context, role: Role, e: Expr): seq<Site>
    decreases e
  {
    match e
    case Str(_) => []
    case Id(_) => []
    case Arr(items) => SitesAmong(ctx, Elsewhere, items)
    case Arrow(params, body, result) =>
      var inner := Inside(InArrow(params, role), ctx);
      SitesInBlock(inner, [], body) + SitesIn(Inside(InBlock(Listed(body), Empty), inner), Elsewhere, result)
    case MethodCall(recv, property, callback, rest) =>
      SitesIn(ctx, Elsewhere, recv) + SitesIn(ctx, RoleIn(property, recv), callback)
      + SitesAmong(ctx, RoleIn(property, recv), rest)
    case Call(callee, args) => SitesIn(ctx, Elsewhere, callee) + SitesAmong(ctx, Elsewhere, args)
    case GetFunction(arg) => [Site(ctx, arg)] + SitesIn(ctx, Elsewhere, arg)
    case Template(parts) => SitesAmong(ctx, Elsewhere, parts)
    case Ternary(c, yes, no) => SitesIn(ctx, Elsewhere, c) + SitesIn(ctx, Elsewhere, yes) + SitesIn(ctx, Elsewhere, no)
  }

  function SitesAmong(ctx: Context, role: Role, es: Exprs): seq<Site>
    decreases es
  {
    match es
    case NoMore => []
    case More(e, tail) => SitesIn(ctx, role, e) + SitesAmong(ctx, role, tail)
  }

  function SitesInBlock(ctx: Context, before: seq<Stmt>, stmts: Stmts): seq<Site>
    decreases stmts
  {
    match stmts
    case Empty => []
    case Then(s, others) => SitesAt(Inside(InBlock(before, stmts), ctx), s) + SitesInBlock(ctx, before + [s], others)
  }

  function SitesAt(ctx: Context, s: Stmt): seq<Site>
    decreases s
  {
    match s
    case Decl(_, _, init) => SitesIn(ctx, Elsewhere, init)
    case Do(e) => SitesIn(ctx, Elsewhere, e)
    case Block(stmts) => SitesInBlock(ctx, [], stmts)
  }

  function Listed(stmts: Stmts): seq<Stmt> {
    match stmts
    case Empty => []
    case Then(s, others) => [s] + Listed(others)
  }

  /** A literal entry: a text that a site may pass. */
  datatype Literal = Literal(site: Site, text: string)

  function LiteralsOf(site: Site): seq<Literal> {
    var texts := Checked(site);
    if texts.Some? then Map(texts.value, t => Literal(site, t)) else []
  }

  function AllLiterals(sites: seq<Site>): seq<Literal> {
    if sites == [] then [] else AllLiterals(sites[..|sites| - 1]) + LiteralsOf(sites[|sites| - 1])
  }

  function IsUnchecked(): Site -> bool {
    site => Checked(site).None?
  }

  function ProgramSites(program: Stmts): seq<Site> {
    SitesInBlock([], [], program)
  }

  /** The lists hold of a site what it stands for, or that nothing is known of it, and not both. */
  ghost predicate Filed(site: Site, literal: seq<Literal>, nonLiteral: seq<Site>) {
    && (forall texts | StandsFor(site, texts) ::
          site !in nonLiteral && forall text :: Literal(site, text) in literal <==> text in texts)
    && ((forall texts :: !StandsFor(site, texts)) ==>
          site in nonLiteral && forall text :: Literal(site, text) !in literal)
  }

  lemma {:induction false} LiteralsAre(sites: seq<Site>, l: Literal)
    ensures l in AllLiterals(sites)
       <==> l.site in sites && Checked(l.site).Some? && l.text in Checked(l.site).value
  {
    hide Checked;
    if sites == [] {
    } else {
      var init, last := sites[..|sites| - 1], sites[|sites| - 1];
      assert sites == init + [last];
      LiteralsAre(init, l);
      if Checked(last).Some? {
        var texts := Checked(last).value;
        if l.site == last && l.text in texts {
          var i :| 0 <= i < |texts| && texts[i] == l.text;
          assert LiteralsOf(last)[i] == l;
        }
      }
    }
  }

  lemma SiteIsFiled(sites: seq<Site>, site: Site)
    requires site in sites
    ensures Filed(site, AllLiterals(sites), Filter(sites, IsUnchecked()))
  {
    hide Checked, StandsFor, AllLiterals;
    FilterIn(sites, IsUnchecked());
    forall text { LiteralsAre(sites, Literal(site, text)); }
    forall texts { CheckedIff(site, texts); }
    if Checked(site).Some? {
      CheckedIff(site, Checked(site).value);
    }
  }

  /** One call: its entries, or that it is a blind spot. */
  method ClassifyCall(site: Site) returns (entries: seq<Literal>, blind: bool)
    ensures entries == LiteralsOf(site) && blind == Checked(site).None?
  {
    if site.arg.Str? {
      assert LiteralsOf(site) == [Literal(site, site.arg.text)];
      return [Literal(site, site.arg.text)], false;
    }
    if !site.arg.Id? {
      return [], true;
    }
    var expansion := ResolveMapArrowParam(site.ctx, site.arg.name);
    if expansion.Some? {
      entries := PushEach(expansion.value, t => Literal(site, t));
      return entries, false;
    }
    var text := ResolveConstBinding(site.ctx, site.arg.name);
    if text.Some? {
      assert LiteralsOf(site) == [Literal(site, text.value)];
      return [Literal(site, text.value)], false;
    }
    return [], true;
  }

  /** The lint's two lists: texts to check against the ABI, and blind spots. */
  method CollectGetFunctionCalls(program: Stmts) returns (literal: seq<Literal>, nonLiteral: seq<Site>)
    ensures literal == AllLiterals(ProgramSites(program))
    ensures nonLiteral == Filter(ProgramSites(program), IsUnchecked())
    ensures forall site :: site in ProgramSites(program) ==> Filed(site, literal, nonLiteral)
  {
    literal, nonLiteral := [], [];
    var sites := ProgramSites(program);
    for k := 0 to |sites|
      invariant literal == AllLiterals(sites[..k])
      invariant nonLiteral == Filter(sites[..k], IsUnchecked())
    {
      hide Filed, Checked, LiteralsOf, ProgramSites;
      assert sites[..k + 1][..k] == sites[..k];
      var entries, blind := ClassifyCall(sites[k]);
      literal := literal + entries;
      if blind {
        nonLiteral := nonLiteral + [sites[k]];
      }
    }
    assert sites[..|sites|] == sites;
    AllFiled(sites);
  }

  lemma AllFiled(sites: seq<Site>)
    ensures forall site :: site in sites ==> Filed(site, AllLiterals(sites), Filter(sites, IsUnchecked()))
  {
    hide Filed, AllLiterals;
    forall site | site in sites ensures Filed(site, AllLiterals(sites), Filter(sites, IsUnchecked())) {
      SiteIsFiled(sites, site);
    }
  }
}
