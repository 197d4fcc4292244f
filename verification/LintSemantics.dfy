/** Running the deploy code: lexical scopes in a heap, the temporal dead zone, closures that carry
    their scope, and a trace of what is passed to getFunction. Fuel bounds the steps; a run that
    throws or runs out of fuel stops and keeps its trace. */
module LintSemantics {
  import opened Wrappers
  import opened Seqs
  import opened LintSyntax

  /** A closure remembers the context of its code, so that the trace can name the call site. */
  datatype Value =
    | VStr(text: string)
    | VNum(n: nat)
    | VArr(items: seq<Value>)
    | VClosure(params: seq<Binder>, body: Stmts, result: Expr, ctx: Context, scope: nat)
    | VOpaque

  /** A declared name is uninitialised (None) until its declaration has run. `hoisted` are the names that
      `var` declares anywhere in the function whose body this is. `home` says which code's names these
      are; evaluation does not look at it. */
  datatype Scope = Scope(vars: map<string, Option<Value>>, hoisted: set<string>, parent: Option<nat>, home: Context)

  datatype Obs = Obs(site: Site, value: Value)

  datatype State = State(heap: seq<Scope>, trace: seq<Obs>, clock: nat)

  datatype Out = Ok(st: State, v: Value) | Stop(st: State)

  /** Where a value of the environment comes from: a string of its own, something opaque, or a part of
      one of the values it was given. */
  datatype Source = Own(text: string) | Other | Part(given: nat, path: seq<nat>)

  /** What the environment does at a given time: the value it supplies (under a name, if it fills in a
      pattern), the arguments of a callback, which callback, and which way a condition goes. */
  datatype Oracle = Oracle(source: (nat, string) -> Source, arguments: nat -> seq<Source>, choice: nat -> nat,
                           truth: nat -> bool)

  function Lookup(heap: seq<Scope>, scope: nat, name: string): Option<Value>
    decreases scope
  {
    if scope >= |heap| then None
    else if name in heap[scope].vars then heap[scope].vars[name]
    else if heap[scope].parent.Some? && heap[scope].parent.value < scope then
      Lookup(heap, heap[scope].parent.value, name)
    else None
  }

  function NamesIn(b: Binder): (r: set<string>)
    ensures forall name :: name in r <==> Takes(b, name)
  {
    match b
    case Named(n) => {n}
    case Rest(n) => {n}
    case Pattern(names) => set n | n in names
  }

  /** The names `const` and `let` declare in a block. */
  function DeclaredNames(stmts: Stmts): set<string> {
    match stmts
    case Empty => {}
    case Then(Decl(kind, target, _), others) => (if kind.Var? then {} else NamesIn(target)) + DeclaredNames(others)
    case Then(_, others) => DeclaredNames(others)
  }

  /** The names `var` declares in it or in a block inside it. */
  function HoistedNames(stmts: Stmts): set<string> {
    match stmts
    case Empty => {}
    case Then(s, others) => HoistedBy(s) + HoistedNames(others)
  }

  function HoistedBy(s: Stmt): set<string> {
    match s
    case Decl(Var, target, _) => NamesIn(target)
    case Block(stmts) => HoistedNames(stmts)
    case _ => {}
  }

  /** The names `var` puts into a new block: none, unless it is the body of a function or the program. */
  function HoistedHere(stmts: Stmts, outer: Context): set<string> {
    if outer == [] || outer[0].InArrow? then HoistedNames(stmts) else {}
  }

  /** A `var` starts undefined, or with the argument if it repeats a parameter. */
  function AtStart(heap: seq<Scope>, parent: Option<nat>, name: string): Option<Value> {
    if parent.Some? && parent.value < |heap| && name in heap[parent.value].vars then heap[parent.value].vars[name]
    else Some(VOpaque)
  }

  /** A new block scope: every name declared in the block is in the dead zone. */
  function BlockScope(heap: seq<Scope>, stmts: Stmts, parent: Option<nat>, outer: Context): Scope {
    var hoisted := HoistedHere(stmts, outer);
    Scope(map name | name in DeclaredNames(stmts) + hoisted ::
            if name in DeclaredNames(stmts) then None else AtStart(heap, parent, name),
          hoisted, parent, Inside(InBlock([], stmts), outer))
  }

  function Enter(st: State, stmts: Stmts, parent: Option<nat>, outer: Context): State {
    st.(heap := st.heap + [BlockScope(st.heap, stmts, parent, outer)])
  }

  function Argument(args: seq<Value>, i: nat): Value {
    if i < |args| then args[i] else VOpaque
  }

  function PartOf(v: Value, path: seq<nat>): Value
    decreases |path|
  {
    if path == [] then v
    else if v.VArr? && path[0] < |v.items| then PartOf(v.items[path[0]], path[1..])
    else VOpaque
  }

  function Fetch(source: Source, given: seq<Value>): Value {
    match source
    case Own(text) => VStr(text)
    case Other => VOpaque
    case Part(i, path) => PartOf(Argument(given, i), path)
  }

  /** The value the i-th parameter gives to one of its names. */
  function ParamValue(o: Oracle, clock: nat, b: Binder, args: seq<Value>, i: nat, name: string): Value {
    match b
    case Named(_) => Argument(args, i)
    case Rest(_) => VArr(if i < |args| then args[i..] else [])
    case Pattern(_) => Fetch(o.source(clock, name), [Argument(args, i)])
  }

  /** The parameters of a call; of two parameters of one name the later wins. */
  function Bind(o: Oracle, clock: nat, params: seq<Binder>, args: seq<Value>): map<string, Option<Value>> {
    if params == [] then map[] else
    var n := |params| - 1;
    Bind(o, clock, params[..n], args)
    + map name | name in NamesIn(params[n]) :: Some(ParamValue(o, clock, params[n], args, n, name))
  }

  function Observe(st: State, o: Obs): State {
    st.(trace := st.trace + [o])
  }

  function Initialise(st: State, scope: nat, name: string, v: Value): State {
    if scope < |st.heap| && name in st.heap[scope].vars then
      st.(heap := st.heap[scope := st.heap[scope].(vars := st.heap[scope].vars[name := Some(v)])])
    else st
  }

  /** The nearest function body that has a `var` of that name. */
  function HoistScope(heap: seq<Scope>, scope: nat, name: string): Option<nat>
    decreases scope
  {
    if scope >= |heap| then None
    else if name in heap[scope].hoisted then Some(scope)
    else if heap[scope].parent.Some? && heap[scope].parent.value < scope then
      HoistScope(heap, heap[scope].parent.value, name)
    else None
  }

  /** `let` and `const` initialise the name in the block, `var` sets it in the function. */
  function Assign(st: State, scope: nat, kind: Kind, name: string, v: Value): State {
    if !kind.Var? then Initialise(st, scope, name, v) else
    var k := HoistScope(st.heap, scope, name);
    if k.Some? then Initialise(st, k.value, name, v) else st
  }

  /** Each name of a pattern gets a part of the value, or what the environment makes of it. */
  function AssignEach(o: Oracle, clock: nat, st: State, scope: nat, kind: Kind, names: seq<string>, v: Value): State {
    if names == [] then st else
    var n := |names| - 1;
    Assign(AssignEach(o, clock, st, scope, kind, names[..n], v), scope, kind, names[n],
           Fetch(o.source(clock, names[n]), [v]))
  }

  function Declare(o: Oracle, st: State, scope: nat, kind: Kind, target: Binder, v: Value): State {
    if target.Pattern? then AssignEach(o, st.clock, Tick(st), scope, kind, target.names, v)
    else Assign(st, scope, kind, target.name, v)
  }

  function Tick(st: State): State {
    st.(clock := st.clock + 1)
  }

  /** `role` matters if `e` is an arrow. */
  function Eval(fuel: nat, o: Oracle, st: State, ctx: Context, scope: nat, role: Role, e: Expr): Out
    decreases fuel
  {
    if fuel == 0 then Stop(st) else
    match e
    case Str(text) => Ok(st, VStr(text))
    case Id(name) =>
      var v := Lookup(st.heap, scope, name);
      if v.Some? then Ok(st, v.value) else Stop(st)
    case Arr(items) => EvalAll(fuel - 1, o, st, ctx, scope, Elsewhere, items, [])
    case Arrow(params, body, result) =>
      Ok(st, VClosure(params, body, result, Inside(InArrow(params, role), ctx), scope))
    case MethodCall(recv, property, callback, rest) =>
      var out := Eval(fuel - 1, o, st, ctx, scope, Elsewhere, recv);
      if out.Stop? then out else
      var cb := Eval(fuel - 1, o, out.st, ctx, scope, RoleIn(property, recv), callback);
      if cb.Stop? then cb else
      var more := EvalAll(fuel - 1, o, cb.st, ctx, scope, RoleIn(property, recv), rest, []);
      if more.Stop? || !more.v.VArr? then more
      else if property == "map" && out.v.VArr? then Visit(fuel - 1, o, more.st, cb.v, out.v, 0, [])
      else Outside(fuel - 1, o, more.st, [out.v, cb.v] + more.v.items)
    case Call(callee, args) =>
      var f := Eval(fuel - 1, o, st, ctx, scope, Elsewhere, callee);
      if f.Stop? then f else
      var actuals := EvalAll(fuel - 1, o, f.st, ctx, scope, Elsewhere, args, []);
      if actuals.Stop? || !actuals.v.VArr? then actuals
      else if f.v.VClosure? then Apply(fuel - 1, o, actuals.st, f.v, actuals.v.items)
      else Outside(fuel - 1, o, actuals.st, actuals.v.items)
    case GetFunction(arg) =>
      var out := Eval(fuel - 1, o, st, ctx, scope, Elsewhere, arg);
      if out.Stop? then out else Ok(Observe(out.st, Obs(Site(ctx, arg), out.v)), VOpaque)
    case Template(parts) =>
      var out := EvalAll(fuel - 1, o, st, ctx, scope, Elsewhere, parts, []);
      if out.Stop? || !out.v.VArr? then out else Outside(fuel - 1, o, out.st, out.v.items)
    case Ternary(c, yes, no) =>
      var out := Eval(fuel - 1, o, st, ctx, scope, Elsewhere, c);
      if out.Stop? then out else
      Eval(fuel - 1, o, Tick(out.st), ctx, scope, Elsewhere, if o.truth(out.st.clock) then yes else no)
  }

  /** Evaluates in order; the values, behind `done`, come as an array. */
  function EvalAll(fuel: nat, o: Oracle, st: State, ctx: Context, scope: nat, role: Role, es: Exprs,
                   done: seq<Value>): Out
    decreases fuel
  {
    if fuel == 0 then Stop(st) else
    match es
    case NoMore => Ok(st, VArr(done))
    case More(e, tail) =>
      var out := Eval(fuel - 1, o, st, ctx, scope, role, e);
      if out.Stop? then out else EvalAll(fuel - 1, o, out.st, ctx, scope, role, tail, done + [out.v])
  }

  /** `map` calls its callback with element, index and array, element by element. */
  function Visit(fuel: nat, o: Oracle, st: State, callback: Value, recv: Value, i: nat, done: seq<Value>): Out
    requires recv.VArr?
    decreases fuel
  {
    if fuel == 0 then Stop(st)
    else if !callback.VClosure? then Outside(fuel - 1, o, st, [recv, callback])
    else if i >= |recv.items| then Ok(st, VArr(done))
    else
      var out := Apply(fuel - 1, o, st, callback, [recv.items[i], VNum(i), recv]);
      if out.Stop? then out else Visit(fuel - 1, o, out.st, callback, recv, i + 1, done + [out.v])
  }

  /** Code outside the script, once it has the given values: it may call the closures among them, and
      those they return, any number of times with any arguments it can make up, and returns something. */
  function Outside(fuel: nat, o: Oracle, st: State, given: seq<Value>): Out
    decreases fuel
  {
    if fuel == 0 then Stop(st)
    else if given == [] || !o.truth(st.clock) then Ok(Tick(st), Fetch(o.source(st.clock, ""), given))
    else
      var f := given[o.choice(st.clock) % |given|];
      if !f.VClosure? then Outside(fuel - 1, o, Tick(st), given) else
      var out := Apply(fuel - 1, o, Tick(st), f, Map(o.arguments(st.clock), source => Fetch(source, given)));
      if out.Stop? then out else Outside(fuel - 1, o, out.st, given + [out.v])
  }

  function ArgumentScope(o: Oracle, st: State, closure: Value, args: seq<Value>): Scope
    requires closure.VClosure?
  {
    Scope(Bind(o, st.clock, closure.params, args), {}, Some(closure.scope), closure.ctx)
  }

  /** The two scopes of a call: the parameters, and the body with its names. */
  function Called(o: Oracle, st: State, closure: Value, args: seq<Value>): State
    requires closure.VClosure?
  {
    var called := Tick(st).(heap := st.heap + [ArgumentScope(o, st, closure, args)]);
    Enter(called, closure.body, Some(|st.heap|), closure.ctx)
  }

  function Apply(fuel: nat, o: Oracle, st: State, closure: Value, args: seq<Value>): Out
    requires closure.VClosure?
    decreases fuel
  {
    if fuel == 0 then Stop(st) else
    var out := Exec(fuel - 1, o, Called(o, st, closure, args), closure.ctx, |st.heap| + 1, [], closure.body);
    if out.Stop? then out else
    Eval(fuel - 1, o, out.st, Inside(InBlock(Listed(closure.body), Empty), closure.ctx), |st.heap| + 1, Elsewhere,
         closure.result)
  }

  /** Runs the rest of a block whose statements `before` have run. */
  function Exec(fuel: nat, o: Oracle, st: State, ctx: Context, scope: nat, before: seq<Stmt>, stmts: Stmts): Out
    decreases fuel, 1
  {
    if fuel == 0 then Stop(st)
    else if stmts.Empty? then Ok(st, VOpaque)
    else
      var out := Step(fuel, o, st, Inside(InBlock(before, stmts), ctx), scope, stmts.first);
      if out.Stop? then out else Exec(fuel - 1, o, out.st, ctx, scope, before + [stmts.first], stmts.others)
  }

  function Step(fuel: nat, o: Oracle, st: State, ctx: Context, scope: nat, s: Stmt): Out
    requires fuel > 0
    decreases fuel, 0
  {
    match s
    case Decl(kind, target, init) =>
      var value := Eval(fuel - 1, o, st, ctx, scope, Elsewhere, init);
      if value.Stop? then value else Ok(Declare(o, value.st, scope, kind, target, value.v), VOpaque)
    case Do(e) => Eval(fuel - 1, o, st, ctx, scope, Elsewhere, e)
    case Block(inner) => Exec(fuel - 1, o, Enter(st, inner, Some(scope), ctx), ctx, |st.heap|, [], inner)
  }

  function Run(fuel: nat, o: Oracle, program: Stmts): Out {
    Exec(fuel, o, Enter(State([], [], 0), program, None, []), [], 0, [], program)
  }
}
