/** Wrapper resolution as a program transformation: what attribution at the call sites finds is what plain
    evaluation finds once the wrappers are inlined; and what becomes of methods that qualify as wrappers. */
module Inlining {
  import opened GoTypes
  import opened Syntax
  import opened Resolve
  import opened Rules
  import opened Registry
  import opened Wrappers

  // ---------------------------------------------------------------- inlining as a program transformation

  /** A wrapper's parameters, and the registration call in its body. */
  datatype Def = Def(params: seq<nat>, inner: Node)

  predicate ValidDef(def: Def)
  {
    def.inner.Call? && DoRegistrationCall(def.inner.fun).Some? &&
    ProvidedParam(CalleeName(def.inner.fun), def.inner.args, def.params).Some?
  }

  /** The name of the registration function that the callee is written with. */
  function CalleeName(fun: Node): string
    requires DoRegistrationCall(fun).Some?
  {
    DoRegistrationCall(fun).value.0
  }

  function DefParam(def: Def): nat
    requires ValidDef(def)
  {
    ProvidedParam(CalleeName(def.inner.fun), def.inner.args, def.params).value
  }

  /** The wrappers' own calls by function, and the calls that are dropped from their bodies. */
  datatype Inliner = Inliner(defs: map<FuncId, Def>, skips: set<nat>)

  function DefAt(inl: Inliner, call: Node): (r: Option<Def>)
    requires call.Call?
    ensures r.Some? ==> ValidDef(r.value) && DefParam(r.value) < |call.args|
  {
    match CalleeFunc(call.fun)
    case None => None
    case Some(fn) =>
      if fn in inl.defs && ValidDef(inl.defs[fn]) && DefParam(inl.defs[fn]) < |call.args|
      then Some(inl.defs[fn])
      else None
  }

  /** Wrapper calls become the inner do.* call on the mapped argument (the other arguments stay where
      they are, for what is nested in them); skipped body calls are dropped, their operands stay. */
  function Inline(inl: Inliner, n: Node): (r: Node)
    ensures TypeOf(r) == TypeOf(n)
  {
    match n
    case Ident(_, _, _) => n
    case Selector(x, name, obj, t) => Selector(Inline(inl, x), name, obj, t)
    case Index(x, indices, t) => Index(Inline(inl, x), InlineAll(inl, indices), t)
    case Call(site, fun, args, t) =>
      var fun', args' := Inline(inl, fun), InlineAll(inl, args);
      if site.id in inl.skips then Other([fun'] + args', t)
      else if DoRegistrationCall(fun).None? && DefAt(inl, n).Some? then
        InnerCall(site, DefAt(inl, n).value, fun', args', t)
      else Call(site, fun', args', t)
    case FuncLit(result, body, t) => FuncLit(result, InlineAll(inl, body), t)
    case Return(results) => Return(InlineAll(inl, results))
    case Other(children, t) => Other(InlineAll(inl, children), t)
    case Store(vars, byAddress, operands, t) => Store(vars, byAddress, InlineAll(inl, operands), t)
  }

  function InlineAll(inl: Inliner, nodes: seq<Node>): (r: seq<Node>)
    ensures |r| == |nodes|
    ensures forall i | 0 <= i < |nodes| :: r[i] == Inline(inl, nodes[i])
  {
    if nodes == [] then [] else [Inline(inl, nodes[0])] + InlineAll(inl, nodes[1..])
  }

  /** The wrapper's own registration with the provider substituted; the call's other operands stay around
      it, for what is nested in them. */
  function InnerCall(site: Site, def: Def, fun: Node, args: seq<Node>, t: Type): Node
    requires ValidDef(def) && DefParam(def) < |args|
  {
    var callee := UnwrapInstantiation(def.inner.fun);
    var slot := ProviderArgIndex(CalleeName(def.inner.fun)).value;
    var p := DefParam(def);
    Call(site, Selector(fun, callee.name, callee.obj, callee.typ),
         Slots(slot == 1, args[..p], Subst(BindAll(def.params, args), def.inner.args[slot]), args[p + 1..]), t)
  }

  /** The provider in slot 1 or 2, what precedes and follows it grouped around it. */
  function Slots(first: bool, before: seq<Node>, provider: Node, after: seq<Node>): (r: seq<Node>)
    ensures |r| == (if first then 3 else 4) && r[if first then 1 else 2] == provider
  {
    [Other(before, NoType)] + ((if first then [] else [Other([], NoType)]) + ([provider] + [Other(after, NoType)]))
  }

  /** What is substituted in the slot is the argument bound to the provided parameter. */
  lemma SlotIsArgument(def: Def, args: seq<Node>)
    requires ValidDef(def) && DefParam(def) < |args|
    ensures Subst(BindAll(def.params, args), def.inner.args[ProviderArgIndex(CalleeName(def.inner.fun)).value]) ==
            args[DefParam(def)]
  {
    ArgOfParam(def.params, args, DefParam(def));
  }

  function InlineDecls(inl: Inliner, decls: seq<TopDecl>): seq<TopDecl>
  {
    if decls == [] then [] else [InlineDecl(inl, decls[0])] + InlineDecls(inl, decls[1..])
  }

  function InlineDecl(inl: Inliner, d: TopDecl): TopDecl
  {
    match d
    case Gen(nodes) => Gen(InlineAll(inl, nodes))
    case Fun(decl) => Fun(decl.(body := match decl.body case None => None case Some(b) => Some(InlineAll(inl, b))))
  }

  /** The same context with every visible body inlined. */
  function InlineContext(inl: Inliner, ctx: Context): Context
  {
    ctx.(funcs := map fn | fn in ctx.funcs :: ctx.funcs[fn].(body := InlineAll(inl, ctx.funcs[fn].body)),
         methods := map fn | fn in ctx.methods :: InlineAll(inl, ctx.methods[fn]))
  }

  /** What the analyzer knows of a wrapper is what its declaration says. */
  ghost predicate Describes(w: WrapperInfo, def: Def)
  {
    ValidDef(def) && DefParam(def) == w.paramIdx && DoRegistrationCall(def.inner.fun) == Some((w.innerFnName, w.kind))
  }

  ghost predicate Agrees(env: WrapperEnv, inl: Inliner)
  {
    && env.skips == inl.skips && env.wrappers.Keys == inl.defs.Keys
    && forall fn | fn in env.wrappers :: Describes(env.wrappers[fn], inl.defs[fn])
  }

  /** The inliner of a package, from the declarations that are wrappers. */
  ghost function InlinerOf(decls: seq<TopDecl>): Inliner
  {
    if decls == [] then Inliner(map[], {})
    else InlinerWith(InlinerOf(decls[..|decls| - 1]), decls[|decls| - 1])
  }

  ghost function InlinerWith(inl: Inliner, d: TopDecl): Inliner
  {
    if d.Fun? && IsWrapper(d.decl) then
      Inliner(inl.defs[d.decl.fn := Def(d.decl.params, InnerOf(d.decl))], inl.skips + {InnerOf(d.decl).site.id})
    else inl
  }

  ghost function InnerOf(d: FuncDecl): (inner: Node)
    requires IsWrapper(d)
    ensures inner.Call? && exists k :: Wraps(d, inner, k)
  {
    var inner :| exists k :: Wraps(d, inner, k);
    SoleIsKnown(CallsIn(d.body.value), inner);
    inner
  }

  lemma {:induction false} EnvAgrees(decls: seq<TopDecl>)
    ensures Agrees(EnvOf(decls), InlinerOf(decls))
  {
    if decls != [] {
      EnvAgrees(decls[..|decls| - 1]);
      StepAgrees(EnvOf(decls[..|decls| - 1]), InlinerOf(decls[..|decls| - 1]), decls[|decls| - 1]);
    }
  }

  lemma StepAgrees(env: WrapperEnv, inl: Inliner, d: TopDecl)
    requires Agrees(env, inl)
    ensures Agrees(EnvWith(env, d), InlinerWith(inl, d))
  {
    if d.Fun? {
      IsWrapperIff(d.decl);
      if IsWrapper(d.decl) {
        var info := InnerIsFound(d.decl);
        EntryAgrees(env, inl, d.decl.fn, info, Def(d.decl.params, InnerOf(d.decl)), InnerOf(d.decl).site.id);
      }
    }
  }

  lemma InnerIsFound(d: FuncDecl) returns (info: WrapperInfo)
    requires IsWrapper(d)
    ensures WrapperOfDecl(d) == Some((info, InnerOf(d))) && Describes(info, Def(d.params, InnerOf(d)))
  {
    var k :| Wraps(d, InnerOf(d), k);
    info := InfoOf(d, InnerOf(d), k);
    WrapperIsDescribed(d, info, InnerOf(d));
  }

  lemma EntryAgrees(env: WrapperEnv, inl: Inliner, fn: FuncId, info: WrapperInfo, def: Def, id: nat)
    requires Agrees(env, inl) && Describes(info, def)
    ensures Agrees(WrapperEnv(env.wrappers[fn := info], env.skips + {id}),
                   Inliner(inl.defs[fn := def], inl.skips + {id}))
  {}

  lemma WrapperIsDescribed(d: FuncDecl, info: WrapperInfo, inner: Node)
    requires WrapperOfDecl(d) == Some((info, inner))
    ensures inner.Call? && Describes(info, Def(d.params, inner))
  {}

  // ---------------------------------------------------------------- a site evaluates the same after inlining

  lemma {:induction false} ConcreteResultsInlined(u: Universe, inl: Inliner, rets: seq<seq<Node>>,
                                                  rets': seq<seq<Node>>)
    requires SameResults(inl, rets, rets')
    ensures ConcreteResults(u, rets') == ConcreteResults(u, rets)
  {
    if rets != [] {
      ConcreteResultsInlined(u, inl, rets[1..], rets'[1..]);
      assert rets'[0] == InlineAll(inl, rets[0]);
    }
  }

  ghost predicate SameResults(inl: Inliner, rets: seq<seq<Node>>, rets': seq<seq<Node>>)
  {
    |rets'| == |rets| && forall i | 0 <= i < |rets| :: rets'[i] == InlineAll(inl, rets[i])
  }

  lemma {:induction false} ReturnsInAppend(a: seq<Node>, b: seq<Node>)
    ensures ReturnsIn(a + b) == ReturnsIn(a) + ReturnsIn(b)
  {
    if a == [] {
      assert a + b == b;
    } else {
      assert (a + b)[1..] == a[1..] + b;
      ReturnsInAppend(a[1..], b);
    }
  }

  /** The inner call keeps the operands of the call it replaces, in order. */
  lemma InnerCallReturns(site: Site, def: Def, fun: Node, args: seq<Node>, t: Type)
    requires ValidDef(def) && DefParam(def) < |args|
    ensures ReturnsOf(InnerCall(site, def, fun, args, t)) == ReturnsOf(fun) + ReturnsIn(args)
  {
    SlotIsArgument(def, args);
    SlotsReturns(ProviderArgIndex(CalleeName(def.inner.fun)).value == 1, args, DefParam(def));
  }

  lemma SlotsReturns(first: bool, args: seq<Node>, p: nat)
    requires p < |args|
    ensures ReturnsIn(Slots(first, args[..p], args[p], args[p + 1..])) == ReturnsIn(args)
  {
    var gap: seq<Node> := if first then [] else [Other([], NoType)];
    ReturnsInOne(Other([], NoType));
    ReturnsGrouped(args[..p], gap, args[p], args[p + 1..]);
    Around(args, p);
    ReturnsInSplit(args, args[..p], args[p], args[p + 1..]);
  }

  lemma ReturnsGrouped(head: seq<Node>, gap: seq<Node>, x: Node, tail: seq<Node>)
    requires ReturnsIn(gap) == []
    ensures ReturnsIn([Other(head, NoType)] + (gap + ([x] + [Other(tail, NoType)]))) ==
      ReturnsIn(head) + (ReturnsOf(x) + ReturnsIn(tail))
  {
    var before, after := Other(head, NoType), Other(tail, NoType);
    ReturnsInCons(before, gap + ([x] + [after]));
    ReturnsInAppend(gap, [x] + [after]);
    ReturnsInCons(x, [after]);
    ReturnsInOne(after);
  }

  lemma Around(args: seq<Node>, p: nat)
    requires p < |args|
    ensures args == args[..p] + ([args[p]] + args[p + 1..])
  {}

  lemma ReturnsInSplit(args: seq<Node>, head: seq<Node>, x: Node, tail: seq<Node>)
    requires args == head + ([x] + tail)
    ensures ReturnsIn(args) == ReturnsIn(head) + (ReturnsOf(x) + ReturnsIn(tail))
  {
    ReturnsInAppend(head, [x] + tail);
    ReturnsInCons(x, tail);
  }

  lemma ReturnsInCons(n: Node, rest: seq<Node>)
    ensures ReturnsIn([n] + rest) == ReturnsOf(n) + ReturnsIn(rest)
  {
    assert ([n] + rest)[1..] == rest;
  }

  lemma ReturnsInOne(n: Node)
    ensures ReturnsIn([n]) == ReturnsOf(n)
  {
    assert [n] + [] == [n];
    ReturnsInCons(n, []);
  }

  lemma SameAppend(inl: Inliner, a: seq<seq<Node>>, a': seq<seq<Node>>, b: seq<seq<Node>>, b': seq<seq<Node>>)
    requires SameResults(inl, a, a') && SameResults(inl, b, b')
    ensures SameResults(inl, a + b, a' + b')
  {}

  /** However a call is inlined, its operands stay in place. */
  lemma InlinedCallReturns(inl: Inliner, n: Node)
    requires n.Call?
    ensures ReturnsOf(Inline(inl, n)) == ReturnsOf(Inline(inl, n.fun)) + ReturnsIn(InlineAll(inl, n.args))
  {
    var fun', args' := Inline(inl, n.fun), InlineAll(inl, n.args);
    if n.site.id in inl.skips {
      ReturnsInCons(fun', args');
    } else if DoRegistrationCall(n.fun).None? && DefAt(inl, n).Some? {
      InnerCallReturns(n.site, DefAt(inl, n).value, fun', args', n.typ);
    }
  }

  lemma {:induction false} ReturnsInlined(inl: Inliner, n: Node)
    ensures SameResults(inl, ReturnsOf(n), ReturnsOf(Inline(inl, n)))
    decreases n
  {
    match n
    case Ident(_, _, _) =>
    case Selector(x, _, _, _) => ReturnsInlined(inl, x);
    case Index(x, indices, _) =>
      ReturnsInlined(inl, x);
      ReturnsAllInlined(inl, indices);
      SameAppend(inl, ReturnsOf(x), ReturnsOf(Inline(inl, x)), ReturnsIn(indices), ReturnsIn(InlineAll(inl, indices)));
    case Call(_, fun, args, _) =>
      ReturnsInlined(inl, fun);
      ReturnsAllInlined(inl, args);
      SameAppend(inl, ReturnsOf(fun), ReturnsOf(Inline(inl, fun)), ReturnsIn(args), ReturnsIn(InlineAll(inl, args)));
      InlinedCallReturns(inl, n);
    case FuncLit(_, _, _) =>
    case Return(results) =>
      ReturnsAllInlined(inl, results);
      SameAppend(inl, [results], [InlineAll(inl, results)], ReturnsIn(results), ReturnsIn(InlineAll(inl, results)));
    case Other(children, _) => ReturnsAllInlined(inl, children);
    case Store(_, _, operands, _) => ReturnsAllInlined(inl, operands);
  }

  lemma {:induction false} ReturnsAllInlined(inl: Inliner, nodes: seq<Node>)
    ensures SameResults(inl, ReturnsIn(nodes), ReturnsIn(InlineAll(inl, nodes)))
    decreases nodes
  {
    if nodes != [] {
      ReturnsInlined(inl, nodes[0]);
      ReturnsAllInlined(inl, nodes[1..]);
      assert InlineAll(inl, nodes)[1..] == InlineAll(inl, nodes[1..]);
      SameAppend(inl, ReturnsOf(nodes[0]), ReturnsOf(Inline(inl, nodes[0])),
                 ReturnsIn(nodes[1..]), ReturnsIn(InlineAll(inl, nodes[1..])));
    }
  }

  lemma UnifiedInlined(u: Universe, inl: Inliner, body: seq<Node>)
    ensures UnifiedInstance(u, InlineAll(inl, body)) == UnifiedInstance(u, body)
  {
    ReturnsAllInlined(inl, body);
    ConcreteResultsInlined(u, inl, ReturnsIn(body), ReturnsIn(InlineAll(inl, body)));
  }

  lemma VerdictsInlined(inl: Inliner, body: seq<Node>)
    ensures IsSoleNilReturn(InlineAll(inl, body)) <==> IsSoleNilReturn(body)
    ensures IsSoleNakedReturn(InlineAll(inl, body)) <==> IsSoleNakedReturn(body)
  {}

  lemma BodyInlined(inl: Inliner, ctx: Context, arg: Node)
    ensures ProviderBody(InlineContext(inl, ctx).funcs, Inline(inl, arg)) ==
      match ProviderBody(ctx.funcs, arg) case None => None case Some(b) => Some(InlineAll(inl, b))
  {}

  lemma ProviderInlined(u: Universe, inl: Inliner, ctx: Context, isValue: bool, arg: Node)
    ensures RegistrationTypes(u, InlineContext(inl, ctx).funcs, isValue, Inline(inl, arg)) ==
            RegistrationTypes(u, ctx.funcs, isValue, arg)
  {
    BodyInlined(inl, ctx, arg);
    var body := ProviderBody(ctx.funcs, arg);
    if body.Some? { UnifiedInlined(u, inl, body.value); }
  }

  lemma EvalProviderInlined(u: Universe, inl: Inliner, ctx: Context, kind: ServiceKind, site: Site, arg: Node)
    ensures EvalProvider(u, InlineContext(inl, ctx), kind, site, Inline(inl, arg)) ==
      EvalProvider(u, ctx, kind, site, arg)
  {
    ProviderInlined(u, inl, ctx, kind.Eager?, arg);
    var ctx' := InlineContext(inl, ctx);
    forall t ensures HasSoleNilReturnCheck(u, ctx', t) <==> HasSoleNilReturnCheck(u, ctx, t)
             ensures HasNakedReturnCheck(u, ctx', t) <==> HasNakedReturnCheck(u, ctx, t)
    {
      var fn := ResolveHealthCheck(u, t);
      if fn.Some? && fn.value in ctx.methods { VerdictsInlined(inl, ctx.methods[fn.value]); }
    }
  }

  lemma {:induction false} DoCallInlined(inl: Inliner, fun: Node)
    ensures DoRegistrationCall(Inline(inl, fun)) == DoRegistrationCall(fun)
  {
    match fun
    case Index(x, _, _) => DoCallInlined(inl, x);
    case _ =>
  }

  // ---------------------------------------------------------------- the program evaluates the same

  lemma {:induction false} VisitAllAppend(u: Universe, ctx: Context, env: WrapperEnv, a: seq<Node>, b: seq<Node>)
    ensures VisitAll(u, ctx, env, a + b) == VisitAll(u, ctx, env, a) + VisitAll(u, ctx, env, b)
  {
    if a == [] {
      assert a + b == b;
    } else {
      assert (a + b)[1..] == a[1..] + b;
      VisitAllAppend(u, ctx, env, a[1..], b);
    }
  }

  /** Below the replaced call, the walk finds what it found before. */
  lemma InnerCallVisit(u: Universe, ctx: Context, env: WrapperEnv, site: Site, def: Def, fun: Node,
                       args: seq<Node>, t: Type)
    requires ValidDef(def) && DefParam(def) < |args|
    ensures var c := InnerCall(site, def, fun, args, t);
      Visit(u, ctx, env, c) == InspectCall(u, ctx, env, c) + Visit(u, ctx, env, fun) + VisitAll(u, ctx, env, args)
  {
    SlotIsArgument(def, args);
    SlotsVisit(u, ctx, env, ProviderArgIndex(CalleeName(def.inner.fun)).value == 1, args, DefParam(def));
  }

  lemma SlotsVisit(u: Universe, ctx: Context, env: WrapperEnv, first: bool, args: seq<Node>, p: nat)
    requires p < |args|
    ensures VisitAll(u, ctx, env, Slots(first, args[..p], args[p], args[p + 1..])) == VisitAll(u, ctx, env, args)
  {
    var gap: seq<Node> := if first then [] else [Other([], NoType)];
    VisitOne(u, ctx, env, Other([], NoType));
    VisitGrouped(u, ctx, env, args[..p], gap, args[p], args[p + 1..]);
    Around(args, p);
    VisitSplit(u, ctx, env, args, args[..p], args[p], args[p + 1..]);
  }

  lemma VisitGrouped(u: Universe, ctx: Context, env: WrapperEnv, head: seq<Node>, gap: seq<Node>, x: Node,
                     tail: seq<Node>)
    requires VisitAll(u, ctx, env, gap) == []
    ensures VisitAll(u, ctx, env, [Other(head, NoType)] + (gap + ([x] + [Other(tail, NoType)]))) ==
      VisitAll(u, ctx, env, head) + (Visit(u, ctx, env, x) + VisitAll(u, ctx, env, tail))
  {
    var before, after := Other(head, NoType), Other(tail, NoType);
    VisitCons(u, ctx, env, before, gap + ([x] + [after]));
    VisitAllAppend(u, ctx, env, gap, [x] + [after]);
    VisitCons(u, ctx, env, x, [after]);
    VisitOne(u, ctx, env, after);
  }

  lemma VisitSplit(u: Universe, ctx: Context, env: WrapperEnv, args: seq<Node>, head: seq<Node>, x: Node,
                   tail: seq<Node>)
    requires args == head + ([x] + tail)
    ensures VisitAll(u, ctx, env, args) == VisitAll(u, ctx, env, head) +
      (Visit(u, ctx, env, x) + VisitAll(u, ctx, env, tail))
  {
    VisitAllAppend(u, ctx, env, head, [x] + tail);
    VisitCons(u, ctx, env, x, tail);
  }

  lemma VisitCons(u: Universe, ctx: Context, env: WrapperEnv, n: Node, rest: seq<Node>)
    ensures VisitAll(u, ctx, env, [n] + rest) == Visit(u, ctx, env, n) + VisitAll(u, ctx, env, rest)
  {
    assert ([n] + rest)[1..] == rest;
  }

  lemma VisitOne(u: Universe, ctx: Context, env: WrapperEnv, n: Node)
    ensures VisitAll(u, ctx, env, [n]) == Visit(u, ctx, env, n)
  {
    assert [n] + [] == [n];
    VisitCons(u, ctx, env, n, []);
  }

  const PLAIN := WrapperEnv(map[], {})

  /** A direct registration evaluates the same on its inlined arguments. */
  lemma DirectInlined(u: Universe, ctx: Context, inl: Inliner, fnName: string, kind: ServiceKind, site: Site,
                      args: seq<Node>)
    ensures EvalSite(u, InlineContext(inl, ctx), fnName, kind, site, InlineAll(inl, args), None) ==
            EvalSite(u, ctx, fnName, kind, site, args, None)
  {
    var i := ProviderArgIndex(fnName);
    if i.Some? && i.value < |args| {
      EvalProviderInlined(u, inl, ctx, kind, site, args[i.value]);
    }
  }

  /** A wrapper call evaluates, on its mapped argument, as the wrapper's registration that replaces it. */
  lemma WrapperInlined(u: Universe, ctx: Context, inl: Inliner, w: WrapperInfo, def: Def, site: Site, fun: Node,
                       args: seq<Node>, t: Type)
    requires Describes(w, def) && w.paramIdx < |args|
    ensures var c := InnerCall(site, def, fun, InlineAll(inl, args), t);
      InspectCall(u, InlineContext(inl, ctx), PLAIN, c) ==
      [EvalSite(u, ctx, w.innerFnName, w.kind, site, args, Some(args[w.paramIdx]))]
  {
    var c := InnerCall(site, def, fun, InlineAll(inl, args), t);
    SlotIsArgument(def, InlineAll(inl, args));
    assert DoRegistrationCall(c.fun) == Some((w.innerFnName, w.kind));
    SlotIsOneOrTwo(w.innerFnName);
    assert RegistrationProvider(w.innerFnName, c.args, None) == Some(Inline(inl, args[w.paramIdx]));
    EvalProviderInlined(u, inl, ctx, w.kind, site, args[w.paramIdx]);
  }

  lemma SlotIsOneOrTwo(name: string)
    ensures ProviderArgIndex(name).Some? ==> ProviderArgIndex(name).value == 1 || ProviderArgIndex(name).value == 2
    ensures ProviderArgIndex(name).Some? && RegKindOf(name).Some? ==> !RegKindOf(name).value.Alias?
  {}

  lemma SameLookup(env: WrapperEnv, inl: Inliner, call: Node)
    requires Agrees(env, inl) && call.Call?
    ensures WrapperAt(env, call).Some? <==> DefAt(inl, call).Some?
    ensures WrapperAt(env, call).Some? ==> Describes(WrapperAt(env, call).value, DefAt(inl, call).value)
  {}

  lemma InspectInlined(u: Universe, ctx: Context, env: WrapperEnv, inl: Inliner, call: Node)
    requires call.Call? && Agrees(env, inl) && call.site.id !in env.skips
    ensures var c := Inline(inl, call);
      c.Call? && InspectCall(u, InlineContext(inl, ctx), PLAIN, c) == InspectCall(u, ctx, env, call)
  {
    var Call(site, fun, args, t) := call;
    DoCallInlined(inl, fun);
    SameLookup(env, inl, call);
    var d, w := DoRegistrationCall(fun), WrapperAt(env, call);
    if d.Some? {
      DirectInlined(u, ctx, inl, d.value.0, d.value.1, site, args);
    } else if w.Some? {
      WrapperInlined(u, ctx, inl, w.value, DefAt(inl, call).value, site, Inline(inl, fun), args, t);
    }
  }

  /** The walk of an inlined call: its inspection, then its operands. */
  lemma CallInlined(u: Universe, ctx: Context, env: WrapperEnv, inl: Inliner, n: Node)
    requires Agrees(env, inl) && n.Call?
    ensures var ctx' := InlineContext(inl, ctx);
      Visit(u, ctx', PLAIN, Inline(inl, n)) == InspectCall(u, ctx, env, n) +
        Visit(u, ctx', PLAIN, Inline(inl, n.fun)) + VisitAll(u, ctx', PLAIN, InlineAll(inl, n.args))
  {
    var ctx', fun', args' := InlineContext(inl, ctx), Inline(inl, n.fun), InlineAll(inl, n.args);
    if n.site.id in env.skips {
      VisitCons(u, ctx', PLAIN, fun', args');
    } else {
      InspectInlined(u, ctx, env, inl, n);
      if DoRegistrationCall(n.fun).None? && DefAt(inl, n).Some? {
        InnerCallVisit(u, ctx', PLAIN, n.site, DefAt(inl, n).value, fun', args', n.typ);
      }
    }
  }

  lemma {:induction false} VisitInlined(u: Universe, ctx: Context, env: WrapperEnv, inl: Inliner, n: Node)
    requires Agrees(env, inl)
    ensures Visit(u, InlineContext(inl, ctx), PLAIN, Inline(inl, n)) == Visit(u, ctx, env, n)
    decreases n
  {
    match n
    case Ident(_, _, _) =>
    case Selector(x, _, _, _) => VisitInlined(u, ctx, env, inl, x);
    case Index(x, indices, _) => VisitInlined(u, ctx, env, inl, x); VisitAllInlined(u, ctx, env, inl, indices);
    case Call(_, fun, args, _) =>
      VisitInlined(u, ctx, env, inl, fun);
      VisitAllInlined(u, ctx, env, inl, args);
      CallInlined(u, ctx, env, inl, n);
    case FuncLit(_, body, _) => VisitAllInlined(u, ctx, env, inl, body);
    case Return(results) => VisitAllInlined(u, ctx, env, inl, results);
    case Other(children, _) => VisitAllInlined(u, ctx, env, inl, children);
    case Store(_, _, operands, _) => VisitAllInlined(u, ctx, env, inl, operands);
  }

  lemma {:induction false} VisitAllInlined(u: Universe, ctx: Context, env: WrapperEnv, inl: Inliner, nodes: seq<Node>)
    requires Agrees(env, inl)
    ensures VisitAll(u, InlineContext(inl, ctx), PLAIN, InlineAll(inl, nodes)) == VisitAll(u, ctx, env, nodes)
    decreases nodes
  {
    if nodes != [] {
      VisitInlined(u, ctx, env, inl, nodes[0]);
      VisitAllInlined(u, ctx, env, inl, nodes[1..]);
      assert InlineAll(inl, nodes)[1..] == InlineAll(inl, nodes[1..]);
    }
  }

  lemma {:induction false} NodesInlined(inl: Inliner, decls: seq<TopDecl>)
    ensures NodesOf(InlineDecls(inl, decls)) == InlineAll(inl, NodesOf(decls))
  {
    if decls != [] {
      NodesInlined(inl, decls[1..]);
      var a, b := DeclNodes(decls[0]), NodesOf(decls[1..]);
      assert InlineAll(inl, a + b) == InlineAll(inl, a) + InlineAll(inl, b);
    }
  }

  /** Inlining preserves meaning: replace each recognised wrapper call by the wrapper's own registration with
      the provider substituted, drop the registrations from the wrappers' bodies, and evaluate every do.* call
      where it stands; that yields, finding for finding, what attribution at the call sites yields. */
  lemma InliningPreservesFindings(u: Universe, ctx: Context, decls: seq<TopDecl>)
    ensures var inl := InlinerOf(decls);
      AnalyzePlain(u, InlineContext(inl, ctx), InlineDecls(inl, decls)) == AnalyzeDecls(u, ctx, decls)
  {
    var inl := InlinerOf(decls);
    EnvAgrees(decls);
    NodesInlined(inl, decls);
    VisitAllInlined(u, ctx, EnvOf(decls), inl, NodesOf(decls));
  }

  // ---------------------------------------------------------------- wrapper methods

  /** A declaration with a receiver. */
  predicate IsMethod(d: TopDecl)
  {
    d.Fun? && d.decl.fn.recv != ""
  }

  function WithoutMethods(decls: seq<TopDecl>): (r: seq<TopDecl>)
    ensures forall d :: d in r <==> d in decls && !IsMethod(d)
  {
    if decls == [] then []
    else
      var init, d := WithoutMethods(decls[..|decls| - 1]), decls[|decls| - 1];
      if IsMethod(d) then init else init + [d]
  }

  /** Only functions without a receiver are inlined. */
  ghost function FunctionInliner(decls: seq<TopDecl>): Inliner
  {
    InlinerOf(WithoutMethods(decls))
  }

  function FunctionEnv(decls: seq<TopDecl>): WrapperEnv
  {
    EnvOf(WithoutMethods(decls))
  }

  /** The body calls of methods that qualify as wrappers. */
  function MethodSkips(decls: seq<TopDecl>): (r: set<nat>)
    ensures forall id :: id in r <==> exists d :: d in decls && IsMethod(d) && SkipsCall(d, id)
  {
    set d | d in decls && IsMethod(d) && WrapperOfDecl(d.decl).Some? :: WrapperOfDecl(d.decl).value.1.site.id
  }

  predicate SkipsCall(d: TopDecl, id: nat)
  {
    d.Fun? && WrapperOfDecl(d.decl).Some? && WrapperOfDecl(d.decl).value.1.site.id == id
  }

  /** Identifiers denote functions, never methods; and no two calls share an identity. */
  ghost predicate WellTyped(decls: seq<TopDecl>)
  {
    var calls := CallsIn(NodesOf(decls));
    && (forall c | c in calls :: CalleeFunc(c.fun).Some? ==> CalleeFunc(c.fun).value.recv == "")
    && DistinctIds(calls)
  }

  ghost predicate DistinctIds(calls: seq<Node>)
    requires forall c | c in calls :: c.Call?
  {
    forall i, j | 0 <= i < j < |calls| :: calls[i].site.id != calls[j].site.id
  }

  predicate SameEntry(a: WrapperEnv, b: WrapperEnv, fn: FuncId)
  {
    if fn in a.wrappers then fn in b.wrappers && a.wrappers[fn] == b.wrappers[fn] else fn !in b.wrappers
  }

  lemma {:induction false} WrappersSplit(decls: seq<TopDecl>, fn: FuncId)
    requires fn.recv == ""
    ensures SameEntry(EnvOf(decls), FunctionEnv(decls), fn)
  {
    if decls != [] {
      var init, d := decls[..|decls| - 1], decls[|decls| - 1];
      WrappersSplit(init, fn);
      StepSplits(EnvOf(init), FunctionEnv(init), d, fn);
      if !IsMethod(d) { EnvSnoc(WithoutMethods(init), d); }
    }
  }

  lemma EnvSnoc(decls: seq<TopDecl>, d: TopDecl)
    ensures EnvOf(decls + [d]) == EnvWith(EnvOf(decls), d)
  {
    assert (decls + [d])[..|decls|] == decls;
  }

  lemma StepSplits(a: WrapperEnv, b: WrapperEnv, d: TopDecl, fn: FuncId)
    requires fn.recv == "" && SameEntry(a, b, fn)
    ensures SameEntry(EnvWith(a, d), if IsMethod(d) then b else EnvWith(b, d), fn)
  {}

  ghost predicate Skipped(decls: seq<TopDecl>, id: nat)
  {
    exists d :: d in decls && SkipsCall(d, id)
  }

  lemma {:induction false} SkipsAreInner(decls: seq<TopDecl>, id: nat)
    ensures id in EnvOf(decls).skips <==> Skipped(decls, id)
  {
    if decls != [] {
      var init, d := decls[..|decls| - 1], decls[|decls| - 1];
      SkipsAreInner(init, id);
      assert d in decls && EnvOf(decls) == EnvWith(EnvOf(init), d);
      assert id in EnvWith(EnvOf(init), d).skips <==> id in EnvOf(init).skips || SkipsCall(d, id);
      if Skipped(init, id) {
        var x :| x in init && SkipsCall(x, id);
        assert x in decls;
      }
      if Skipped(decls, id) {
        var x :| x in decls && SkipsCall(x, id);
        assert x in init || x == d;
      }
    }
  }

  lemma SkipsSplit(decls: seq<TopDecl>)
    ensures EnvOf(decls).skips == FunctionEnv(decls).skips + MethodSkips(decls)
  {
    forall id: nat
      ensures id in EnvOf(decls).skips <==> id in FunctionEnv(decls).skips || id in MethodSkips(decls)
    {
      SkipsAreInner(decls, id);
      SkipsAreInner(WithoutMethods(decls), id);
      if Skipped(decls, id) {
        var d :| d in decls && SkipsCall(d, id);
        assert IsMethod(d) || d in WithoutMethods(decls);
      }
    }
  }

  lemma {:induction false} CallsInAppend(a: seq<Node>, b: seq<Node>)
    ensures CallsIn(a + b) == CallsIn(a) + CallsIn(b)
  {
    if a == [] {
      assert a + b == b;
    } else {
      assert (a + b)[1..] == a[1..] + b;
      CallsInAppend(a[1..], b);
    }
  }

  lemma {:induction false} CallsOfDecl(decls: seq<TopDecl>, d: TopDecl, c: Node)
    requires d in decls && c in CallsIn(DeclNodes(d))
    ensures c in CallsIn(NodesOf(decls))
  {
    CallsInAppend(DeclNodes(decls[0]), NodesOf(decls[1..]));
    if d != decls[0] { CallsOfDecl(decls[1..], d, c); }
  }

  /** Calls of different declarations are different calls. */
  lemma {:induction false} DeclsShareNoCall(decls: seq<TopDecl>, d: TopDecl, e: TopDecl, c: Node, b: Node)
    requires DistinctIds(CallsIn(NodesOf(decls))) && d in decls && e in decls && d != e
    requires c in CallsIn(DeclNodes(d)) && b in CallsIn(DeclNodes(e))
    ensures c.site.id != b.site.id
  {
    var head, tail := CallsIn(DeclNodes(decls[0])), CallsIn(NodesOf(decls[1..]));
    CallsInAppend(DeclNodes(decls[0]), NodesOf(decls[1..]));
    var all := head + tail;
    assert all == CallsIn(NodesOf(decls));
    if d == decls[0] {
      CallsOfDecl(decls[1..], e, b);
      HeadAndTailDiffer(head, tail, c, b);
    } else if e == decls[0] {
      CallsOfDecl(decls[1..], d, c);
      HeadAndTailDiffer(head, tail, b, c);
    } else {
      assert forall i | 0 <= i < |tail| :: tail[i] == all[|head| + i];
      DeclsShareNoCall(decls[1..], d, e, c, b);
    }
  }

  lemma HeadAndTailDiffer(head: seq<Node>, tail: seq<Node>, c: Node, b: Node)
    requires forall x | x in head + tail :: x.Call?
    requires DistinctIds(head + tail) && c in head && b in tail
    ensures c.site.id != b.site.id
  {
    var i :| 0 <= i < |head| && head[i] == c;
    var j :| 0 <= j < |tail| && tail[j] == b;
    assert (head + tail)[i] == c && (head + tail)[|head| + j] == b;
  }

  function CountIn(calls: seq<Node>, ids: set<nat>): nat
    requires forall c | c in calls :: c.Call?
  {
    if calls == [] then 0 else (if calls[0].site.id in ids then 1 else 0) + CountIn(calls[1..], ids)
  }

  lemma {:induction false} CountInAppend(a: seq<Node>, b: seq<Node>, ids: set<nat>)
    requires forall c | c in a + b :: c.Call?
    requires forall c | c in a :: c.Call?
    requires forall c | c in b :: c.Call?
    ensures CountIn(a + b, ids) == CountIn(a, ids) + CountIn(b, ids)
  {
    if a == [] {
      assert a + b == b;
    } else {
      assert (a + b)[1..] == a[1..] + b;
      CountInAppend(a[1..], b, ids);
    }
  }

  /** Distinct calls that cover the identities are as many as the identities. */
  lemma {:induction false} CountIsSize(calls: seq<Node>, ids: set<nat>)
    requires forall c | c in calls :: c.Call?
    requires DistinctIds(calls)
    requires forall id | id in ids :: exists c :: c in calls && c.site.id == id
    ensures CountIn(calls, ids) == |ids|
  {
    if calls == [] {
      assert ids == {};
    } else {
      var id0 := calls[0].site.id;
      forall id | id in ids - {id0} ensures exists c :: c in calls[1..] && c.site.id == id {
        var c :| c in calls && c.site.id == id;
        assert c in calls[1..];
      }
      CountIsSize(calls[1..], ids - {id0});
      CountWithout(calls[1..], ids, id0);
    }
  }

  lemma {:induction false} CountWithout(calls: seq<Node>, ids: set<nat>, id: nat)
    requires forall c | c in calls :: c.Call? && c.site.id != id
    ensures CountIn(calls, ids) == CountIn(calls, ids - {id})
  {
    if calls != [] { CountWithout(calls[1..], ids, id); }
  }

  /** Two environments that differ only in extra skipped registration calls. */
  ghost predicate DifferOn(env: WrapperEnv, fenv: WrapperEnv, lost: set<nat>, calls: seq<Node>)
    requires forall c | c in calls :: c.Call?
  {
    && env.skips == fenv.skips + lost && fenv.skips !! lost
    && forall c | c in calls ::
         && WrapperAt(env, c) == WrapperAt(fenv, c)
         && (c.site.id in lost ==> DoRegistrationCall(c.fun).Some?)
  }

  lemma CallLoses(u: Universe, ctx: Context, env: WrapperEnv, fenv: WrapperEnv, lost: set<nat>, n: Node)
    requires n.Call? && DifferOn(env, fenv, lost, CallsOf(n))
    ensures |InspectCall(u, ctx, fenv, n)| == |InspectCall(u, ctx, env, n)| + if n.site.id in lost then 1 else 0
  {
    assert n in CallsOf(n);
  }

  lemma CallCounts(n: Node, ids: set<nat>)
    requires n.Call?
    ensures CountIn(CallsOf(n), ids) ==
      (if n.site.id in ids then 1 else 0) + CountIn(CallsOf(n.fun), ids) + CountIn(CallsIn(n.args), ids)
  {
    CountInAppend(CallsOf(n.fun), CallsIn(n.args), ids);
    var below := CallsOf(n.fun) + CallsIn(n.args);
    assert CallsOf(n) == [n] + below && ([n] + below)[1..] == below;
  }

  lemma {:induction false} VisitLoses(u: Universe, ctx: Context, env: WrapperEnv, fenv: WrapperEnv, lost: set<nat>,
                                      n: Node)
    requires DifferOn(env, fenv, lost, CallsOf(n))
    ensures |Visit(u, ctx, fenv, n)| == |Visit(u, ctx, env, n)| + CountIn(CallsOf(n), lost)
    decreases n
  {
    match n
    case Ident(_, _, _) =>
    case Selector(x, _, _, _) => VisitLoses(u, ctx, env, fenv, lost, x);
    case Index(x, indices, _) =>
      VisitLoses(u, ctx, env, fenv, lost, x);
      VisitAllLoses(u, ctx, env, fenv, lost, indices);
      CountInAppend(CallsOf(x), CallsIn(indices), lost);
    case Call(_, fun, args, _) =>
      VisitLoses(u, ctx, env, fenv, lost, fun);
      VisitAllLoses(u, ctx, env, fenv, lost, args);
      CallLoses(u, ctx, env, fenv, lost, n);
      CallCounts(n, lost);
    case FuncLit(_, body, _) => VisitAllLoses(u, ctx, env, fenv, lost, body);
    case Return(results) => VisitAllLoses(u, ctx, env, fenv, lost, results);
    case Other(children, _) => VisitAllLoses(u, ctx, env, fenv, lost, children);
    case Store(_, _, operands, _) => VisitAllLoses(u, ctx, env, fenv, lost, operands);
  }

  lemma {:induction false} VisitAllLoses(u: Universe, ctx: Context, env: WrapperEnv, fenv: WrapperEnv, lost: set<nat>,
                                         nodes: seq<Node>)
    requires DifferOn(env, fenv, lost, CallsIn(nodes))
    ensures |VisitAll(u, ctx, fenv, nodes)| == |VisitAll(u, ctx, env, nodes)| + CountIn(CallsIn(nodes), lost)
    decreases nodes
  {
    if nodes != [] {
      VisitLoses(u, ctx, env, fenv, lost, nodes[0]);
      VisitAllLoses(u, ctx, env, fenv, lost, nodes[1..]);
      CountInAppend(CallsOf(nodes[0]), CallsIn(nodes[1..]), lost);
    }
  }

  /** A call skipped on behalf of a method is a registration, and no function skips it. */
  lemma MethodSkip(decls: seq<TopDecl>, id: nat)
    requires WellTyped(decls) && id in MethodSkips(decls)
    ensures id !in FunctionEnv(decls).skips
    ensures exists c :: c in CallsIn(NodesOf(decls)) && c.site.id == id
    ensures forall c | c in CallsIn(NodesOf(decls)) && c.site.id == id :: DoRegistrationCall(c.fun).Some?
  {
    var d :| d in decls && IsMethod(d) && SkipsCall(d, id);
    var inner := WrapperOfDecl(d.decl).value.1;
    CallsOfDecl(decls, d, inner);
    NoFunctionSkips(decls, d, id);
    forall c | c in CallsIn(NodesOf(decls)) && c.site.id == id ensures c == inner {
      SameIdSameCall(CallsIn(NodesOf(decls)), c, inner);
    }
  }

  lemma SameIdSameCall(calls: seq<Node>, c: Node, b: Node)
    requires (forall x | x in calls :: x.Call?) && DistinctIds(calls)
    requires c in calls && b in calls && c.site.id == b.site.id
    ensures c == b
  {
    var i :| 0 <= i < |calls| && calls[i] == c;
    var j :| 0 <= j < |calls| && calls[j] == b;
  }

  lemma NoFunctionSkips(decls: seq<TopDecl>, d: TopDecl, id: nat)
    requires WellTyped(decls) && d in decls && IsMethod(d) && SkipsCall(d, id)
    ensures id !in FunctionEnv(decls).skips
  {
    SkipsAreInner(WithoutMethods(decls), id);
    forall e | e in WithoutMethods(decls) && e.Fun? && WrapperOfDecl(e.decl).Some? ensures !SkipsCall(e, id) {
      DeclsShareNoCall(decls, d, e, WrapperOfDecl(d.decl).value.1, WrapperOfDecl(e.decl).value.1);
    }
  }

  lemma MethodsDiffer(decls: seq<TopDecl>)
    requires WellTyped(decls)
    ensures DifferOn(EnvOf(decls), FunctionEnv(decls), MethodSkips(decls), CallsIn(NodesOf(decls)))
  {
    SkipsSplit(decls);
    forall id | id in MethodSkips(decls)
      ensures id !in FunctionEnv(decls).skips
      ensures forall c | c in CallsIn(NodesOf(decls)) && c.site.id == id :: DoRegistrationCall(c.fun).Some?
    {
      MethodSkip(decls, id);
    }
    forall c | c in CallsIn(NodesOf(decls)) ensures WrapperAt(EnvOf(decls), c) == WrapperAt(FunctionEnv(decls), c) {
      var fn := CalleeFunc(c.fun);
      if fn.Some? { WrappersSplit(decls, fn.value); }
    }
  }

  /** Receivers are not looked at: each method that qualifies as a wrapper loses its registration, which
      its call sites (selectors) do not bring back. Inlining functions only and evaluating plainly finds
      exactly that many more. */
  lemma WrapperMethodsLoseRegistrations(u: Universe, ctx: Context, decls: seq<TopDecl>)
    requires WellTyped(decls)
    ensures var inl := FunctionInliner(decls);
      |AnalyzePlain(u, InlineContext(inl, ctx), InlineDecls(inl, decls))| ==
      |AnalyzeDecls(u, ctx, decls)| + |MethodSkips(decls)|
  {
    var env, inl := FunctionEnv(decls), FunctionInliner(decls);
    EnvAgrees(WithoutMethods(decls));
    NodesInlined(inl, decls);
    VisitAllInlined(u, ctx, env, inl, NodesOf(decls));
    MethodsDiffer(decls);
    VisitAllLoses(u, ctx, EnvOf(decls), env, MethodSkips(decls), NodesOf(decls));
    forall id | id in MethodSkips(decls) ensures exists c :: c in CallsIn(NodesOf(decls)) && c.site.id == id {
      MethodSkip(decls, id);
    }
    CountIsSize(CallsIn(NodesOf(decls)), MethodSkips(decls));
  }

  /** Hence inlining of functions preserves the findings exactly when no method is a wrapper. */
  lemma FunctionInliningExactIff(u: Universe, ctx: Context, decls: seq<TopDecl>)
    requires WellTyped(decls)
    ensures var inl := FunctionInliner(decls);
      AnalyzePlain(u, InlineContext(inl, ctx), InlineDecls(inl, decls)) == AnalyzeDecls(u, ctx, decls)
      <==> forall d | d in decls && IsMethod(d) :: WrapperOfDecl(d.decl).None?
  {
    WrapperMethodsLoseRegistrations(u, ctx, decls);
    if forall d | d in decls && IsMethod(d) :: WrapperOfDecl(d.decl).None? {
      NoMethodWrapper(u, ctx, decls);
    } else {
      var d :| d in decls && IsMethod(d) && WrapperOfDecl(d.decl).Some?;
      assert SkipsCall(d, WrapperOfDecl(d.decl).value.1.site.id);
      assert WrapperOfDecl(d.decl).value.1.site.id in MethodSkips(decls);
    }
  }

  lemma NoMethodWrapper(u: Universe, ctx: Context, decls: seq<TopDecl>)
    requires WellTyped(decls) && forall d | d in decls && IsMethod(d) :: WrapperOfDecl(d.decl).None?
    ensures var inl := FunctionInliner(decls);
      AnalyzePlain(u, InlineContext(inl, ctx), InlineDecls(inl, decls)) == AnalyzeDecls(u, ctx, decls)
  {
    var env, inl := FunctionEnv(decls), FunctionInliner(decls);
    assert MethodSkips(decls) == {};
    MethodsDiffer(decls);
    EnvAgrees(WithoutMethods(decls));
    NodesInlined(inl, decls);
    VisitAllInlined(u, ctx, env, inl, NodesOf(decls));
    SameWalk(u, ctx, EnvOf(decls), env, NodesOf(decls));
  }

  /** Environments that agree on every call give the same walk. */
  lemma {:induction false} SameVisit(u: Universe, ctx: Context, env: WrapperEnv, fenv: WrapperEnv, n: Node)
    requires DifferOn(env, fenv, {}, CallsOf(n))
    ensures Visit(u, ctx, env, n) == Visit(u, ctx, fenv, n)
    decreases n
  {
    match n
    case Ident(_, _, _) =>
    case Selector(x, _, _, _) => SameVisit(u, ctx, env, fenv, x);
    case Index(x, indices, _) => SameVisit(u, ctx, env, fenv, x); SameWalk(u, ctx, env, fenv, indices);
    case Call(_, fun, args, _) =>
      assert n in CallsOf(n);
      SameVisit(u, ctx, env, fenv, fun);
      SameWalk(u, ctx, env, fenv, args);
    case FuncLit(_, body, _) => SameWalk(u, ctx, env, fenv, body);
    case Return(results) => SameWalk(u, ctx, env, fenv, results);
    case Other(children, _) => SameWalk(u, ctx, env, fenv, children);
    case Store(_, _, operands, _) => SameWalk(u, ctx, env, fenv, operands);
  }

  lemma {:induction false} SameWalk(u: Universe, ctx: Context, env: WrapperEnv, fenv: WrapperEnv, nodes: seq<Node>)
    requires DifferOn(env, fenv, {}, CallsIn(nodes))
    ensures VisitAll(u, ctx, env, nodes) == VisitAll(u, ctx, fenv, nodes)
    decreases nodes
  {
    if nodes != [] {
      SameVisit(u, ctx, env, fenv, nodes[0]);
      SameWalk(u, ctx, env, fenv, nodes[1..]);
    }
  }
}
