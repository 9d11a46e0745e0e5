/** Registrations behind repo-local wrapper functions (pkg/healthwash/wrapper.go and the site walk of
    healthwash.go). A function whose body performs one registration with a parameter in the provider
    slot is attributed at its call sites, on the mapped argument; the body's own call is skipped.
    The main result: what is found at a call is the registration that the call performs, the wrapper's own
    with the arguments substituted. */
module Wrappers {
  import opened GoTypes
  import opened Syntax
  import opened Resolve
  import opened Rules
  import opened Registry

  datatype WrapperInfo = WrapperInfo(innerFnName: string, kind: ServiceKind, paramIdx: nat)

  /** Resolvable wrappers by function, and the call sites inside their bodies that must not count. */
  datatype WrapperEnv = WrapperEnv(wrappers: map<FuncId, WrapperInfo>, skips: set<nat>)

  type Finding = (ServiceRecord, seq<SiteReport>)

  function UnwrapInstantiation(fun: Node): Node
  {
    if fun.Index? then UnwrapInstantiation(fun.x) else fun
  }

  /** A selector whose object is a registration function of the do package. A dot-imported name is a
      plain identifier and is not matched. */
  function DoRegistrationCall(fun: Node): Option<(string, ServiceKind)>
  {
    match UnwrapInstantiation(fun)
    case Selector(_, _, FuncObj(fn), _) =>
      if fn.pkg != DO_PATH then None
      else
        (match RegKindOf(fn.name)
         case None => None
         case Some(kind) => Some((fn.name, kind)))
    case _ => None
  }

  /** The function that a plain identifier callee denotes, explicit instantiation stripped. */
  function CalleeFunc(fun: Node): Option<FuncId>
  {
    match fun
    case Ident(_, FuncObj(fn), _) => Some(fn)
    case Index(x, _, _) => CalleeFunc(x)
    case _ => None
  }

  function DoCalls(calls: seq<Node>): (r: seq<Node>)
    requires forall c | c in calls :: c.Call?
    ensures forall c :: c in r <==> c in calls && DoRegistrationCall(c.fun).Some?
  {
    if calls == [] then []
    else (if DoRegistrationCall(calls[0].fun).Some? then [calls[0]] else []) + DoCalls(calls[1..])
  }

  function SoleRegistrationCall(body: seq<Node>): (r: Option<Node>)
    ensures r.Some? ==> r.value in CallsIn(body) && r.value.Call? && DoRegistrationCall(r.value.fun).Some?
  {
    var calls := DoCalls(CallsIn(body));
    if |calls| == 1 then
      assert calls[0] in calls;
      Some(calls[0])
    else None
  }

  function ParamIndex(params: seq<nat>, v: nat): (r: Option<nat>)
    ensures r.Some? ==> r.value < |params| && params[r.value] == v && v !in params[..r.value]
    ensures r.None? ==> v !in params
  {
    if params == [] then None
    else if params[0] == v then Some(0)
    else match ParamIndex(params[1..], v) case None => None case Some(k) => Some(k + 1)
  }

  // ---------------------------------------------------------------- what a wrapper is

  lemma {:induction false} UnwrappedCallee(fun: Node)
    ensures CalleeObject(fun) == CalleeObject(UnwrapInstantiation(fun))
  {
    match fun
    case Index(x, _, _) => UnwrappedCallee(x);
    case _ =>
  }

  lemma {:induction false} UnwrapsToSelector(fun: Node)
    ensures UnwrapInstantiation(fun).Selector? <==> WrittenAsSelector(fun)
  {
    match fun
    case Index(x, _, _) => UnwrapsToSelector(x);
    case _ =>
  }

  /** The function of a callee is known exactly when it is written as an identifier. */
  lemma {:induction false} CalleeFuncIff(fun: Node)
    ensures CalleeFunc(fun) == if WrittenAsIdent(fun) then CalleeObject(fun) else None
    ensures !(WrittenAsIdent(fun) && WrittenAsSelector(fun))
  {
    match fun
    case Index(x, _, _) => CalleeFuncIff(x);
    case _ =>
  }

  /** A call of a registration function is matched exactly when its callee is written as a selector, explicitly
      instantiated or not. */
  lemma MatchedIffSelector(fun: Node)
    ensures DoRegistrationCall(fun).Some? <==> CallsRegistration(fun) && WrittenAsSelector(fun)
    ensures DoRegistrationCall(fun).Some? ==>
      var fn := CalleeObject(fun).value;
      DoRegistrationCall(fun).value.0 == fn.name && RegKindOf(fn.name) == Some(DoRegistrationCall(fun).value.1)
  {
    UnwrappedCallee(fun);
    UnwrapsToSelector(fun);
    CallsTabulated(fun);
  }

  /** A registration call in the form that the analyzer knows. */
  ghost predicate Known(c: Node)
  {
    c.Call? && CallsRegistration(c.fun) && WrittenAsSelector(c.fun)
  }

  /** inner is the only known registration call among them. */
  ghost predicate Sole(calls: seq<Node>, inner: Node)
  {
    exists i :: SoleAt(calls, inner, i)
  }

  ghost predicate SoleAt(calls: seq<Node>, inner: Node, i: int)
  {
    0 <= i < |calls| && calls[i] == inner && forall j | 0 <= j < |calls| :: Known(calls[j]) <==> j == i
  }

  /** The variable stands in the provider slot of the registration. */
  ghost predicate Feeds(inner: Node, v: nat)
  {
    inner.Call? && exists api :: CallsApi(inner.fun, api) && FeedsSlot(api, inner.args, v)
  }

  ghost predicate FeedsSlot(api: Api, args: seq<Node>, v: nat)
  {
    ApiSlot(api).Some? && ApiSlot(api).value < |args| &&
    args[ApiSlot(api).value].Ident? && args[ApiSlot(api).value].obj == VarObj(v)
  }

  /** The declaration's body performs exactly one registration, inner, and provides its parameter k. */
  ghost predicate Wraps(d: FuncDecl, inner: Node, k: nat)
  {
    && d.body.Some? && Sole(CallsIn(d.body.value), inner)
    && k < |d.params| && d.params[k] !in d.params[..k] && Feeds(inner, d.params[k])
  }

  lemma {:induction false} NoneKnown(calls: seq<Node>)
    requires forall c | c in calls :: c.Call?
    ensures DoCalls(calls) == [] <==> forall j | 0 <= j < |calls| :: !Known(calls[j])
  {
    if calls != [] {
      MatchedIffSelector(calls[0].fun);
      NoneKnown(calls[1..]);
      assert forall j | 0 < j < |calls| :: calls[j] == calls[1..][j - 1];
    }
  }

  lemma {:induction false} OneKnown(calls: seq<Node>, inner: Node)
    requires forall c | c in calls :: c.Call?
    ensures DoCalls(calls) == [inner] <==> Sole(calls, inner)
  {
    if calls != [] {
      var rest := calls[1..];
      MatchedIffSelector(calls[0].fun);
      NoneKnown(rest);
      OneKnown(rest, inner);
      SoleCons(calls, inner);
    }
  }

  lemma SoleCons(calls: seq<Node>, inner: Node)
    requires calls != []
    ensures Sole(calls, inner) <==>
      if Known(calls[0]) then calls[0] == inner && forall j | 0 <= j < |calls[1..]| :: !Known(calls[1..][j])
      else Sole(calls[1..], inner)
  {
    var rest := calls[1..];
    assert forall j | 0 < j < |calls| :: calls[j] == rest[j - 1];
    if Known(calls[0]) {
      if calls[0] == inner && forall j | 0 <= j < |rest| :: !Known(rest[j]) { assert SoleAt(calls, inner, 0); }
      if i :| SoleAt(calls, inner, i) { assert i == 0; }
    } else {
      if i :| SoleAt(rest, inner, i) { assert SoleAt(calls, inner, i + 1); }
      if i :| SoleAt(calls, inner, i) { assert SoleAt(rest, inner, i - 1); }
    }
  }

  lemma SoleIsKnown(calls: seq<Node>, inner: Node)
    requires Sole(calls, inner)
    ensures inner in calls && Known(inner)
  {
    var i :| SoleAt(calls, inner, i);
  }

  /** Which of the parameters stands in the provider slot of the registration. */
  function ProvidedParam(name: string, args: seq<Node>, params: seq<nat>): Option<nat>
  {
    match ProviderArgIndex(name)
    case None => None
    case Some(i) =>
      if i >= |args| then None
      else
        (match args[i]
         case Ident(_, VarObj(v), _) => ParamIndex(params, v)
         case _ => None)
  }

  /** Whether one declaration is a resolvable wrapper, with the call inside it. Receivers are not
      looked at. */
  function WrapperOfDecl(d: FuncDecl): (r: Option<(WrapperInfo, Node)>)
    ensures r.Some? ==> ValidInfo(r.value.0) && d.body.Some? && IsDoCallIn(r.value.1, d.body.value)
  {
    if d.body.None? then None
    else
      match SoleRegistrationCall(d.body.value)
      case None => None
      case Some(inner) =>
        var (name, kind) := DoRegistrationCall(inner.fun).value;
        match ProvidedParam(name, inner.args, d.params)
        case None => None
        case Some(k) => Some((WrapperInfo(name, kind, k), inner))
  }

  lemma SoleCallIff(body: seq<Node>, inner: Node)
    ensures SoleRegistrationCall(body) == Some(inner) <==> Sole(CallsIn(body), inner)
  {
    OneKnown(CallsIn(body), inner);
    var calls := DoCalls(CallsIn(body));
    if |calls| == 1 { assert calls == [calls[0]]; }
  }

  lemma ProvidedIff(inner: Node, params: seq<nat>, k: nat)
    requires Known(inner)
    ensures ProvidedParam(CalleeObject(inner.fun).value.name, inner.args, params) == Some(k) <==>
      k < |params| && params[k] !in params[..k] && Feeds(inner, params[k])
  {
    CallsTabulated(inner.fun);
    var api :| CallsApi(inner.fun, api);
    assert forall v :: FeedsSlot(api, inner.args, v) <==> Feeds(inner, v);
    forall i, j | 0 <= i < j < |params| && params[i] == params[j] ensures params[j] in params[..j] {
      assert params[..j][i] == params[i];
    }
  }

  /** A declaration is taken for a wrapper exactly when it is one: with the name and kind of its only
      registration, and the parameter that this registration provides. */
  lemma WrapperOfDeclIff(d: FuncDecl, info: WrapperInfo, inner: Node)
    ensures WrapperOfDecl(d) == Some((info, inner)) <==>
      Wraps(d, inner, info.paramIdx) && DoRegistrationCall(inner.fun) == Some((info.innerFnName, info.kind))
  {
    if d.body.Some? {
      SoleCallIff(d.body.value, inner);
      if Sole(CallsIn(d.body.value), inner) {
        SoleIsKnown(CallsIn(d.body.value), inner);
        MatchedIffSelector(inner.fun);
        ProvidedIff(inner, d.params, info.paramIdx);
      }
    }
  }

  predicate IsDoCallIn(call: Node, body: seq<Node>)
  {
    call in CallsIn(body) && call.Call? && DoRegistrationCall(call.fun).Some?
  }

  predicate ValidInfo(w: WrapperInfo)
  {
    ProviderArgIndex(w.innerFnName).Some? && RegKindOf(w.innerFnName) == Some(w.kind)
  }

  function EnvOf(decls: seq<TopDecl>): (env: WrapperEnv)
    ensures forall fn | fn in env.wrappers :: ValidInfo(env.wrappers[fn])
  {
    if decls == [] then WrapperEnv(map[], {})
    else EnvWith(EnvOf(decls[..|decls| - 1]), decls[|decls| - 1])
  }

  function EnvWith(env: WrapperEnv, d: TopDecl): WrapperEnv
  {
    match d
    case Gen(_) => env
    case Fun(decl) =>
      match WrapperOfDecl(decl)
      case None => env
      case Some((info, inner)) => WrapperEnv(env.wrappers[decl.fn := info], env.skips + {inner.site.id})
  }

  method CollectWrappers(decls: seq<TopDecl>) returns (wrappers: map<FuncId, WrapperInfo>, innerSkips: set<nat>)
    ensures WrapperEnv(wrappers, innerSkips) == EnvOf(decls)
  {
    wrappers, innerSkips := map[], {};
    var k := 0;
    while k < |decls|
      invariant 0 <= k <= |decls|
      invariant WrapperEnv(wrappers, innerSkips) == EnvOf(decls[..k])
    {
      assert decls[..k + 1][..k] == decls[..k];
      if decls[k].Fun? {
        var r := WrapperOfDecl(decls[k].decl);
        if r.Some? {
          wrappers := wrappers[decls[k].decl.fn := r.value.0];
          innerSkips := innerSkips + {r.value.1.site.id};
        }
      }
      k := k + 1;
    }
    assert decls[..k] == decls;
  }

  ghost predicate IsWrapper(d: FuncDecl)
  {
    exists inner, k :: Wraps(d, inner, k)
  }

  lemma IsWrapperIff(d: FuncDecl)
    ensures IsWrapper(d) <==> WrapperOfDecl(d).Some?
  {
    if WrapperOfDecl(d).Some? { WrapperOfDeclIff(d, WrapperOfDecl(d).value.0, WrapperOfDecl(d).value.1); }
    forall inner, k | Wraps(d, inner, k) ensures WrapperOfDecl(d).Some? { var info := InfoOf(d, inner, k); }
  }

  lemma InfoOf(d: FuncDecl, inner: Node, k: nat) returns (info: WrapperInfo)
    requires Wraps(d, inner, k)
    ensures WrapperOfDecl(d) == Some((info, inner)) && info.paramIdx == k
    ensures DoRegistrationCall(inner.fun) == Some((info.innerFnName, info.kind))
  {
    SoleIsKnown(CallsIn(d.body.value), inner);
    MatchedIffSelector(inner.fun);
    info := WrapperInfo(DoRegistrationCall(inner.fun).value.0, DoRegistrationCall(inner.fun).value.1, k);
    WrapperOfDeclIff(d, info, inner);
  }

  predicate Defines(d: TopDecl, fn: FuncId)
  {
    d.Fun? && d.decl.fn == fn && WrapperOfDecl(d.decl).Some?
  }

  ghost predicate DefinedBy(decls: seq<TopDecl>, d: TopDecl, fn: FuncId)
  {
    d in decls && Defines(d, fn)
  }

  lemma EnvWithKnows(env: WrapperEnv, d: TopDecl, fn: FuncId)
    ensures fn in EnvWith(env, d).wrappers <==> fn in env.wrappers || Defines(d, fn)
    ensures fn in EnvWith(env, d).wrappers ==>
      EnvWith(env, d).wrappers[fn] == if Defines(d, fn) then WrapperOfDecl(d.decl).value.0 else env.wrappers[fn]
  {}

  /** The environment knows a function exactly when one of its declarations is a wrapper, and knows it from
      such a declaration. */
  lemma {:induction false} EnvKnows(decls: seq<TopDecl>, fn: FuncId)
    ensures fn in EnvOf(decls).wrappers <==> exists d :: DefinedBy(decls, d, fn)
    ensures fn in EnvOf(decls).wrappers ==>
      exists d :: DefinedBy(decls, d, fn) && WrapperOfDecl(d.decl).value.0 == EnvOf(decls).wrappers[fn]
  {
    if decls != [] {
      var init, last := decls[..|decls| - 1], decls[|decls| - 1];
      EnvKnows(init, fn);
      EnvWithKnows(EnvOf(init), last, fn);
      assert EnvOf(decls) == EnvWith(EnvOf(init), last);
      if Defines(last, fn) {
        assert DefinedBy(decls, last, fn);
      } else if fn in EnvOf(init).wrappers {
        var d :| DefinedBy(init, d, fn) && WrapperOfDecl(d.decl).value.0 == EnvOf(init).wrappers[fn];
        assert DefinedBy(decls, d, fn);
      } else {
        forall d | d in decls ensures !DefinedBy(decls, d, fn) { assert d in init ==> !DefinedBy(init, d, fn); }
      }
    }
  }

  /** No two wrapper declarations share a function. */
  ghost predicate OwnWrappers(decls: seq<TopDecl>)
  {
    forall fn, d, e | DefinedBy(decls, d, fn) && DefinedBy(decls, e, fn) :: d == e
  }

  // ---------------------------------------------------------------- the site walk

  function InspectCall(u: Universe, ctx: Context, env: WrapperEnv, call: Node): seq<Finding>
    requires call.Call?
  {
    if call.site.id in env.skips then []
    else
      match DoRegistrationCall(call.fun)
      case Some((name, kind)) => [EvalSite(u, ctx, name, kind, call.site, call.args, None)]
      case None =>
        match WrapperAt(env, call)
        case None => []
        case Some(w) => [EvalSite(u, ctx, w.innerFnName, w.kind, call.site, call.args, Some(call.args[w.paramIdx]))]
  }

  function WrapperAt(env: WrapperEnv, call: Node): (r: Option<WrapperInfo>)
    requires call.Call?
    ensures r.Some? ==> r.value.paramIdx < |call.args|
  {
    match CalleeFunc(call.fun)
    case None => None
    case Some(fn) =>
      if fn in env.wrappers && env.wrappers[fn].paramIdx < |call.args| then Some(env.wrappers[fn]) else None
  }

  function Visit(u: Universe, ctx: Context, env: WrapperEnv, n: Node): seq<Finding>
  {
    match n
    case Ident(_, _, _) => []
    case Selector(x, _, _, _) => Visit(u, ctx, env, x)
    case Index(x, indices, _) => Visit(u, ctx, env, x) + VisitAll(u, ctx, env, indices)
    case Call(_, fun, args, _) => InspectCall(u, ctx, env, n) + Visit(u, ctx, env, fun) + VisitAll(u, ctx, env, args)
    case FuncLit(_, body, _) => VisitAll(u, ctx, env, body)
    case Return(results) => VisitAll(u, ctx, env, results)
    case Other(children, _) => VisitAll(u, ctx, env, children)
    case Store(_, _, operands, _) => VisitAll(u, ctx, env, operands)
  }

  function VisitAll(u: Universe, ctx: Context, env: WrapperEnv, nodes: seq<Node>): seq<Finding>
  {
    if nodes == [] then [] else Visit(u, ctx, env, nodes[0]) + VisitAll(u, ctx, env, nodes[1..])
  }

  function NodesOf(decls: seq<TopDecl>): seq<Node>
  {
    if decls == [] then []
    else DeclNodes(decls[0]) + NodesOf(decls[1..])
  }

  function DeclNodes(d: TopDecl): seq<Node>
  {
    match d
    case Gen(nodes) => nodes
    case Fun(decl) => if decl.body.Some? then decl.body.value else []
  }

  /** All findings of a package's declarations, in source order. */
  function AnalyzeDecls(u: Universe, ctx: Context, decls: seq<TopDecl>): seq<Finding>
  {
    VisitAll(u, ctx, EnvOf(decls), NodesOf(decls))
  }

  /** Plain evaluation: every do.* call counts where it stands, nothing else does. */
  function AnalyzePlain(u: Universe, ctx: Context, decls: seq<TopDecl>): seq<Finding>
  {
    VisitAll(u, ctx, WrapperEnv(map[], {}), NodesOf(decls))
  }

  /** What the visitor does at a call: at most one finding. */
  method InspectRegistration(u: Universe, ctx: Context, wrappers: map<FuncId, WrapperInfo>, innerSkips: set<nat>,
                             call: Node)
    returns (isReg: bool, rec: ServiceRecord, reports: seq<SiteReport>)
    requires call.Call?
    ensures InspectCall(u, ctx, WrapperEnv(wrappers, innerSkips), call) == if isReg then [(rec, reports)] else []
  {
    isReg, rec, reports := false, ServiceRecord("", Alias, false, false, 0), [];
    if call.site.id in innerSkips { return; }
    var direct := DoRegistrationCall(call.fun);
    if direct.Some? {
      rec, reports := EvaluateSite(u, ctx, direct.value.0, direct.value.1, call.site, call.args, None);
      return true, rec, reports;
    }
    var fn := CalleeFunc(call.fun);
    if fn.None? || fn.value !in wrappers { return; }
    var wrapper := wrappers[fn.value];
    if wrapper.paramIdx >= |call.args| { return; }
    rec, reports := EvaluateSite(u, ctx, wrapper.innerFnName, wrapper.kind, call.site, call.args,
                                 Some(call.args[wrapper.paramIdx]));
    isReg := true;
  }

  /** The walk is one inspection per call, in the order of the calls. */
  function InspectEach(u: Universe, ctx: Context, env: WrapperEnv, calls: seq<Node>): seq<Finding>
    requires forall c | c in calls :: c.Call?
  {
    if calls == [] then [] else InspectCall(u, ctx, env, calls[0]) + InspectEach(u, ctx, env, calls[1..])
  }

  lemma {:induction false} InspectEachAppend(u: Universe, ctx: Context, env: WrapperEnv, a: seq<Node>, b: seq<Node>)
    requires forall c | c in a :: c.Call?
    requires forall c | c in b :: c.Call?
    ensures InspectEach(u, ctx, env, a + b) == InspectEach(u, ctx, env, a) + InspectEach(u, ctx, env, b)
  {
    if a == [] {
      assert a + b == b;
    } else {
      assert (a + b)[1..] == a[1..] + b;
      InspectEachAppend(u, ctx, env, a[1..], b);
    }
  }

  lemma CallInspects(u: Universe, ctx: Context, env: WrapperEnv, n: Node, a: seq<Node>, b: seq<Node>)
    requires n.Call? && (forall c | c in a :: c.Call?) && forall c | c in b :: c.Call?
    ensures InspectEach(u, ctx, env, [n] + a + b) ==
      InspectCall(u, ctx, env, n) + InspectEach(u, ctx, env, a) + InspectEach(u, ctx, env, b)
  {
    InspectEachAppend(u, ctx, env, [n] + a, b);
    assert ([n] + a)[1..] == a;
  }

  lemma {:induction false} VisitInspects(u: Universe, ctx: Context, env: WrapperEnv, n: Node)
    ensures Visit(u, ctx, env, n) == InspectEach(u, ctx, env, CallsOf(n))
    decreases n
  {
    match n
    case Ident(_, _, _) =>
    case Selector(x, _, _, _) => VisitInspects(u, ctx, env, x);
    case Index(x, indices, _) =>
      VisitInspects(u, ctx, env, x);
      VisitAllInspects(u, ctx, env, indices);
      InspectEachAppend(u, ctx, env, CallsOf(x), CallsIn(indices));
    case Call(_, fun, args, _) =>
      VisitInspects(u, ctx, env, fun);
      VisitAllInspects(u, ctx, env, args);
      CallInspects(u, ctx, env, n, CallsOf(fun), CallsIn(args));
    case FuncLit(_, body, _) => VisitAllInspects(u, ctx, env, body);
    case Return(results) => VisitAllInspects(u, ctx, env, results);
    case Other(children, _) => VisitAllInspects(u, ctx, env, children);
    case Store(_, _, operands, _) => VisitAllInspects(u, ctx, env, operands);
  }

  lemma {:induction false} VisitAllInspects(u: Universe, ctx: Context, env: WrapperEnv, nodes: seq<Node>)
    ensures VisitAll(u, ctx, env, nodes) == InspectEach(u, ctx, env, CallsIn(nodes))
    decreases nodes
  {
    if nodes != [] {
      VisitInspects(u, ctx, env, nodes[0]);
      VisitAllInspects(u, ctx, env, nodes[1..]);
      InspectEachAppend(u, ctx, env, CallsOf(nodes[0]), CallsIn(nodes[1..]));
    }
  }

  // ---------------------------------------------------------------- a wrapper call performs the substituted call

  /** The argument that a call binds to the parameter v. */
  function ArgFor(params: seq<nat>, args: seq<Node>, v: nat): Option<Node>
  {
    if params == [] || args == [] then None
    else if params[0] == v then Some(args[0])
    else ArgFor(params[1..], args[1..], v)
  }

  /** The arguments of a call by parameter. */
  function BindAll(params: seq<nat>, args: seq<Node>): map<nat, Node>
  {
    map v | v in params && ArgFor(params, args, v).Some? :: ArgFor(params, args, v).value
  }

  /** The parameter holds its argument throughout: it is not variadic, and no statement stores to it. */
  predicate IsFixed(d: FuncDecl, v: nat)
  {
    !(d.variadic && d.params != [] && v == d.params[|d.params| - 1]) &&
    !(d.body.Some? && StoresIn(d.body.value, v))
  }

  /** The arguments that the declaration's parameters stand for: of those that hold them throughout. */
  function BindFixed(d: FuncDecl, args: seq<Node>): map<nat, Node>
  {
    map v | v in BindAll(d.params, args) && IsFixed(d, v) :: BindAll(d.params, args)[v]
  }

  /** The bound arguments in place of the parameters. */
  function Subst(binds: map<nat, Node>, n: Node): Node
  {
    match n
    case Ident(_, VarObj(v), _) => if v in binds then binds[v] else n
    case Ident(_, _, _) => n
    case Selector(x, name, obj, t) => Selector(Subst(binds, x), name, obj, t)
    case Index(x, indices, t) => Index(Subst(binds, x), SubstAll(binds, indices), t)
    case Call(site, fun, operands, t) => Call(site, Subst(binds, fun), SubstAll(binds, operands), t)
    case FuncLit(result, body, t) => FuncLit(result, SubstAll(binds, body), t)
    case Return(results) => Return(SubstAll(binds, results))
    case Other(children, t) => Other(SubstAll(binds, children), t)
    case Store(vars, byAddress, operands, t) => Store(vars, byAddress, SubstAll(binds, operands), t)
  }

  function SubstAll(binds: map<nat, Node>, nodes: seq<Node>): (r: seq<Node>)
    ensures |r| == |nodes| && forall i | 0 <= i < |nodes| :: r[i] == Subst(binds, nodes[i])
  {
    if nodes == [] then [] else [Subst(binds, nodes[0])] + SubstAll(binds, nodes[1..])
  }

  /** Substitution reaches every node, those in function literals included, and changes nothing but bound
      identifiers. */
  lemma {:induction false} SubstIsEverywhere(binds: map<nat, Node>, nodes: seq<Node>, path: seq<nat>)
    requires NodeAt(nodes, path).Some?
    ensures NodeAt(SubstAll(binds, nodes), path) == Some(Subst(binds, NodeAt(nodes, path).value))
    decreases |path|
  {
    if |path| > 1 {
      SubstChildren(binds, nodes[path[0]]);
      SubstIsEverywhere(binds, Children(nodes[path[0]]), path[1..]);
    }
  }

  lemma SubstChildren(binds: map<nat, Node>, n: Node)
    requires Children(n) != []
    ensures Children(Subst(binds, n)) == SubstAll(binds, Children(n))
  {
    match n
    case Selector(x, _, _, _) => assert [x][1..] == [];
    case Index(x, indices, _) => assert ([x] + indices)[1..] == indices;
    case Call(_, fun, args, _) => assert ([fun] + args)[1..] == args;
    case _ =>
  }

  /** The registration that a wrapper call performs: the wrapper's own, on the call's arguments, at the
      call's site. A variadic parameter, or one that is stored to, stays: it provides some value of its own
      declared type. */
  function Instantiate(d: FuncDecl, args: seq<Node>, inner: Node, site: Site): Node
    requires inner.Call?
  {
    Call(site, Subst(BindFixed(d, args), inner.fun), SubstAll(BindFixed(d, args), inner.args), inner.typ)
  }

  lemma {:induction false} ArgOfParam(params: seq<nat>, args: seq<Node>, k: nat)
    requires k < |params| && k < |args| && params[k] !in params[..k]
    ensures ArgFor(params, args, params[k]) == Some(args[k])
  {
    if k > 0 {
      assert params[0] in params[..k];
      assert params[1..][..k - 1] == params[1..k];
      assert forall x :: x in params[1..k] ==> x in params[..k];
      ArgOfParam(params[1..], args[1..], k - 1);
    }
  }

  lemma {:induction false} CalleeKept(binds: map<nat, Node>, fun: Node)
    requires WrittenAsSelector(fun)
    ensures DoRegistrationCall(Subst(binds, fun)) == DoRegistrationCall(fun)
    ensures CalleeObject(Subst(binds, fun)) == CalleeObject(fun)
  {
    match fun
    case Index(x, _, _) => CalleeKept(binds, x);
    case _ =>
  }

  /** What stands in the provider slot of the wrapper's registration once it runs on the arguments. */
  ghost predicate Provided(d: FuncDecl, inner: Node, k: nat, args: seq<Node>, arg: Node)
    requires k < |d.params| && k < |args|
  {
    if IsFixed(d, d.params[k]) then arg == args[k]
    else inner.Call? && arg in inner.args && arg.Ident? && arg.obj == VarObj(d.params[k]) &&
         RegistrationProvider(CalleeNameOf(inner), inner.args, None) == Some(arg)
  }

  function CalleeNameOf(c: Node): string
  {
    if c.Call? && CalleeObject(c.fun).Some? then CalleeObject(c.fun).value.name else ""
  }

  /** What the substituted registration registers: the argument bound to the provided parameter, if that holds
      it throughout, and else the parameter itself. */
  lemma InstantiatedRegisters(d: FuncDecl, inner: Node, k: nat, args: seq<Node>, site: Site, kind: ServiceKind,
                              arg: Node)
    requires Wraps(d, inner, k) && k < |args| && inner.Call?
    ensures Registers(Instantiate(d, args, inner, site), kind, arg) <==>
      DoRegistrationCall(inner.fun).Some? && kind == DoRegistrationCall(inner.fun).value.1 &&
      Provided(d, inner, k, args, arg)
  {
    SoleIsKnown(CallsIn(d.body.value), inner);
    var c := Instantiate(d, args, inner, site);
    CalleeKept(BindFixed(d, args), inner.fun);
    MatchedIffSelector(inner.fun);
    MatchedIffSelector(c.fun);
    RegistersTabulated(c, kind, arg);
    CallsTabulated(inner.fun);
    ArgOfParam(d.params, args, k);
    var api :| CallsApi(inner.fun, api) && FeedsSlot(api, inner.args, d.params[k]);
    SlotBound(d, inner.args[ApiSlot(api).value], k, args);
  }

  lemma SlotBound(d: FuncDecl, slot: Node, k: nat, args: seq<Node>)
    requires k < |d.params| && k < |args| && d.params[k] !in d.params[..k]
    requires slot.Ident? && slot.obj == VarObj(d.params[k])
    ensures Subst(BindFixed(d, args), slot) == if IsFixed(d, d.params[k]) then args[k] else slot
  {
    ArgOfParam(d.params, args, k);
  }

  /** The call's callee is a wrapper declared by d, whose registration inner provides its parameter k. */
  ghost predicate CallsWrapper(decls: seq<TopDecl>, c: Node, d: TopDecl, inner: Node, k: nat)
  {
    && c.Call? && d in decls && d.Fun? && CalleeObject(c.fun) == Some(d.decl.fn)
    && Wraps(d.decl, inner, k) && inner.Call?
  }

  /** And the provided parameter has an argument of its own. */
  ghost predicate RunsWrapper(decls: seq<TopDecl>, c: Node, d: TopDecl, inner: Node, k: nat)
  {
    CallsWrapper(decls, c, d, inner, k) && k < |c.args|
  }

  ghost predicate PerformsIn(decls: seq<TopDecl>, c: Node, kind: ServiceKind, arg: Node)
  {
    exists d, inner, k: nat :: PerformsBy(decls, c, d, inner, k, kind, arg)
  }

  ghost predicate PerformsBy(decls: seq<TopDecl>, c: Node, d: TopDecl, inner: Node, k: nat, kind: ServiceKind,
                             arg: Node)
  {
    RunsWrapper(decls, c, d, inner, k) && Registers(Instantiate(d.decl, c.args, inner, c.site), kind, arg)
  }

  /** The registration that executing a call performs, given the declarations of the program: its own, or
      that of the wrapper it calls with the arguments substituted. */
  ghost predicate Performs(decls: seq<TopDecl>, c: Node, kind: ServiceKind, arg: Node)
  {
    Registers(c, kind, arg) || PerformsIn(decls, c, kind, arg)
  }

  ghost predicate AttributesIn(decls: seq<TopDecl>, c: Node, kind: ServiceKind, arg: Node)
  {
    exists d, inner, k: nat :: AttributesBy(decls, c, d, inner, k, kind, arg)
  }

  ghost predicate AttributesBy(decls: seq<TopDecl>, c: Node, d: TopDecl, inner: Node, k: nat, kind: ServiceKind,
                               arg: Node)
  {
    RunsWrapper(decls, c, d, inner, k) &&
    DoRegistrationCall(inner.fun).Some? && kind == DoRegistrationCall(inner.fun).value.1 && arg == c.args[k]
  }

  /** The registration that a call is taken for: its own, or the wrapper's kind on the argument that is passed
      for the provided parameter. */
  ghost predicate Attributes(decls: seq<TopDecl>, c: Node, kind: ServiceKind, arg: Node)
  {
    Registers(c, kind, arg) || AttributesIn(decls, c, kind, arg)
  }

  /** Whatever wrapper the call runs, the provided parameter holds its argument throughout. */
  ghost predicate ProvidesFixed(decls: seq<TopDecl>, c: Node)
  {
    forall d, inner, k: nat | RunsWrapper(decls, c, d, inner, k) :: IsFixed(d.decl, d.decl.params[k])
  }

  /** Then the call performs exactly what it is taken for. */
  lemma FixedIsAttributed(decls: seq<TopDecl>, c: Node, kind: ServiceKind, arg: Node)
    requires ProvidesFixed(decls, c)
    ensures Performs(decls, c, kind, arg) <==> Attributes(decls, c, kind, arg)
  {
    forall d, inner, k: nat
      ensures PerformsBy(decls, c, d, inner, k, kind, arg) <==> AttributesBy(decls, c, d, inner, k, kind, arg)
    {
      FixedBy(decls, c, d, inner, k, kind, arg);
    }
  }

  lemma FixedBy(decls: seq<TopDecl>, c: Node, d: TopDecl, inner: Node, k: nat, kind: ServiceKind, arg: Node)
    requires ProvidesFixed(decls, c)
    ensures PerformsBy(decls, c, d, inner, k, kind, arg) <==> AttributesBy(decls, c, d, inner, k, kind, arg)
  {
    if RunsWrapper(decls, c, d, inner, k) { InstantiatedRegisters(d.decl, inner, k, c.args, c.site, kind, arg); }
  }

  /** The library's functions are not declared among the wrappers. */
  ghost predicate LibraryIsForeign(decls: seq<TopDecl>)
  {
    forall d, fn | DefinedBy(decls, d, fn) :: !(fn.pkg == DO_PATH && RegKindOf(fn.name).Some?)
  }

  /** The forms in which the analyzer recognises a call: a registration function written as a selector, or
      a wrapper declared in the package and written as an identifier. */
  ghost predicate Recognised(decls: seq<TopDecl>, c: Node)
    requires c.Call?
  {
    if CallsRegistration(c.fun) then WrittenAsSelector(c.fun)
    else
      && WrittenAsIdent(c.fun) && CalleeObject(c.fun).Some?
      && exists d :: DefinedBy(decls, d, CalleeObject(c.fun).value)
  }

  /** Explicit instantiation changes nothing about what is found at a call. */
  lemma InstantiationIsTransparent(u: Universe, ctx: Context, env: WrapperEnv, site: Site, fun: Node,
                                   indices: seq<Node>, s: Type, args: seq<Node>, t: Type)
    ensures DoRegistrationCall(Index(fun, indices, s)) == DoRegistrationCall(fun)
    ensures CalleeFunc(Index(fun, indices, s)) == CalleeFunc(fun)
    ensures InspectCall(u, ctx, env, Call(site, Index(fun, indices, s), args, t)) ==
            InspectCall(u, ctx, env, Call(site, fun, args, t))
  {}

  lemma DirectCallIsEvaluated(u: Universe, ctx: Context, decls: seq<TopDecl>, c: Node, kind: ServiceKind, arg: Node)
    requires c.Call? && CallsRegistration(c.fun) && Registers(c, kind, arg)
    requires LibraryIsForeign(decls) && c.site.id !in EnvOf(decls).skips
    ensures InspectCall(u, ctx, EnvOf(decls), c) ==
      if Recognised(decls, c) then [EvalProvider(u, ctx, kind, c.site, arg)] else []
  {
    MatchedIffSelector(c.fun);
    RegistersTabulated(c, kind, arg);
    CallsTabulated(c.fun);
    CalleeFuncIff(c.fun);
    if CalleeFunc(c.fun).Some? { EnvKnows(decls, CalleeFunc(c.fun).value); }
  }

  lemma WrapperCallIsEvaluated(u: Universe, ctx: Context, all: seq<TopDecl>, decls: seq<TopDecl>, c: Node,
                               d: TopDecl, inner: Node, k: nat)
    requires RunsWrapper(all, c, d, inner, k) && !CallsRegistration(c.fun) && DoRegistrationCall(inner.fun).Some?
    requires (forall e | e in decls :: e in all) && OwnWrappers(all) && c.site.id !in EnvOf(decls).skips
    ensures InspectCall(u, ctx, EnvOf(decls), c) ==
      if Recognised(decls, c)
      then [EvalSite(u, ctx, DoRegistrationCall(inner.fun).value.0, DoRegistrationCall(inner.fun).value.1,
                     c.site, c.args, Some(c.args[k]))]
      else []
  {
    MatchedIffSelector(c.fun);
    CalleeFuncIff(c.fun);
    var info := InfoOf(d.decl, inner, k);
    assert DefinedBy(all, d, d.decl.fn);
    if CalleeFunc(c.fun).Some? {
      EnvKnows(decls, d.decl.fn);
      forall e | DefinedBy(decls, e, d.decl.fn) ensures e == d { assert DefinedBy(all, e, d.decl.fn); }
    }
  }

  /** At every call that performs a registration and is not itself a wrapper's, the analyzer finds exactly
      what the call is taken for, if it recognises the call, and nothing otherwise. */
  lemma AttributionIsFound(u: Universe, ctx: Context, all: seq<TopDecl>, decls: seq<TopDecl>, c: Node,
                           kind: ServiceKind, arg: Node)
    requires (forall e | e in decls :: e in all) && OwnWrappers(all) && LibraryIsForeign(all)
    requires c.Call? && Attributes(all, c, kind, arg) && c.site.id !in EnvOf(decls).skips
    ensures InspectCall(u, ctx, EnvOf(decls), c) ==
      if Recognised(decls, c) then [EvalProvider(u, ctx, kind, c.site, arg)] else []
  {
    if CallsRegistration(c.fun) {
      NoWrapperIsLibrary(all, c);
      PartIsForeign(all, decls);
      DirectCallIsEvaluated(u, ctx, decls, c, kind, arg);
    } else {
      SubstitutedCallIsEvaluated(u, ctx, all, decls, c, kind, arg);
    }
  }

  /** So a wrapper call is evaluated as the wrapper's own registration with the arguments substituted, wherever
      the provided parameter holds its argument throughout. Where it does not, the argument is judged although
      the parameter, as some value of its own declared type, is registered. */
  lemma AttributionIsSubstitution(u: Universe, ctx: Context, all: seq<TopDecl>, decls: seq<TopDecl>, c: Node,
                                  kind: ServiceKind, arg: Node)
    requires (forall e | e in decls :: e in all) && OwnWrappers(all) && LibraryIsForeign(all)
    requires c.Call? && Performs(all, c, kind, arg) && c.site.id !in EnvOf(decls).skips
    ensures ProvidesFixed(all, c) ==>
      InspectCall(u, ctx, EnvOf(decls), c) ==
        if Recognised(decls, c) then [EvalProvider(u, ctx, kind, c.site, arg)] else []
    ensures !ProvidesFixed(all, c) ==>
      && arg.Ident? && arg.obj.VarObj?
      && exists a :: a in c.args && InspectCall(u, ctx, EnvOf(decls), c) ==
           if Recognised(decls, c) then [EvalProvider(u, ctx, kind, c.site, a)] else []
  {
    if ProvidesFixed(all, c) {
      FixedIsAttributed(all, c, kind, arg);
      AttributionIsFound(u, ctx, all, decls, c, kind, arg);
    } else {
      var a := LooseIsAttributed(all, c, kind, arg);
      AttributionIsFound(u, ctx, all, decls, c, kind, a);
    }
  }

  /** A call whose provided parameter does not hold its argument registers the parameter, and is taken to
      register the argument. */
  lemma LooseIsAttributed(decls: seq<TopDecl>, c: Node, kind: ServiceKind, arg: Node) returns (a: Node)
    requires OwnWrappers(decls) && LibraryIsForeign(decls)
    requires c.Call? && Performs(decls, c, kind, arg) && !ProvidesFixed(decls, c)
    ensures arg.Ident? && arg.obj.VarObj? && a in c.args && Attributes(decls, c, kind, a)
  {
    var d0, inner0, k0: nat :| RunsWrapper(decls, c, d0, inner0, k0) && !IsFixed(d0.decl, d0.decl.params[k0]);
    if CallsRegistration(c.fun) { NoWrapperIsLibrary(decls, c); }
    var d, inner, k: nat :| PerformsBy(decls, c, d, inner, k, kind, arg);
    SameWrapper(decls, c, d, inner, k, d0, inner0, k0);
    InstantiatedRegisters(d.decl, inner, k, c.args, c.site, kind, arg);
    a := c.args[k];
    assert AttributesBy(decls, c, d, inner, k, kind, a);
  }

  /** A call runs one wrapper. */
  lemma SameWrapper(decls: seq<TopDecl>, c: Node, d: TopDecl, inner: Node, k: nat, d': TopDecl, inner': Node, k': nat)
    requires OwnWrappers(decls) && RunsWrapper(decls, c, d, inner, k) && RunsWrapper(decls, c, d', inner', k')
    ensures d == d' && inner == inner' && k == k'
  {
    var info := InfoOf(d.decl, inner, k);
    var info' := InfoOf(d'.decl, inner', k');
    assert DefinedBy(decls, d, d.decl.fn) && DefinedBy(decls, d', d.decl.fn);
  }

  lemma PartIsForeign(all: seq<TopDecl>, decls: seq<TopDecl>)
    requires (forall e | e in decls :: e in all) && LibraryIsForeign(all)
    ensures LibraryIsForeign(decls)
  {
    forall d, fn | DefinedBy(decls, d, fn) ensures !(fn.pkg == DO_PATH && RegKindOf(fn.name).Some?) {
      assert DefinedBy(all, d, fn);
    }
  }

  lemma SubstitutedCallIsEvaluated(u: Universe, ctx: Context, all: seq<TopDecl>, decls: seq<TopDecl>, c: Node,
                                   kind: ServiceKind, arg: Node)
    requires (forall e | e in decls :: e in all) && OwnWrappers(all) && c.Call? && !CallsRegistration(c.fun)
    requires AttributesIn(all, c, kind, arg) && c.site.id !in EnvOf(decls).skips
    ensures InspectCall(u, ctx, EnvOf(decls), c) ==
      if Recognised(decls, c) then [EvalProvider(u, ctx, kind, c.site, arg)] else []
  {
    var d, inner, k: nat :| AttributesBy(all, c, d, inner, k, kind, arg);
    ProviderIsNoAlias(d.decl, inner, k);
    GivenProvider(u, ctx, DoRegistrationCall(inner.fun).value.0, kind, c.site, c.args, arg);
    WrapperCallIsEvaluated(u, ctx, all, decls, c, d, inner, k);
  }

  /** An alias row has no provider slot. */
  lemma ProviderIsNoAlias(d: FuncDecl, inner: Node, k: nat)
    requires Wraps(d, inner, k) && inner.Call? && DoRegistrationCall(inner.fun).Some?
    ensures !DoRegistrationCall(inner.fun).value.1.Alias?
  {
    MatchedIffSelector(inner.fun);
    CallsTabulated(inner.fun);
    var api :| CallsApi(inner.fun, api) && FeedsSlot(api, inner.args, d.params[k]);
  }

  lemma GivenProvider(u: Universe, ctx: Context, name: string, kind: ServiceKind, site: Site, args: seq<Node>,
                      arg: Node)
    requires !kind.Alias?
    ensures EvalSite(u, ctx, name, kind, site, args, Some(arg)) == EvalProvider(u, ctx, kind, site, arg)
  {}

  lemma NoWrapperIsLibrary(decls: seq<TopDecl>, c: Node)
    requires c.Call? && CallsRegistration(c.fun) && LibraryIsForeign(decls)
    ensures forall d, inner, k: nat :: !RunsWrapper(decls, c, d, inner, k)
  {
    CallsTabulated(c.fun);
    forall d, inner, k: nat ensures !RunsWrapper(decls, c, d, inner, k) {
      if RunsWrapper(decls, c, d, inner, k) {
        var info := InfoOf(d.decl, inner, k);
        assert DefinedBy(decls, d, d.decl.fn);
      }
    }
  }

  /** Whatever the analyzer reports at a call is the verdict on the registration that the call is taken for,
      which it performs wherever the provided parameter holds its argument throughout. */
  lemma FoundIsPerformed(u: Universe, ctx: Context, decls: seq<TopDecl>, c: Node, f: Finding)
    requires c.Call? && f in InspectCall(u, ctx, EnvOf(decls), c) && f.1 != []
    ensures exists kind, arg :: FoundFor(u, ctx, decls, c, f, kind, arg)
  {
    if DoRegistrationCall(c.fun).Some? {
      FoundDirectly(u, ctx, decls, c, f);
    } else {
      FoundThroughWrapper(u, ctx, EnvOf(decls), c, f);
      var info, d, inner := WrapperBehind(decls, c);
      assert AttributesBy(decls, c, d, inner, info.paramIdx, info.kind, c.args[info.paramIdx]);
      FixedIfSo(u, ctx, decls, c, f, info.kind, c.args[info.paramIdx]);
    }
  }

  lemma FoundThroughWrapper(u: Universe, ctx: Context, env: WrapperEnv, c: Node, f: Finding)
    requires c.Call? && f in InspectCall(u, ctx, env, c) && f.1 != [] && DoRegistrationCall(c.fun).None?
    ensures WrapperAt(env, c).Some?
    ensures var info := WrapperAt(env, c).value; f == EvalProvider(u, ctx, info.kind, c.site, c.args[info.paramIdx])
  {}

  lemma FoundDirectly(u: Universe, ctx: Context, decls: seq<TopDecl>, c: Node, f: Finding)
    requires c.Call? && f in InspectCall(u, ctx, EnvOf(decls), c) && f.1 != [] && DoRegistrationCall(c.fun).Some?
    ensures exists kind, arg :: FoundFor(u, ctx, decls, c, f, kind, arg)
  {
    var direct := DoRegistrationCall(c.fun).value;
    var arg := RegistrationProvider(direct.0, c.args, None).value;
    MatchedIffSelector(c.fun);
    RegistersTabulated(c, direct.1, arg);
    FixedIfSo(u, ctx, decls, c, f, direct.1, arg);
  }

  ghost predicate FoundFor(u: Universe, ctx: Context, decls: seq<TopDecl>, c: Node, f: Finding, kind: ServiceKind,
                           arg: Node)
    requires c.Call?
  {
    && Attributes(decls, c, kind, arg) && f == EvalProvider(u, ctx, kind, c.site, arg)
    && (ProvidesFixed(decls, c) ==> Performs(decls, c, kind, arg))
  }

  lemma FixedIfSo(u: Universe, ctx: Context, decls: seq<TopDecl>, c: Node, f: Finding, kind: ServiceKind, arg: Node)
    requires c.Call? && Attributes(decls, c, kind, arg) && f == EvalProvider(u, ctx, kind, c.site, arg)
    ensures FoundFor(u, ctx, decls, c, f, kind, arg)
  {
    if ProvidesFixed(decls, c) { FixedIsAttributed(decls, c, kind, arg); }
  }

  lemma WrapperBehind(decls: seq<TopDecl>, c: Node) returns (info: WrapperInfo, d: TopDecl, inner: Node)
    requires c.Call? && WrapperAt(EnvOf(decls), c).Some?
    ensures info == WrapperAt(EnvOf(decls), c).value && RunsWrapper(decls, c, d, inner, info.paramIdx)
    ensures DoRegistrationCall(inner.fun) == Some((info.innerFnName, info.kind))
  {
    info := WrapperAt(EnvOf(decls), c).value;
    var fn := CalleeFunc(c.fun).value;
    CalleeFuncIff(c.fun);
    EnvKnows(decls, fn);
    d :| DefinedBy(decls, d, fn) && WrapperOfDecl(d.decl).value.0 == info;
    inner := WrapperOfDecl(d.decl).value.1;
    WrapperOfDeclIff(d.decl, info, inner);
  }
}
