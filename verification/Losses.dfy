/** Which registrations of a program the driver records, and which it misses. What a call registers is read off
    the declarations alone: a chain of calls, through any number of functions of any package, that ends at a
    registration function and hands the provider down from parameter to parameter. The chain belongs to the call
    that brings the provider. Against these stand the analyzer's records. */
module Losses {
  import opened GoTypes
  import opened Syntax
  import opened Rules
  import opened Registry
  import opened Wrappers
  import opened Driver

  // ---------------------------------------------------------------- chains of calls

  /** A registration function: what registers, and where a chain ends. */
  predicate IsEnd(fn: FuncId)
  {
    fn.pkg == DO_PATH && RegKindOf(fn.name).Some?
  }

  function DeclOf(all: seq<TopDecl>, fn: FuncId): (r: Option<FuncDecl>)
    ensures r.Some? ==> Fun(r.value) in all && r.value.fn == fn
    ensures r.None? ==> forall d | d in all && d.Fun? :: d.decl.fn != fn
  {
    if all == [] then None
    else if all[0].Fun? && all[0].decl.fn == fn then Some(all[0].decl)
    else DeclOf(all[1..], fn)
  }

  function ParamsOf(all: seq<TopDecl>, fn: FuncId): seq<nat>
  {
    match DeclOf(all, fn)
    case None => []
    case Some(d) => d.params
  }

  /** The calls that the function's body makes. */
  function Made(all: seq<TopDecl>, fn: FuncId): (calls: seq<Node>)
    ensures forall c | c in calls :: c.Call?
    ensures calls != [] ==> DeclOf(all, fn).Some?
  {
    match DeclOf(all, fn)
    case None => []
    case Some(d) => if d.body.None? || IsEnd(fn) then [] else CallsIn(d.body.value)
  }

  function Callee(c: Node): Option<FuncId>
  {
    if c.Call? then CalleeObject(c.fun) else None
  }

  function ParamIn(params: seq<nat>, n: Node): (r: Option<nat>)
    ensures r.Some? ==> r.value < |params|
  {
    match n
    case Ident(_, VarObj(v), _) => ParamIndex(params, v)
    case _ => None
  }

  /** A path picks one of the calls that each function makes. The function at its end, if that registers. */
  function EndOf(all: seq<TopDecl>, fn: FuncId, path: seq<nat>): (r: Option<FuncId>)
    ensures r.Some? ==> IsEnd(r.value)
    decreases |path|
  {
    if path == [] then if IsEnd(fn) then Some(fn) else None
    else if path[0] >= |Made(all, fn)| then None
    else
      match Callee(Made(all, fn)[path[0]])
      case None => None
      case Some(g) => EndOf(all, g, path[1..])
  }

  /** The parameter of the function that is handed down along the path into the provider slot at its end. */
  function Slot(all: seq<TopDecl>, fn: FuncId, path: seq<nat>): (r: Option<nat>)
    ensures r.Some? && path != [] ==> DeclOf(all, fn).Some? && r.value < |DeclOf(all, fn).value.params|
    decreases |path|
  {
    if path == [] then if IsEnd(fn) then ProviderArgIndex(fn.name) else None
    else if path[0] >= |Made(all, fn)| then None
    else
      var c := Made(all, fn)[path[0]];
      match Callee(c)
      case None => None
      case Some(g) =>
        match Slot(all, g, path[1..])
        case None => None
        case Some(s) => if s < |c.args| then ParamIn(ParamsOf(all, fn), c.args[s]) else None
  }

  /** The operand is a parameter of some declaration: what it stands for is brought by that one's callers. */
  ghost predicate PassedOn(all: seq<TopDecl>, operand: Node)
  {
    operand.Ident? && operand.obj.VarObj? && exists d :: d in all && d.Fun? && operand.obj.id in d.decl.params
  }

  ghost predicate PassedOnAt(all: seq<TopDecl>, c: Node, k: nat)
    requires c.Call?
  {
    k < |c.args| && PassedOn(all, c.args[k])
  }

  /** The call brings the provider of the registration at the end of the path. An alias row has none, and
      belongs to its own call. */
  ghost predicate Brings(all: seq<TopDecl>, c: Node, path: seq<nat>)
  {
    Callee(c).Some? &&
    match Slot(all, Callee(c).value, path)
    case Some(k) => !PassedOnAt(all, c, k)
    case None => path == [] && IsEnd(Callee(c).value)
  }

  /** The call leads to a registration of what its own function's callers pass. */
  ghost predicate PassesOn(all: seq<TopDecl>, c: Node, path: seq<nat>)
  {
    Callee(c).Some? && Slot(all, Callee(c).value, path).Some? &&
    PassedOnAt(all, c, Slot(all, Callee(c).value, path).value)
  }

  // ---------------------------------------------------------------- every chain has one origin

  /** The call that the path picks, as it is written. */
  function CallAt(all: seq<TopDecl>, c: Node, path: seq<nat>): Option<Node>
    decreases |path|
  {
    if path == [] then Some(c)
    else
      match Callee(c)
      case None => None
      case Some(fn) => if path[0] < |Made(all, fn)| then CallAt(all, Made(all, fn)[path[0]], path[1..]) else None
  }

  ghost predicate BringsAt(all: seq<TopDecl>, c: Node, path: seq<nat>, i: nat)
  {
    i <= |path| && CallAt(all, c, path[..i]).Some? && Brings(all, CallAt(all, c, path[..i]).value, path[i..])
  }

  ghost predicate BroughtSomewhere(all: seq<TopDecl>, c: Node, path: seq<nat>)
  {
    exists i: nat :: BringsAt(all, c, path, i)
  }

  ghost predicate InScope(all: seq<TopDecl>, fn: FuncId, operand: Node)
  {
    PassedOn(all, operand) ==> operand.obj.id in ParamsOf(all, fn)
  }

  /** A function's calls mention no parameters but its own. */
  ghost predicate Scoped(all: seq<TopDecl>)
  {
    forall fn, c, operand | c in Made(all, fn) && operand in c.args :: InScope(all, fn, operand)
  }

  lemma BringsFurther(all: seq<TopDecl>, c: Node, path: seq<nat>, i: nat)
    requires path != [] && Callee(c).Some? && path[0] < |Made(all, Callee(c).value)|
    ensures BringsAt(all, c, path, i + 1) <==> BringsAt(all, Made(all, Callee(c).value)[path[0]], path[1..], i)
  {
    if i < |path| {
      assert path[..i + 1][1..] == path[1..][..i];
      assert path[i + 1..] == path[1..][i..];
    }
  }

  lemma BringsHere(all: seq<TopDecl>, c: Node, path: seq<nat>)
    ensures BringsAt(all, c, path, 0) <==> Brings(all, c, path)
  {
    assert path[..0] == [] && path[0..] == path;
  }

  /** One hop: a call passes its provider on exactly when the enclosing function hands it down. */
  lemma HandsDownIff(all: seq<TopDecl>, fn: FuncId, path: seq<nat>)
    requires Scoped(all) && path != [] && path[0] < |Made(all, fn)|
    ensures PassesOn(all, Made(all, fn)[path[0]], path[1..]) <==> Slot(all, fn, path).Some?
  {
    var c := Made(all, fn)[path[0]];
    if PassesOn(all, c, path[1..]) {
      var s := Slot(all, Callee(c).value, path[1..]).value;
      assert c in Made(all, fn) && c.args[s] in c.args && InScope(all, fn, c.args[s]);
    }
    if Slot(all, fn, path).Some? {
      var s := Slot(all, Callee(c).value, path[1..]).value;
      assert Fun(DeclOf(all, fn).value) in all && PassedOn(all, c.args[s]);
    }
  }

  /** Every chain of calls that ends at a registration function is brought by exactly one of its calls, unless
      its first passes on what its own callers bring. So no registration counts twice, and none is left out. */
  lemma {:induction false} BroughtOnce(all: seq<TopDecl>, c: Node, path: seq<nat>)
    requires Scoped(all) && Callee(c).Some? && EndOf(all, Callee(c).value, path).Some?
    ensures BroughtSomewhere(all, c, path) <==> !PassesOn(all, c, path)
    ensures forall i: nat, j: nat | BringsAt(all, c, path, i) && BringsAt(all, c, path, j) :: i == j
    decreases |path|
  {
    var fn := Callee(c).value;
    BringsHere(all, c, path);
    if path == [] {
      assert Brings(all, c, path) <==> !PassesOn(all, c, path);
    } else {
      var next := Made(all, fn)[path[0]];
      BroughtOnce(all, next, path[1..]);
      HandsDownIff(all, fn, path);
      forall i: nat ensures BringsAt(all, c, path, i + 1) <==> BringsAt(all, next, path[1..], i) {
        BringsFurther(all, c, path, i);
      }
      BroughtHereOrFurther(all, c, path, next);
    }
  }

  lemma BroughtHereOrFurther(all: seq<TopDecl>, c: Node, path: seq<nat>, next: Node)
    requires path != [] && forall i: nat :: BringsAt(all, c, path, i + 1) <==> BringsAt(all, next, path[1..], i)
    ensures BroughtSomewhere(all, c, path) <==> BringsAt(all, c, path, 0) || BroughtSomewhere(all, next, path[1..])
    ensures forall i: nat | BringsAt(all, c, path, i) && i > 0 :: BringsAt(all, next, path[1..], i - 1)
  {
    forall i: nat | BringsAt(all, c, path, i) && i > 0 ensures BringsAt(all, next, path[1..], i - 1) {
      assert BringsAt(all, c, path, (i - 1) + 1);
    }
    if i: nat :| BringsAt(all, next, path[1..], i) { assert BringsAt(all, c, path, i + 1); }
  }

  // ---------------------------------------------------------------- what is registered at the end

  /** The call that the path picks, with the arguments substituted all the way. */
  function Reached(all: seq<TopDecl>, c: Node, path: seq<nat>): (r: Option<Node>)
    requires c.Call?
    ensures r.Some? ==> r.value.Call?
    decreases |path|
  {
    if path == [] then Some(c)
    else
      match Callee(c)
      case None => None
      case Some(fn) =>
        if path[0] >= |Made(all, fn)| then None
        else Reached(all, Instantiate(DeclOf(all, fn).value, c.args, Made(all, fn)[path[0]], c.site), path[1..])
  }

  /** Every parameter that the path hands down holds its argument throughout. */
  predicate Holds(all: seq<TopDecl>, fn: FuncId, path: seq<nat>)
    requires Slot(all, fn, path).Some?
    decreases |path|
  {
    path == [] ||
    (var d := DeclOf(all, fn).value;
     var k := Slot(all, fn, path).value;
     IsFixed(d, d.params[k]) && Holds(all, Callee(Made(all, fn)[path[0]]).value, path[1..]))
  }

  lemma {:induction false} CalleeStays(binds: map<nat, Node>, fun: Node)
    requires CalleeObject(fun).Some?
    ensures CalleeObject(Subst(binds, fun)) == CalleeObject(fun)
  {
    match fun
    case Index(x, _, _) => CalleeStays(binds, x);
    case _ =>
  }

  /** One hop: the argument in the slot is the caller's where the parameter holds it, and the parameter where it
      does not. */
  lemma HopSubstitutes(all: seq<TopDecl>, c: Node, path: seq<nat>)
    returns (d: FuncDecl, inner: Node, s: nat, next: Node)
    requires path != [] && Callee(c).Some? && Slot(all, Callee(c).value, path).Some?
    requires Slot(all, Callee(c).value, path).value < |c.args|
    ensures DeclOf(all, Callee(c).value) == Some(d) && Slot(all, Callee(c).value, path).value < |d.params|
    ensures path[0] < |Made(all, Callee(c).value)| && inner == Made(all, Callee(c).value)[path[0]]
    ensures inner.Call? && next == Instantiate(d, c.args, inner, c.site) && next.Call? && Callee(next) == Callee(inner)
    ensures Callee(inner).Some? && Slot(all, Callee(inner).value, path[1..]) == Some(s) && s < |next.args|
    ensures var k := Slot(all, Callee(c).value, path).value;
      if IsFixed(d, d.params[k]) then next.args[s] == c.args[k] else IsVariable(next.args[s])
  {
    var fn := Callee(c).value;
    d := DeclOf(all, fn).value;
    inner := Made(all, fn)[path[0]];
    next := Instantiate(d, c.args, inner, c.site);
    CalleeStays(BindFixed(d, c.args), inner.fun);
    s := Slot(all, Callee(inner).value, path[1..]).value;
    SlotBound(d, inner.args[s], Slot(all, fn, path).value, c.args);
  }

  predicate IsVariable(n: Node)
  {
    n.Ident? && n.obj.VarObj?
  }

  /** The registration reached is of the end's kind, and of the very argument that the call brings, if the
      parameters on the way hold it; if not, of a variable of the way. */
  lemma {:induction false} ReachedRegisters(all: seq<TopDecl>, c: Node, path: seq<nat>)
    requires Callee(c).Some? && Slot(all, Callee(c).value, path).Some?
    requires Slot(all, Callee(c).value, path).value < |c.args|
    ensures var fn := Callee(c).value;
      && EndOf(all, fn, path).Some? && Reached(all, c, path).Some?
      && exists arg ::
           RegistersOnly(Reached(all, c, path).value, RegKindOf(EndOf(all, fn, path).value.name).value, arg) &&
           if Holds(all, fn, path) then arg == c.args[Slot(all, fn, path).value] else IsVariable(arg)
    decreases |path|
  {
    if path == [] {
      EndRegisters(c);
    } else {
      var d, inner, s, next := HopSubstitutes(all, c, path);
      ReachedRegisters(all, next, path[1..]);
    }
  }

  /** The call performs that registration and no other. */
  ghost predicate RegistersOnly(c: Node, kind: ServiceKind, arg: Node)
  {
    Registers(c, kind, arg) && forall k, a | Registers(c, k, a) :: k == kind && a == arg
  }

  lemma EndRegisters(c: Node)
    requires Callee(c).Some? && IsEnd(Callee(c).value) && ProviderArgIndex(Callee(c).value.name).Some?
    requires ProviderArgIndex(Callee(c).value.name).value < |c.args|
    ensures var name := Callee(c).value.name;
      RegistersOnly(c, RegKindOf(name).value, c.args[ProviderArgIndex(name).value])
  {
    var fn := Callee(c).value;
    CallsTabulated(c.fun);
    var slot := ProviderArgIndex(fn.name).value;
    assert RegistrationProvider(fn.name, c.args, None) == Some(c.args[slot]);
    forall k, a ensures Registers(c, k, a) <==> RegKindOf(fn.name) == Some(k) && a == c.args[slot] {
      RegistersTabulated(c, k, a);
    }
  }

  // ---------------------------------------------------------------- what the analyzer records

  /** One record at the call: a registration function written as a selector, or a wrapper that the package
      knows, in a package that imports the library, outside the wrappers' own registrations. */
  predicate Recorded(pkg: Package, c: Node)
  {
    c.Call? && pkg.importsDo && c.site.id !in EnvOf(pkg.decls).skips &&
    (DoRegistrationCall(c.fun).Some? || WrapperAt(EnvOf(pkg.decls), c).Some?)
  }

  /** The place of the argument that the record is about. */
  function Judged(pkg: Package, c: Node): Option<nat>
    requires Recorded(pkg, c)
  {
    match DoRegistrationCall(c.fun)
    case Some((name, _)) => ProviderArgIndex(name)
    case None => Some(WrapperAt(EnvOf(pkg.decls), c).value.paramIdx)
  }

  /** The record is about a parameter: whatever it stands for, the callers bring. */
  ghost predicate Idle(all: seq<TopDecl>, pkg: Package, c: Node)
  {
    Recorded(pkg, c) && Judged(pkg, c).Some? && PassedOnAt(all, c, Judged(pkg, c).value)
  }

  /** The registration that the record stands for: the call's own, or its wrapper's. */
  ghost predicate RecordStandsFor(pkg: Package, c: Node, path: seq<nat>)
  {
    Recorded(pkg, c) &&
    if DoRegistrationCall(c.fun).Some? then path == []
    else |path| == 1 && exists d, inner, k: nat :: RecordsWrapped(pkg.decls, c, d, inner, k, path[0])
  }

  ghost predicate RecordsWrapped(decls: seq<TopDecl>, c: Node, d: TopDecl, inner: Node, k: nat, j: nat)
  {
    RunsWrapper(decls, c, d, inner, k) && SoleAt(CallsIn(d.decl.body.value), inner, j)
  }

  /** A function that is a wrapper is declared once, and no registration function is a wrapper. */
  ghost predicate WellNamed(all: seq<TopDecl>)
  {
    && LibraryIsForeign(all)
    && forall fn, d, e | DefinedBy(all, d, fn) && e in all && e.Fun? && e.decl.fn == fn :: e == d
  }

  function CallsOfPackage(pkg: Package): (calls: seq<Node>)
    ensures forall c | c in calls :: c.Call?
  {
    CallsIn(NodesOf(pkg.decls))
  }

  /** The package is part of the program, and its call sites are told apart. */
  ghost predicate PartOf(all: seq<TopDecl>, pkg: Package)
  {
    && WellNamed(all) && (forall e | e in pkg.decls :: e in all)
    && forall b, c | b in CallsOfPackage(pkg) && c in CallsOfPackage(pkg) && b.site.id == c.site.id :: b == c
  }

  lemma EndIsRegistration(c: Node)
    requires Callee(c).Some?
    ensures IsEnd(Callee(c).value) <==> CallsRegistration(c.fun)
    ensures IsEnd(Callee(c).value) ==> (DoRegistrationCall(c.fun).Some? <==> WrittenAsSelector(c.fun))
    ensures DoRegistrationCall(c.fun).Some? ==>
      IsEnd(Callee(c).value) && DoRegistrationCall(c.fun).value.0 == Callee(c).value.name &&
      Some(DoRegistrationCall(c.fun).value.1) == RegKindOf(Callee(c).value.name)
  {
    MatchedIffSelector(c.fun);
    CallsTabulated(c.fun);
  }

  /** A wrapper's declaration is the one that its calls run. */
  lemma WrapperIsRun(all: seq<TopDecl>, d: TopDecl, inner: Node, k: nat)
    requires WellNamed(all) && d in all && d.Fun? && Wraps(d.decl, inner, k)
    ensures DeclOf(all, d.decl.fn) == Some(d.decl) && !IsEnd(d.decl.fn)
    ensures Made(all, d.decl.fn) == CallsIn(d.decl.body.value)
    ensures forall e | e in all && e.Fun? && e.decl.fn == d.decl.fn :: e == d
  {
    var info := InfoOf(d.decl, inner, k);
    assert DefinedBy(all, d, d.decl.fn);
  }

  /** The wrapper's only registration hands down the provided parameter. */
  lemma WrapperSlot(all: seq<TopDecl>, d: TopDecl, inner: Node, k: nat, j: nat)
    requires WellNamed(all) && d in all && d.Fun? && Wraps(d.decl, inner, k)
    requires SoleAt(CallsIn(d.decl.body.value), inner, j)
    ensures Slot(all, d.decl.fn, [j]) == Some(k)
  {
    WrapperIsRun(all, d, inner, k);
    CallsTabulated(inner.fun);
    EndIsRegistration(inner);
    var api :| CallsApi(inner.fun, api) && FeedsSlot(api, inner.args, d.decl.params[k]);
    FirstIndex(d.decl.params, k);
    assert Slot(all, Callee(inner).value, [j][1..]) == ApiSlot(api);
  }

  lemma FirstIndex(params: seq<nat>, k: nat)
    requires k < |params| && params[k] !in params[..k]
    ensures ParamIndex(params, params[k]) == Some(k)
  {
    var r := ParamIndex(params, params[k]).value;
    assert forall i | 0 <= i < k :: params[i] in params[..k];
    assert forall i | 0 <= i < r :: params[i] in params[..r];
  }

  lemma RunsOne(all: seq<TopDecl>, pkg: Package, c: Node, d: TopDecl, inner: Node, k: nat, d': TopDecl, inner': Node,
                k': nat)
    requires PartOf(all, pkg) && RunsWrapper(pkg.decls, c, d, inner, k) && RunsWrapper(pkg.decls, c, d', inner', k')
    ensures d == d' && inner == inner' && k == k'
  {
    var info := InfoOf(d.decl, inner, k);
    var info' := InfoOf(d'.decl, inner', k');
    assert DefinedBy(all, d, d.decl.fn);
  }

  /** A record stands for one registration, and judges the argument that is handed down to it. */
  lemma RecordFor(all: seq<TopDecl>, pkg: Package, c: Node) returns (path: seq<nat>)
    requires PartOf(all, pkg) && Recorded(pkg, c)
    ensures RecordStandsFor(pkg, c, path) && forall q | RecordStandsFor(pkg, c, q) :: q == path
    ensures Callee(c).Some? && Slot(all, Callee(c).value, path) == Judged(pkg, c)
    ensures Judged(pkg, c).None? ==> path == [] && IsEnd(Callee(c).value)
  {
    if DoRegistrationCall(c.fun).Some? {
      path := [];
      MatchedIffSelector(c.fun);
      EndIsRegistration(c);
    } else {
      var info, d, inner := WrapperBehind(pkg.decls, c);
      var j: nat :| SoleAt(CallsIn(d.decl.body.value), inner, j);
      path := [j];
      assert RecordsWrapped(pkg.decls, c, d, inner, info.paramIdx, j);
      WrapperSlot(all, d, inner, info.paramIdx, j);
      forall q | RecordStandsFor(pkg, c, q) ensures q == path {
        OneWrapped(all, pkg, c, d, inner, info.paramIdx, j, q);
      }
    }
  }

  lemma OneWrapped(all: seq<TopDecl>, pkg: Package, c: Node, d: TopDecl, inner: Node, k: nat, j: nat, q: seq<nat>)
    requires PartOf(all, pkg) && RecordsWrapped(pkg.decls, c, d, inner, k, j)
    requires DoRegistrationCall(c.fun).None? && RecordStandsFor(pkg, c, q)
    ensures q == [j]
  {
    var d', inner', k': nat :| RecordsWrapped(pkg.decls, c, d', inner', k', q[0]);
    RunsOne(all, pkg, c, d, inner, k, d', inner', k');
  }

  /** A record is genuine exactly when its call brings the registration that it stands for. */
  lemma GenuineIff(all: seq<TopDecl>, pkg: Package, c: Node, path: seq<nat>)
    requires PartOf(all, pkg) && RecordStandsFor(pkg, c, path)
    ensures Brings(all, c, path) <==> !Idle(all, pkg, c)
  {
    var q := RecordFor(all, pkg, c);
  }

  /** The record is the verdict on the registration that it stands for: on its kind, and on the argument that is
      handed down to it, which is what is registered if the parameters on the way hold it. */
  lemma RecordIsVerdict(u: Universe, ctx: Context, all: seq<TopDecl>, pkg: Package, c: Node, path: seq<nat>, k: nat)
    requires PartOf(all, pkg) && RecordStandsFor(pkg, c, path) && Judged(pkg, c) == Some(k) && k < |c.args|
    ensures Callee(c).Some? && Reached(all, c, path).Some? && Slot(all, Callee(c).value, path) == Some(k)
    ensures exists kind, arg ::
      && RegistersOnly(Reached(all, c, path).value, kind, arg)
      && InspectCall(u, ctx, EnvOf(pkg.decls), c) == [EvalProvider(u, ctx, kind, c.site, c.args[k])]
      && if Holds(all, Callee(c).value, path) then arg == c.args[k] else IsVariable(arg)
  {
    var q := RecordFor(all, pkg, c);
    var kind := JudgedKind(u, ctx, all, pkg, c, path, k);
    ReachedRegisters(all, c, path);
    var arg :| RegistersOnly(Reached(all, c, path).value, kind, arg) &&
      if Holds(all, Callee(c).value, path) then arg == c.args[k] else IsVariable(arg);
    assert RegistersOnly(Reached(all, c, path).value, kind, arg);
  }

  lemma JudgedKind(u: Universe, ctx: Context, all: seq<TopDecl>, pkg: Package, c: Node, path: seq<nat>, k: nat)
    returns (kind: ServiceKind)
    requires PartOf(all, pkg) && RecordStandsFor(pkg, c, path) && Judged(pkg, c) == Some(k) && k < |c.args|
    ensures Callee(c).Some? && EndOf(all, Callee(c).value, path).Some?
    ensures RegKindOf(EndOf(all, Callee(c).value, path).value.name) == Some(kind)
    ensures InspectCall(u, ctx, EnvOf(pkg.decls), c) == [EvalProvider(u, ctx, kind, c.site, c.args[k])]
  {
    if DoRegistrationCall(c.fun).Some? {
      kind := DirectKind(u, ctx, pkg, c, k);
    } else {
      var info, d, inner := WrapperBehind(pkg.decls, c);
      kind := info.kind;
      ProviderIsNoAlias(d.decl, inner, k);
      WrapperEnds(all, pkg, c, path, d, inner, k);
      GivenProvider(u, ctx, info.innerFnName, kind, c.site, c.args, c.args[k]);
    }
  }

  lemma DirectKind(u: Universe, ctx: Context, pkg: Package, c: Node, k: nat) returns (kind: ServiceKind)
    requires Recorded(pkg, c) && DoRegistrationCall(c.fun).Some? && Judged(pkg, c) == Some(k) && k < |c.args|
    ensures Callee(c).Some? && IsEnd(Callee(c).value) && RegKindOf(Callee(c).value.name) == Some(kind)
    ensures InspectCall(u, ctx, EnvOf(pkg.decls), c) == [EvalProvider(u, ctx, kind, c.site, c.args[k])]
  {
    MatchedIffSelector(c.fun);
    EndIsRegistration(c);
    kind := DoRegistrationCall(c.fun).value.1;
  }

  lemma WrapperEnds(all: seq<TopDecl>, pkg: Package, c: Node, path: seq<nat>, d: TopDecl, inner: Node, k: nat)
    requires PartOf(all, pkg) && RecordStandsFor(pkg, c, path) && DoRegistrationCall(c.fun).None?
    requires RunsWrapper(pkg.decls, c, d, inner, k)
    ensures Callee(c).Some? && EndOf(all, Callee(c).value, path) == Callee(inner)
    ensures DoRegistrationCall(inner.fun).Some? ==>
      RegKindOf(Callee(inner).value.name) == Some(DoRegistrationCall(inner.fun).value.1)
  {
    var d', inner', k': nat :| RecordsWrapped(pkg.decls, c, d', inner', k', path[0]);
    RunsOne(all, pkg, c, d, inner, k, d', inner', k');
    WrapperIsRun(all, d, inner, k);
    SoleIsKnown(CallsIn(d.decl.body.value), inner);
    CallsTabulated(inner.fun);
    EndIsRegistration(inner);
    assert path[1..] == [];
  }

  // ---------------------------------------------------------------- what is missed

  ghost predicate DeclaredIn(decls: seq<TopDecl>, fn: FuncId)
  {
    exists d :: d in decls && d.Fun? && d.decl.fn == fn
  }

  /** The analyzer looks into the call: it is written as an identifier of a function that the package declares,
      whose only known registration is the one on the path, and it has an argument of its own for it. */
  ghost predicate LooksInto(all: seq<TopDecl>, pkg: Package, c: Node, j: nat)
    requires Callee(c).Some?
  {
    && WrittenAsIdent(c.fun) && DeclaredIn(pkg.decls, Callee(c).value)
    && Slot(all, Callee(c).value, [j]).Some? && Slot(all, Callee(c).value, [j]).value < |c.args|
    && j < |Made(all, Callee(c).value)| && SoleAt(Made(all, Callee(c).value), Made(all, Callee(c).value)[j], j)
  }

  /** Why a registration that the call brings leaves no record: the package does not import the library, it is
      reached through a further call, its own call is not written as a selector, or the analyzer does not look
      into the function that performs it. */
  ghost predicate Missed(all: seq<TopDecl>, pkg: Package, c: Node, path: seq<nat>)
    requires Callee(c).Some?
  {
    || !pkg.importsDo
    || |path| > 1
    || (path == [] && !WrittenAsSelector(c.fun))
    || (|path| == 1 && !LooksInto(all, pkg, c, path[0]))
  }

  lemma {:induction false} SkippedIsWrapped(decls: seq<TopDecl>, id: nat) returns (d: TopDecl, inner: Node, k: nat)
    requires id in EnvOf(decls).skips
    ensures d in decls && d.Fun? && Wraps(d.decl, inner, k) && inner.Call? && inner.site.id == id
  {
    var init, last := decls[..|decls| - 1], decls[|decls| - 1];
    if id in EnvOf(init).skips {
      d, inner, k := SkippedIsWrapped(init, id);
    } else {
      d, inner, k := last, WrapperOfDecl(last.decl).value.1, WrapperOfDecl(last.decl).value.0.paramIdx;
      WrapperOfDeclIff(last.decl, WrapperOfDecl(last.decl).value.0, inner);
    }
  }

  lemma {:induction false} CallsInConcat(a: seq<Node>, b: seq<Node>)
    ensures CallsIn(a + b) == CallsIn(a) + CallsIn(b)
  {
    if a == [] {
      assert a + b == b;
    } else {
      assert (a + b)[1..] == a[1..] + b;
      CallsInConcat(a[1..], b);
    }
  }

  lemma {:induction false} BodyIsOfPackage(decls: seq<TopDecl>, d: TopDecl, c: Node)
    requires d in decls && c in CallsIn(DeclNodes(d))
    ensures c in CallsIn(NodesOf(decls))
  {
    CallsInConcat(DeclNodes(decls[0]), NodesOf(decls[1..]));
    if d != decls[0] { BodyIsOfPackage(decls[1..], d, c); }
  }

  /** What is skipped is brought by the callers. */
  lemma BroughtIsNotSkipped(all: seq<TopDecl>, pkg: Package, c: Node, path: seq<nat>)
    requires PartOf(all, pkg) && c in CallsOfPackage(pkg) && Brings(all, c, path)
    ensures c.site.id !in EnvOf(pkg.decls).skips
  {
    if c.site.id in EnvOf(pkg.decls).skips {
      var d, inner, k := SkippedIsWrapped(pkg.decls, c.site.id);
      SoleIsKnown(CallsIn(d.decl.body.value), inner);
      BodyIsOfPackage(pkg.decls, d, inner);
      WrappedPassesOn(all, d, inner, k, path);
    }
  }

  lemma WrappedPassesOn(all: seq<TopDecl>, d: TopDecl, inner: Node, k: nat, path: seq<nat>)
    requires d in all && d.Fun? && Wraps(d.decl, inner, k)
    ensures !Brings(all, inner, path)
  {
    SoleIsKnown(CallsIn(d.decl.body.value), inner);
    CallsTabulated(inner.fun);
    EndIsRegistration(inner);
    var api :| CallsApi(inner.fun, api) && FeedsSlot(api, inner.args, d.decl.params[k]);
    assert PassedOn(all, inner.args[ApiSlot(api).value]);
  }

  /** A registration that a call brings leaves no record exactly for one of these reasons. */
  lemma MissedIff(all: seq<TopDecl>, pkg: Package, c: Node, path: seq<nat>)
    requires PartOf(all, pkg) && c in CallsOfPackage(pkg) && Brings(all, c, path)
    ensures Missed(all, pkg, c, path) <==> !RecordStandsFor(pkg, c, path)
  {
    BroughtIsNotSkipped(all, pkg, c, path);
    EndIsRegistration(c);
    if path == [] {
    } else if |path| == 1 {
      assert path == [path[0]];
      if LooksInto(all, pkg, c, path[0]) && pkg.importsDo { LookedInto(all, pkg, c, path[0]); }
      if RecordStandsFor(pkg, c, path) { StoodFor(all, pkg, c, path[0]); }
    }
  }

  lemma LookedInto(all: seq<TopDecl>, pkg: Package, c: Node, j: nat)
    requires PartOf(all, pkg) && c in CallsOfPackage(pkg) && Callee(c).Some? && LooksInto(all, pkg, c, j)
    requires pkg.importsDo && c.site.id !in EnvOf(pkg.decls).skips
    ensures RecordStandsFor(pkg, c, [j])
  {
    var fn := Callee(c).value;
    CalleeFuncIff(c.fun);
    MatchedIffSelector(c.fun);
    var e := DeclOf(all, fn).value;
    var inner, k := Made(all, fn)[j], Slot(all, fn, [j]).value;
    SlotWraps(all, fn, j);
    WrapperIsRun(all, Fun(e), inner, k);
    var d :| d in pkg.decls && d.Fun? && d.decl.fn == fn;
    assert d == Fun(e);
    assert RecordsWrapped(pkg.decls, c, d, inner, k, j);
    WrapperIsKnown(all, pkg.decls, c, d, inner, k);
  }

  lemma SlotWraps(all: seq<TopDecl>, fn: FuncId, j: nat)
    requires Slot(all, fn, [j]).Some? && j < |Made(all, fn)| && SoleAt(Made(all, fn), Made(all, fn)[j], j)
    ensures DeclOf(all, fn).Some? && Wraps(DeclOf(all, fn).value, Made(all, fn)[j], Slot(all, fn, [j]).value)
  {
    var d, inner, k := DeclOf(all, fn).value, Made(all, fn)[j], Slot(all, fn, [j]).value;
    assert [j][1..] == [];
    CallsTabulated(inner.fun);
    EndIsRegistration(inner);
    var api :| CallsApi(inner.fun, api);
    assert FeedsSlot(api, inner.args, d.params[k]);
  }

  lemma WrapperIsKnown(all: seq<TopDecl>, decls: seq<TopDecl>, c: Node, d: TopDecl, inner: Node, k: nat)
    requires WellNamed(all) && (forall e | e in decls :: e in all) && RunsWrapper(decls, c, d, inner, k)
    requires WrittenAsIdent(c.fun)
    ensures WrapperAt(EnvOf(decls), c).Some?
  {
    var fn := d.decl.fn;
    CalleeFuncIff(c.fun);
    EnvKnows(decls, fn);
    var info := InfoOf(d.decl, inner, k);
    assert DefinedBy(decls, d, fn);
    forall e | DefinedBy(decls, e, fn) ensures e == d { assert DefinedBy(all, d, fn); }
  }

  lemma StoodFor(all: seq<TopDecl>, pkg: Package, c: Node, j: nat)
    requires PartOf(all, pkg) && Callee(c).Some? && RecordStandsFor(pkg, c, [j])
    ensures LooksInto(all, pkg, c, j)
  {
    CalleeFuncIff(c.fun);
    var d, inner, k: nat :| RecordsWrapped(pkg.decls, c, d, inner, k, [j][0]);
    WrappedIsLookedInto(all, pkg, c, d, inner, k, j);
  }

  lemma WrappedIsLookedInto(all: seq<TopDecl>, pkg: Package, c: Node, d: TopDecl, inner: Node, k: nat, j: nat)
    requires PartOf(all, pkg) && Callee(c).Some? && WrittenAsIdent(c.fun)
    requires RecordsWrapped(pkg.decls, c, d, inner, k, j)
    ensures LooksInto(all, pkg, c, j)
  {
    WrapperSlot(all, d, inner, k, j);
    WrapperIsRun(all, d, inner, k);
  }

  // ---------------------------------------------------------------- the account

  /** The paths of at most n calls from the function on. */
  function Paths(all: seq<TopDecl>, fn: FuncId, n: nat): (r: set<seq<nat>>)
    ensures [] in r && forall p | p in r :: |p| <= n
    decreases n, 1, 0
  {
    {[]} + if n == 0 then {} else PathsThrough(all, Made(all, fn), n - 1)
  }

  /** Those that start at one of the calls. */
  function PathsThrough(all: seq<TopDecl>, calls: seq<Node>, n: nat): (r: set<seq<nat>>)
    ensures forall p | p in r :: 0 < |p| <= n + 1
    decreases n + 1, 0, |calls|
  {
    if calls == [] then {}
    else
      var last := |calls| - 1;
      PathsThrough(all, calls[..last], n) +
      match Callee(calls[last])
      case None => {}
      case Some(g) => Prefixed(last, Paths(all, g, n), n)
  }

  function Prefixed(j: nat, paths: set<seq<nat>>, n: nat): (r: set<seq<nat>>)
    requires forall p | p in paths :: |p| <= n
    ensures forall p | p in r :: 0 < |p| <= n + 1
  {
    set p | p in paths :: [j] + p
  }

  lemma PrefixedHas(paths: set<seq<nat>>, path: seq<nat>, n: nat)
    requires (forall p | p in paths :: |p| <= n) && path != [] && path[1..] in paths
    ensures path in Prefixed(path[0], paths, n)
  {
    assert path == [path[0]] + path[1..];
  }

  lemma {:induction false} ThroughCall(all: seq<TopDecl>, calls: seq<Node>, path: seq<nat>, n: nat)
    requires path != [] && path[0] < |calls| && Callee(calls[path[0]]).Some?
    requires path[1..] in Paths(all, Callee(calls[path[0]]).value, n)
    ensures path in PathsThrough(all, calls, n)
  {
    if path[0] < |calls| - 1 {
      ThroughCall(all, calls[..|calls| - 1], path, n);
    } else {
      PrefixedHas(Paths(all, Callee(calls[path[0]]).value, n), path, n);
    }
  }

  lemma ThroughBody(all: seq<TopDecl>, fn: FuncId, path: seq<nat>, g: FuncId, n: nat)
    requires n > 0 && path != [] && path[0] < |Made(all, fn)| && Callee(Made(all, fn)[path[0]]) == Some(g)
    requires path[1..] in Paths(all, g, n - 1)
    ensures path in Paths(all, fn, n)
  {
    ThroughCall(all, Made(all, fn), path, n - 1);
  }

  /** The path stays within the bodies that it enters. */
  predicate Leads(all: seq<TopDecl>, fn: FuncId, path: seq<nat>)
    decreases |path|
  {
    path == [] ||
    (path[0] < |Made(all, fn)| && Callee(Made(all, fn)[path[0]]).Some? &&
     Leads(all, Callee(Made(all, fn)[path[0]]).value, path[1..]))
  }

  lemma {:induction false} SlotLeads(all: seq<TopDecl>, fn: FuncId, path: seq<nat>)
    requires Slot(all, fn, path).Some?
    ensures Leads(all, fn, path)
    decreases |path|
  {
    if path != [] { SlotLeads(all, Callee(Made(all, fn)[path[0]]).value, path[1..]); }
  }

  lemma {:induction false} PathIsReached(all: seq<TopDecl>, fn: FuncId, path: seq<nat>, n: nat)
    requires Leads(all, fn, path) && |path| <= n
    ensures path in Paths(all, fn, n)
    decreases |path|
  {
    if path != [] {
      var g := Callee(Made(all, fn)[path[0]]).value;
      PathIsReached(all, g, path[1..], n - 1);
      ThroughBody(all, fn, path, g, n);
    }
  }

  /** The registrations that the call brings, at most n calls away. */
  ghost function Brought(all: seq<TopDecl>, c: Node, n: nat): set<seq<nat>>
  {
    if Callee(c).None? then {} else set p | p in Paths(all, Callee(c).value, n) && Brings(all, c, p)
  }

  lemma BroughtIff(all: seq<TopDecl>, c: Node, path: seq<nat>, n: nat)
    ensures path in Brought(all, c, n) <==> |path| <= n && Brings(all, c, path)
  {
    if Callee(c).Some? {
      if Brings(all, c, path) && |path| <= n && path != [] {
        SlotLeads(all, Callee(c).value, path);
        PathIsReached(all, Callee(c).value, path, n);
      }
    }
  }

  ghost function MissedOf(all: seq<TopDecl>, pkg: Package, c: Node, n: nat): set<seq<nat>>
  {
    set p | p in Brought(all, c, n) && Callee(c).Some? && Missed(all, pkg, c, p)
  }

  /** One call: what it brings is missed, but for the one registration that a genuine record stands for. */
  lemma BroughtOrMissed(all: seq<TopDecl>, pkg: Package, c: Node, n: nat)
    requires PartOf(all, pkg) && c in CallsOfPackage(pkg) && n > 0
    ensures |Brought(all, c, n)| ==
      |MissedOf(all, pkg, c, n)| + if Recorded(pkg, c) && !Idle(all, pkg, c) then 1 else 0
  {
    var brought, missed := Brought(all, c, n), MissedOf(all, pkg, c, n);
    forall p ensures p in brought - missed <==> |p| <= n && Brings(all, c, p) && RecordStandsFor(pkg, c, p) {
      NotMissedIff(all, pkg, c, p, n);
    }
    if Recorded(pkg, c) && !Idle(all, pkg, c) {
      var path := GenuineRecord(all, pkg, c);
      AllButOne(brought, missed, path);
    } else {
      forall p ensures !(Brings(all, c, p) && RecordStandsFor(pkg, c, p)) { NoGenuineRecord(all, pkg, c, p); }
      assert brought == missed;
    }
  }

  lemma AllButOne(s: set<seq<nat>>, part: set<seq<nat>>, x: seq<nat>)
    requires part <= s && forall y :: y in s - part <==> y == x
    ensures |s| == |part| + 1
  {
    assert s - part == {x};
    assert s == part + (s - part);
  }

  lemma NotMissedIff(all: seq<TopDecl>, pkg: Package, c: Node, path: seq<nat>, n: nat)
    requires PartOf(all, pkg) && c in CallsOfPackage(pkg)
    ensures path in Brought(all, c, n) - MissedOf(all, pkg, c, n) <==>
      |path| <= n && Brings(all, c, path) && RecordStandsFor(pkg, c, path)
  {
    BroughtIff(all, c, path, n);
    if Brings(all, c, path) { MissedIff(all, pkg, c, path); }
  }

  lemma GenuineRecord(all: seq<TopDecl>, pkg: Package, c: Node) returns (path: seq<nat>)
    requires PartOf(all, pkg) && Recorded(pkg, c) && !Idle(all, pkg, c)
    ensures |path| <= 1 && Brings(all, c, path) && RecordStandsFor(pkg, c, path)
    ensures forall q | RecordStandsFor(pkg, c, q) :: q == path
  {
    path := RecordFor(all, pkg, c);
    GenuineIff(all, pkg, c, path);
  }

  lemma NoGenuineRecord(all: seq<TopDecl>, pkg: Package, c: Node, path: seq<nat>)
    requires PartOf(all, pkg) && !(Recorded(pkg, c) && !Idle(all, pkg, c))
    ensures !(Brings(all, c, path) && RecordStandsFor(pkg, c, path))
  {
    if RecordStandsFor(pkg, c, path) { GenuineIff(all, pkg, c, path); }
  }

  /** Over some calls: their records, how many of these are idle, and what the calls bring, at most n calls
      away, and miss. */
  datatype Account = Account(records: nat, idle: nat, brought: nat, missed: nat)

  function Add(a: Account, b: Account): Account
  {
    Account(a.records + b.records, a.idle + b.idle, a.brought + b.brought, a.missed + b.missed)
  }

  ghost function CallAccount(all: seq<TopDecl>, pkg: Package, c: Node, n: nat): Account
  {
    Account(if Recorded(pkg, c) then 1 else 0, if Idle(all, pkg, c) then 1 else 0,
            |Brought(all, c, n)|, |MissedOf(all, pkg, c, n)|)
  }

  ghost function CallsAccount(all: seq<TopDecl>, pkg: Package, calls: seq<Node>, n: nat): Account
  {
    if calls == [] then Account(0, 0, 0, 0)
    else Add(CallAccount(all, pkg, calls[0], n), CallsAccount(all, pkg, calls[1..], n))
  }

  ghost function ProgramAccount(all: seq<TopDecl>, pkgs: seq<Package>, n: nat): Account
  {
    if pkgs == [] then Account(0, 0, 0, 0)
    else Add(ProgramAccount(all, pkgs[..|pkgs| - 1], n),
             CallsAccount(all, pkgs[|pkgs| - 1], CallsOfPackage(pkgs[|pkgs| - 1]), n))
  }

  ghost predicate Balances(a: Account)
  {
    a.records + a.missed == a.brought + a.idle
  }

  lemma CallBalances(all: seq<TopDecl>, pkg: Package, c: Node, n: nat)
    requires PartOf(all, pkg) && c in CallsOfPackage(pkg) && n > 0
    ensures Balances(CallAccount(all, pkg, c, n))
  {
    BroughtOrMissed(all, pkg, c, n);
  }

  lemma {:induction false} CallsBalance(all: seq<TopDecl>, pkg: Package, calls: seq<Node>, n: nat)
    requires PartOf(all, pkg) && (forall c | c in calls :: c in CallsOfPackage(pkg)) && n > 0
    ensures Balances(CallsAccount(all, pkg, calls, n))
  {
    if calls != [] {
      CallBalances(all, pkg, calls[0], n);
      CallsBalance(all, pkg, calls[1..], n);
    }
  }

  lemma {:induction false} RecordsAreFound(u: Universe, ctx: Context, all: seq<TopDecl>, pkg: Package, calls: seq<Node>,
                                           n: nat)
    requires pkg.importsDo && forall c | c in calls :: c.Call?
    ensures |InspectEach(u, ctx, EnvOf(pkg.decls), calls)| == CallsAccount(all, pkg, calls, n).records
  {
    if calls != [] { RecordsAreFound(u, ctx, all, pkg, calls[1..], n); }
  }

  lemma {:induction false} NothingWithoutImport(all: seq<TopDecl>, pkg: Package, calls: seq<Node>, n: nat)
    requires !pkg.importsDo
    ensures CallsAccount(all, pkg, calls, n).records == 0
  {
    if calls != [] { NothingWithoutImport(all, pkg, calls[1..], n); }
  }

  lemma {:induction false} RecordPerFinding(fs: seq<Finding>)
    ensures |RecordsOf(fs)| == |fs|
  {
    if fs != [] { RecordPerFinding(fs[..|fs| - 1]); }
  }

  lemma PackageRecords(u: Universe, cfg: Config, all: seq<TopDecl>, pkg: Package, facts: set<FuncId>, n: nat)
    ensures |RecordsOf(PackageFindings(u, cfg, pkg, facts))| == CallsAccount(all, pkg, CallsOfPackage(pkg), n).records
  {
    RecordPerFinding(PackageFindings(u, cfg, pkg, facts));
    if pkg.importsDo {
      VisitAllInspects(u, ContextOf(cfg, pkg, facts), EnvOf(pkg.decls), NodesOf(pkg.decls));
      RecordsAreFound(u, ContextOf(cfg, pkg, facts), all, pkg, CallsOfPackage(pkg), n);
    } else {
      NothingWithoutImport(all, pkg, CallsOfPackage(pkg), n);
    }
  }

  /** The account of a driver pass balances at every depth: its records, with what the program's calls bring and
      the analyzer misses, are all that they bring, with the records about parameters. */
  lemma {:induction false} RecordsAndLosses(u: Universe, cfg: Config, all: seq<TopDecl>, pkgs: seq<Package>,
                                            facts: set<FuncId>, n: nat)
    requires (forall pkg | pkg in pkgs :: PartOf(all, pkg)) && n > 0
    ensures var a := ProgramAccount(all, pkgs, n);
      |AllRecords(u, cfg, pkgs, facts)| == a.records && a.records + a.missed == a.brought + a.idle
  {
    if pkgs != [] {
      var last := pkgs[|pkgs| - 1];
      RecordsAndLosses(u, cfg, all, pkgs[..|pkgs| - 1], facts, n);
      PackageRecords(u, cfg, all, last, facts, n);
      CallsBalance(all, last, CallsOfPackage(last), n);
    }
  }

  // ---------------------------------------------------------------- when the records are complete

  ghost predicate Clean(a: Account)
  {
    a.missed == 0 && a.idle == 0
  }

  ghost predicate CleanAt(all: seq<TopDecl>, pkg: Package, c: Node)
  {
    forall n: nat | n > 0 :: Clean(CallAccount(all, pkg, c, n))
  }

  /** What the call brings is what is recorded there, registration by registration. */
  ghost predicate Exact(all: seq<TopDecl>, pkg: Package, c: Node)
  {
    forall path :: Brings(all, c, path) <==> RecordStandsFor(pkg, c, path)
  }

  lemma CleanIffExact(all: seq<TopDecl>, pkg: Package, c: Node)
    requires PartOf(all, pkg) && c in CallsOfPackage(pkg)
    ensures CleanAt(all, pkg, c) <==> Exact(all, pkg, c)
  {
    if CleanAt(all, pkg, c) {
      forall path ensures Brings(all, c, path) <==> RecordStandsFor(pkg, c, path) { CleanIsExact(all, pkg, c, path); }
    }
    if Exact(all, pkg, c) {
      forall n: nat | n > 0 ensures Clean(CallAccount(all, pkg, c, n)) { ExactIsClean(all, pkg, c, n); }
    }
  }

  lemma CleanIsExact(all: seq<TopDecl>, pkg: Package, c: Node, path: seq<nat>)
    requires PartOf(all, pkg) && c in CallsOfPackage(pkg) && CleanAt(all, pkg, c)
    ensures Brings(all, c, path) <==> RecordStandsFor(pkg, c, path)
  {
    var n := |path| + 1;
    assert Clean(CallAccount(all, pkg, c, n));
    BroughtIff(all, c, path, n);
    assert path !in MissedOf(all, pkg, c, n);
    if Brings(all, c, path) { MissedIff(all, pkg, c, path); }
    if RecordStandsFor(pkg, c, path) { GenuineIff(all, pkg, c, path); }
  }

  lemma ExactIsClean(all: seq<TopDecl>, pkg: Package, c: Node, n: nat)
    requires PartOf(all, pkg) && c in CallsOfPackage(pkg) && Exact(all, pkg, c)
    ensures Clean(CallAccount(all, pkg, c, n))
  {
    forall path | path in Brought(all, c, n) ensures path !in MissedOf(all, pkg, c, n) {
      BroughtIff(all, c, path, n);
      MissedIff(all, pkg, c, path);
    }
    assert MissedOf(all, pkg, c, n) == {};
    if Idle(all, pkg, c) {
      var path := RecordFor(all, pkg, c);
      GenuineIff(all, pkg, c, path);
    }
  }

  lemma {:induction false} CallsAreClean(all: seq<TopDecl>, pkg: Package, calls: seq<Node>, n: nat)
    ensures Clean(CallsAccount(all, pkg, calls, n)) <==> forall c | c in calls :: Clean(CallAccount(all, pkg, c, n))
  {
    if calls != [] {
      CallsAreClean(all, pkg, calls[1..], n);
      AddIsClean(CallAccount(all, pkg, calls[0], n), CallsAccount(all, pkg, calls[1..], n));
      assert forall c :: c in calls <==> c == calls[0] || c in calls[1..];
    }
  }

  lemma AddIsClean(a: Account, b: Account)
    ensures Clean(Add(a, b)) <==> Clean(a) && Clean(b)
  {}

  ghost predicate InProgram(pkgs: seq<Package>, pkg: Package, c: Node)
  {
    pkg in pkgs && c in CallsOfPackage(pkg)
  }

  ghost predicate AllClean(all: seq<TopDecl>, pkgs: seq<Package>, n: nat)
  {
    forall pkg, c | InProgram(pkgs, pkg, c) :: Clean(CallAccount(all, pkg, c, n))
  }

  lemma AllCleanStep(all: seq<TopDecl>, pkgs: seq<Package>, n: nat)
    requires pkgs != []
    ensures var last := pkgs[|pkgs| - 1];
      AllClean(all, pkgs, n) <==>
      AllClean(all, pkgs[..|pkgs| - 1], n) &&
      forall c | c in CallsOfPackage(last) :: Clean(CallAccount(all, last, c, n))
  {
    var init, last := pkgs[..|pkgs| - 1], pkgs[|pkgs| - 1];
    assert pkgs == init + [last];
    forall pkg, c ensures InProgram(pkgs, pkg, c) <==>
      InProgram(init, pkg, c) || (pkg == last && InProgram([last], pkg, c))
    {}
    if AllClean(all, pkgs, n) {
      forall pkg, c | InProgram(init, pkg, c) ensures Clean(CallAccount(all, pkg, c, n)) {
        assert InProgram(pkgs, pkg, c);
      }
      forall c | c in CallsOfPackage(last) ensures Clean(CallAccount(all, last, c, n)) {
        assert InProgram(pkgs, last, c);
      }
    }
  }

  lemma {:induction false} ProgramIsClean(all: seq<TopDecl>, pkgs: seq<Package>, n: nat)
    ensures Clean(ProgramAccount(all, pkgs, n)) <==> AllClean(all, pkgs, n)
  {
    if pkgs != [] {
      var last := pkgs[|pkgs| - 1];
      ProgramIsClean(all, pkgs[..|pkgs| - 1], n);
      CallsAreClean(all, last, CallsOfPackage(last), n);
      AddIsClean(ProgramAccount(all, pkgs[..|pkgs| - 1], n), CallsAccount(all, last, CallsOfPackage(last), n));
      AllCleanStep(all, pkgs, n);
    }
  }

  /** Nothing is missed at any depth, and no record is idle, exactly when at every call of the program the
      registrations brought are those that are recorded. */
  lemma CompleteIff(all: seq<TopDecl>, pkgs: seq<Package>)
    requires forall pkg | pkg in pkgs :: PartOf(all, pkg)
    ensures (forall n: nat | n > 0 :: Complete(all, pkgs, n)) <==>
      forall pkg, c | InProgram(pkgs, pkg, c) :: Exact(all, pkg, c)
  {
    AccountsAreClean(all, pkgs);
    AlwaysClean(all, pkgs);
    CleanIsExactEverywhere(all, pkgs);
  }

  /** Nothing that lies at most n calls away is missed, and no record is idle. */
  ghost predicate Complete(all: seq<TopDecl>, pkgs: seq<Package>, n: nat)
  {
    Clean(ProgramAccount(all, pkgs, n))
  }

  lemma AccountsAreClean(all: seq<TopDecl>, pkgs: seq<Package>)
    ensures (forall n: nat | n > 0 :: Complete(all, pkgs, n)) <==> forall n: nat | n > 0 :: AllClean(all, pkgs, n)
  {
    forall n: nat ensures Complete(all, pkgs, n) <==> AllClean(all, pkgs, n) { ProgramIsClean(all, pkgs, n); }
  }

  lemma CleanIsExactEverywhere(all: seq<TopDecl>, pkgs: seq<Package>)
    requires forall pkg | pkg in pkgs :: PartOf(all, pkg)
    ensures (forall pkg, c | InProgram(pkgs, pkg, c) :: CleanAt(all, pkg, c)) <==>
      forall pkg, c | InProgram(pkgs, pkg, c) :: Exact(all, pkg, c)
  {
    forall pkg, c | InProgram(pkgs, pkg, c) ensures CleanAt(all, pkg, c) <==> Exact(all, pkg, c) {
      CleanIffExact(all, pkg, c);
    }
  }

  lemma AlwaysClean(all: seq<TopDecl>, pkgs: seq<Package>)
    ensures (forall n: nat | n > 0 :: AllClean(all, pkgs, n)) <==>
      forall pkg, c | InProgram(pkgs, pkg, c) :: CleanAt(all, pkg, c)
  {
    if forall n: nat | n > 0 :: AllClean(all, pkgs, n) {
      forall pkg, c | InProgram(pkgs, pkg, c) ensures CleanAt(all, pkg, c) {
        forall n: nat | n > 0 ensures Clean(CallAccount(all, pkg, c, n)) { assert AllClean(all, pkgs, n); }
      }
    }
    if forall pkg, c | InProgram(pkgs, pkg, c) :: CleanAt(all, pkg, c) {
      forall n: nat | n > 0 ensures AllClean(all, pkgs, n) {
        forall pkg, c | InProgram(pkgs, pkg, c) ensures Clean(CallAccount(all, pkg, c, n)) {
          assert CleanAt(all, pkg, c);
        }
      }
    }
  }

  /** One level of calls is followed: what a call brings to a registration further down is missed, wherever the
      call is. */
  lemma DeeperIsLost(all: seq<TopDecl>, pkgs: seq<Package>, pkg: Package, c: Node, path: seq<nat>, n: nat)
    requires InProgram(pkgs, pkg, c) && Brings(all, c, path) && 1 < |path| <= n
    ensures !RecordStandsFor(pkg, c, path) && !Complete(all, pkgs, n)
  {
    BroughtIff(all, c, path, n);
    assert path in MissedOf(all, pkg, c, n);
    assert !Clean(CallAccount(all, pkg, c, n));
    ProgramIsClean(all, pkgs, n);
  }
}
