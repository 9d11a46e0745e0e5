/** The container that the rules make claims about: registrations, lazy construction and the health
    sweep, as a state machine (README.md, section 2). A container evolves over any sequence of events;
    a sweep calls the check of every stored instance that has one. */
module Container {
  import opened GoTypes
  import opened Syntax
  import opened Resolve
  import opened Rules

  /** A stored instance: nothing, or a value with its dynamic type. */
  datatype Value = NilValue | Val(dyn: Type)

  /** One registered service. An alias row delegates to the service it names. */
  datatype Row =
    | Service(kind: ServiceKind, ctx: Context, arg: Node, stored: Option<Value>)
    | AliasOf(target: string)

  type Services = map<string, Row>

  datatype Event =
    | Register(name: string, kind: ServiceKind, ctx: Context, arg: Node, value: Value)
    | RegisterAlias(name: string, target: string)
    | Invoke(name: string, value: Value)

  // ---------------------------------------------------------------- what a registration can store

  ghost predicate HasMethod(u: Universe, t: Type, f: string, sig: Sig)
  {
    exists m :: InMethodSet(u, t, f, m) && m.Method? && m.sig == sig
  }

  /** The methods that an interface type, named or not, or a type parameter's constraint asks for. */
  function Asked(u: Universe, t: Type): map<string, Sig>
  {
    match t
    case Named(n) =>
      if n !in u then map[] else map f | f in u[n].members && u[n].members[f].Method? :: u[n].members[f].sig
    case InterfaceLit(methods) => methods
    case TypeParam(_, constraint) => constraint.methods
    case _ => map[]
  }

  /** dyn has every method that the type t asks for, and is one of the types it lists. */
  ghost predicate Satisfies(u: Universe, t: Type, dyn: Type)
  {
    && (forall f | f in Asked(u, t) :: HasMethod(u, dyn, f, Asked(u, t)[f]))
    && (t.TypeParam? && t.constraint.terms.Some? ==> dyn in t.constraint.terms.value)
  }

  /** The instances behind an expression of static type t: exactly t when it is concrete, none for an
      untyped nil, and any instance that fits when t is an interface or a type parameter. */
  ghost predicate MayHold(u: Universe, t: Type, v: Value)
  {
    if t == UntypedNil then v == NilValue
    else if !IsOpen(u, t) then v == Val(t)
    else v == NilValue || (!IsOpen(u, v.dyn) && !v.dyn.Tuple? && Satisfies(u, t, v.dyn))
  }

  /** Nothing can stand behind a static type exactly when that leaves the dynamic type open. */
  lemma NilIsHeldIff(u: Universe, t: Type)
    ensures MayHold(u, t, NilValue) <==> IsOpen(u, t)
  {}

  /** The static type of what a return of a provider of declared type yields: its first result, the first
      result of the one call it forwards, or the named result when it is naked. */
  function ReturnType(declared: Type, results: seq<Node>): Type
  {
    if results == [] then declared
    else
      match TypeOf(results[0])
      case Tuple(parts) => if parts == [] then UntypedNil else parts[0]
      case t => t
  }

  predicate Denotes(arg: Node, fn: FuncId)
  {
    (arg.Ident? || arg.Selector?) && arg.obj == FuncObj(fn)
  }

  /** The function that a call of the provider executes, as far as the package declares it. */
  ghost predicate Executes(funcs: map<FuncId, Func>, arg: Node, f: Func)
  {
    (arg.FuncLit? && Func(arg.result, arg.body) == f) || exists fn :: Denotes(arg, fn) && fn in funcs && funcs[fn] == f
  }

  ghost predicate Executed(funcs: map<FuncId, Func>, arg: Node)
  {
    exists f :: Executes(funcs, arg, f)
  }

  ghost predicate Returned(funcs: map<FuncId, Func>, arg: Node, results: seq<Node>)
  {
    exists f :: Executes(funcs, arg, f) && Leaves(f.body, results)
  }

  /** The provider's named result is overwritten past its returns. */
  ghost predicate Replaced(funcs: map<FuncId, Func>, arg: Node)
  {
    exists f :: Executes(funcs, arg, f) && Overwritten(f)
  }

  /** The static types from which the registration takes its instance: the value's, the provider's
      declared result, or, behind a declared interface, those of the returns of the body it executes, and
      again the declared one when a literal overwrites the named result. */
  ghost predicate Source(u: Universe, ctx: Context, kind: ServiceKind, arg: Node, s: Type)
  {
    if kind.Eager? then s == TypeOf(arg)
    else
      var declared := DeclaredResult(u, TypeOf(arg));
      if !IsOpen(u, declared) || !Executed(ctx.funcs, arg) then s == declared
      else
        || (s == declared && Replaced(ctx.funcs, arg))
        || exists results :: Returned(ctx.funcs, arg, results) && s == ReturnType(declared, results)
  }

  ghost predicate MayStore(u: Universe, ctx: Context, kind: ServiceKind, arg: Node, v: Value)
  {
    exists s :: Source(u, ctx, kind, arg, s) && MayHold(u, s, v)
  }

  // ---------------------------------------------------------------- runs

  ghost function Step(u: Universe, c: Services, ev: Event): Services
  {
    match ev
    case Register(name, kind, ctx, arg, value) =>
      (match kind
       case Alias => c
       case Eager =>
         if MayStore(u, ctx, kind, arg, value) then c[name := Service(kind, ctx, arg, Some(value))] else c
       case _ => c[name := Service(kind, ctx, arg, None)])
    case RegisterAlias(name, target) => c[name := AliasOf(target)]
    case Invoke(name, value) =>
      if name in c && c[name].Service? && c[name].kind.Lazy? && c[name].stored.None? &&
         MayStore(u, c[name].ctx, c[name].kind, c[name].arg, value)
      then c[name := c[name].(stored := Some(value))]
      else c
  }

  ghost function Run(u: Universe, events: seq<Event>): Services
  {
    if events == [] then map[]
    else Step(u, Run(u, events[..|events| - 1]), events[|events| - 1])
  }

  // ---------------------------------------------------------------- the sweep

  /** The assertion on the stored instance: the context variant first, then the bare one. A type has
      at most one method of that name, so at most one applies. */
  ghost predicate Dispatches(u: Universe, t: Type, id: FuncId)
  {
    exists m :: InMethodSet(u, t, CHECK, m) && m.Method? && m.id == id && (m.sig == CTX_CHECK || m.sig == BARE_CHECK)
  }

  /** A body that returns the predeclared nil, or a named result's zero value, and does nothing else. */
  ghost predicate CannotFail(body: seq<Node>)
  {
    |body| == 1 && body[0].Return? &&
    (body[0].results == [] ||
     (|body[0].results| == 1 && body[0].results[0].Ident? && body[0].results[0].obj == PredeclaredNil))
  }

  /** bodies are the method bodies of the whole program; failing are the methods whose condition is bad
      at this sweep. Any body other than the trivial ones may report it. */
  ghost predicate ReportsError(bodies: map<FuncId, seq<Node>>, failing: set<FuncId>, id: FuncId)
  {
    id in failing && (id in bodies ==> !CannotFail(bodies[id]))
  }

  /** Transient rows and unbuilt lazy rows are green without a call. */
  ghost predicate RowErrs(u: Universe, bodies: map<FuncId, seq<Node>>, failing: set<FuncId>, row: Row)
  {
    row.Service? && !row.kind.Transient? && row.stored.Some? && row.stored.value.Val? &&
    exists id :: Dispatches(u, row.stored.value.dyn, id) && ReportsError(bodies, failing, id)
  }

  /** An alias delegates to the service it names, which can be an alias again: n steps from one to the other. */
  ghost predicate Delegates(c: Services, name: string, n: nat, service: string): (r: bool)
    ensures r ==> service in c && c[service].Service?
    decreases n
  {
    name in c &&
    if n == 0 then c[name].Service? && name == service
    else c[name].AliasOf? && Delegates(c, c[name].target, n - 1, service)
  }

  /** An error of the service that a row delegates to, or is. */
  ghost predicate SweepErrs(u: Universe, bodies: map<FuncId, seq<Node>>, c: Services, failing: set<FuncId>,
                            name: string)
  {
    exists n: nat, service :: DelegatedErrs(u, bodies, c, failing, name, n, service)
  }

  ghost predicate DelegatedErrs(u: Universe, bodies: map<FuncId, seq<Node>>, c: Services, failing: set<FuncId>,
                                name: string, n: nat, service: string)
  {
    Delegates(c, name, n, service) && RowErrs(u, bodies, failing, c[service])
  }

  /** A row leads to one service, in one number of steps. */
  lemma {:induction false} DelegatesToOne(c: Services, name: string, n: nat, service: string, m: nat, other: string)
    requires Delegates(c, name, n, service) && Delegates(c, name, m, other)
    ensures n == m && service == other
    decreases n
  {
    if n > 0 { DelegatesToOne(c, c[name].target, n - 1, service, m - 1, other); }
  }

  /** So a row errs exactly as the service it leads to. */
  lemma ErrsAsDelegate(u: Universe, bodies: map<FuncId, seq<Node>>, c: Services, failing: set<FuncId>,
                       name: string, n: nat, service: string)
    requires Delegates(c, name, n, service)
    ensures SweepErrs(u, bodies, c, failing, name) <==> RowErrs(u, bodies, failing, c[service])
  {
    if SweepErrs(u, bodies, c, failing, name) {
      var m: nat, other :| DelegatedErrs(u, bodies, c, failing, name, m, other);
      DelegatesToOne(c, name, n, service, m, other);
    }
    if RowErrs(u, bodies, failing, c[service]) {
      assert DelegatedErrs(u, bodies, c, failing, name, n, service);
    }
  }

  // ---------------------------------------------------------------- invariants of every run

  ghost predicate RowWellStored(u: Universe, row: Row)
  {
    row.Service? ==>
      && !row.kind.Alias?
      && (row.stored.Some? ==> !row.kind.Transient? && MayStore(u, row.ctx, row.kind, row.arg, row.stored.value))
  }

  /** In every reachable container each stored instance came from its own registration. */
  lemma {:induction false} RunStoresOwnValues(u: Universe, events: seq<Event>)
    ensures forall name | name in Run(u, events) :: RowWellStored(u, Run(u, events)[name])
  {
    if events != [] {
      RunStoresOwnValues(u, events[..|events| - 1]);
    }
  }

  lemma DispatchIsUnique(u: Universe, t: Type, a: FuncId, b: FuncId)
    requires Dispatches(u, t, a) && Dispatches(u, t, b)
    ensures a == b
  {
    var m :| InMethodSet(u, t, CHECK, m) && m.Method? && m.id == a;
    var n :| InMethodSet(u, t, CHECK, n) && n.Method? && n.id == b;
    MethodSetIsAFunction(u, t, CHECK, m, n);
  }

  lemma MethodSetIsAFunction(u: Universe, t: Type, f: string, m: Member, n: Member)
    requires InMethodSet(u, t, f, m) && InMethodSet(u, t, f, n)
    ensures m == n
  {
    var root := if t.Pointer? then (if t.elem.Named? then t.elem.name else t.elem.key)
                else if t.Named? then t.name else t.key;
    var p :| Selects(u, root, f, p) && MethodAt(u, root, f, p, m);
    var q :| Selects(u, root, f, q) && MethodAt(u, root, f, q, n);
    SelectedIsUnique(u, root, f, p, q);
  }

  lemma {:induction false} LazyIsUnbuiltUntilInvoked(u: Universe, events: seq<Event>, name: string)
    requires forall ev | ev in events && ev.Invoke? :: ev.name != name
    requires name in Run(u, events) && Run(u, events)[name].Service? && Run(u, events)[name].kind.Lazy?
    ensures Run(u, events)[name].stored.None?
  {
    var init, ev := events[..|events| - 1], events[|events| - 1];
    assert ev in events && forall e | e in init :: e in events;
    if name in Run(u, init) && Run(u, init)[name].Service? && Run(u, init)[name].kind.Lazy? {
      LazyIsUnbuiltUntilInvoked(u, init, name);
    }
  }

  /** HW-4's claim: without an invocation, a lazy service and whatever delegates to it are green in every sweep,
      whatever its body. */
  lemma LazyIsGreenUntilInvoked(u: Universe, bodies: map<FuncId, seq<Node>>, events: seq<Event>,
                                failing: set<FuncId>, name: string)
    requires forall ev | ev in events && ev.Invoke? :: ev.name != name
    requires name in Run(u, events) && Run(u, events)[name].Service? && Run(u, events)[name].kind.Lazy?
    ensures forall a, n: nat | Delegates(Run(u, events), a, n, name) ::
      !SweepErrs(u, bodies, Run(u, events), failing, a)
    ensures !SweepErrs(u, bodies, Run(u, events), failing, name)
  {
    var c := Run(u, events);
    LazyIsUnbuiltUntilInvoked(u, events, name);
    GreenBehind(u, bodies, c, failing, name);
  }

  /** Whatever delegates to a row without an error has none, at any number of steps. */
  lemma GreenBehind(u: Universe, bodies: map<FuncId, seq<Node>>, c: Services, failing: set<FuncId>, name: string)
    requires name in c && c[name].Service? && !RowErrs(u, bodies, failing, c[name])
    ensures forall a, n: nat | Delegates(c, a, n, name) :: !SweepErrs(u, bodies, c, failing, a)
    ensures !SweepErrs(u, bodies, c, failing, name)
  {
    forall a, n: nat | Delegates(c, a, n, name) ensures !SweepErrs(u, bodies, c, failing, a) {
      ErrsAsDelegate(u, bodies, c, failing, a, n, name);
    }
    assert Delegates(c, name, 0, name);
  }

  // ---------------------------------------------------------------- fail-capability, exactly

  /** Some run and some moment exist in which a sweep reports an error for this registration. */
  ghost predicate CanFail(u: Universe, bodies: map<FuncId, seq<Node>>, kind: ServiceKind, ctx: Context, arg: Node)
  {
    exists events, failing, name :: FailsIn(u, bodies, kind, ctx, arg, events, failing, name)
  }

  ghost predicate FailsIn(u: Universe, bodies: map<FuncId, seq<Node>>, kind: ServiceKind, ctx: Context, arg: Node,
                          events: seq<Event>, failing: set<FuncId>, name: string)
  {
    var c := Run(u, events);
    && name in c && c[name].Service? && c[name].kind == kind && c[name].ctx == ctx && c[name].arg == arg
    && SweepErrs(u, bodies, c, failing, name)
  }

  /** A stored type whose check has a body that can report an error. */
  ghost predicate FailCapable(u: Universe, bodies: map<FuncId, seq<Node>>, t: Type)
  {
    exists id :: Dispatches(u, t, id) && (id in bodies ==> !CannotFail(bodies[id]))
  }

  /** Some instance behind an expression of static type s has a check that can report an error. */
  ghost predicate SourceCanFail(u: Universe, bodies: map<FuncId, seq<Node>>, s: Type)
  {
    exists t :: MayHold(u, s, Val(t)) && FailCapable(u, bodies, t)
  }

  /** A registration can fail exactly when its kind is dispatched and it can store a type that can. */
  lemma CanFailIff(u: Universe, bodies: map<FuncId, seq<Node>>, kind: ServiceKind, ctx: Context, arg: Node)
    ensures CanFail(u, bodies, kind, ctx, arg) <==>
      (kind.Lazy? || kind.Eager?) && exists t :: MayStore(u, ctx, kind, arg, Val(t)) && FailCapable(u, bodies, t)
  {
    if CanFail(u, bodies, kind, ctx, arg) {
      var events, failing, name :| FailsIn(u, bodies, kind, ctx, arg, events, failing, name);
      RunStoresOwnValues(u, events);
      assert RowWellStored(u, Run(u, events)[name]);
      ErrsAsDelegate(u, bodies, Run(u, events), failing, name, 0, name);
      var t := Run(u, events)[name].stored.value.dyn;
      assert MayStore(u, ctx, kind, arg, Val(t)) && FailCapable(u, bodies, t);
    }
    if (kind.Lazy? || kind.Eager?) && exists t :: MayStore(u, ctx, kind, arg, Val(t)) && FailCapable(u, bodies, t) {
      var t :| MayStore(u, ctx, kind, arg, Val(t)) && FailCapable(u, bodies, t);
      var id :| Dispatches(u, t, id) && (id in bodies ==> !CannotFail(bodies[id]));
      var events := FailingRun(u, kind, ctx, arg, t);
      assert ReportsError(bodies, {id}, id);
      ErrsAsDelegate(u, bodies, Run(u, events), {id}, "service", 0, "service");
      assert FailsIn(u, bodies, kind, ctx, arg, events, {id}, "service");
    }
  }

  lemma CanFailFromSource(u: Universe, bodies: map<FuncId, seq<Node>>, kind: ServiceKind, ctx: Context, arg: Node)
    ensures CanFail(u, bodies, kind, ctx, arg) <==>
      IsSwept(kind) && exists s :: Source(u, ctx, kind, arg, s) && SourceCanFail(u, bodies, s)
  {
    CanFailIff(u, bodies, kind, ctx, arg);
    if exists t :: MayStore(u, ctx, kind, arg, Val(t)) && FailCapable(u, bodies, t) {
      var t :| MayStore(u, ctx, kind, arg, Val(t)) && FailCapable(u, bodies, t);
      var s :| Source(u, ctx, kind, arg, s) && MayHold(u, s, Val(t));
      assert SourceCanFail(u, bodies, s);
    }
    forall s | Source(u, ctx, kind, arg, s) && SourceCanFail(u, bodies, s)
      ensures exists t :: MayStore(u, ctx, kind, arg, Val(t)) && FailCapable(u, bodies, t)
    {
      var t :| MayHold(u, s, Val(t)) && FailCapable(u, bodies, t);
      assert MayStore(u, ctx, kind, arg, Val(t));
    }
  }

  /** Register it and, when lazy, invoke it once. */
  lemma FailingRun(u: Universe, kind: ServiceKind, ctx: Context, arg: Node, t: Type) returns (events: seq<Event>)
    requires (kind.Lazy? || kind.Eager?) && MayStore(u, ctx, kind, arg, Val(t))
    ensures "service" in Run(u, events)
    ensures Run(u, events)["service"] == Service(kind, ctx, arg, Some(Val(t)))
  {
    var register := Register("service", kind, ctx, arg, Val(t));
    events := [register];
    assert events[..0] == [];
    assert Run(u, events) == Step(u, map[], register);
    if kind.Lazy? {
      var invoke := Invoke("service", Val(t));
      assert [register, invoke][..1] == events;
      events := [register, invoke];
    }
  }
}
