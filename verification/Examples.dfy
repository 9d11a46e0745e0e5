/** Concrete programs on which the analyzer says more, or less, than is true, or counts depend on order, and two
    on which a loose source does no harm. The exact conditions are GreenHoldsIff, ForwardedCallHidesCheck,
    ImplementsCheckIff and VerdictRightIff in Soundness, MatchedIffSelector and FixedIsAttributed in Wrappers,
    CompleteIff in Losses, and CheckedIgnoresOrderIff in Coverage. */
module Examples {
  import opened GoTypes
  import opened Syntax
  import opened Resolve
  import opened Rules
  import opened Registry
  import opened Wrappers
  import opened Inlining
  import opened Container
  import opened Soundness
  import opened Driver
  import opened Losses
  import opened Coverage

  /** A member that a type declares itself is selected, and found. */
  lemma OwnMember(u: Universe, root: TypeName, isPtr: bool, addressable: bool, f: string)
    requires WellFormed(u) && root in u && f in u[root].members
    requires u[root].members[f].Method? && !u[root].members[f].ptrRecv
    requires isPtr ==> !u[root].under.InterfaceType?
    ensures SelectsMember(u, root, f, [], u[root].members[f])
    ensures LookupMember(u, root, isPtr, addressable, f) == Some(u[root].members[f])
  {
    assert Walk(u, root, []) == Some(root);
    assert Selects(u, root, f, []);
    LookupIsSelector(u, root, isPtr, addressable, f);
    var r := LookupMember(u, root, isPtr, addressable, f);
    assert SelectsMember(u, root, f, [], u[root].members[f]);
    assert r.Some?;
    var p :| SelectsMember(u, root, f, p, r.value);
    SelectedIsUnique(u, root, f, p, []);
  }

  /** A type without embedded fields has no other members. */
  lemma NoOtherMember(u: Universe, root: TypeName, isPtr: bool, addressable: bool, f: string)
    requires WellFormed(u) && root in u && u[root].embeds == [] && f !in u[root].members
    ensures LookupMember(u, root, isPtr, addressable, f) == None
  {
    if !(isPtr && u[root].under.InterfaceType?) {
      LookupIsSelector(u, root, isPtr, addressable, f);
      forall p ensures !Declares(u, root, p, f) { LeafHasOnlyItself(u, root, p); }
    }
  }

  lemma {:induction false} LeafHasOnlyItself(u: Universe, root: TypeName, p: seq<nat>)
    requires root in u && u[root].embeds == []
    ensures Walk(u, root, p).Some? ==> p == []
  {
    assert Walk(u, root, []) == Some(root);
    if p != [] { LeafHasOnlyItself(u, root, p[..|p| - 1]); }
  }

  // ---------------------------------------------------------------- the lifecycle interfaces

  /** A struct that declares one method, on values. */
  function Declaring(f: string, sig: Sig): Universe
  {
    map["T" := Decl(StructType, map[f := Method(FuncId("app", "T", f), false, sig)], [])]
  }

  lemma OwnMethodOnly(f: string, sig: Sig, asked: Sig)
    ensures var u := Declaring(f, sig);
      Implements(u, Named("T"), f, asked) <==> sig == asked
  {
    OwnMember(Declaring(f, sig), "T", false, false, f);
  }

  /** HealthCheck(context.Context) error is a check, without a remark about its context; HealthCheck() error is
      one with; HealthCheck() is none. */
  lemma ChecksBySignature(ctx: Context, sig: Sig)
    ensures var u, t := Declaring("HealthCheck", sig), Named("T");
      && (ImplementsAnyCheck(u, t) <==> sig == Sig(["context.Context"], ["error"]) || sig == Sig([], ["error"]))
      && (HW2 in KindRules(Eager, FactsOf(u, ctx, Eager, t)) <==> sig == Sig([], ["error"]))
  {
    var u, t := Declaring("HealthCheck", sig), Named("T");
    OwnMethodOnly("HealthCheck", sig, CTX_CHECK);
    OwnMethodOnly("HealthCheck", sig, BARE_CHECK);
    RulesAreWarranted(Eager, FactsOf(u, ctx, Eager, t), HW2);
  }

  /** Shutdown has four signatures: with a context or without, with an error or without. */
  lemma ShutdownsBySignature(sig: Sig)
    ensures var u, t := Declaring("Shutdown", sig), Named("T");
      ImplementsAnyShutdown(u, t) <==> sig.params in [[], ["context.Context"]] && sig.results in [[], ["error"]]
  {
    OwnMethodOnly("Shutdown", sig, Sig([], []));
    OwnMethodOnly("Shutdown", sig, Sig([], ["error"]));
    OwnMethodOnly("Shutdown", sig, Sig(["context.Context"], []));
    OwnMethodOnly("Shutdown", sig, Sig(["context.Context"], ["error"]));
  }

  /** A bare check that a type declares itself, on values, is dispatched, recorded, and the one that is
      judged. */
  lemma OwnCheck(u: Universe, n: TypeName)
    requires WellFormed(u) && n in u && CHECK in u[n].members
    requires u[n].members[CHECK].Method? && !u[n].members[CHECK].ptrRecv && u[n].members[CHECK].sig == BARE_CHECK
    ensures InMethodSet(u, Named(n), CHECK, u[n].members[CHECK])
    ensures Dispatches(u, Named(n), u[n].members[CHECK].id)
    ensures ImplementsAnyCheck(u, Named(n)) && ResolveHealthCheck(u, Named(n)) == Some(u[n].members[CHECK].id)
  {
    OwnMember(u, n, false, false, CHECK);
    OwnMember(u, n, false, true, CHECK);
    assert ValueMethodAt(u, n, CHECK, [], u[n].members[CHECK]);
    assert InMethodSet(u, Named(n), CHECK, u[n].members[CHECK]);
  }

  lemma OwnCheckCanFail(u: Universe, bodies: map<FuncId, seq<Node>>, n: TypeName)
    requires WellFormed(u) && n in u && CHECK in u[n].members
    requires u[n].members[CHECK].Method? && !u[n].members[CHECK].ptrRecv && u[n].members[CHECK].sig == BARE_CHECK
    requires u[n].members[CHECK].id !in bodies
    ensures FailCapable(u, bodies, Named(n))
  {
    OwnCheck(u, n);
  }

  const CHECK_ID := FuncId("app", "Store", "HealthCheck")
  const STORE := Decl(StructType, map["HealthCheck" := Method(CHECK_ID, false, BARE_CHECK)], [])
  const VALUE := Ident("store", OtherObj, Named("Store"))

  ghost predicate HasStore(u: Universe)
  {
    WellFormed(u) && "Store" in u && u["Store"] == STORE
  }

  lemma StoreDispatches(u: Universe)
    requires HasStore(u)
    ensures Dispatches(u, Named("Store"), CHECK_ID) && ImplementsAnyCheck(u, Named("Store"))
    ensures ResolveHealthCheck(u, Named("Store")) == Some(CHECK_ID) && !IsOpen(u, Named("Store"))
  {
    OwnCheck(u, "Store");
  }

  lemma StoreHasNilCheck(u: Universe, ctx: Context, kind: ServiceKind)
    requires HasStore(u) && IsSwept(kind) && CHECK_ID in ctx.methods && IsSoleNilReturn(ctx.methods[CHECK_ID])
    ensures HW7 in KindRules(kind, FactsOf(u, ctx, kind, Named("Store")))
  {
    StoreDispatches(u);
    assert HasSoleNilReturnCheck(u, ctx, Named("Store"));
    RulesAreWarranted(kind, FactsOf(u, ctx, kind, Named("Store")), HW7);
  }

  /** `var nil = errors.New(...)` at package level, and a check whose body reads `return nil`. */
  lemma ShadowedNilFails()
    ensures var u: Universe := map["Store" := STORE];
      var body := [Return([Ident("nil", VarObj(0), Basic("error"))])];
      var bodies := map[CHECK_ID := body];
      var ctx := Context(map[], bodies, {}, {}, false);
      Raises(u, ctx, Eager, VALUE, HW7) && CanFail(u, bodies, Eager, ctx, VALUE)
  {
    var bodies := map[CHECK_ID := [Return([Ident("nil", VarObj(0), Basic("error"))])]];
    ShadowedStoreFails(map["Store" := STORE], bodies, Context(map[], bodies, {}, {}, false));
  }

  lemma ShadowedStoreFails(u: Universe, bodies: map<FuncId, seq<Node>>, ctx: Context)
    requires HasStore(u) && TruthfulContext(ctx, bodies) && CHECK_ID in ctx.methods
    requires IsSoleNilReturn(ctx.methods[CHECK_ID]) && ctx.methods[CHECK_ID][0].results[0].obj != PredeclaredNil
    ensures Raises(u, ctx, Eager, VALUE, HW7) && CanFail(u, bodies, Eager, ctx, VALUE)
  {
    StoreHasNilCheck(u, ctx, Eager);
    StoreDispatches(u);
    HW7HoldsIff(u, bodies, ctx, Eager, VALUE, CHECK_ID);
  }

  const CLOSER := Decl(InterfaceType, map[
    "Shutdown" := Method(FuncId("app", "Closer", "Shutdown"), false, Sig([], []))], [])
  const FULL := Decl(StructType, map[
    "Shutdown" := Method(FuncId("app", "Full", "Shutdown"), false, Sig([], [])),
    "HealthCheck" := Method(FuncId("app", "Full", "HealthCheck"), false, BARE_CHECK)], [])

  ghost predicate HasClosers(u: Universe)
  {
    WellFormed(u) && "Closer" in u && u["Closer"] == CLOSER && "Full" in u && u["Full"] == FULL
  }

  const CLOSER_VALUE := Ident("c", OtherObj, Named("Closer"))

  /** A value of interface type that has Shutdown only, holding a type that also has a real check. */
  lemma InterfaceValueFails()
    ensures var u: Universe := map["Closer" := CLOSER, "Full" := FULL];
      var ctx := Context(map[], map[], {}, {}, false);
      Raises(u, ctx, Eager, CLOSER_VALUE, HW1) && CanFail(u, map[], Eager, ctx, CLOSER_VALUE)
  {
    var u: Universe := map["Closer" := CLOSER, "Full" := FULL];
    CloserFails(u, Context(map[], map[], {}, {}, false));
  }

  lemma CloserFails(u: Universe, ctx: Context)
    requires HasClosers(u) && TruthfulContext(ctx, map[])
    ensures Raises(u, ctx, Eager, CLOSER_VALUE, HW1) && CanFail(u, map[], Eager, ctx, CLOSER_VALUE)
  {
    CloserRaises(u, ctx);
    FullSatisfies(u);
    OwnCheckCanFail(u, map[], "Full");
    FittingTypeFails(u, map[], ctx, CLOSER_VALUE, Named("Full"));
  }

  /** HW-1 on an interface value is wrong as soon as one fitting type has a check that can fail. */
  lemma FittingTypeFails(u: Universe, bodies: map<FuncId, seq<Node>>, ctx: Context, arg: Node, t: Type)
    requires WellFormed(u) && TruthfulContext(ctx, bodies) && Raises(u, ctx, Eager, arg, HW1)
    requires IsOpen(u, TypeOf(arg)) && !IsOpen(u, t) && !t.Tuple?
    requires Satisfies(u, TypeOf(arg), t) && FailCapable(u, bodies, t)
    ensures CanFail(u, bodies, Eager, ctx, arg)
  {
    HW1OnValueHoldsIff(u, bodies, ctx, arg);
  }

  lemma CloserRaises(u: Universe, ctx: Context)
    requires HasClosers(u)
    ensures Raises(u, ctx, Eager, CLOSER_VALUE, HW1)
  {
    CloserFacts(u, ctx);
    RulesAreWarranted(Eager, FactsOf(u, ctx, Eager, Named("Closer")), HW1);
  }

  lemma CloserFacts(u: Universe, ctx: Context)
    requires HasClosers(u)
    ensures var facts := FactsOf(u, ctx, Eager, Named("Closer")); facts.shutdown && !facts.anyCheck && !facts.anyCheckP
  {
    OwnMember(u, "Closer", false, false, SHUTDOWN);
    NoOtherMember(u, "Closer", false, false, CHECK);
  }

  lemma FullSatisfies(u: Universe)
    requires HasClosers(u)
    ensures Satisfies(u, Named("Closer"), Named("Full"))
  {
    var shutdown := FULL.members["Shutdown"];
    OwnMember(u, "Full", false, false, SHUTDOWN);
    assert ValueMethodAt(u, "Full", SHUTDOWN, [], shutdown);
    assert InMethodSet(u, Named("Full"), SHUTDOWN, shutdown);
  }

  const HOLDER := Decl(StructType, map["Store" := Field], [Embed(true, "Store")])

  /** An unnamed struct that embeds a pointer to a checker: the sweep calls the promoted check, the
      record says that there is none. */
  lemma UnnamedStructFails()
    ensures var u: Universe := map["Store" := STORE, "struct" := HOLDER];
      Dispatches(u, StructLit("struct"), CHECK_ID) && !ImplementsAnyCheck(u, StructLit("struct"))
  {
    var u: Universe := map["Store" := STORE, "struct" := HOLDER];
    assert Walk(u, "struct", []) == Some("struct");
    assert [0][..0] == [] && Walk(u, "struct", [0]) == Some("Store");
    forall q: seq<nat> | |q| == 1 && Walk(u, "struct", q).Some? ensures q == [0] { assert q[..0] == []; }
    assert Selects(u, "struct", CHECK, [0]);
    assert ValueMethodAt(u, "struct", CHECK, [0], STORE.members[CHECK]);
    assert InMethodSet(u, StructLit("struct"), CHECK, STORE.members[CHECK]);
  }

  const CHECKER := Decl(InterfaceType, map[
    "HealthCheck" := Method(FuncId("app", "Checker", "HealthCheck"), false, BARE_CHECK)], [])
  const OTHER_ID := FuncId("app", "Other", "HealthCheck")
  const OTHER := Decl(StructType, map["HealthCheck" := Method(OTHER_ID, false, BARE_CHECK)], [])
  const ANY_CHECKER := Ident("c", OtherObj, Named("Checker"))

  ghost predicate HasCheckers(u: Universe)
  {
    HasStore(u) && "Checker" in u && u["Checker"] == CHECKER && "Other" in u && u["Other"] == OTHER
  }

  /** A provider of declared type Checker with two returns. */
  function Provider(a: Node, b: Node): Node
  {
    FuncLit(None, [Return([a]), Return([b])], FuncLitType([Named("Checker"), Basic("error")]))
  }

  lemma TwoReturns(a: Node, b: Node)
    requires ReturnsOf(a) == [] && ReturnsOf(b) == []
    ensures ReturnsIn([Return([a]), Return([b])]) == [[a], [b]]
  {
    ReturnsInOne(a);
    ReturnsInOne(b);
    ReturnsInOne(Return([b]));
    ReturnsInCons(Return([a]), [Return([b])]);
    assert [Return([a])] + [Return([b])] == [Return([a]), Return([b])];
  }

  lemma TwoResults(u: Universe, a: Node, b: Node)
    ensures ConcreteResults(u, [[a], [b]]) ==
      (if !IsOpen(u, TypeOf(a)) then [TypeOf(a)] else []) + if !IsOpen(u, TypeOf(b)) then [TypeOf(b)] else []
  {
    assert [[a], [b]][1..] == [[b]];
    assert ConcreteResults(u, [[b]][1..]) == [];
  }

  lemma ProviderResolves(u: Universe, ctx: Context, kind: ServiceKind, a: Node, b: Node)
    requires HasCheckers(u) && !kind.Eager? && ReturnsOf(a) == [] && ReturnsOf(b) == []
    ensures InstanceOf(u, ctx, kind, Provider(a, b)) == Agreed(ConcreteResults(u, [[a], [b]]))
  {
    TwoReturns(a, b);
    BodyInstance(u, ctx, kind, Provider(a, b), [Return([a]), Return([b])]);
  }

  lemma SecondIsSource(u: Universe, ctx: Context, kind: ServiceKind, a: Node, b: Node)
    requires HasCheckers(u) && !kind.Eager? && ReturnsOf(a) == [] && ReturnsOf(b) == []
    ensures Source(u, ctx, kind, Provider(a, b), ReturnType(Named("Checker"), [b]))
  {
    TwoReturns(a, b);
    ReturnedIsScanned(ctx.funcs, Provider(a, b), [b]);
    assert [b] in [[a], [b]];
    assert ProviderBody(ctx.funcs, Provider(a, b)) == Some([Return([a]), Return([b])]);
    ReadsExecutedBody(ctx.funcs, Provider(a, b));
  }

  lemma OtherFits(u: Universe, bodies: map<FuncId, seq<Node>>)
    requires HasCheckers(u) && OTHER_ID !in bodies
    ensures SourceCanFail(u, bodies, Named("Checker"))
  {
    OwnCheckCanFail(u, bodies, "Other");
    OtherIsHeld(u);
  }

  lemma OtherIsHeld(u: Universe)
    requires HasCheckers(u)
    ensures MayHold(u, Named("Checker"), Val(Named("Other")))
  {
    OtherSatisfies(u);
  }

  lemma OtherSatisfies(u: Universe)
    requires HasCheckers(u)
    ensures Satisfies(u, Named("Checker"), Named("Other"))
  {
    OwnCheck(u, "Other");
    forall f | f in Asked(u, Named("Checker")) ensures f == CHECK {}
    assert HasMethod(u, Named("Other"), CHECK, BARE_CHECK);
  }

  const SOLE_NIL := [Return([Ident("nil", PredeclaredNil, UntypedNil)])]

  /** One return of a Store, whose check is `return nil`, and one of an interface value: resolved to Store and
      reported under HW-7, although the instance can be another type with a real check. */
  lemma MixedReturnsFail(u: Universe)
    requires u == map["Checker" := CHECKER, "Store" := STORE, "Other" := OTHER]
    ensures var bodies := map[CHECK_ID := SOLE_NIL];
      var ctx, arg := Context(map[], bodies, {}, {}, false), Provider(VALUE, ANY_CHECKER);
      TruthfulContext(ctx, bodies) && NilNotShadowed(bodies) &&
      Raises(u, ctx, Lazy, arg, HW7) && CanFail(u, bodies, Lazy, ctx, arg)
  {
    var bodies := map[CHECK_ID := SOLE_NIL];
    var ctx := Context(map[], bodies, {}, {}, false);
    MixedReturnsRaise(u, ctx);
    MixedReturnsCanFail(u, bodies, ctx);
  }

  lemma MixedReturnsRaise(u: Universe, ctx: Context)
    requires HasCheckers(u) && CHECK_ID in ctx.methods && IsSoleNilReturn(ctx.methods[CHECK_ID])
    ensures Raises(u, ctx, Lazy, Provider(VALUE, ANY_CHECKER), HW7)
  {
    ProviderResolves(u, ctx, Lazy, VALUE, ANY_CHECKER);
    TwoResults(u, VALUE, ANY_CHECKER);
    StoreHasNilCheck(u, ctx, Lazy);
  }

  lemma MixedReturnsCanFail(u: Universe, bodies: map<FuncId, seq<Node>>, ctx: Context)
    requires HasCheckers(u) && OTHER_ID !in bodies
    ensures CanFail(u, bodies, Lazy, ctx, Provider(VALUE, ANY_CHECKER))
  {
    SecondIsSource(u, ctx, Lazy, VALUE, ANY_CHECKER);
    OtherFits(u, bodies);
    CanFailFromSource(u, bodies, Lazy, ctx, Provider(VALUE, ANY_CHECKER));
  }

  /** A provider with a return of a Store, and a naked one. */
  const NAKED_BESIDE := FuncLit(Some(9), [Return([VALUE]), Return([])], FuncLitType([Named("Checker"), Basic("error")]))

  lemma NakedBesideReturns(funcs: map<FuncId, Func>)
    ensures ProviderBody(funcs, NAKED_BESIDE) == Some(NAKED_BESIDE.body)
    ensures ReturnsIn(NAKED_BESIDE.body) == [[VALUE], []]
  {
    ReturnsInOne(VALUE);
    ReturnsInOne(Return([]));
    ReturnsInCons(Return([VALUE]), [Return([])]);
    assert [Return([VALUE])] + [Return([])] == NAKED_BESIDE.body;
  }

  /** A naked return yields whatever the named result holds: HW-7 is raised for the Store of the other return, and
      the service can fail. */
  lemma NakedReturnFails(u: Universe, bodies: map<FuncId, seq<Node>>, ctx: Context)
    requires HasCheckers(u) && CHECK_ID in ctx.methods && IsSoleNilReturn(ctx.methods[CHECK_ID]) && OTHER_ID !in bodies
    ensures Raises(u, ctx, Lazy, NAKED_BESIDE, HW7) && CanFail(u, bodies, Lazy, ctx, NAKED_BESIDE)
  {
    NakedBesideRaises(u, ctx);
    NakedBesideCanFail(u, bodies, ctx);
  }

  lemma NakedBesideRaises(u: Universe, ctx: Context)
    requires HasCheckers(u) && CHECK_ID in ctx.methods && IsSoleNilReturn(ctx.methods[CHECK_ID])
    ensures Raises(u, ctx, Lazy, NAKED_BESIDE, HW7)
  {
    NakedBesideReturns(ctx.funcs);
    BodyInstance(u, ctx, Lazy, NAKED_BESIDE, NAKED_BESIDE.body);
    var naked: seq<seq<Node>> := [[]];
    assert ConcreteResults(u, naked) == [] by { assert naked[1..] == []; }
    assert ReturnsIn(NAKED_BESIDE.body)[1..] == naked;
    StoreHasNilCheck(u, ctx, Lazy);
  }

  lemma NakedBesideCanFail(u: Universe, bodies: map<FuncId, seq<Node>>, ctx: Context)
    requires HasCheckers(u) && OTHER_ID !in bodies
    ensures CanFail(u, bodies, Lazy, ctx, NAKED_BESIDE)
  {
    NakedBesideReturns(ctx.funcs);
    ReturnedIsScanned(ctx.funcs, NAKED_BESIDE, []);
    assert [] in [[VALUE], []];
    ReadsExecutedBody(ctx.funcs, NAKED_BESIDE);
    assert Source(u, ctx, Lazy, NAKED_BESIDE, Named("Checker"));
    OtherFits(u, bodies);
    CanFailFromSource(u, bodies, Lazy, ctx, NAKED_BESIDE);
  }

  const NIL := Ident("nil", PredeclaredNil, UntypedNil)
  const NEW_STORE := Call(Site(1, 1, "app.go", 1, 1), Ident("newStore", OtherObj, NoType), [],
                          Tuple([Named("Store"), Basic("error")]))

  /** `return nil, err` beside `return newStore()`: resolved to the result list, recorded without a check and
      without a report, although the stored Store has one that can fail. */
  lemma ForwardedFails(u: Universe, ctx: Context, site: Site)
    requires u == map["Checker" := CHECKER, "Store" := STORE, "Other" := OTHER]
    ensures var (rec, reports) := EvalProvider(u, ctx, Lazy, site, Provider(NIL, NEW_STORE));
      !rec.unresolved && !rec.implementsCheck && reports == []
    ensures CanFail(u, map[], Lazy, ctx, Provider(NIL, NEW_STORE))
  {
    ForwardsStore(u, ctx);
    ForwardedCallHidesCheck(u, map[], ctx, Lazy, site, Provider(NIL, NEW_STORE), [Named("Store"), Basic("error")]);
    StoreCanFail(u);
  }

  lemma ForwardsStore(u: Universe, ctx: Context)
    requires HasCheckers(u)
    ensures InstanceOf(u, ctx, Lazy, Provider(NIL, NEW_STORE)) == Tuple([Named("Store"), Basic("error")])
  {
    assert ReturnsOf(NEW_STORE) == [];
    ProviderResolves(u, ctx, Lazy, NIL, NEW_STORE);
    TwoResults(u, NIL, NEW_STORE);
  }

  lemma StoreCanFail(u: Universe)
    requires HasStore(u)
    ensures SourceCanFail(u, map[], Named("Store"))
  {
    OwnCheckCanFail(u, map[], "Store");
    ConcreteSourceFails(u, map[], Named("Store"));
  }

  /** A call inside function literals, however deep, in any statement, is found like one outside. */
  lemma LiteralsAreWalked(u: Universe, ctx: Context, c: Node, result: Option<nat>, s: Type, t: Type)
    ensures AnalyzeDecls(u, ctx, [Gen([Other([FuncLit(result, [Return([c])], s)], t)])]) ==
            AnalyzeDecls(u, ctx, [Gen([c])])
  {
    var ret := Return([c]);
    var literal := FuncLit(result, [ret], s);
    var nested := Other([literal], t);
    NoWrappers([c]);
    NoWrappers([nested]);
    VisitOne(u, ctx, WrapperEnv(map[], {}), c);
    VisitOne(u, ctx, WrapperEnv(map[], {}), ret);
    VisitOne(u, ctx, WrapperEnv(map[], {}), literal);
    VisitOne(u, ctx, WrapperEnv(map[], {}), nested);
  }

  lemma NoWrappers(nodes: seq<Node>)
    ensures EnvOf([Gen(nodes)]) == WrapperEnv(map[], {}) && NodesOf([Gen(nodes)]) == nodes
  {
    assert [Gen(nodes)][..0] == [] && [Gen(nodes)][1..] == [];
    assert EnvOf([Gen(nodes)]) == EnvWith(EnvOf([]), Gen(nodes));
    assert nodes + [] == nodes;
  }

  const INJECTOR := Ident("i", OtherObj, NoType)

  function ValueCall(callee: Node): Node
  {
    Call(Site(2, 2, "app.go", 2, 2), callee, [INJECTOR, VALUE], NoType)
  }

  const PROVIDE_VALUE := FuncObj(FuncId("github.com/samber/do/v2", "", "ProvideValue"))

  lemma ProvidesValue(callee: Node)
    requires callee.Ident? || callee.Selector?
    requires callee.obj == PROVIDE_VALUE
    ensures Registers(ValueCall(callee), Eager, VALUE)
  {
    assert RegKindOf("ProvideValue") == Some(Eager) && ProviderArgIndex("ProvideValue") == Some(1);
    CallsTabulated(callee);
    assert CalleeObject(callee) == Some(FuncId(DO_PATH, "", "ProvideValue"));
    RegistersTabulated(ValueCall(callee), Eager, VALUE);
  }

  /** A registration through a dot import is performed, and leaves no record. */
  lemma DotImportIsLost(u: Universe, ctx: Context)
    ensures var c := ValueCall(Ident("ProvideValue", PROVIDE_VALUE, NoType));
      var decls := [Gen([c])];
      Performs(decls, c, Eager, VALUE) && AnalyzeDecls(u, ctx, decls) == []
  {
    var callee := Ident("ProvideValue", PROVIDE_VALUE, NoType);
    ProvidesValue(callee);
    var c := ValueCall(callee);
    var decls := [Gen([c])];
    assert decls[..0] == [] && decls[1..] == [];
    assert EnvOf(decls) == EnvWith(EnvOf([]), Gen([c]));
    assert NodesOf(decls) == [c] + [];
    OnlyCall(u, ctx, c);
  }

  lemma OnlyCall(u: Universe, ctx: Context, c: Node)
    requires c.Call? && c.fun.Ident? && DoRegistrationCall(c.fun).None? && c.args == [INJECTOR, VALUE]
    ensures VisitAll(u, ctx, WrapperEnv(map[], {}), [c]) == []
  {
    VisitOne(u, ctx, WrapperEnv(map[], {}), c);
    VisitOne(u, ctx, WrapperEnv(map[], {}), VALUE);
    VisitCons(u, ctx, WrapperEnv(map[], {}), INJECTOR, [VALUE]);
    assert [INJECTOR] + [VALUE] == [INJECTOR, VALUE];
  }

  // ---------------------------------------------------------------- loose sources that fit no failing type

  const KEEPER_ID := FuncId("app", "Keeper", "HealthCheck")
  const CLOSE := Sig([], [])
  const KEEPER := Decl(StructType, map["HealthCheck" := Method(KEEPER_ID, false, BARE_CHECK),
                                       "Close" := Method(FuncId("app", "Keeper", "Close"), false, CLOSE)], [])
  const CLOSABLE := InterfaceLit(map["HealthCheck" := BARE_CHECK, "Close" := CLOSE])
  const KEPT := Ident("k", OtherObj, Named("Keeper"))
  const ANY_CLOSABLE := Ident("c", OtherObj, CLOSABLE)

  ghost predicate HasKeeper(u: Universe)
  {
    WellFormed(u) && u.Keys == {"Keeper", "Other"} && u["Keeper"] == KEEPER && u["Other"] == OTHER
  }

  /** A provider of declared type interface{ HealthCheck() error; Close() } with two returns. */
  const CLOSING := FuncLit(None, [Return([KEPT]), Return([ANY_CLOSABLE])], FuncLitType([CLOSABLE, Basic("error")]))

  function RootOf(t: Type): TypeName
  {
    match t
    case Named(n) => n
    case StructLit(n) => n
    case Pointer(Named(n)) => n
    case Pointer(StructLit(n)) => n
    case _ => ""
  }

  /** Without embedded fields, a type has the methods that it declares. */
  lemma MethodOfFlat(u: Universe, t: Type, f: string, m: Member)
    requires (forall n | n in u :: u[n].embeds == []) && InMethodSet(u, t, f, m)
    ensures RootOf(t) in u && f in u[RootOf(t)].members && m == u[RootOf(t)].members[f]
  {
    var p :| Selects(u, RootOf(t), f, p) && MethodAt(u, RootOf(t), f, p, m);
    WalkStartsInside(u, RootOf(t), p);
    LeafHasOnlyItself(u, RootOf(t), p);
  }

  lemma {:induction false} WalkStartsInside(u: Universe, root: TypeName, p: seq<nat>)
    requires Walk(u, root, p).Some?
    ensures root in u
  {
    if p != [] { WalkStartsInside(u, root, p[..|p| - 1]); }
  }

  /** Whatever has both methods is a Keeper or a pointer to one. */
  lemma ClosableIsKeeper(u: Universe, t: Type, id: FuncId)
    requires HasKeeper(u) && HasMethod(u, t, "Close", CLOSE) && Dispatches(u, t, id)
    ensures id == KEEPER_ID
  {
    FlatHas(u, t, "Close", CLOSE);
    FlatDispatches(u, t, id);
    OnlyKeeperCloses(u, RootOf(t));
  }

  lemma FlatHas(u: Universe, t: Type, f: string, sig: Sig)
    requires (forall n | n in u :: u[n].embeds == []) && HasMethod(u, t, f, sig)
    ensures RootOf(t) in u && f in u[RootOf(t)].members
  {
    var m :| InMethodSet(u, t, f, m);
    MethodOfFlat(u, t, f, m);
  }

  lemma FlatDispatches(u: Universe, t: Type, id: FuncId)
    requires (forall n | n in u :: u[n].embeds == []) && Dispatches(u, t, id)
    ensures RootOf(t) in u && CHECK in u[RootOf(t)].members
    ensures u[RootOf(t)].members[CHECK].Method? && u[RootOf(t)].members[CHECK].id == id
  {
    var m :| InMethodSet(u, t, CHECK, m) && m.Method? && m.id == id;
    MethodOfFlat(u, t, CHECK, m);
  }

  lemma OnlyKeeperCloses(u: Universe, n: TypeName)
    requires HasKeeper(u) && n in u && "Close" in u[n].members
    ensures n == "Keeper" && CHECK in KEEPER.members && KEEPER.members[CHECK].id == KEEPER_ID
  {
    assert n in {"Keeper", "Other"} && "Close" !in OTHER.members;
  }

  lemma ClosableCannotFail(u: Universe, bodies: map<FuncId, seq<Node>>)
    requires HasKeeper(u) && KEEPER_ID in bodies && bodies[KEEPER_ID] == SOLE_NIL
    ensures !SourceCanFail(u, bodies, CLOSABLE)
  {
    forall t | MayHold(u, CLOSABLE, Val(t)) ensures !FailCapable(u, bodies, t) {
      assert "Close" in Asked(u, CLOSABLE) && HasMethod(u, t, "Close", CLOSE);
      forall id | Dispatches(u, t, id) ensures id == KEEPER_ID { ClosableIsKeeper(u, t, id); }
    }
  }

  /** HW-7 is raised on a provider with a return behind an unnamed interface, and is right: the one type that
      has both methods is the resolved one, although the program has another check that can fail. */
  lemma LooseSourceHolds(u: Universe)
    requires u == map["Keeper" := KEEPER, "Other" := OTHER]
    ensures var bodies := map[KEEPER_ID := SOLE_NIL];
      var ctx := Context(map[], bodies, {}, {}, false);
      && Source(u, ctx, Lazy, CLOSING, CLOSABLE) && FailCapable(u, bodies, Named("Other"))
      && Raises(u, ctx, Lazy, CLOSING, HW7) && !CanFail(u, bodies, Lazy, ctx, CLOSING)
  {
    var bodies := map[KEEPER_ID := SOLE_NIL];
    var ctx := Context(map[], bodies, {}, {}, false);
    assert HasKeeper(u);
    OwnCheckCanFail(u, bodies, "Other");
    ClosingRaises(u, ctx);
    ClosingCannotFail(u, bodies, ctx);
  }

  lemma ClosingResolves(u: Universe, ctx: Context)
    requires HasKeeper(u)
    ensures ProviderBody(ctx.funcs, CLOSING) == Some(CLOSING.body)
    ensures ReturnsIn(CLOSING.body) == [[KEPT], [ANY_CLOSABLE]]
    ensures InstanceOf(u, ctx, Lazy, CLOSING) == Named("Keeper")
  {
    TwoReturns(KEPT, ANY_CLOSABLE);
    BodyInstance(u, ctx, Lazy, CLOSING, CLOSING.body);
    TwoResults(u, KEPT, ANY_CLOSABLE);
  }

  lemma ClosingRaises(u: Universe, ctx: Context)
    requires HasKeeper(u) && KEEPER_ID in ctx.methods && IsSoleNilReturn(ctx.methods[KEEPER_ID])
    ensures Raises(u, ctx, Lazy, CLOSING, HW7)
  {
    ClosingResolves(u, ctx);
    KeeperHasNilCheck(u, ctx);
  }

  lemma KeeperHasNilCheck(u: Universe, ctx: Context)
    requires HasKeeper(u) && KEEPER_ID in ctx.methods && IsSoleNilReturn(ctx.methods[KEEPER_ID])
    ensures HW7 in KindRules(Lazy, FactsOf(u, ctx, Lazy, Named("Keeper")))
  {
    KeeperDispatches(u);
    assert HasSoleNilReturnCheck(u, ctx, Named("Keeper"));
    RulesAreWarranted(Lazy, FactsOf(u, ctx, Lazy, Named("Keeper")), HW7);
  }

  lemma ClosingSources(u: Universe, ctx: Context, s: Type)
    requires HasKeeper(u)
    ensures Source(u, ctx, Lazy, CLOSING, s) <==> s == Named("Keeper") || s == CLOSABLE
  {
    ClosingResolves(u, ctx);
    ReadsExecutedBody(ctx.funcs, CLOSING);
    forall results ensures Returned(ctx.funcs, CLOSING, results) <==> results == [KEPT] || results == [ANY_CLOSABLE] {
      ReturnedIsScanned(ctx.funcs, CLOSING, results);
    }
    assert ReturnType(CLOSABLE, [KEPT]) == Named("Keeper") && ReturnType(CLOSABLE, [ANY_CLOSABLE]) == CLOSABLE;
  }

  lemma KeeperCannotFail(u: Universe, bodies: map<FuncId, seq<Node>>)
    requires HasKeeper(u) && KEEPER_ID in bodies && bodies[KEEPER_ID] == SOLE_NIL
    ensures !FailCapable(u, bodies, Named("Keeper")) && !SourceCanFail(u, bodies, Named("Keeper"))
  {
    KeeperDispatches(u);
    OneBodyDecides(u, bodies, Named("Keeper"), KEEPER_ID);
    ConcreteSourceFails(u, bodies, Named("Keeper"));
  }

  lemma KeeperDispatches(u: Universe)
    requires HasKeeper(u)
    ensures Dispatches(u, Named("Keeper"), KEEPER_ID) && !IsOpen(u, Named("Keeper"))
    ensures ImplementsAnyCheck(u, Named("Keeper")) && ResolveHealthCheck(u, Named("Keeper")) == Some(KEEPER_ID)
  {
    OwnCheck(u, "Keeper");
  }

  lemma ClosingCannotFail(u: Universe, bodies: map<FuncId, seq<Node>>, ctx: Context)
    requires HasKeeper(u) && KEEPER_ID in bodies && bodies[KEEPER_ID] == SOLE_NIL
    ensures Source(u, ctx, Lazy, CLOSING, CLOSABLE) && !CanFail(u, bodies, Lazy, ctx, CLOSING)
  {
    forall s ensures Source(u, ctx, Lazy, CLOSING, s) <==> s == Named("Keeper") || s == CLOSABLE {
      ClosingSources(u, ctx, s);
    }
    KeeperCannotFail(u, bodies);
    ClosableCannotFail(u, bodies);
    CanFailFromSource(u, bodies, Lazy, ctx, CLOSING);
  }

  /** A type parameter whose constraint lists one type. */
  const LISTED := TypeParam("T", Constraint(map[], Some([Named("Keeper")])))
  const LISTING := Ident("p", VarObj(1), FuncLitType([LISTED, Basic("error")]))

  /** A provider variable whose instance is of a listed type stores no other. */
  lemma ListedSourceHolds(u: Universe, bodies: map<FuncId, seq<Node>>, ctx: Context)
    requires HasKeeper(u) && KEEPER_ID in bodies && bodies[KEEPER_ID] == SOLE_NIL && OTHER_ID !in bodies
    ensures FailCapable(u, bodies, Named("Other")) && !CanFail(u, bodies, Lazy, ctx, LISTING)
  {
    OwnCheckCanFail(u, bodies, "Other");
    ListedCannotFail(u, bodies, ctx);
  }

  lemma ListedCannotFail(u: Universe, bodies: map<FuncId, seq<Node>>, ctx: Context)
    requires HasKeeper(u) && KEEPER_ID in bodies && bodies[KEEPER_ID] == SOLE_NIL
    ensures !CanFail(u, bodies, Lazy, ctx, LISTING)
  {
    KeeperCannotFail(u, bodies);
    VariableCanFailIff(u, bodies, ctx, Lazy, LISTING);
    forall t | MayHold(u, LISTED, Val(t)) ensures t == Named("Keeper") { OnlyListedIsHeld(u, t); }
  }

  lemma OnlyListedIsHeld(u: Universe, t: Type)
    requires MayHold(u, LISTED, Val(t))
    ensures t == Named("Keeper")
  {}

  // ---------------------------------------------------------------- a result that is replaced

  /** A provider with a named result, one return of a Store, and a deferred literal that assigns the result. */
  const REPLACING := FuncLit(
    Some(9), [Other([FuncLit(None, [Store([9], false, [], NoType)], NoType)], NoType), Return([VALUE])],
    FuncLitType([Named("Checker"), Basic("error")]))

  lemma ReplacingReturns(funcs: map<FuncId, Func>)
    ensures ProviderBody(funcs, REPLACING) == Some(REPLACING.body) && ReturnsIn(REPLACING.body) == [[VALUE]]
    ensures Replaced(funcs, REPLACING)
  {
    var deferred := Other([FuncLit(None, [Store([9], false, [], NoType)], NoType)], NoType);
    ReturnsInOne(FuncLit(None, [Store([9], false, [], NoType)], NoType));
    ReturnsInOne(VALUE);
    ReturnsInOne(Return([VALUE]));
    ReturnsInCons(deferred, [Return([VALUE])]);
    assert [deferred] + [Return([VALUE])] == REPLACING.body;
    assert StoresLate(deferred, 9) && StoresLateIn(REPLACING.body, 9);
    assert Executes(funcs, REPLACING, Func(Some(9), REPLACING.body));
  }

  /** All returns are of one concrete type, and another type with a check that fails is stored: HW-7 is raised,
      the nil is nil, and the service can fail. */
  lemma ReplacedResultFails(u: Universe)
    requires u == map["Checker" := CHECKER, "Store" := STORE, "Other" := OTHER]
    ensures var bodies := map[CHECK_ID := SOLE_NIL];
      var ctx := Context(map[], bodies, {}, {}, false);
      (forall r | r in ReturnsIn(REPLACING.body) :: r == [VALUE]) && NilNotShadowed(bodies) &&
      Raises(u, ctx, Lazy, REPLACING, HW7) && CanFail(u, bodies, Lazy, ctx, REPLACING)
  {
    var bodies := map[CHECK_ID := SOLE_NIL];
    var ctx := Context(map[], bodies, {}, {}, false);
    ReplacingReturns(ctx.funcs);
    ReplacedRaises(u, ctx);
    ReplacedCanFail(u, bodies, ctx);
  }

  lemma ReplacedRaises(u: Universe, ctx: Context)
    requires HasCheckers(u) && CHECK_ID in ctx.methods && IsSoleNilReturn(ctx.methods[CHECK_ID])
    ensures Raises(u, ctx, Lazy, REPLACING, HW7)
  {
    ReplacingReturns(ctx.funcs);
    BodyInstance(u, ctx, Lazy, REPLACING, REPLACING.body);
    assert ConcreteResults(u, [[VALUE]]) == [Named("Store")] by { assert ConcreteResults(u, [[VALUE]][1..]) == []; }
    StoreHasNilCheck(u, ctx, Lazy);
  }

  lemma ReplacedCanFail(u: Universe, bodies: map<FuncId, seq<Node>>, ctx: Context)
    requires HasCheckers(u) && OTHER_ID !in bodies
    ensures CanFail(u, bodies, Lazy, ctx, REPLACING)
  {
    ReplacingReturns(ctx.funcs);
    OtherFits(u, bodies);
    assert Source(u, ctx, Lazy, REPLACING, Named("Checker"));
    CanFailFromSource(u, bodies, Lazy, ctx, REPLACING);
  }

  // ---------------------------------------------------------------- parameters that do not hold their argument

  const REG := FuncId("app", "", "Reg")

  /** func Reg(i, p) { before; inner } */
  function RegDecl(variadic: bool, before: Node, inner: Node): FuncDecl
  {
    FuncDecl(REG, [0, 1], variadic, None, Some([before, inner]))
  }

  /** do.fn(i, p), where p is the parameter 1. */
  function InnerOfReg(fn: string, t: Type): Node
  {
    Call(Site(20, 20, "app.go", 20, 20),
         Selector(Ident("do", OtherObj, NoType), fn, FuncObj(FuncId(DO_PATH, "", fn)), NoType),
         [Ident("i", VarObj(0), NoType), Ident("p", VarObj(1), t)], NoType)
  }

  function RegCall(arg: Node): Node
  {
    Call(Site(30, 30, "app.go", 30, 30), Ident("Reg", FuncObj(REG), NoType), [INJECTOR, arg], NoType)
  }

  lemma CallsInOne(n: Node)
    ensures CallsIn([n]) == CallsOf(n)
  {
    assert [n][1..] == [];
  }

  lemma CallsInPair(a: Node, b: Node)
    ensures CallsIn([a, b]) == CallsOf(a) + CallsOf(b)
  {
    assert [a, b][1..] == [b] && [b][1..] == [];
    assert CallsIn([b]) == CallsOf(b) + CallsIn([]);
  }

  lemma PlainCall(c: Node, a: Node, b: Node)
    requires c.Call? && c.args == [a, b] && CallsOf(c.fun) == [] && a.Ident? && b.Ident?
    ensures CallsOf(c) == [c]
  {
    CallsInPair(a, b);
  }

  lemma RegWraps(d: FuncDecl, before: Node, inner: Node)
    requires d.params == [0, 1] && d.body == Some([before, inner]) && CallsOf(before) == [] && CallsOf(inner) == [inner]
    requires Known(inner) && Feeds(inner, 1)
    ensures Wraps(d, inner, 1)
  {
    CallsInPair(before, inner);
    assert [inner][0] == inner;
    assert SoleAt(CallsIn(d.body.value), inner, 0);
    assert d.params[..1] == [0];
  }

  lemma InnerIsKnown(fn: string, t: Type)
    requires RegKindOf(fn).Some? && ProviderArgIndex(fn) == Some(1)
    ensures var inner := InnerOfReg(fn, t);
      && Known(inner) && Feeds(inner, 1) && CallsOf(inner) == [inner]
      && DoRegistrationCall(inner.fun) == Some((fn, RegKindOf(fn).value))
  {
    var inner := InnerOfReg(fn, t);
    PlainCall(inner, inner.args[0], inner.args[1]);
    CallsTabulated(inner.fun);
    MatchedIffSelector(inner.fun);
    var api :| CallsApi(inner.fun, api);
    assert FeedsSlot(api, inner.args, 1);
  }

  lemma OnlyWrapper(d: FuncDecl, inner: Node, k: nat)
    requires d.fn.pkg != DO_PATH && Wraps(d, inner, k) && inner.Call?
    ensures OwnWrappers([Fun(d)]) && LibraryIsForeign([Fun(d)]) && DefinedBy([Fun(d)], Fun(d), d.fn)
    ensures EnvOf([Fun(d)]).skips == {inner.site.id}
  {
    var info := InfoOf(d, inner, k);
    assert [Fun(d)][..0] == [];
  }

  /** What a call of Reg is taken for, and what it performs when the parameter does not hold its argument. */
  lemma RegIsAttributed(u: Universe, ctx: Context, variadic: bool, before: Node, fn: string, t: Type, kind: ServiceKind,
                        arg: Node)
    requires CallsOf(before) == [] && RegKindOf(fn) == Some(kind) && ProviderArgIndex(fn) == Some(1)
    requires variadic || Stores(before, 1)
    ensures var decls := [Fun(RegDecl(variadic, before, InnerOfReg(fn, t)))];
      && InspectCall(u, ctx, EnvOf(decls), RegCall(arg)) == [EvalProvider(u, ctx, kind, RegCall(arg).site, arg)]
      && Performs(decls, RegCall(arg), kind, Ident("p", VarObj(1), t))
  {
    var inner := InnerOfReg(fn, t);
    var d := RegDecl(variadic, before, inner);
    InnerIsKnown(fn, t);
    RegWraps(d, before, inner);
    RegProvides(variadic, before, fn, t, arg);
    assert REG.pkg != DO_PATH;
    WrapperPerforms(d, inner, 1, RegCall(arg), kind, inner.args[1]);
    OnlyAttributionIsFound(u, ctx, d, inner, 1, RegCall(arg), kind, arg);
  }

  lemma RegProvides(variadic: bool, before: Node, fn: string, t: Type, arg: Node)
    requires RegKindOf(fn).Some? && ProviderArgIndex(fn) == Some(1) && (variadic || Stores(before, 1))
    ensures var inner := InnerOfReg(fn, t);
      Provided(RegDecl(variadic, before, inner), inner, 1, RegCall(arg).args, inner.args[1])
  {}

  lemma WrapperPerforms(d: FuncDecl, inner: Node, k: nat, c: Node, kind: ServiceKind, p: Node)
    requires Wraps(d, inner, k) && inner.Call? && DoRegistrationCall(inner.fun).Some?
    requires DoRegistrationCall(inner.fun).value.1 == kind
    requires c.Call? && CalleeObject(c.fun) == Some(d.fn) && k < |c.args| && Provided(d, inner, k, c.args, p)
    ensures Attributes([Fun(d)], c, kind, c.args[k]) && Performs([Fun(d)], c, kind, p)
  {
    assert RunsWrapper([Fun(d)], c, Fun(d), inner, k);
    assert AttributesBy([Fun(d)], c, Fun(d), inner, k, kind, c.args[k]);
    InstantiatedRegisters(d, inner, k, c.args, c.site, kind, p);
    assert PerformsBy([Fun(d)], c, Fun(d), inner, k, kind, p);
  }

  lemma OnlyAttributionIsFound(u: Universe, ctx: Context, d: FuncDecl, inner: Node, k: nat, c: Node,
                               kind: ServiceKind, arg: Node)
    requires d.fn.pkg != DO_PATH && Wraps(d, inner, k) && inner.Call?
    requires c.Call? && CalleeFunc(c.fun) == Some(d.fn) && inner.site.id != c.site.id
    requires Attributes([Fun(d)], c, kind, arg)
    ensures InspectCall(u, ctx, EnvOf([Fun(d)]), c) == [EvalProvider(u, ctx, kind, c.site, arg)]
  {
    OnlyWrapper(d, inner, k);
    CalleeFuncIff(c.fun);
    CallsTabulated(c.fun);
    AttributionIsFound(u, ctx, [Fun(d)], [Fun(d)], c, kind, arg);
  }

  const ASSIGNED := Store([1], false, [Ident("other", OtherObj, CHECKER_FUNC)], NoType)
  const CHECKER_FUNC := FuncLitType([Named("Checker"), Basic("error")])

  /** func Reg(i, p) { p = other; do.Provide(i, p) }: a call with a literal that returns a Store is
      reported under HW-7, and the container runs another provider, whose service can fail. */
  lemma AssignedParameterFails(u: Universe)
    requires u == map["Checker" := CHECKER, "Store" := STORE, "Other" := OTHER]
    ensures var bodies := map[CHECK_ID := SOLE_NIL];
      var ctx := Context(map[], bodies, {}, {}, false);
      var decls := [Fun(RegDecl(false, ASSIGNED, InnerOfReg("Provide", CHECKER_FUNC)))];
      var c, p := RegCall(Provider(VALUE, NIL)), Ident("p", VarObj(1), CHECKER_FUNC);
      && InspectCall(u, ctx, EnvOf(decls), c) == [EvalProvider(u, ctx, Lazy, c.site, Provider(VALUE, NIL))]
      && Raises(u, ctx, Lazy, Provider(VALUE, NIL), HW7)
      && Performs(decls, c, Lazy, p) && CanFail(u, bodies, Lazy, ctx, p)
  {
    var bodies := map[CHECK_ID := SOLE_NIL];
    AssignedFails(u, bodies, Context(map[], bodies, {}, {}, false));
  }

  lemma AssignedFails(u: Universe, bodies: map<FuncId, seq<Node>>, ctx: Context)
    requires HasCheckers(u) && CHECK_ID in ctx.methods && IsSoleNilReturn(ctx.methods[CHECK_ID]) && OTHER_ID !in bodies
    ensures var decls := [Fun(RegDecl(false, ASSIGNED, InnerOfReg("Provide", CHECKER_FUNC)))];
      var c, p := RegCall(Provider(VALUE, NIL)), Ident("p", VarObj(1), CHECKER_FUNC);
      && InspectCall(u, ctx, EnvOf(decls), c) == [EvalProvider(u, ctx, Lazy, c.site, Provider(VALUE, NIL))]
      && Raises(u, ctx, Lazy, Provider(VALUE, NIL), HW7)
      && Performs(decls, c, Lazy, p) && CanFail(u, bodies, Lazy, ctx, p)
  {
    AssignedIsAttributed(u, ctx, Provider(VALUE, NIL));
    StoreReturned(u, ctx);
    ParameterCanFail(u, bodies, ctx);
  }

  lemma AssignedIsAttributed(u: Universe, ctx: Context, arg: Node)
    ensures var decls := [Fun(RegDecl(false, ASSIGNED, InnerOfReg("Provide", CHECKER_FUNC)))];
      && InspectCall(u, ctx, EnvOf(decls), RegCall(arg)) == [EvalProvider(u, ctx, Lazy, RegCall(arg).site, arg)]
      && Performs(decls, RegCall(arg), Lazy, Ident("p", VarObj(1), CHECKER_FUNC))
  {
    assert RegKindOf("Provide") == Some(Lazy) && ProviderArgIndex("Provide") == Some(1);
    CallsInOne(ASSIGNED.operands[0]);
    RegIsAttributed(u, ctx, false, ASSIGNED, "Provide", CHECKER_FUNC, Lazy, arg);
  }

  lemma StoreReturned(u: Universe, ctx: Context)
    requires HasCheckers(u) && CHECK_ID in ctx.methods && IsSoleNilReturn(ctx.methods[CHECK_ID])
    ensures Raises(u, ctx, Lazy, Provider(VALUE, NIL), HW7)
  {
    ProviderResolves(u, ctx, Lazy, VALUE, NIL);
    TwoResults(u, VALUE, NIL);
    StoreHasNilCheck(u, ctx, Lazy);
  }

  lemma ParameterCanFail(u: Universe, bodies: map<FuncId, seq<Node>>, ctx: Context)
    requires HasCheckers(u) && OTHER_ID !in bodies
    ensures CanFail(u, bodies, Lazy, ctx, Ident("p", VarObj(1), CHECKER_FUNC))
  {
    OtherFits(u, bodies);
    VariableCanFailIff(u, bodies, ctx, Lazy, Ident("p", VarObj(1), CHECKER_FUNC));
  }

  const UNSTORED := Other([], NoType)
  const SLICE := Basic("[]app.Checker")

  /** func Reg(i, vs ...Checker) { do.ProvideValue(i, vs) }: the record of a call speaks of the first value, which
      has a check that can fail; a slice is registered, which has none. */
  lemma VariadicParameterHides(u: Universe, ctx: Context)
    requires HasStore(u) && CHECK_ID !in ctx.methods && CHECK_ID !in ctx.nilFacts && CHECK_ID !in ctx.nakedFacts
    ensures var decls := [Fun(RegDecl(true, UNSTORED, InnerOfReg("ProvideValue", SLICE)))];
      var c, vs := RegCall(VALUE), Ident("p", VarObj(1), SLICE);
      && InspectCall(u, ctx, EnvOf(decls), c) == [EvalProvider(u, ctx, Eager, c.site, VALUE)]
      && (var (rec, reports) := EvalProvider(u, ctx, Eager, c.site, VALUE); SaysCanFail(rec, reports, c.site))
      && Performs(decls, c, Eager, vs) && !CanFail(u, map[], Eager, ctx, vs)
  {
    SliceIsHidden(u, ctx);
    UnseenStoreIsCounted(u, ctx, RegCall(VALUE).site);
    SliceCannotFail(u, ctx);
  }

  lemma SliceIsHidden(u: Universe, ctx: Context)
    ensures var decls := [Fun(RegDecl(true, UNSTORED, InnerOfReg("ProvideValue", SLICE)))];
      && InspectCall(u, ctx, EnvOf(decls), RegCall(VALUE)) == [EvalProvider(u, ctx, Eager, RegCall(VALUE).site, VALUE)]
      && Performs(decls, RegCall(VALUE), Eager, Ident("p", VarObj(1), SLICE))
  {
    assert RegKindOf("ProvideValue") == Some(Eager) && ProviderArgIndex("ProvideValue") == Some(1);
    RegIsAttributed(u, ctx, true, UNSTORED, "ProvideValue", SLICE, Eager, VALUE);
  }

  lemma SliceCannotFail(u: Universe, ctx: Context)
    ensures !CanFail(u, map[], Eager, ctx, Ident("p", VarObj(1), SLICE))
  {
    VariableCanFailIff(u, map[], ctx, Eager, Ident("p", VarObj(1), SLICE));
    ConcreteSourceFails(u, map[], SLICE);
  }

  // ---------------------------------------------------------------- registrations further down

  /** One hop: a parameter that is passed to a call is handed down along the path from there. */
  lemma HandsTo(all: seq<TopDecl>, fn: FuncId, path: seq<nat>, c: Node, s: nat, k: nat)
    requires path != [] && path[0] < |Made(all, fn)| && c == Made(all, fn)[path[0]] && Callee(c).Some?
    requires Slot(all, Callee(c).value, path[1..]) == Some(s) && s < |c.args|
    requires ParamIn(ParamsOf(all, fn), c.args[s]) == Some(k)
    ensures Slot(all, fn, path) == Some(k)
  {}

  lemma CallIsInPackage(pkg: Package, c: Node)
    requires c.Call? && Gen([c]) in pkg.decls
    ensures c in CallsOfPackage(pkg)
  {
    CallsInOne(c);
    BodyIsOfPackage(pkg.decls, Gen([c]), c);
  }

  lemma TwoAreNamed(all: seq<TopDecl>, d: FuncDecl, e: FuncDecl, c: Node)
    requires all == [Fun(d), Fun(e), Gen([c])] && d.fn != e.fn && d.fn.pkg != DO_PATH && e.fn.pkg != DO_PATH
    ensures WellNamed(all)
  {
    forall fn, f, g | DefinedBy(all, f, fn) && g in all && g.Fun? && g.decl.fn == fn ensures g == f {
      assert f in [Fun(d), Fun(e), Gen([c])] && g in [Fun(d), Fun(e), Gen([c])];
    }
  }

  const OUTER := FuncId("app", "", "Outer")

  /** Reg(i, p), where p is the parameter 3 of Outer. */
  const CALL_OF_REG := Call(Site(40, 40, "app.go", 40, 40), Ident("Reg", FuncObj(REG), NoType),
                            [Ident("i", VarObj(2), NoType), Ident("p", VarObj(3), CHECKER_FUNC)], NoType)
  /** func Outer(i, p) { Reg(i, p) } */
  const OUTER_DECL := FuncDecl(OUTER, [2, 3], false, None, Some([CALL_OF_REG]))
  const CALL_OF_OUTER := Call(Site(50, 50, "app.go", 50, 50), Ident("Outer", FuncObj(OUTER), NoType),
                              [INJECTOR, Provider(VALUE, NIL)], NoType)

  /** A wrapper, and a function that hands its own parameter to it. */
  ghost predicate TwoLevels(all: seq<TopDecl>, d: FuncDecl, inner: Node)
  {
    && all == [Fun(d), Fun(OUTER_DECL), Gen([CALL_OF_OUTER])] && d.fn == REG
    && Wraps(d, inner, 1) && SoleAt(CallsIn(d.body.value), inner, 0)
  }

  lemma OuterCalls()
    ensures CallsIn(OUTER_DECL.body.value) == [CALL_OF_REG] && !CallsRegistration(CALL_OF_REG.fun)
  {
    CallsInOne(CALL_OF_REG);
    PlainCall(CALL_OF_REG, CALL_OF_REG.args[0], CALL_OF_REG.args[1]);
    CallsTabulated(CALL_OF_REG.fun);
    assert REG.pkg != DO_PATH;
  }

  lemma TwoLevelsAreNamed(all: seq<TopDecl>, d: FuncDecl, inner: Node)
    requires TwoLevels(all, d, inner)
    ensures WellNamed(all)
  {
    assert REG.pkg != DO_PATH && OUTER.pkg != DO_PATH && REG != OUTER;
    TwoAreNamed(all, d, OUTER_DECL, CALL_OF_OUTER);
  }

  lemma OuterIsMade(all: seq<TopDecl>, d: FuncDecl, inner: Node)
    requires TwoLevels(all, d, inner)
    ensures Made(all, OUTER) == [CALL_OF_REG] && ParamsOf(all, OUTER) == [2, 3]
  {
    OuterCalls();
    assert REG != OUTER && OUTER.pkg != DO_PATH && all[1..][0] == Fun(OUTER_DECL);
    assert DeclOf(all, OUTER) == DeclOf(all[1..], OUTER) == Some(OUTER_DECL);
  }

  lemma OuterHandsDown(all: seq<TopDecl>, d: FuncDecl, inner: Node)
    requires TwoLevels(all, d, inner)
    ensures Slot(all, OUTER, [0, 0]) == Some(1)
  {
    TwoLevelsAreNamed(all, d, inner);
    WrapperSlot(all, Fun(d), inner, 1, 0);
    OuterIsMade(all, d, inner);
    assert [0, 0][1..] == [0];
    assert ParamIn([2, 3], CALL_OF_REG.args[1]) == Some(1) by { FirstIndex([2, 3], 1); }
    HandsTo(all, OUTER, [0, 0], CALL_OF_REG, 1, 1);
  }

  /** Outer's call brings a registration, and leaves no record of it. */
  lemma WrapperOfWrapperIsLost(all: seq<TopDecl>, pkgs: seq<Package>, pkg: Package, d: FuncDecl, inner: Node)
    requires TwoLevels(all, d, inner) && pkg in pkgs && pkg.decls == all
    ensures Brings(all, CALL_OF_OUTER, [0, 0]) && !RecordStandsFor(pkg, CALL_OF_OUTER, [0, 0])
    ensures !Complete(all, pkgs, 2)
  {
    OuterHandsDown(all, d, inner);
    CallIsInPackage(pkg, CALL_OF_OUTER);
    DeeperIsLost(all, pkgs, pkg, CALL_OF_OUTER, [0, 0], 2);
  }

  /** func Reg(i, p) { do.Provide(i, p); lib.Other(i, p) }, and c calls it with a literal: d is Reg with its two
      calls, e is lib.Other with the registration that it makes of its own parameter. */
  ghost predicate TwoRegistrations(all: seq<TopDecl>, c: Node, d: FuncDecl, inner: Node, further: Node, e: FuncDecl,
                                   last: Node)
  {
    && all == [Fun(d), Fun(e), Gen([c])] && d.fn != e.fn && d.fn.pkg != DO_PATH && e.fn.pkg != DO_PATH
    && d.params == [0, 1] && d.body.Some? && CallsIn(d.body.value) == [inner, further]
    && Known(inner) && Feeds(inner, 1)
    && Callee(further) == Some(e.fn) && |further.args| == 2 && IsVar(further.args[1], 1)
    && Wraps(e, last, 1) && SoleAt(CallsIn(e.body.value), last, 0)
    && c.Call? && CalleeFunc(c.fun) == Some(d.fn) && |c.args| == 2 && c.args[1].FuncLit? && c.site.id != inner.site.id
  }

  predicate IsVar(n: Node, v: nat)
  {
    n.Ident? && n.obj == VarObj(v)
  }

  lemma BothWrap(all: seq<TopDecl>, c: Node, d: FuncDecl, inner: Node, further: Node, e: FuncDecl, last: Node)
    requires TwoRegistrations(all, c, d, inner, further, e, last)
    ensures WellNamed(all) && Wraps(d, inner, 1) && SoleAt(CallsIn(d.body.value), inner, 0)
  {
    FirstWraps(d, inner, further);
    TwoAreNamed(all, d, e, c);
  }

  lemma FirstWraps(d: FuncDecl, inner: Node, further: Node)
    requires d.params == [0, 1] && d.body.Some? && CallsIn(d.body.value) == [inner, further]
    requires Known(inner) && Feeds(inner, 1) && Callee(further).Some? && Callee(further).value.pkg != DO_PATH
    ensures Wraps(d, inner, 1) && SoleAt(CallsIn(d.body.value), inner, 0)
  {
    CallsTabulated(further.fun);
    assert SoleAt([inner, further], inner, 0);
    assert d.params[..1] == [0];
  }

  lemma BothAreMade(all: seq<TopDecl>, c: Node, d: FuncDecl, inner: Node, further: Node, e: FuncDecl, last: Node)
    requires TwoRegistrations(all, c, d, inner, further, e, last)
    ensures Slot(all, d.fn, [0]) == Some(1) && Slot(all, e.fn, [0]) == Some(1)
    ensures Made(all, d.fn) == [inner, further] && ParamsOf(all, d.fn) == [0, 1]
  {
    BothWrap(all, c, d, inner, further, e, last);
    WrapperSlot(all, Fun(d), inner, 1, 0);
    WrapperIsRun(all, Fun(d), inner, 1);
    WrapperSlot(all, Fun(e), last, 1, 0);
  }

  lemma SecondHandsDown(all: seq<TopDecl>, fn: FuncId, path: seq<nat>, inner: Node, further: Node)
    requires Made(all, fn) == [inner, further] && ParamsOf(all, fn) == [0, 1] && Callee(further).Some?
    requires path != [] && path[0] == 1 && Slot(all, Callee(further).value, path[1..]) == Some(1)
    requires |further.args| == 2 && IsVar(further.args[1], 1)
    ensures Slot(all, fn, path) == Some(1)
  {
    SecondOfTwo(0, 1);
    HandsTo(all, fn, path, further, 1, 1);
  }

  lemma SecondOfTwo(a: nat, b: nat)
    requires a != b
    ensures ParamIndex([a, b], b) == Some(1)
  {
    assert [a, b][1..] == [b];
  }

  lemma FirstIsRecorded(all: seq<TopDecl>, pkg: Package, c: Node, d: FuncDecl, inner: Node, further: Node, e: FuncDecl,
                        last: Node)
    requires TwoRegistrations(all, c, d, inner, further, e, last)
    requires pkg.importsDo && pkg.decls == [Fun(d), Gen([c])]
    ensures RecordStandsFor(pkg, c, [0])
  {
    BothWrap(all, c, d, inner, further, e, last);
    SkipsOfOne(d, inner, 1, c);
    CalleeFuncIff(c.fun);
    MatchedIffSelector(c.fun);
    assert RecordsWrapped(pkg.decls, c, Fun(d), inner, 1, 0);
    WrapperIsKnown(all, pkg.decls, c, Fun(d), inner, 1);
    assert [0][0] == 0;
  }

  lemma SkipsOfOne(d: FuncDecl, inner: Node, k: nat, c: Node)
    requires d.fn.pkg != DO_PATH && Wraps(d, inner, k) && inner.Call?
    ensures EnvOf([Fun(d), Gen([c])]).skips == {inner.site.id}
  {
    OnlyWrapper(d, inner, k);
    assert [Fun(d), Gen([c])][..1] == [Fun(d)];
  }

  /** The call brings two registrations of its one argument, and its record stands for the first. */
  lemma SecondRegistrationIsLost(all: seq<TopDecl>, pkgs: seq<Package>, pkg: Package, c: Node, d: FuncDecl,
                                 inner: Node, further: Node, e: FuncDecl, last: Node)
    requires TwoRegistrations(all, c, d, inner, further, e, last)
    requires pkg in pkgs && pkg.importsDo && pkg.decls == [Fun(d), Gen([c])]
    ensures Brings(all, c, [0]) && RecordStandsFor(pkg, c, [0])
    ensures Brings(all, c, [1, 0]) && !RecordStandsFor(pkg, c, [1, 0]) && !Complete(all, pkgs, 2)
  {
    CalleeFuncIff(c.fun);
    BothAreMade(all, c, d, inner, further, e, last);
    assert [1, 0][1..] == [0];
    SecondHandsDown(all, d.fn, [1, 0], inner, further);
    FirstIsRecorded(all, pkg, c, d, inner, further, e, last);
    CallIsInPackage(pkg, c);
    DeeperIsLost(all, pkgs, pkg, c, [1, 0], 2);
  }

  // ---------------------------------------------------------------- facts that stay behind, and order

  const NAKED := [Return([])]

  /** A check that is a sole naked return, declared in one package and registered in another: the record says
      that it can fail, and no sweep can. */
  lemma ForeignNakedReturnIsMissed(u: Universe, cfg: Config, store: Package, app: Package, site: Site)
    requires u == map["Store" := STORE]
    requires MethodsOf(store.decls) == map[CHECK_ID := NAKED] && MethodsOf(app.decls) == map[]
    ensures var ctx, bodies := ContextOf(cfg, app, AllNilExports([store, app])), map[CHECK_ID := NAKED];
      var (rec, reports) := EvalProvider(u, ctx, Eager, site, VALUE);
      SaysCanFail(rec, reports, site) && !CanFail(u, bodies, Eager, ctx, VALUE)
  {
    var ctx := ContextOf(cfg, app, AllNilExports([store, app]));
    assert forall fn :: fn !in NilExports(store) && fn !in NilExports(app);
    UnseenStoreIsCounted(u, ctx, site);
    NakedStoreCannotFail(u, map[CHECK_ID := NAKED], ctx);
  }

  lemma UnseenStoreIsCounted(u: Universe, ctx: Context, site: Site)
    requires HasStore(u) && CHECK_ID !in ctx.methods && CHECK_ID !in ctx.nilFacts && CHECK_ID !in ctx.nakedFacts
    ensures var (rec, reports) := EvalProvider(u, ctx, Eager, site, VALUE);
      SaysCanFail(rec, reports, site)
  {
    StoreDispatches(u);
    assert !HasSoleNilReturnCheck(u, ctx, Named("Store")) && !HasNakedReturnCheck(u, ctx, Named("Store"));
    SaysCanFailMeans(u, ctx, Eager, site, VALUE);
  }

  lemma NakedStoreCannotFail(u: Universe, bodies: map<FuncId, seq<Node>>, ctx: Context)
    requires HasStore(u) && CHECK_ID in bodies && bodies[CHECK_ID] == NAKED
    ensures !CanFail(u, bodies, Eager, ctx, VALUE)
  {
    StoreDispatches(u);
    OneBodyDecides(u, bodies, Named("Store"), CHECK_ID);
    ConcreteSourceFails(u, bodies, Named("Store"));
    CanFailFromSource(u, bodies, Eager, ctx, VALUE);
  }

  const ONCE := ServiceRecord("*app.Store", Lazy, true, false, 1)
  const FRESH := ServiceRecord("*app.Store", Transient, true, false, 2)

  /** The same service registered as a singleton and as a transient: what comes first decides. */
  lemma OrderDecidesChecked()
    ensures Checked([ONCE, FRESH]) == 1 && Checked([FRESH, ONCE]) == 0
  {
    FirstDecides(ONCE, FRESH, []);
    assert [FRESH, ONCE] + [] == [FRESH, ONCE] && [ONCE, FRESH] + [] == [ONCE, FRESH];
    forall n | n != ONCE.name ensures n !in CheckedNames([ONCE, FRESH]) && n !in CheckedNames([FRESH, ONCE]) {
      RegisteredNames([ONCE, FRESH], n);
      RegisteredNames([FRESH, ONCE], n);
    }
    assert CheckedNames([ONCE, FRESH]) == {ONCE.name} && CheckedNames([FRESH, ONCE]) == {};
  }
}
