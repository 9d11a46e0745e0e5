/** What the analyzer says about a registration, against what the container does with it: which checks
    exist, which body runs, which type is stored, and exactly when the rules are right. */
module Soundness {
  import opened GoTypes
  import opened Syntax
  import opened Resolve
  import opened Rules
  import opened Container

  // ---------------------------------------------------------------- the analyzer's view of a stored type

  ghost predicate OfNamed(u: Universe, t: Type)
  {
    match t
    case Named(n) => n in u
    case Pointer(Named(n)) => n in u
    case _ => false
  }

  lemma ImplementsIsMethodSet(u: Universe, t: Type, f: string, sig: Sig)
    requires WellFormed(u) && OfNamed(u, t)
    ensures Implements(u, t, f, sig) <==> exists m :: InMethodSet(u, t, f, m) && m.Method? && m.sig == sig
  {
    var root, isPtr := if t.Pointer? then t.elem.name else t.name, t.Pointer?;
    assert t == Stored(root, isPtr);
    var r := LookupMember(u, root, isPtr, false, f);
    if HasSignature(r, sig) { LookupIsMethodSet(u, root, isPtr, f, r.value); }
    forall m | InMethodSet(u, t, f, m) && m.Method? ensures r == Some(m) {
      LookupIsMethodSet(u, root, isPtr, f, m);
    }
  }

  lemma AnyCheckIsDispatch(u: Universe, t: Type)
    requires WellFormed(u) && OfNamed(u, t)
    ensures ImplementsAnyCheck(u, t) <==> exists id :: Dispatches(u, t, id)
  {
    ImplementsIsMethodSet(u, t, CHECK, CTX_CHECK);
    ImplementsIsMethodSet(u, t, CHECK, BARE_CHECK);
    if ImplementsAnyCheck(u, t) {
      var m :| InMethodSet(u, t, CHECK, m) && m.Method? && (m.sig == CTX_CHECK || m.sig == BARE_CHECK);
      assert Dispatches(u, t, m.id);
    }
  }

  /** Body fidelity: the method whose body HW-7 and HW-8 read is the one the sweep calls. */
  lemma JudgedBodyIsDispatched(u: Universe, t: Type, id: FuncId)
    requires WellFormed(u) && OfNamed(u, t) && Dispatches(u, t, id)
    ensures ResolveHealthCheck(u, t) == Some(id)
  {
    var m :| InMethodSet(u, t, CHECK, m) && m.Method? && m.id == id;
    var root, isPtr := if t.Pointer? then t.elem.name else t.name, t.Pointer?;
    assert t == Stored(root, isPtr);
    AddressableLookupFindsIt(u, root, isPtr, CHECK, m);
  }

  /** ImplementsCheck tells whether the sweep dispatches, for every type but an unnamed struct with a
      promoted check, which the analyzer takes to have none. */
  lemma ImplementsCheckIff(u: Universe, t: Type)
    requires WellFormed(u) && (match BaseNamed(t) case Some(n) => n in u case None => true)
    ensures (ImplementsAnyCheck(u, t) <==> exists id :: Dispatches(u, t, id))
       <==> !((t.StructLit? || (t.Pointer? && t.elem.StructLit?)) && exists id :: Dispatches(u, t, id))
  {
    if OfNamed(u, t) {
      AnyCheckIsDispatch(u, t);
    } else {
      assert !ImplementsAnyCheck(u, t);
    }
  }

  // ---------------------------------------------------------------- the rules in terms of method sets

  ghost predicate HasCheck(u: Universe, t: Type)
  {
    exists id :: Dispatches(u, t, id)
  }

  ghost predicate HasShutdown(u: Universe, t: Type)
  {
    || HasMethod(u, t, SHUTDOWN, Sig([], []))
    || HasMethod(u, t, SHUTDOWN, Sig([], ["error"]))
    || HasMethod(u, t, SHUTDOWN, Sig(["context.Context"], []))
    || HasMethod(u, t, SHUTDOWN, Sig(["context.Context"], ["error"]))
  }

  /** HW-1 to HW-5 stated on the language's method sets: a dead check on a transient; a check on the
      pointer only, under a value; a shutdown without a check; a check behind lazy construction; a
      check without a context. */
  lemma RulesMeanMethodSets(u: Universe, ctx: Context, kind: ServiceKind, t: Type)
    requires WellFormed(u) && OfNamed(u, t) && !kind.Alias?
    ensures var rules := KindRules(kind, FactsOf(u, ctx, kind, t));
      var onPointerOnly := !t.Pointer? && HasCheck(u, Pointer(t)) && !HasCheck(u, t);
      && (HW3 in rules <==> kind.Transient? && HasCheck(u, t))
      && (HW5 in rules <==> !kind.Transient? && onPointerOnly)
      && (HW1 in rules <==> !kind.Transient? && !onPointerOnly && HasShutdown(u, t) && !HasCheck(u, t))
      && (HW4 in rules <==> kind.Lazy? && HasCheck(u, t))
      && (HW2 in rules <==> HasMethod(u, t, CHECK, BARE_CHECK))
  {
    var facts := FactsOf(u, ctx, kind, t);
    FactsMeanMethodSets(u, ctx, kind, t);
    RulesOnFacts(kind, facts);
  }

  lemma RulesOnFacts(kind: ServiceKind, facts: TypeFacts)
    requires !kind.Alias? && (facts.anyCheck <==> facts.bareCheck || facts.ctxCheck)
    ensures var rules := KindRules(kind, facts);
      var onPointerOnly := facts.valueReg && facts.anyCheckP && !facts.anyCheck;
      && (HW3 in rules <==> kind.Transient? && facts.anyCheck)
      && (HW5 in rules <==> !kind.Transient? && onPointerOnly)
      && (HW1 in rules <==> !kind.Transient? && !onPointerOnly && facts.shutdown && !facts.anyCheck)
      && (HW4 in rules <==> kind.Lazy? && facts.anyCheck)
      && (HW2 in rules <==> facts.bareCheck && !facts.ctxCheck)
  {}

  lemma FactsMeanMethodSets(u: Universe, ctx: Context, kind: ServiceKind, t: Type)
    requires WellFormed(u) && OfNamed(u, t)
    ensures var facts := FactsOf(u, ctx, kind, t);
      && (facts.anyCheck <==> HasCheck(u, t)) && (facts.valueReg <==> !t.Pointer?)
      && (facts.shutdown <==> HasShutdown(u, t))
      && (!t.Pointer? ==> (facts.anyCheckP <==> HasCheck(u, Pointer(t))))
      && (facts.bareCheck && !facts.ctxCheck <==> HasMethod(u, t, CHECK, BARE_CHECK))
      && (facts.anyCheck <==> facts.bareCheck || facts.ctxCheck)
  {
    AnyCheckIsDispatch(u, t);
    if !t.Pointer? { AnyCheckIsDispatch(u, Pointer(t)); }
    ShutdownMeans(u, t);
    BareCheckMeans(u, t);
  }

  lemma ShutdownMeans(u: Universe, t: Type)
    requires WellFormed(u) && OfNamed(u, t)
    ensures ImplementsAnyShutdown(u, t) <==> HasShutdown(u, t)
  {
    ImplementsIsMethodSet(u, t, SHUTDOWN, Sig([], []));
    ImplementsIsMethodSet(u, t, SHUTDOWN, Sig([], ["error"]));
    ImplementsIsMethodSet(u, t, SHUTDOWN, Sig(["context.Context"], []));
    ImplementsIsMethodSet(u, t, SHUTDOWN, Sig(["context.Context"], ["error"]));
  }

  /** A type has at most one method of the name, so a bare check excludes the context variant. */
  lemma BareCheckMeans(u: Universe, t: Type)
    requires WellFormed(u) && OfNamed(u, t)
    ensures Implements(u, t, CHECK, BARE_CHECK) && !Implements(u, t, CHECK, CTX_CHECK) <==>
      HasMethod(u, t, CHECK, BARE_CHECK)
  {
    ImplementsIsMethodSet(u, t, CHECK, BARE_CHECK);
    ImplementsIsMethodSet(u, t, CHECK, CTX_CHECK);
    forall m, n | InMethodSet(u, t, CHECK, m) && InMethodSet(u, t, CHECK, n) ensures m == n {
      MethodSetIsAFunction(u, t, CHECK, m, n);
    }
    assert BARE_CHECK.params != CTX_CHECK.params;
  }

  // ---------------------------------------------------------------- resolution against what can be stored

  ghost function InstanceOf(u: Universe, ctx: Context, kind: ServiceKind, arg: Node): Type
  {
    RegistrationTypes(u, ctx.funcs, kind.Eager?, arg).1
  }

  /** The analyzer reads the body that a call of the provider executes. */
  lemma ReadsExecutedBody(funcs: map<FuncId, Func>, arg: Node)
    ensures forall f | Executes(funcs, arg, f) :: ProviderBody(funcs, arg) == Some(f.body)
    ensures Executed(funcs, arg) <==> ProviderBody(funcs, arg).Some?
  {
    match arg
    case FuncLit(result, body, _) => assert Executes(funcs, arg, Func(result, body));
    case Ident(_, FuncObj(fn), _) => if fn in funcs { assert Executes(funcs, arg, funcs[fn]); }
    case Selector(_, _, FuncObj(fn), _) => if fn in funcs { assert Executes(funcs, arg, funcs[fn]); }
    case _ =>
  }

  lemma ReturnedIsScanned(funcs: map<FuncId, Func>, arg: Node, results: seq<Node>)
    ensures Returned(funcs, arg, results) <==>
      ProviderBody(funcs, arg).Some? && results in ReturnsIn(ProviderBody(funcs, arg).value)
  {
    ReadsExecutedBody(funcs, arg);
    var b := ProviderBody(funcs, arg);
    if b.Some? { ReturnsAreLeaving(b.value, results); }
  }

  /** A concrete type stands at one of the places where the instance may come from. */
  ghost predicate Evidence(u: Universe, ctx: Context, kind: ServiceKind, arg: Node, t: Type)
  {
    if kind.Eager? then t != NoType && t == TypeOf(arg)
    else
      var declared := DeclaredResult(u, TypeOf(arg));
      if !IsOpen(u, declared) then t == declared
      else declared != NoType && !IsOpen(u, t) && ReturnedFirst(ctx.funcs, arg, t)
  }

  ghost predicate ReturnedFirst(funcs: map<FuncId, Func>, arg: Node, t: Type)
  {
    exists results :: Returned(funcs, arg, results) && results != [] && TypeOf(results[0]) == t
  }

  ghost predicate SoleEvidence(u: Universe, ctx: Context, kind: ServiceKind, arg: Node, t: Type)
  {
    Evidence(u, ctx, kind, arg, t) && forall s | Evidence(u, ctx, kind, arg, s) :: s == t
  }

  /** Some return carries t as a concrete first result, and none carries another. */
  ghost predicate SoleReturned(u: Universe, funcs: map<FuncId, Func>, arg: Node, t: Type)
  {
    && !IsOpen(u, t) && ReturnedFirst(funcs, arg, t)
    && forall s | !IsOpen(u, s) && ReturnedFirst(funcs, arg, s) :: s == t
  }

  lemma UnifiedIsSole(u: Universe, funcs: map<FuncId, Func>, arg: Node, t: Type)
    requires ProviderBody(funcs, arg).Some? && t != NoType
    ensures UnifiedInstance(u, ProviderBody(funcs, arg).value) == t <==> SoleReturned(u, funcs, arg, t)
  {
    var body := ProviderBody(funcs, arg).value;
    UnifiedIff(u, body, t);
    forall results ensures Returned(funcs, arg, results) <==> results in ReturnsIn(body) {
      ReturnedIsScanned(funcs, arg, results);
    }
  }

  lemma NothingReturned(funcs: map<FuncId, Func>, arg: Node)
    requires ProviderBody(funcs, arg).None?
    ensures forall t :: !ReturnedFirst(funcs, arg, t)
  {
    forall results ensures !Returned(funcs, arg, results) { ReturnedIsScanned(funcs, arg, results); }
  }

  /** The resolved instance type is the only evidence. */
  lemma InstanceIsSoleEvidence(u: Universe, ctx: Context, kind: ServiceKind, arg: Node, t: Type)
    requires t != NoType
    ensures InstanceOf(u, ctx, kind, arg) == t <==> SoleEvidence(u, ctx, kind, arg, t)
  {
    var declared := DeclaredResult(u, TypeOf(arg));
    if kind.Eager? || !IsOpen(u, declared) || declared == NoType {
      InPlainSight(u, ctx, kind, arg);
      SoleOf(u, ctx, kind, arg, t, InstanceOf(u, ctx, kind, arg));
    } else {
      BehindInterface(u, ctx, kind, arg, t);
    }
  }

  lemma SoleOf(u: Universe, ctx: Context, kind: ServiceKind, arg: Node, t: Type, instance: Type)
    requires forall s :: Evidence(u, ctx, kind, arg, s) <==> s != NoType && s == instance
    requires t != NoType
    ensures instance == t <==> SoleEvidence(u, ctx, kind, arg, t)
  {
    assert Evidence(u, ctx, kind, arg, instance) <==> instance != NoType;
  }

  /** A value's type, or a concrete declared result, is all the evidence there is. */
  lemma InPlainSight(u: Universe, ctx: Context, kind: ServiceKind, arg: Node)
    requires kind.Eager? || !IsOpen(u, DeclaredResult(u, TypeOf(arg))) || DeclaredResult(u, TypeOf(arg)) == NoType
    ensures forall t :: Evidence(u, ctx, kind, arg, t) <==> t != NoType && t == InstanceOf(u, ctx, kind, arg)
  {}

  lemma BodyInstance(u: Universe, ctx: Context, kind: ServiceKind, arg: Node, body: seq<Node>)
    requires !kind.Eager? && ProviderBody(ctx.funcs, arg) == Some(body)
    requires IsOpen(u, DeclaredResult(u, TypeOf(arg))) && DeclaredResult(u, TypeOf(arg)) != NoType
    ensures InstanceOf(u, ctx, kind, arg) == UnifiedInstance(u, body)
  {}

  /** Behind a declared interface the evidence is what the returns carry. */
  lemma BehindInterface(u: Universe, ctx: Context, kind: ServiceKind, arg: Node, t: Type)
    requires !kind.Eager? && t != NoType
    requires IsOpen(u, DeclaredResult(u, TypeOf(arg))) && DeclaredResult(u, TypeOf(arg)) != NoType
    ensures InstanceOf(u, ctx, kind, arg) == t <==> SoleReturned(u, ctx.funcs, arg, t)
    ensures InstanceOf(u, ctx, kind, arg) == t <==> SoleEvidence(u, ctx, kind, arg, t)
  {
    var b := ProviderBody(ctx.funcs, arg);
    EvidenceReturned(u, ctx, kind, arg, t);
    if b.Some? {
      UnifiedIsSole(u, ctx.funcs, arg, t);
      BodyInstance(u, ctx, kind, arg, b.value);
    } else {
      NothingReturned(ctx.funcs, arg);
      NoBodyNoInstance(u, ctx, kind, arg);
    }
  }

  lemma NoBodyNoInstance(u: Universe, ctx: Context, kind: ServiceKind, arg: Node)
    requires !kind.Eager? && ProviderBody(ctx.funcs, arg).None? && IsOpen(u, DeclaredResult(u, TypeOf(arg)))
    ensures InstanceOf(u, ctx, kind, arg) == NoType
  {}

  lemma EvidenceReturned(u: Universe, ctx: Context, kind: ServiceKind, arg: Node, t: Type)
    requires !kind.Eager?
    requires IsOpen(u, DeclaredResult(u, TypeOf(arg))) && DeclaredResult(u, TypeOf(arg)) != NoType
    ensures SoleEvidence(u, ctx, kind, arg, t) <==> SoleReturned(u, ctx.funcs, arg, t)
  {
    forall s ensures Evidence(u, ctx, kind, arg, s) <==> !IsOpen(u, s) && ReturnedFirst(ctx.funcs, arg, s) {
      EvidenceIs(u, ctx, kind, arg, s);
    }
    SameSole(u, ctx, kind, arg, t);
  }

  lemma EvidenceIs(u: Universe, ctx: Context, kind: ServiceKind, arg: Node, s: Type)
    requires !kind.Eager?
    requires IsOpen(u, DeclaredResult(u, TypeOf(arg))) && DeclaredResult(u, TypeOf(arg)) != NoType
    ensures Evidence(u, ctx, kind, arg, s) <==> !IsOpen(u, s) && ReturnedFirst(ctx.funcs, arg, s)
  {}

  lemma SameSole(u: Universe, ctx: Context, kind: ServiceKind, arg: Node, t: Type)
    requires forall s :: Evidence(u, ctx, kind, arg, s) <==> !IsOpen(u, s) && ReturnedFirst(ctx.funcs, arg, s)
    ensures SoleEvidence(u, ctx, kind, arg, t) <==> SoleReturned(u, ctx.funcs, arg, t)
  {}

  // ---------------------------------------------------------------- providers of a plain type

  /** A pointer, or a named type that is not an interface. */
  ghost predicate IsPlain(u: Universe, t: Type)
  {
    t.Pointer? || (t.Named? && t.name in u && u[t.name].under != InterfaceType)
  }

  /** The type that the container registers under: the value's, or the first result of the provider's signature. */
  ghost predicate RegistersUnder(u: Universe, kind: ServiceKind, arg: Node, t: Type)
  {
    if kind.Eager? then TypeOf(arg) == t
    else exists results :: IsProviderType(u, TypeOf(arg), results) && results != [] && results[0] == t
  }

  /** A provider that is no function with a result has neither a type nor an instance. */
  lemma NoProviderType(u: Universe, ctx: Context, kind: ServiceKind, site: Site, arg: Node)
    requires !kind.Alias? && !kind.Eager? && forall t :: !RegistersUnder(u, kind, arg, t)
    ensures var (rec, reports) := EvalProvider(u, ctx, kind, site, arg);
      rec.unresolved && rec.name == "<unknown>"
  {
    DeclaredResultIs(u, TypeOf(arg));
    forall results | IsProviderType(u, TypeOf(arg), results) ensures results == [] {
      if results != [] { assert RegistersUnder(u, kind, arg, results[0]); }
    }
  }

  /** The record has the name of that type, resolved or not. */
  lemma RecordIsNamed(u: Universe, ctx: Context, kind: ServiceKind, site: Site, arg: Node, t: Type)
    requires !kind.Alias? && RegistersUnder(u, kind, arg, t)
    ensures var (rec, reports) := EvalProvider(u, ctx, kind, site, arg);
      rec.name == TypeString(t) && rec.kind == kind && rec.pos == site.pos
  {
    DeclaredResultIs(u, TypeOf(arg));
  }

  /** A provider, however it is given, whose first result is plain is resolved to exactly that type and never
      recorded as unresolved; so is a value of plain type. Nothing else can be stored. */
  lemma PlainIsResolved(u: Universe, ctx: Context, kind: ServiceKind, site: Site, arg: Node, t: Type)
    requires !kind.Alias? && IsPlain(u, t) && RegistersUnder(u, kind, arg, t)
    ensures InstanceOf(u, ctx, kind, arg) == t && (forall s :: Source(u, ctx, kind, arg, s) <==> s == t)
    ensures var (rec, reports) := EvalProvider(u, ctx, kind, site, arg);
      !rec.unresolved && SiteReport(Unresolved, site) !in reports
  {
    PlainIsDeclared(u, ctx, kind, arg, t);
    ReportedIffAmong(KindRules(kind, FactsOf(u, ctx, kind, t)), site, Unresolved);
    ResolvedIsNotUnresolved(kind, FactsOf(u, ctx, kind, t));
  }

  lemma PlainIsDeclared(u: Universe, ctx: Context, kind: ServiceKind, arg: Node, t: Type)
    requires IsPlain(u, t) && RegistersUnder(u, kind, arg, t)
    ensures RegistrationTypes(u, ctx.funcs, kind.Eager?, arg) == (t, t)
    ensures forall s :: Source(u, ctx, kind, arg, s) <==> s == t
  {
    ConcreteIff(u, t);
    if !kind.Eager? {
      var results :| IsProviderType(u, TypeOf(arg), results) && results != [] && results[0] == t;
      DeclaredResultIs(u, TypeOf(arg));
    }
  }

  /** What is evident can be stored, unless it is the result list of a forwarded call. */
  lemma EvidenceIsStored(u: Universe, ctx: Context, kind: ServiceKind, arg: Node, t: Type)
    requires Evidence(u, ctx, kind, arg, t) && !IsOpen(u, t) && !t.Tuple?
    ensures Source(u, ctx, kind, arg, t) && MayStore(u, ctx, kind, arg, Val(t))
  {
    var declared := DeclaredResult(u, TypeOf(arg));
    if !kind.Eager? && IsOpen(u, declared) {
      var results :| Returned(ctx.funcs, arg, results) && results != [] && TypeOf(results[0]) == t;
      assert ReturnType(declared, results) == t;
    }
    assert Source(u, ctx, kind, arg, t) && MayHold(u, t, Val(t));
  }

  /** A site is unresolved exactly when there is no evidence, or evidence of two types (of which each that
      is not a result list can be stored). It then says nothing but, under the strict flag, that it is
      unresolved. */
  lemma UnresolvedIff(u: Universe, ctx: Context, kind: ServiceKind, site: Site, arg: Node)
    ensures var (rec, reports) := EvalProvider(u, ctx, kind, site, arg);
      && (rec.unresolved <==>
            (forall t :: !Evidence(u, ctx, kind, arg, t)) ||
            exists s, t :: s != t && Evidence(u, ctx, kind, arg, s) && Evidence(u, ctx, kind, arg, t))
      && (rec.unresolved ==> !rec.implementsCheck)
      && (rec.unresolved ==> reports == if ctx.strict then [SiteReport(Unresolved, site)] else [])
      && (forall r | r in reports :: r.site == site && (r.rule == Unresolved <==> rec.unresolved))
      && rec.kind == kind && rec.pos == site.pos
    ensures forall t | Evidence(u, ctx, kind, arg, t) && !IsOpen(u, t) && !t.Tuple? ::
      MayStore(u, ctx, kind, arg, Val(t))
  {
    var t := InstanceOf(u, ctx, kind, arg);
    ResolvedIff(u, ctx, kind, arg);
    if t != NoType { ResolvedIsNotUnresolved(kind, FactsOf(u, ctx, kind, t)); }
    forall s | Evidence(u, ctx, kind, arg, s) && !IsOpen(u, s) && !s.Tuple?
      ensures MayStore(u, ctx, kind, arg, Val(s))
    {
      EvidenceIsStored(u, ctx, kind, arg, s);
    }
  }

  lemma ResolvedIff(u: Universe, ctx: Context, kind: ServiceKind, arg: Node)
    ensures InstanceOf(u, ctx, kind, arg) == NoType <==>
      (forall t :: !Evidence(u, ctx, kind, arg, t)) ||
      exists s, t :: s != t && Evidence(u, ctx, kind, arg, s) && Evidence(u, ctx, kind, arg, t)
  {
    var t := InstanceOf(u, ctx, kind, arg);
    if t != NoType {
      InstanceIsSoleEvidence(u, ctx, kind, arg, t);
    } else {
      forall s | Evidence(u, ctx, kind, arg, s) ensures exists r :: r != s && Evidence(u, ctx, kind, arg, r) {
        InstanceIsSoleEvidence(u, ctx, kind, arg, s);
      }
    }
  }

  lemma ResolvedIsNotUnresolved(kind: ServiceKind, facts: TypeFacts)
    ensures Unresolved !in KindRules(kind, facts)
  {
    RulesAreWarranted(kind, facts, Unresolved);
  }

  /** Of a resolved registration, every source of concrete type is the resolved type. */
  lemma ConcreteSourceIsInstance(u: Universe, ctx: Context, kind: ServiceKind, arg: Node)
    requires InstanceOf(u, ctx, kind, arg) != NoType && !InstanceOf(u, ctx, kind, arg).Tuple?
    ensures forall s | Source(u, ctx, kind, arg, s) && !IsOpen(u, s) :: s == InstanceOf(u, ctx, kind, arg)
    ensures !IsOpen(u, InstanceOf(u, ctx, kind, arg)) ==> Source(u, ctx, kind, arg, InstanceOf(u, ctx, kind, arg))
  {
    var t := InstanceOf(u, ctx, kind, arg);
    InstanceIsSoleEvidence(u, ctx, kind, arg, t);
    if !IsOpen(u, t) { EvidenceIsStored(u, ctx, kind, arg, t); }
    forall s | Source(u, ctx, kind, arg, s) && !IsOpen(u, s) ensures s == t {
      SourceIsEvidence(u, ctx, kind, arg, s);
    }
  }

  lemma SourceIsEvidence(u: Universe, ctx: Context, kind: ServiceKind, arg: Node, s: Type)
    requires Source(u, ctx, kind, arg, s) && !IsOpen(u, s)
    requires kind.Eager? || !IsOpen(u, DeclaredResult(u, TypeOf(arg))) || DeclaredResult(u, TypeOf(arg)) != NoType
    ensures Evidence(u, ctx, kind, arg, s) ||
      exists parts :: parts != [] && s == parts[0] && Evidence(u, ctx, kind, arg, Tuple(parts))
  {
    var declared := DeclaredResult(u, TypeOf(arg));
    if !kind.Eager? && IsOpen(u, declared) {
      var results :| Returned(ctx.funcs, arg, results) && s == ReturnType(declared, results);
      assert results != [];
      assert ReturnedFirst(ctx.funcs, arg, TypeOf(results[0]));
      if TypeOf(results[0]).Tuple? {
        assert Evidence(u, ctx, kind, arg, Tuple(TypeOf(results[0]).parts));
      }
    }
  }

  /** The resolved type is the only one that can be stored exactly when no source of interface type (an
      interface-typed return, a naked one) can hold another. */
  lemma OnlyStoredIff(u: Universe, ctx: Context, kind: ServiceKind, arg: Node)
    requires !IsOpen(u, InstanceOf(u, ctx, kind, arg)) && !InstanceOf(u, ctx, kind, arg).Tuple?
    ensures var t := InstanceOf(u, ctx, kind, arg);
      && MayStore(u, ctx, kind, arg, Val(t))
      && ((forall v | MayStore(u, ctx, kind, arg, v) :: v == NilValue || v == Val(t)) <==>
          forall s, x | Source(u, ctx, kind, arg, s) && IsOpen(u, s) && MayHold(u, s, Val(x)) :: x == t)
  {
    var t := InstanceOf(u, ctx, kind, arg);
    ConcreteSourceIsInstance(u, ctx, kind, arg);
    assert MayHold(u, t, Val(t));
    forall s, x | Source(u, ctx, kind, arg, s) && MayHold(u, s, Val(x)) ensures MayStore(u, ctx, kind, arg, Val(x)) {}
  }

  /** Every source is of concrete type, or nil. */
  ghost predicate PredictsStored(u: Universe, ctx: Context, kind: ServiceKind, arg: Node)
  {
    forall s | Source(u, ctx, kind, arg, s) :: s == UntypedNil || !IsOpen(u, s)
  }

  /** Then every instance that the registration can store has the resolved type, and one such instance is
      possible. */
  lemma StoredHasInstanceType(u: Universe, ctx: Context, kind: ServiceKind, arg: Node)
    requires PredictsStored(u, ctx, kind, arg)
    requires !IsOpen(u, InstanceOf(u, ctx, kind, arg)) && !InstanceOf(u, ctx, kind, arg).Tuple?
    ensures forall v | MayStore(u, ctx, kind, arg, v) :: v == NilValue || v == Val(InstanceOf(u, ctx, kind, arg))
    ensures MayStore(u, ctx, kind, arg, Val(InstanceOf(u, ctx, kind, arg)))
  {
    OnlyStoredIff(u, ctx, kind, arg);
  }

  // ---------------------------------------------------------------- soundness of the rules

  /** The context tells the truth about the program's bodies. */
  ghost predicate TruthfulContext(ctx: Context, bodies: map<FuncId, seq<Node>>)
  {
    && (forall id | id in ctx.methods :: id in bodies && bodies[id] == ctx.methods[id])
    && (forall id | id in ctx.nilFacts :: id in bodies && IsSoleNilReturn(bodies[id]))
    && (forall id | id in ctx.nakedFacts :: id in bodies && IsSoleNakedReturn(bodies[id]))
  }

  /** No body that is spelled `return nil` returns something else of that name. */
  ghost predicate NilNotShadowed(bodies: map<FuncId, seq<Node>>)
  {
    forall id | id in bodies && IsSoleNilReturn(bodies[id]) :: bodies[id][0].results[0].obj == PredeclaredNil
  }

  /** The rules that claim a dead or missing check. */
  predicate IsGreen(rule: Rule)
  {
    rule.HW1? || rule.HW3? || rule.HW5? || rule.HW7? || rule.HW8?
  }

  ghost predicate Raises(u: Universe, ctx: Context, kind: ServiceKind, arg: Node, rule: Rule)
  {
    InstanceOf(u, ctx, kind, arg) != NoType &&
    rule in KindRules(kind, FactsOf(u, ctx, kind, InstanceOf(u, ctx, kind, arg)))
  }

  /** What Raises means for the analyzer's output at a site. */
  lemma RaisesIsReported(u: Universe, ctx: Context, fnName: string, kind: ServiceKind, site: Site,
                         args: seq<Node>, substitute: Option<Node>, arg: Node, rule: Rule)
    requires !kind.Alias? && RegistrationProvider(fnName, args, substitute) == Some(arg) && rule != Unresolved
    ensures Raises(u, ctx, kind, arg, rule) <==>
      SiteReport(rule, site) in EvalSite(u, ctx, fnName, kind, site, args, substitute).1
  {
    var instance := InstanceOf(u, ctx, kind, arg);
    if instance != NoType {
      var rules := KindRules(kind, FactsOf(u, ctx, kind, instance));
      var reports := ReportAt(rules, site);
      if rule in rules {
        var i :| 0 <= i < |rules| && rules[i] == rule;
        assert reports[i] == SiteReport(rule, site);
      }
    }
  }

  lemma GreenRuleMeaning(kind: ServiceKind, facts: TypeFacts, rule: Rule)
    requires (kind.Lazy? || kind.Eager?) && IsGreen(rule) && rule in KindRules(kind, facts)
    ensures rule == HW1 || rule == HW5 || rule == HW7 || rule == HW8
    ensures rule == HW1 ==> facts.shutdown && !facts.anyCheck
    ensures rule == HW5 ==> facts.valueReg && facts.anyCheckP && !facts.anyCheck
    ensures rule == HW7 ==> facts.anyCheck && facts.nilBody
    ensures rule == HW8 ==> facts.anyCheck && facts.emptyBody
  {}

  lemma ShutdownIsOfNamed(u: Universe, t: Type)
    ensures ImplementsAnyShutdown(u, t) ==> OfNamed(u, t)
    ensures ImplementsAnyCheck(u, t) ==> OfNamed(u, t)
    ensures ImplementsAnyCheck(u, Pointer(t)) && !t.Pointer? ==> OfNamed(u, t)
  {}

  /** Whenever the type that a green rule was raised on has a failing check, the rule was HW-7 and its nil
      is not the predeclared one. */
  lemma GreenTypeCanFailIff(u: Universe, ctx: Context, bodies: map<FuncId, seq<Node>>, kind: ServiceKind,
                            t: Type, rule: Rule)
    requires WellFormed(u) && TruthfulContext(ctx, bodies) && IsSwept(kind)
    requires IsGreen(rule) && rule in KindRules(kind, FactsOf(u, ctx, kind, t))
    ensures FailCapable(u, bodies, t) <==> rule == HW7 && !ReturnsRealNil(u, bodies, t)
  {
    GreenRuleMeaning(kind, FactsOf(u, ctx, kind, t), rule);
    ShutdownIsOfNamed(u, t);
    AnyCheckIsDispatch(u, t);
    forall id | Dispatches(u, t, id) ensures ResolveHealthCheck(u, t) == Some(id) {
      JudgedBodyIsDispatched(u, t, id);
    }
    if rule == HW7 || rule == HW8 { var id :| Dispatches(u, t, id); }
  }

  /** The dispatched check, if its body reads `return nil`, returns the predeclared nil. */
  ghost predicate ReturnsRealNil(u: Universe, bodies: map<FuncId, seq<Node>>, t: Type)
  {
    forall id | Dispatches(u, t, id) && id in bodies && IsSoleNilReturn(bodies[id]) ::
      bodies[id][0].results[0].obj == PredeclaredNil
  }

  /** No interface-typed source of the registration fits a type with a check that can report an error. */
  ghost predicate LooseCannotFail(u: Universe, bodies: map<FuncId, seq<Node>>, ctx: Context, kind: ServiceKind,
                                  arg: Node)
  {
    forall s | Source(u, ctx, kind, arg, s) && IsOpen(u, s) :: !SourceCanFail(u, bodies, s)
  }

  /** What it takes for a green rule to be right: nothing for a transient; else that HW-7's nil is nil, and
      that what else the registration can store, past the resolved type, cannot fail. */
  ghost predicate ClaimHolds(u: Universe, bodies: map<FuncId, seq<Node>>, ctx: Context, kind: ServiceKind, arg: Node,
                             rule: Rule)
  {
    kind.Transient? ||
    (&& LooseCannotFail(u, bodies, ctx, kind, arg)
     && (rule == HW7 && !IsOpen(u, InstanceOf(u, ctx, kind, arg)) ==>
           ReturnsRealNil(u, bodies, InstanceOf(u, ctx, kind, arg))))
  }

  lemma TupleHasNoRules(u: Universe, ctx: Context, kind: ServiceKind, parts: seq<Type>)
    ensures KindRules(kind, FactsOf(u, ctx, kind, Tuple(parts))) == [] && !ImplementsAnyCheck(u, Tuple(parts))
  {}

  lemma ConcreteSourceFails(u: Universe, bodies: map<FuncId, seq<Node>>, s: Type)
    requires !IsOpen(u, s)
    ensures SourceCanFail(u, bodies, s) <==> FailCapable(u, bodies, s)
  {
    assert MayHold(u, s, Val(s));
  }

  /** A resolved registration can fail through its resolved type or through a loose source. */
  lemma ResolvedCanFailIff(u: Universe, bodies: map<FuncId, seq<Node>>, ctx: Context, kind: ServiceKind, arg: Node)
    requires InstanceOf(u, ctx, kind, arg) != NoType && !InstanceOf(u, ctx, kind, arg).Tuple?
    ensures CanFail(u, bodies, kind, ctx, arg) <==>
      IsSwept(kind) &&
      (!LooseCannotFail(u, bodies, ctx, kind, arg) ||
       (!IsOpen(u, InstanceOf(u, ctx, kind, arg)) && FailCapable(u, bodies, InstanceOf(u, ctx, kind, arg))))
  {
    var t := InstanceOf(u, ctx, kind, arg);
    CanFailFromSource(u, bodies, kind, ctx, arg);
    ConcreteSourceIsInstance(u, ctx, kind, arg);
    if !IsOpen(u, t) { ConcreteSourceFails(u, bodies, t); }
  }

  /** The declared type of a variable's instance: the value's, or the provider's first result. */
  function DeclaredSource(u: Universe, kind: ServiceKind, arg: Node): Type
  {
    if kind.Eager? then TypeOf(arg) else DeclaredResult(u, TypeOf(arg))
  }

  /** A variable provides any value of its declared type. */
  lemma VariableCanFailIff(u: Universe, bodies: map<FuncId, seq<Node>>, ctx: Context, kind: ServiceKind, arg: Node)
    requires arg.Ident? && arg.obj.VarObj?
    ensures CanFail(u, bodies, kind, ctx, arg) <==>
      IsSwept(kind) && SourceCanFail(u, bodies, DeclaredSource(u, kind, arg))
  {
    CanFailFromSource(u, bodies, kind, ctx, arg);
    assert forall s :: Source(u, ctx, kind, arg, s) <==> s == DeclaredSource(u, kind, arg);
  }

  /** The green rules, exactly: given that one was raised, no run of the container makes the service fail
      if and only if the claim's condition holds. */
  lemma GreenHoldsIff(u: Universe, bodies: map<FuncId, seq<Node>>, ctx: Context, kind: ServiceKind, arg: Node,
                      rule: Rule)
    requires WellFormed(u) && TruthfulContext(ctx, bodies) && !kind.Alias?
    requires IsGreen(rule) && Raises(u, ctx, kind, arg, rule)
    ensures !CanFail(u, bodies, kind, ctx, arg) <==> ClaimHolds(u, bodies, ctx, kind, arg, rule)
  {
    var t := InstanceOf(u, ctx, kind, arg);
    if t.Tuple? { TupleHasNoRules(u, ctx, kind, t.parts); }
    ResolvedCanFailIff(u, bodies, ctx, kind, arg);
    if IsSwept(kind) { GreenTypeCanFailIff(u, ctx, bodies, kind, t, rule); }
  }

  /** A program whose returns are all plain and whose nil is nil meets the condition. */
  lemma VisibleClaimHolds(u: Universe, bodies: map<FuncId, seq<Node>>, ctx: Context, kind: ServiceKind, arg: Node,
                          rule: Rule)
    requires PredictsStored(u, ctx, kind, arg) && NilNotShadowed(bodies)
    ensures ClaimHolds(u, bodies, ctx, kind, arg, rule)
  {}

  /** Rule soundness: whatever the run, the bodies and the moment, a service on whose registration HW-1,
      HW-3, HW-5, HW-7 or HW-8 was raised is green in every sweep, and so is every alias that leads to it,
      directly or through others, given the condition without which some run fails. */
  lemma RuleSoundness(u: Universe, bodies: map<FuncId, seq<Node>>, events: seq<Event>, failing: set<FuncId>,
                      name: string, rule: Rule)
    requires WellFormed(u)
    requires var c := Run(u, events);
      && name in c && c[name].Service?
      && TruthfulContext(c[name].ctx, bodies)
      && IsGreen(rule) && Raises(u, c[name].ctx, c[name].kind, c[name].arg, rule)
      && ClaimHolds(u, bodies, c[name].ctx, c[name].kind, c[name].arg, rule)
    ensures var c := Run(u, events);
      && !SweepErrs(u, bodies, c, failing, name)
      && forall a, n: nat | Delegates(c, a, n, name) :: !SweepErrs(u, bodies, c, failing, a)
  {
    var row := Run(u, events)[name];
    RunStoresOwnValues(u, events);
    assert RowWellStored(u, row);
    GreenHoldsIff(u, bodies, row.ctx, row.kind, row.arg, rule);
    RowIsGreen(u, bodies, row, failing);
    GreenBehind(u, bodies, Run(u, events), failing, name);
  }

  lemma RowIsGreen(u: Universe, bodies: map<FuncId, seq<Node>>, row: Row, failing: set<FuncId>)
    requires row.Service? && RowWellStored(u, row) && !CanFail(u, bodies, row.kind, row.ctx, row.arg)
    ensures !RowErrs(u, bodies, failing, row)
  {
    CanFailIff(u, bodies, row.kind, row.ctx, row.arg);
    if RowErrs(u, bodies, failing, row) {
      assert FailCapable(u, bodies, row.stored.value.dyn);
    }
  }

  // ---------------------------------------------------------------- the verdict on fail-capability, exactly

  /** What record and rules say together: the service has a check that can report an error. */
  predicate SaysCanFail(rec: ServiceRecord, reports: seq<SiteReport>, site: Site)
  {
    rec.implementsCheck && rec.kind != Transient &&
    SiteReport(HW7, site) !in reports && SiteReport(HW8, site) !in reports
  }

  /** The check cannot fail, and neither its body nor a verdict about it is at hand. */
  ghost predicate Blind(ctx: Context, bodies: map<FuncId, seq<Node>>, id: FuncId)
  {
    id !in ctx.methods && id in bodies && CannotFail(bodies[id]) && id !in ctx.nilFacts && id !in ctx.nakedFacts
  }

  /** Only an identifier spelled nil denotes nil. */
  ghost predicate NilIsSpelledNil(bodies: map<FuncId, seq<Node>>)
  {
    forall id | id in bodies :: NilSpelling(bodies[id])
  }

  ghost predicate NilSpelling(body: seq<Node>)
  {
    (|body| == 1 && body[0].Return? && |body[0].results| == 1 && body[0].results[0].Ident? &&
     body[0].results[0].obj == PredeclaredNil)
    ==> body[0].results[0].name == "nil"
  }

  lemma VerdictIsTrivialBody(u: Universe, ctx: Context, bodies: map<FuncId, seq<Node>>, t: Type, id: FuncId)
    requires WellFormed(u) && OfNamed(u, t) && Dispatches(u, t, id)
    requires TruthfulContext(ctx, bodies) && NilNotShadowed(bodies) && NilIsSpelledNil(bodies)
    ensures HasSoleNilReturnCheck(u, ctx, t) || HasNakedReturnCheck(u, ctx, t) <==>
      id in bodies && CannotFail(bodies[id]) && !Blind(ctx, bodies, id)
  {
    JudgedBodyIsDispatched(u, t, id);
    if id in bodies { assert NilSpelling(bodies[id]); }
  }

  lemma SaysCanFailMeans(u: Universe, ctx: Context, kind: ServiceKind, site: Site, arg: Node)
    requires !kind.Alias? && InstanceOf(u, ctx, kind, arg) != NoType
    ensures var t := InstanceOf(u, ctx, kind, arg);
      var (rec, reports) := EvalProvider(u, ctx, kind, site, arg);
      SaysCanFail(rec, reports, site) <==>
        IsSwept(kind) && ImplementsAnyCheck(u, t) &&
        !HasSoleNilReturnCheck(u, ctx, t) && !HasNakedReturnCheck(u, ctx, t)
  {
    var facts := FactsOf(u, ctx, kind, InstanceOf(u, ctx, kind, arg));
    RulesAreWarranted(kind, facts, HW7);
    RulesAreWarranted(kind, facts, HW8);
    ReportedIffAmong(KindRules(kind, facts), site, HW7);
    ReportedIffAmong(KindRules(kind, facts), site, HW8);
  }

  /** The verdict is passed on a check that the analyzer is blind on. */
  ghost predicate BlindOn(u: Universe, ctx: Context, bodies: map<FuncId, seq<Node>>, t: Type)
  {
    exists id :: Dispatches(u, t, id) && Blind(ctx, bodies, id)
  }

  /** What it takes for a verdict on a swept registration to be right. "Can fail": some loose source can, or the
      resolved type is stored and its check is not one that goes unseen. "Cannot fail": no loose source can, nor
      the resolved type, whose nil must be nil if HW-7 was raised; where no named type was resolved, no concrete
      source has a check that can fail. */
  ghost predicate VerdictHolds(u: Universe, bodies: map<FuncId, seq<Node>>, ctx: Context, kind: ServiceKind, arg: Node,
                               says: bool, blind: bool)
  {
    var t := InstanceOf(u, ctx, kind, arg);
    if says then !LooseCannotFail(u, bodies, ctx, kind, arg) || (!IsOpen(u, t) && !blind)
    else
      && LooseCannotFail(u, bodies, ctx, kind, arg)
      && if OfNamed(u, t) then !IsOpen(u, t) && Raises(u, ctx, kind, arg, HW7) ==> ReturnsRealNil(u, bodies, t)
         else forall s | Source(u, ctx, kind, arg, s) && !IsOpen(u, s) :: !FailCapable(u, bodies, s)
  }

  /** A dispatched check that neither HW-7 nor HW-8 speaks about can fail, unless it goes unseen. */
  lemma UnjudgedCanFailIff(u: Universe, bodies: map<FuncId, seq<Node>>, ctx: Context, t: Type, id: FuncId)
    requires WellFormed(u) && OfNamed(u, t) && Dispatches(u, t, id)
    requires TruthfulContext(ctx, bodies) && NilIsSpelledNil(bodies)
    requires !HasSoleNilReturnCheck(u, ctx, t) && !HasNakedReturnCheck(u, ctx, t)
    ensures FailCapable(u, bodies, t) <==> !BlindOn(u, ctx, bodies, t)
  {
    JudgedBodyIsDispatched(u, t, id);
    OneBodyDecides(u, bodies, t, id);
    forall id' | Dispatches(u, t, id') ensures id' == id { DispatchIsUnique(u, t, id, id'); }
    if id in bodies { assert NilSpelling(bodies[id]); }
  }

  /** A check that HW-7 or HW-8 speaks about can fail exactly when it is HW-7 and its nil is not nil. */
  lemma JudgedCanFailIff(u: Universe, bodies: map<FuncId, seq<Node>>, ctx: Context, kind: ServiceKind, t: Type)
    requires WellFormed(u) && OfNamed(u, t) && IsSwept(kind) && ImplementsAnyCheck(u, t)
    requires TruthfulContext(ctx, bodies)
    requires HasSoleNilReturnCheck(u, ctx, t) || HasNakedReturnCheck(u, ctx, t)
    ensures FailCapable(u, bodies, t) <==>
      HW7 in KindRules(kind, FactsOf(u, ctx, kind, t)) && !ReturnsRealNil(u, bodies, t)
  {
    var facts := FactsOf(u, ctx, kind, t);
    RulesAreWarranted(kind, facts, HW7);
    RulesAreWarranted(kind, facts, HW8);
    GreenTypeCanFailIff(u, ctx, bodies, kind, t, if HasSoleNilReturnCheck(u, ctx, t) then HW7 else HW8);
  }

  lemma NamedVerdict(u: Universe, bodies: map<FuncId, seq<Node>>, ctx: Context, kind: ServiceKind, t: Type)
    requires WellFormed(u) && OfNamed(u, t) && IsSwept(kind)
    requires TruthfulContext(ctx, bodies) && NilIsSpelledNil(bodies)
    ensures var says :=
        ImplementsAnyCheck(u, t) && !HasSoleNilReturnCheck(u, ctx, t) && !HasNakedReturnCheck(u, ctx, t);
      FailCapable(u, bodies, t) <==>
        if says then !BlindOn(u, ctx, bodies, t)
        else HW7 in KindRules(kind, FactsOf(u, ctx, kind, t)) && !ReturnsRealNil(u, bodies, t)
  {
    AnyCheckIsDispatch(u, t);
    RulesAreWarranted(kind, FactsOf(u, ctx, kind, t), HW7);
    if ImplementsAnyCheck(u, t) {
      if HasSoleNilReturnCheck(u, ctx, t) || HasNakedReturnCheck(u, ctx, t) {
        JudgedCanFailIff(u, bodies, ctx, kind, t);
      } else {
        var id :| Dispatches(u, t, id);
        UnjudgedCanFailIff(u, bodies, ctx, t, id);
      }
    }
  }

  lemma OfNamedIsResolved(u: Universe, t: Type)
    requires OfNamed(u, t)
    ensures t != NoType && !t.Tuple?
  {}

  lemma SaysCanFailIsOfNamed(u: Universe, ctx: Context, kind: ServiceKind, site: Site, arg: Node)
    ensures var (rec, reports) := EvalProvider(u, ctx, kind, site, arg);
      SaysCanFail(rec, reports, site) ==> OfNamed(u, InstanceOf(u, ctx, kind, arg))
  {
    ShutdownIsOfNamed(u, InstanceOf(u, ctx, kind, arg));
  }

  lemma NotSweptSaysNothing(u: Universe, bodies: map<FuncId, seq<Node>>, ctx: Context, kind: ServiceKind,
                            site: Site, arg: Node)
    requires !IsSwept(kind) && !kind.Alias?
    ensures var (rec, reports) := EvalProvider(u, ctx, kind, site, arg);
      !CanFail(u, bodies, kind, ctx, arg) && !SaysCanFail(rec, reports, site)
  {
    CanFailFromSource(u, bodies, kind, ctx, arg);
  }

  /** Without a named type, only a loose or a concrete source can fail, and the verdict is "cannot fail". */
  lemma UnnamedCanFailIff(u: Universe, bodies: map<FuncId, seq<Node>>, ctx: Context, kind: ServiceKind, arg: Node)
    requires IsSwept(kind)
    ensures CanFail(u, bodies, kind, ctx, arg) <==>
      !LooseCannotFail(u, bodies, ctx, kind, arg) ||
      exists s :: Source(u, ctx, kind, arg, s) && !IsOpen(u, s) && FailCapable(u, bodies, s)
  {
    CanFailFromSource(u, bodies, kind, ctx, arg);
    forall s | !IsOpen(u, s) ensures SourceCanFail(u, bodies, s) <==> FailCapable(u, bodies, s) {
      ConcreteSourceFails(u, bodies, s);
    }
  }

  /** The verdict on fail-capability, for every registration of every program: it is right exactly when, for a
      swept kind, the condition above holds. */
  lemma VerdictRightIff(u: Universe, bodies: map<FuncId, seq<Node>>, ctx: Context, kind: ServiceKind,
                        site: Site, arg: Node)
    requires WellFormed(u) && !kind.Alias? && TruthfulContext(ctx, bodies) && NilIsSpelledNil(bodies)
    ensures var (rec, reports) := EvalProvider(u, ctx, kind, site, arg);
      var says := SaysCanFail(rec, reports, site);
      (CanFail(u, bodies, kind, ctx, arg) <==> says) <==>
      (IsSwept(kind) ==> VerdictHolds(u, bodies, ctx, kind, arg, says,
                                      BlindOn(u, ctx, bodies, InstanceOf(u, ctx, kind, arg))))
  {
    var t := InstanceOf(u, ctx, kind, arg);
    var says := var (rec, reports) := EvalProvider(u, ctx, kind, site, arg); SaysCanFail(rec, reports, site);
    if !IsSwept(kind) {
      NotSweptSaysNothing(u, bodies, ctx, kind, site, arg);
    } else if OfNamed(u, t) {
      OfNamedIsResolved(u, t);
      SaysCanFailMeans(u, ctx, kind, site, arg);
      NamedVerdictRight(u, bodies, ctx, kind, arg, says);
    } else {
      SaysCanFailIsOfNamed(u, ctx, kind, site, arg);
      UnnamedVerdictRight(u, bodies, ctx, kind, arg);
    }
  }

  lemma NamedVerdictRight(u: Universe, bodies: map<FuncId, seq<Node>>, ctx: Context, kind: ServiceKind, arg: Node,
                          says: bool)
    requires WellFormed(u) && IsSwept(kind) && TruthfulContext(ctx, bodies) && NilIsSpelledNil(bodies)
    requires OfNamed(u, InstanceOf(u, ctx, kind, arg))
    requires var t := InstanceOf(u, ctx, kind, arg);
      says <==> ImplementsAnyCheck(u, t) && !HasSoleNilReturnCheck(u, ctx, t) && !HasNakedReturnCheck(u, ctx, t)
    ensures (CanFail(u, bodies, kind, ctx, arg) <==> says) <==>
      VerdictHolds(u, bodies, ctx, kind, arg, says, BlindOn(u, ctx, bodies, InstanceOf(u, ctx, kind, arg)))
  {
    var t := InstanceOf(u, ctx, kind, arg);
    OfNamedIsResolved(u, t);
    ResolvedCanFailIff(u, bodies, ctx, kind, arg);
    NamedVerdict(u, bodies, ctx, kind, t);
  }

  lemma UnnamedVerdictRight(u: Universe, bodies: map<FuncId, seq<Node>>, ctx: Context, kind: ServiceKind, arg: Node)
    requires IsSwept(kind) && !OfNamed(u, InstanceOf(u, ctx, kind, arg))
    ensures !CanFail(u, bodies, kind, ctx, arg) <==>
      VerdictHolds(u, bodies, ctx, kind, arg, false, BlindOn(u, ctx, bodies, InstanceOf(u, ctx, kind, arg)))
  {
    UnnamedCanFailIff(u, bodies, ctx, kind, arg);
  }

  /** Where the resolved type is concrete and named and the analyzer is not blind, "can fail" is always right,
      and a registration that it calls safe can fail only through a loose source or a nil that is not nil. */
  lemma RulesDecideFailability(u: Universe, bodies: map<FuncId, seq<Node>>, ctx: Context, kind: ServiceKind,
                               site: Site, arg: Node)
    requires WellFormed(u) && !kind.Alias? && TruthfulContext(ctx, bodies) && NilIsSpelledNil(bodies)
    requires OfNamed(u, InstanceOf(u, ctx, kind, arg)) && !IsOpen(u, InstanceOf(u, ctx, kind, arg))
    requires !BlindOn(u, ctx, bodies, InstanceOf(u, ctx, kind, arg))
    ensures var (rec, reports) := EvalProvider(u, ctx, kind, site, arg);
      && (SaysCanFail(rec, reports, site) ==> CanFail(u, bodies, kind, ctx, arg))
      && (CanFail(u, bodies, kind, ctx, arg) <==>
            SaysCanFail(rec, reports, site) ||
            (IsSwept(kind) && (!LooseCannotFail(u, bodies, ctx, kind, arg) ||
                               (Raises(u, ctx, kind, arg, HW7) &&
                                !ReturnsRealNil(u, bodies, InstanceOf(u, ctx, kind, arg))))))
  {
    var t := InstanceOf(u, ctx, kind, arg);
    OfNamedIsResolved(u, t);
    SaysCanFailMeans(u, ctx, kind, site, arg);
    ResolvedCanFailIff(u, bodies, ctx, kind, arg);
    if IsSwept(kind) { NamedVerdict(u, bodies, ctx, kind, t); }
  }

  lemma OneBodyDecides(u: Universe, bodies: map<FuncId, seq<Node>>, t: Type, id: FuncId)
    requires Dispatches(u, t, id)
    ensures FailCapable(u, bodies, t) <==> (id in bodies ==> !CannotFail(bodies[id]))
  {
    forall id' | Dispatches(u, t, id') ensures id' == id { DispatchIsUnique(u, t, id, id'); }
  }

  // ---------------------------------------------------------------- where the code says more than is true

  /** HW-7 goes by the spelling of the identifier: its claim holds exactly when that identifier is the
      predeclared nil, and no loose source fits a type that fails. */
  lemma HW7HoldsIff(u: Universe, bodies: map<FuncId, seq<Node>>, ctx: Context, kind: ServiceKind, arg: Node, id: FuncId)
    requires WellFormed(u) && TruthfulContext(ctx, bodies) && IsSwept(kind)
    requires Raises(u, ctx, kind, arg, HW7) && !IsOpen(u, InstanceOf(u, ctx, kind, arg))
    requires Dispatches(u, InstanceOf(u, ctx, kind, arg), id)
    ensures id in bodies && IsSoleNilReturn(bodies[id])
    ensures !CanFail(u, bodies, kind, ctx, arg) <==>
      bodies[id][0].results[0].obj == PredeclaredNil && LooseCannotFail(u, bodies, ctx, kind, arg)
  {
    var t := InstanceOf(u, ctx, kind, arg);
    GreenHoldsIff(u, bodies, ctx, kind, arg, HW7);
    GreenRuleMeaning(kind, FactsOf(u, ctx, kind, t), HW7);
    ShutdownIsOfNamed(u, t);
    JudgedBodyIsDispatched(u, t, id);
    forall id' | Dispatches(u, t, id') ensures id' == id { DispatchIsUnique(u, t, id, id'); }
  }

  /** Values are not required to be of concrete type: HW-1 on a value holds exactly when its static type
      is concrete or no type that fits it has a check that can fail. */
  lemma HW1OnValueHoldsIff(u: Universe, bodies: map<FuncId, seq<Node>>, ctx: Context, arg: Node)
    requires WellFormed(u) && TruthfulContext(ctx, bodies) && Raises(u, ctx, Eager, arg, HW1)
    ensures !CanFail(u, bodies, Eager, ctx, arg) <==>
      !IsOpen(u, TypeOf(arg)) ||
      forall t | !IsOpen(u, t) && !t.Tuple? && Satisfies(u, TypeOf(arg), t) :: !FailCapable(u, bodies, t)
  {
    GreenHoldsIff(u, bodies, ctx, Eager, arg, HW1);
    GreenRuleMeaning(Eager, FactsOf(u, ctx, Eager, TypeOf(arg)), HW1);
    ShutdownIsOfNamed(u, TypeOf(arg));
    if IsOpen(u, TypeOf(arg)) {
      forall t | !IsOpen(u, t) && !t.Tuple? && Satisfies(u, TypeOf(arg), t)
        ensures MayHold(u, TypeOf(arg), Val(t))
      {}
    }
  }

  /** A provider behind a declared interface is resolved to the result list of a forwarded call exactly when
      it forwards one and returns no other concrete type. */
  lemma ForwardedIff(u: Universe, ctx: Context, kind: ServiceKind, arg: Node, parts: seq<Type>)
    requires !kind.Eager? && IsOpen(u, DeclaredResult(u, TypeOf(arg)))
    ensures InstanceOf(u, ctx, kind, arg) == Tuple(parts) <==>
      && DeclaredResult(u, TypeOf(arg)) != NoType
      && ReturnedFirst(ctx.funcs, arg, Tuple(parts))
      && forall s | !IsOpen(u, s) && ReturnedFirst(ctx.funcs, arg, s) :: s == Tuple(parts)
  {
    if DeclaredResult(u, TypeOf(arg)) != NoType { BehindInterface(u, ctx, kind, arg, Tuple(parts)); }
  }

  /** It is then recorded without a check and without a report, yet it can fail exactly when it is lazy and
      the first result of the forwarded call, or an interface-typed or naked return beside it, can. */
  lemma ForwardedCallHidesCheck(u: Universe, bodies: map<FuncId, seq<Node>>, ctx: Context, kind: ServiceKind,
                                site: Site, arg: Node, parts: seq<Type>)
    requires (kind.Lazy? || kind.Transient?) && IsOpen(u, DeclaredResult(u, TypeOf(arg)))
    requires InstanceOf(u, ctx, kind, arg) == Tuple(parts) && parts != []
    ensures var (rec, reports) := EvalProvider(u, ctx, kind, site, arg);
      !rec.unresolved && !rec.implementsCheck && reports == []
    ensures CanFail(u, bodies, kind, ctx, arg) <==>
      kind.Lazy? && (SourceCanFail(u, bodies, parts[0]) || !LooseCannotFail(u, bodies, ctx, kind, arg))
  {
    TupleHasNoRules(u, ctx, kind, parts);
    ForwardedIff(u, ctx, kind, arg, parts);
    CanFailFromSource(u, bodies, kind, ctx, arg);
    ForwardedSources(u, ctx, kind, arg, parts);
  }

  lemma ForwardedSources(u: Universe, ctx: Context, kind: ServiceKind, arg: Node, parts: seq<Type>)
    requires !kind.Eager? && IsOpen(u, DeclaredResult(u, TypeOf(arg)))
    requires InstanceOf(u, ctx, kind, arg) == Tuple(parts) && parts != []
    ensures Source(u, ctx, kind, arg, parts[0])
    ensures forall s | Source(u, ctx, kind, arg, s) && !IsOpen(u, s) :: s == parts[0]
  {
    var declared := DeclaredResult(u, TypeOf(arg));
    ForwardedIff(u, ctx, kind, arg, parts);
    var forwarded :| Returned(ctx.funcs, arg, forwarded) && forwarded != [] && TypeOf(forwarded[0]) == Tuple(parts);
    assert Executed(ctx.funcs, arg) && ReturnType(declared, forwarded) == parts[0];
    forall results | Returned(ctx.funcs, arg, results) && !IsOpen(u, ReturnType(declared, results))
      ensures ReturnType(declared, results) == parts[0]
    {
      assert results != [] && ReturnedFirst(ctx.funcs, arg, TypeOf(results[0]));
    }
  }
}
