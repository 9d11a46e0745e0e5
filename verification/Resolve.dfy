/** Which concrete type a registration stores, and which lifecycle interfaces a stored type satisfies
    (pkg/healthwash/resolve.go). */
module Resolve {
  import opened GoTypes
  import opened Syntax

  const CHECK := "HealthCheck"
  const SHUTDOWN := "Shutdown"
  const BARE_CHECK := Sig([], ["error"])
  const CTX_CHECK := Sig(["context.Context"], ["error"])

  /** The method m of the stored type under its exact signature. Only named types and pointers to
      named types are asked. */
  predicate Implements(u: Universe, t: Type, f: string, sig: Sig)
  {
    match t
    case Named(n) => HasSignature(LookupMember(u, n, false, false, f), sig)
    case Pointer(Named(n)) => HasSignature(LookupMember(u, n, true, false, f), sig)
    case _ => false
  }

  predicate HasSignature(m: Option<Member>, sig: Sig)
  {
    m.Some? && m.value.Method? && m.value.sig == sig
  }

  predicate ImplementsAnyCheck(u: Universe, t: Type)
  {
    Implements(u, t, CHECK, CTX_CHECK) || Implements(u, t, CHECK, BARE_CHECK)
  }

  /** The four Shutdowner variants share one method name and differ in signature only. */
  predicate ImplementsAnyShutdown(u: Universe, t: Type)
  {
    || Implements(u, t, SHUTDOWN, Sig([], []))
    || Implements(u, t, SHUTDOWN, Sig([], ["error"]))
    || Implements(u, t, SHUTDOWN, Sig(["context.Context"], []))
    || Implements(u, t, SHUTDOWN, Sig(["context.Context"], ["error"]))
  }

  predicate IsConcrete(u: Universe, t: Type)
  {
    match t
    case NoType => false
    case UntypedNil => false
    case TypeParam(_, _) => false
    case InterfaceLit(_) => false
    case Named(n) => n in u ==> !u[n].under.InterfaceType?
    case _ => true
  }

  /** Concrete are exactly the types that leave nothing open. */
  lemma ConcreteIff(u: Universe, t: Type)
    ensures IsConcrete(u, t) <==> !IsOpen(u, t)
  {}

  /** The body of a provider argument when it is visible in the analyzed package: a literal, or a
      function or method declared there. */
  function ProviderBody(funcs: map<FuncId, Func>, arg: Node): Option<seq<Node>>
  {
    match arg
    case FuncLit(_, body, _) => Some(body)
    case Ident(_, FuncObj(fn), _) => if fn in funcs then Some(funcs[fn].body) else None
    case Selector(_, _, FuncObj(fn), _) => if fn in funcs then Some(funcs[fn].body) else None
    case _ => None
  }

  /** The concrete first-result types of return statements, in order. */
  function ConcreteResults(u: Universe, rets: seq<seq<Node>>): (r: seq<Type>)
    ensures forall t | t in r :: IsConcrete(u, t)
  {
    if rets == [] then []
    else
      var here := if rets[0] != [] && IsConcrete(u, TypeOf(rets[0][0])) then [TypeOf(rets[0][0])] else [];
      here + ConcreteResults(u, rets[1..])
  }

  /** The one type all of them agree on; none, or no agreement, is no type. */
  function Agreed(types: seq<Type>): Type
  {
    if types != [] && forall t | t in types :: t == types[0] then types[0] else NoType
  }

  function UnifiedInstance(u: Universe, body: seq<Node>): Type
  {
    Agreed(ConcreteResults(u, ReturnsIn(body)))
  }

  lemma {:induction false} ConcreteResultsAppend(u: Universe, a: seq<seq<Node>>, b: seq<seq<Node>>)
    ensures ConcreteResults(u, a + b) == ConcreteResults(u, a) + ConcreteResults(u, b)
  {
    if a == [] {
      assert a + b == b;
    } else {
      assert (a + b)[1..] == a[1..] + b;
      ConcreteResultsAppend(u, a[1..], b);
    }
  }

  lemma ConcreteResultsSnoc(u: Universe, rets: seq<seq<Node>>, k: nat)
    requires k < |rets|
    ensures ConcreteResults(u, rets[..k + 1]) == ConcreteResults(u, rets[..k]) +
      if rets[k] != [] && IsConcrete(u, TypeOf(rets[k][0])) then [TypeOf(rets[k][0])] else []
  {
    assert rets[..k + 1] == rets[..k] + [rets[k]];
    ConcreteResultsAppend(u, rets[..k], [rets[k]]);
    assert ConcreteResults(u, [rets[k]][1..]) == [];
  }

  /** Two different types among the first k returns settle it. */
  lemma Disagreed(u: Universe, rets: seq<seq<Node>>, k: nat, s: Type, t: Type)
    requires k <= |rets| && s != t && s in ConcreteResults(u, rets[..k]) && t in ConcreteResults(u, rets[..k])
    ensures Agreed(ConcreteResults(u, rets)) == NoType
  {
    assert rets == rets[..k] + rets[k..];
    ConcreteResultsAppend(u, rets[..k], rets[k..]);
    assert s in ConcreteResults(u, rets) && t in ConcreteResults(u, rets);
  }

  /** The scan over the returns: the first concrete type is the candidate, the first different one
      ends it. */
  method ConcreteInstanceFromReturns(u: Universe, body: seq<Node>) returns (instance: Type)
    ensures instance == UnifiedInstance(u, body)
  {
    instance := NoType;
    var rets := ReturnsIn(body);
    var k := 0;
    while k < |rets|
      invariant 0 <= k <= |rets|
      invariant instance == NoType <==> ConcreteResults(u, rets[..k]) == []
      invariant forall t | t in ConcreteResults(u, rets[..k]) :: t == instance
    {
      var results := rets[k];
      ConcreteResultsSnoc(u, rets, k);
      ghost var before := ConcreteResults(u, rets[..k]);
      assert before != [] ==> before[0] in before;
      k := k + 1;
      if |results| == 0 { continue; }
      var t := TypeOf(results[0]);
      if !IsConcrete(u, t) { continue; }
      if instance == NoType {
        instance := t;
        continue;
      }
      if instance != t {
        Disagreed(u, rets, k, instance, t);
        return NoType;
      }
    }
    assert rets[..k] == rets;
    ghost var all := ConcreteResults(u, rets);
    assert all != [] ==> all[0] in all;
  }

  lemma {:induction false} ConcreteResultsAre(u: Universe, rets: seq<seq<Node>>, t: Type)
    ensures t in ConcreteResults(u, rets) <==>
      exists r :: r in rets && r != [] && TypeOf(r[0]) == t && !IsOpen(u, t)
  {
    ConcreteIff(u, t);
    if rets == [] {
    } else {
      ConcreteResultsAre(u, rets[1..], t);
      var here := if rets[0] != [] && IsConcrete(u, TypeOf(rets[0][0])) then [TypeOf(rets[0][0])] else [];
      assert forall x :: x in ConcreteResults(u, rets) <==> x in here || x in ConcreteResults(u, rets[1..]);
      if r :| r in rets && r != [] && TypeOf(r[0]) == t && !IsOpen(u, t) {
        assert r == rets[0] || r in rets[1..];
      }
    }
  }

  /** Unification yields t exactly when some return carries a concrete first result and every one that
      does carries t; the order of the returns plays no part. */
  lemma UnifiedIff(u: Universe, body: seq<Node>, t: Type)
    requires t != NoType
    ensures UnifiedInstance(u, body) == t <==>
      && (exists r :: r in ReturnsIn(body) && r != [] && TypeOf(r[0]) == t && !IsOpen(u, t))
      && (forall r | r in ReturnsIn(body) && r != [] && !IsOpen(u, TypeOf(r[0])) :: TypeOf(r[0]) == t)
  {
    var rets := ReturnsIn(body);
    AgreedIff(ConcreteResults(u, rets), t);
    ConcreteResultsAre(u, rets, t);
    forall r | r in rets && r != [] && !IsOpen(u, TypeOf(r[0])) ensures TypeOf(r[0]) in ConcreteResults(u, rets) {
      ConcreteResultsAre(u, rets, TypeOf(r[0]));
    }
    forall s | s in ConcreteResults(u, rets)
      ensures exists r :: r in rets && r != [] && TypeOf(r[0]) == s && !IsOpen(u, s)
    {
      ConcreteResultsAre(u, rets, s);
    }
  }

  lemma AgreedIff(types: seq<Type>, t: Type)
    requires t != NoType
    ensures Agreed(types) == t <==> t in types && forall s | s in types :: s == t
  {
    if types != [] { assert types[0] in types; }
  }

  /** The declared type (what the container registers under) and the stored instance's type; NoType
      for an instance that is not statically visible. Values are taken as they are. */
  function RegistrationTypes(u: Universe, funcs: map<FuncId, Func>, isValue: bool, arg: Node): (Type, Type)
  {
    if isValue then (TypeOf(arg), TypeOf(arg))
    else
      match DeclaredResult(u, TypeOf(arg))
      case NoType => (NoType, NoType)
      case declared =>
        if IsConcrete(u, declared) then (declared, declared)
        else
          match ProviderBody(funcs, arg)
          case None => (declared, NoType)
          case Some(body) => (declared, UnifiedInstance(u, body))
  }

  /** The type's underlying type is a function type with these results. */
  ghost predicate IsProviderType(u: Universe, t: Type, results: seq<Type>)
  {
    t == FuncLitType(results) || (t.Named? && t.name in u && u[t.name].under == FuncType(results))
  }

  /** The first result of a provider's signature. */
  function DeclaredResult(u: Universe, t: Type): Type
  {
    match t
    case FuncLitType(results) => if results == [] then NoType else results[0]
    case Named(n) =>
      if n in u && u[n].under.FuncType? && u[n].under.results != [] then u[n].under.results[0] else NoType
    case _ => NoType
  }

  /** A function type, named or not, yields the first of its results; any other type yields none. */
  lemma DeclaredResultIs(u: Universe, t: Type)
    ensures forall results | IsProviderType(u, t, results) && results != [] :: DeclaredResult(u, t) == results[0]
    ensures (forall results | IsProviderType(u, t, results) :: results == []) ==> DeclaredResult(u, t) == NoType
  {
    match t
    case FuncLitType(results) => assert IsProviderType(u, t, results);
    case Named(n) => if n in u && u[n].under.FuncType? { assert IsProviderType(u, t, u[n].under.results); }
    case _ =>
  }
}
