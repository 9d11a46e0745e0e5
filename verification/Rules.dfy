/** The rule engine: one registration site in, one coverage record and its rule reports out
    (pkg/healthwash/rules.go, facts.go, and the registration tables of healthwash.go). */
module Rules {
  import opened GoTypes
  import opened Syntax
  import opened Resolve

  datatype ServiceKind = Lazy | Eager | Transient | Alias

  datatype ServiceRecord = ServiceRecord(
    name: string, kind: ServiceKind, implementsCheck: bool, unresolved: bool, pos: nat)

  datatype SiteReport = SiteReport(rule: Rule, site: Site)

  datatype Rule = HW0 | HW1 | HW2 | HW3 | HW4 | HW5 | HW7 | HW8 | Unresolved

  /** The stable identifiers that suppressions and configurations key on. */
  function RuleId(rule: Rule): string
  {
    match rule
    case HW0 => "HW-0"
    case HW1 => "HW-1"
    case HW2 => "HW-2"
    case HW3 => "HW-3"
    case HW4 => "HW-4"
    case HW5 => "HW-5"
    case HW7 => "HW-7"
    case HW8 => "HW-8"
    case Unresolved => "HW-unresolved"
  }

  const DO_PATH := "github.com/samber/do/v2"

  /** What is known while one package is analyzed: the bodies declared in it (functions, and methods
      by receiver), the verdicts other packages exported about method bodies, and the strict flag. */
  datatype Context = Context(
    funcs: map<FuncId, Func>, methods: map<FuncId, seq<Node>>,
    nilFacts: set<FuncId>, nakedFacts: set<FuncId>, strict: bool)

  function RegKindOf(fn: string): Option<ServiceKind>
  {
    if fn in ["Provide", "ProvideNamed", "Override", "OverrideNamed"] then Some(Lazy)
    else if fn in ["ProvideValue", "ProvideNamedValue", "OverrideValue", "OverrideNamedValue"] then Some(Eager)
    else if fn in ["ProvideTransient", "ProvideNamedTransient", "OverrideTransient", "OverrideNamedTransient"]
    then Some(Transient)
    else if fn in ["As", "AsNamed"] then Some(Alias)
    else None
  }

  function ProviderArgIndex(fn: string): Option<nat>
  {
    if fn in ["Provide", "Override", "ProvideValue", "OverrideValue", "ProvideTransient", "OverrideTransient"]
    then Some(1)
    else if fn in ["ProvideNamed", "OverrideNamed", "ProvideNamedValue", "OverrideNamedValue",
                   "ProvideNamedTransient", "OverrideNamedTransient"]
    then Some(2)
    else None
  }

  function TypeString(t: Type): string
  {
    match t
    case Named(n) => n
    case StructLit(k) => k
    case Pointer(e) => "*" + TypeString(e)
    case Basic(n) => n
    case TypeParam(n, _) => n
    case UntypedNil => "untyped nil"
    case NoType => "<unknown>"
    case FuncLitType(_) => "func"
    case InterfaceLit(_) => "interface"
    case Tuple(_) => "tuple"
  }

  /** Pointers, however many, to a type whose name does not look like one. */
  predicate IsNamedChain(t: Type)
  {
    match t
    case Named(n) => n == "" || n[0] != '*'
    case Pointer(e) => IsNamedChain(e)
    case _ => false
  }

  /** Named types, and pointers to them, are told apart by their names. */
  lemma {:induction false} NamesTell(s: Type, t: Type)
    requires IsNamedChain(s) && IsNamedChain(t) && TypeString(s) == TypeString(t)
    ensures s == t
  {
    match s
    case Named(n) => if t.Pointer? { assert TypeString(t)[0] == '*'; }
    case Pointer(e) =>
      assert TypeString(s)[0] == '*';
      assert TypeString(s)[1..] == TypeString(e);
      if t.Pointer? {
        assert TypeString(t)[1..] == TypeString(t.elem);
        NamesTell(e, t.elem);
      }
  }

  function BaseNamed(t: Type): Option<TypeName>
  {
    match t
    case Named(n) => Some(n)
    case Pointer(Named(n)) => Some(n)
    case _ => None
  }

  /** The check whose body HW-7 and HW-8 judge: addressable lookup on the base type. */
  function ResolveHealthCheck(u: Universe, stored: Type): Option<FuncId>
  {
    match BaseNamed(stored)
    case None => None
    case Some(n) =>
      match LookupMember(u, n, false, true, CHECK)
      case Some(Method(id, _, _)) => Some(id)
      case _ => None
  }

  /** Judged by the identifier's spelling, not by what it resolves to. */
  predicate IsSoleNilReturn(body: seq<Node>)
  {
    |body| == 1 && body[0].Return? && |body[0].results| == 1 &&
    body[0].results[0].Ident? && body[0].results[0].name == "nil"
  }

  predicate IsSoleNakedReturn(body: seq<Node>)
  {
    |body| == 1 && body[0].Return? && body[0].results == []
  }

  predicate HasSoleNilReturnCheck(u: Universe, ctx: Context, stored: Type)
  {
    match ResolveHealthCheck(u, stored)
    case None => false
    case Some(fn) => if fn in ctx.methods then IsSoleNilReturn(ctx.methods[fn]) else fn in ctx.nilFacts
  }

  predicate HasNakedReturnCheck(u: Universe, ctx: Context, stored: Type)
  {
    match ResolveHealthCheck(u, stored)
    case None => false
    case Some(fn) => if fn in ctx.methods then IsSoleNakedReturn(ctx.methods[fn]) else fn in ctx.nakedFacts
  }

  datatype TypeFacts = TypeFacts(
    anyCheck: bool, bareCheck: bool, ctxCheck: bool, anyCheckP: bool, shutdown: bool, valueReg: bool,
    nilBody: bool, emptyBody: bool)

  function FactsOf(u: Universe, ctx: Context, kind: ServiceKind, stored: Type): TypeFacts
  {
    var dispatched := kind.Lazy? || kind.Eager?;
    TypeFacts(
      ImplementsAnyCheck(u, stored),
      Implements(u, stored, CHECK, BARE_CHECK),
      Implements(u, stored, CHECK, CTX_CHECK),
      ImplementsAnyCheck(u, Pointer(stored)),
      ImplementsAnyShutdown(u, stored),
      !stored.Pointer?,
      dispatched && HasSoleNilReturnCheck(u, ctx, stored),
      dispatched && HasNakedReturnCheck(u, ctx, stored))
  }

  function If(c: bool, rule: Rule): seq<Rule>
  {
    if c then [rule] else []
  }

  function TransientRules(facts: TypeFacts): seq<Rule>
  {
    If(facts.anyCheck, HW3) + If(facts.bareCheck && !facts.ctxCheck, HW2)
  }

  /** HW-5 short-circuits: it shares its remedy with HW-1. */
  function SweepRules(kind: ServiceKind, facts: TypeFacts): seq<Rule>
  {
    if facts.valueReg && facts.anyCheckP && !facts.anyCheck then [HW5]
    else
      If(facts.shutdown && !facts.anyCheck, HW1) + if facts.anyCheck then CheckRules(kind, facts) else []
  }

  function CheckRules(kind: ServiceKind, facts: TypeFacts): seq<Rule>
  {
    If(kind.Lazy?, HW4) + If(facts.bareCheck && !facts.ctxCheck, HW2) + If(facts.nilBody, HW7) +
      If(facts.emptyBody, HW8)
  }

  function KindRules(kind: ServiceKind, facts: TypeFacts): seq<Rule>
  {
    match kind
    case Alias => []
    case Transient => TransientRules(facts)
    case _ => SweepRules(kind, facts)
  }

  function ReportAt(rules: seq<Rule>, site: Site): (reports: seq<SiteReport>)
    ensures |reports| == |rules| && forall i | 0 <= i < |rules| :: reports[i] == SiteReport(rules[i], site)
  {
    seq(|rules|, i requires 0 <= i < |rules| => SiteReport(rules[i], site))
  }

  predicate IsSwept(kind: ServiceKind)
  {
    kind.Lazy? || kind.Eager?
  }

  /** When a rule is warranted, each on its own: which kinds it speaks about, and what it takes. */
  predicate Warranted(kind: ServiceKind, facts: TypeFacts, rule: Rule)
  {
    match rule
    case HW1 => IsSwept(kind) && facts.shutdown && !facts.anyCheck && !(facts.valueReg && facts.anyCheckP)
    case HW2 => (kind.Transient? || (IsSwept(kind) && facts.anyCheck)) && facts.bareCheck && !facts.ctxCheck
    case HW3 => kind.Transient? && facts.anyCheck
    case HW4 => kind.Lazy? && facts.anyCheck
    case HW5 => IsSwept(kind) && facts.valueReg && facts.anyCheckP && !facts.anyCheck
    case HW7 => IsSwept(kind) && facts.anyCheck && facts.nilBody
    case HW8 => IsSwept(kind) && facts.anyCheck && facts.emptyBody
    case _ => false
  }

  lemma RulesAreWarranted(kind: ServiceKind, facts: TypeFacts, rule: Rule)
    ensures rule in KindRules(kind, facts) <==> Warranted(kind, facts, rule)
  {
    CheckRulesAre(kind, facts, rule);
  }

  lemma CheckRulesAre(kind: ServiceKind, facts: TypeFacts, rule: Rule)
    ensures rule in CheckRules(kind, facts) <==>
      || (rule == HW4 && kind.Lazy?)
      || (rule == HW2 && facts.bareCheck && !facts.ctxCheck)
      || (rule == HW7 && facts.nilBody)
      || (rule == HW8 && facts.emptyBody)
  {}

  lemma ReportedIffAmong(rules: seq<Rule>, site: Site, rule: Rule)
    ensures SiteReport(rule, site) in ReportAt(rules, site) <==> rule in rules
  {
    if rule in rules {
      var i :| 0 <= i < |rules| && rules[i] == rule;
      assert ReportAt(rules, site)[i] == SiteReport(rule, site);
    }
  }

  /** The appending form, rule after rule, with the early exit of HW-5: each rule is reported at the site
      exactly when it is warranted, and nothing is reported elsewhere. */
  method CollectReports(kind: ServiceKind, facts: TypeFacts, site: Site) returns (reps: seq<SiteReport>)
    ensures forall rule :: SiteReport(rule, site) in reps <==> Warranted(kind, facts, rule)
    ensures forall r | r in reps :: r.site == site
    ensures reps == ReportAt(KindRules(kind, facts), site)
  {
    reps := [];
    if kind.Transient? {
      reps := ReportTransientRules(facts, site);
    } else if !kind.Alias? {
      reps := ReportSweepRules(kind, facts, site);
    }
    forall rule ensures SiteReport(rule, site) in reps <==> Warranted(kind, facts, rule) {
      RulesAreWarranted(kind, facts, rule);
      ReportedIffAmong(KindRules(kind, facts), site, rule);
    }
  }

  method ReportTransientRules(facts: TypeFacts, site: Site) returns (reps: seq<SiteReport>)
    ensures reps == ReportAt(TransientRules(facts), site)
  {
    reps := AddIf(facts.anyCheck, HW3, site, [], []);
    reps := AddIf(facts.bareCheck && !facts.ctxCheck, HW2, site, reps, If(facts.anyCheck, HW3));
  }

  method ReportSweepRules(kind: ServiceKind, facts: TypeFacts, site: Site) returns (reps: seq<SiteReport>)
    ensures reps == ReportAt(SweepRules(kind, facts), site)
  {
    if facts.valueReg && facts.anyCheckP && !facts.anyCheck { return [SiteReport(HW5, site)]; }
    reps := AddIf(facts.shutdown && !facts.anyCheck, HW1, site, [], []);
    if facts.anyCheck {
      ghost var rules := If(kind.Lazy?, HW4);
      reps := AddIf(kind.Lazy?, HW4, site, reps, []);
      reps := AddIf(facts.bareCheck && !facts.ctxCheck, HW2, site, reps, rules);
      rules := rules + If(facts.bareCheck && !facts.ctxCheck, HW2);
      reps := AddIf(facts.nilBody, HW7, site, reps, rules);
      rules := rules + If(facts.nilBody, HW7);
      reps := AddIf(facts.emptyBody, HW8, site, reps, rules);
      rules := rules + If(facts.emptyBody, HW8);
      assert If(false, HW1) + rules == rules;
    } else {
      assert If(facts.shutdown, HW1) + [] == If(facts.shutdown, HW1);
    }
  }

  /** Appends one report under its condition; rules are those reported so far. */
  method AddIf(c: bool, rule: Rule, site: Site, reps: seq<SiteReport>, ghost rules: seq<Rule>)
    returns (more: seq<SiteReport>)
    requires reps == ReportAt(rules, site)
    ensures more == ReportAt(rules + If(c, rule), site)
    ensures rules == [] ==> more == ReportAt(If(c, rule), site)
  {
    more := if c then reps + [SiteReport(rule, site)] else reps;
    assert [] + If(c, rule) == If(c, rule);
  }

  function RegistrationProvider(fnName: string, args: seq<Node>, substitute: Option<Node>): Option<Node>
  {
    if substitute.Some? then substitute
    else
      match ProviderArgIndex(fnName)
      case None => None
      case Some(i) => if i < |args| then Some(args[i]) else None
  }

  function EvalProvider(u: Universe, ctx: Context, kind: ServiceKind, site: Site, provider: Node)
    : (ServiceRecord, seq<SiteReport>)
  {
    var (serviceType, instance) := RegistrationTypes(u, ctx.funcs, kind.Eager?, provider);
    var name := TypeString(serviceType);
    if instance == NoType then
      (ServiceRecord(name, kind, false, true, site.pos), ReportAt(If(ctx.strict, Unresolved), site))
    else
      var facts := FactsOf(u, ctx, kind, instance);
      (ServiceRecord(name, kind, facts.anyCheck, false, site.pos), ReportAt(KindRules(kind, facts), site))
  }

  /** One site. Alias rows carry no report; a site without a provider argument only counts. */
  function EvalSite(u: Universe, ctx: Context, fnName: string, kind: ServiceKind, site: Site,
                    args: seq<Node>, substitute: Option<Node>): (ServiceRecord, seq<SiteReport>)
  {
    if kind.Alias? then (ServiceRecord("", Alias, false, false, 0), [])
    else
      match RegistrationProvider(fnName, args, substitute)
      case None => (ServiceRecord("", kind, false, false, 0), [])
      case Some(provider) => EvalProvider(u, ctx, kind, site, provider)
  }

  /** The statements of the same evaluation. */
  method EvaluateSite(u: Universe, ctx: Context, fnName: string, kind: ServiceKind, site: Site,
                      args: seq<Node>, substitute: Option<Node>)
    returns (rec: ServiceRecord, reports: seq<SiteReport>)
    ensures (rec, reports) == EvalSite(u, ctx, fnName, kind, site, args, substitute)
  {
    if kind.Alias? { return ServiceRecord("", Alias, false, false, 0), []; }
    var provider := RegistrationProvider(fnName, args, substitute);
    if provider.None? { return ServiceRecord("", kind, false, false, 0), []; }
    var (serviceType, instance) := RegistrationTypes(u, ctx.funcs, kind.Eager?, provider.value);
    rec := ServiceRecord(TypeString(serviceType), kind, false, false, site.pos);
    if instance == NoType {
      rec := rec.(unresolved := true);
      reports := ReportAt(If(ctx.strict, Unresolved), site);
      return;
    }
    var facts := FactsOf(u, ctx, kind, instance);
    rec := rec.(implementsCheck := facts.anyCheck);
    reports := CollectReports(kind, facts, site);
  }
}
