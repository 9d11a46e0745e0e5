/** The driver's pass over a set of packages (internal/driver/driver.go): two sweeps that share a
    store of facts about method bodies. */
module Driver {
  import opened GoTypes
  import opened Syntax
  import opened Resolve
  import opened Rules
  import opened Wrappers
  import opened Directives
  import opened Reporting
  import opened Container
  import opened Soundness

  datatype Package = Package(importsDo: bool, decls: seq<TopDecl>, comments: seq<Comment>)

  datatype Config = Config(strict: bool, disable: string, now: Instant)

  function Disabled(cfg: Config): set<Rule>
  {
    DisabledRules(cfg.disable)
  }

  datatype Fact = NilBody | NakedReturn

  // ---------------------------------------------------------------- one package

  function FuncsOf(decls: seq<TopDecl>): map<FuncId, Func>
  {
    if decls == [] then map[]
    else
      var rest, d := FuncsOf(decls[..|decls| - 1]), decls[|decls| - 1];
      if d.Fun? && d.decl.body.Some? then rest[d.decl.fn := Func(d.decl.result, d.decl.body.value)] else rest
  }

  function MethodsOf(decls: seq<TopDecl>): map<FuncId, seq<Node>>
  {
    var funcs := FuncsOf(decls);
    map fn | fn in funcs && fn.recv != "" :: funcs[fn].body
  }

  /** A declaration of the function, with a body. */
  ghost predicate HasBody(decls: seq<TopDecl>, d: TopDecl, fn: FuncId)
  {
    d in decls && d.Fun? && d.decl.fn == fn && d.decl.body.Some?
  }

  ghost predicate IsBodyOf(decls: seq<TopDecl>, d: TopDecl, fn: FuncId, f: Func)
  {
    HasBody(decls, d, fn) && f == Func(d.decl.result, d.decl.body.value)
  }

  /** What is collected are the functions and methods declared with a body, each from such a declaration. */
  lemma {:induction false} FuncsOfIff(decls: seq<TopDecl>, fn: FuncId)
    ensures fn in FuncsOf(decls) <==> exists d :: HasBody(decls, d, fn)
    ensures fn in FuncsOf(decls) ==> exists d :: IsBodyOf(decls, d, fn, FuncsOf(decls)[fn])
    ensures fn in MethodsOf(decls) <==> fn.recv != "" && exists d :: HasBody(decls, d, fn)
    ensures fn in MethodsOf(decls) ==> MethodsOf(decls)[fn] == FuncsOf(decls)[fn].body
  {
    if decls != [] {
      var init, last := decls[..|decls| - 1], decls[|decls| - 1];
      FuncsOfIff(init, fn);
      if HasBody(decls, last, fn) {
        assert IsBodyOf(decls, last, fn, FuncsOf(decls)[fn]);
      } else if fn in FuncsOf(init) {
        var d :| IsBodyOf(init, d, fn, FuncsOf(init)[fn]);
        assert IsBodyOf(decls, d, fn, FuncsOf(decls)[fn]);
      }
      forall d | HasBody(decls, d, fn) && d != last ensures HasBody(init, d, fn) {}
    }
  }

  /** The function's only declaration with a body. */
  ghost predicate OnlyBody(decls: seq<TopDecl>, d: TopDecl, fn: FuncId)
  {
    HasBody(decls, d, fn) && forall e | HasBody(decls, e, fn) :: e == d
  }

  /** A return that leaves the declared body has t as the type of its first result. */
  ghost predicate ReturnsFirst(d: FuncDecl, t: Type)
  {
    d.body.Some? && exists results :: Leaves(d.body.value, results) && results != [] && TypeOf(results[0]) == t
  }

  /** Of a provider named in the package and declared to return an interface, t is the resolved type exactly when
      the returns that leave its declared body agree on t. */
  lemma NamedProviderIff(u: Universe, cfg: Config, pkg: Package, facts: set<FuncId>, kind: ServiceKind, arg: Node,
                         d: TopDecl, fn: FuncId, declared: Type, t: Type)
    requires !kind.Eager? && Denotes(arg, fn) && OnlyBody(pkg.decls, d, fn)
    requires exists results :: IsProviderType(u, TypeOf(arg), results) && results != [] && results[0] == declared
    requires IsOpen(u, declared) && declared != NoType && t != NoType
    ensures InstanceOf(u, ContextOf(cfg, pkg, facts), kind, arg) == t <==>
      !IsOpen(u, t) && ReturnsFirst(d.decl, t) && forall s | !IsOpen(u, s) && ReturnsFirst(d.decl, s) :: s == t
  {
    var ctx := ContextOf(cfg, pkg, facts);
    DeclaredResultIs(u, TypeOf(arg));
    NamedIsExecuted(pkg.decls, arg, d, fn);
    BehindInterface(u, ctx, kind, arg, t);
    forall s ensures ReturnedFirst(ctx.funcs, arg, s) <==> ReturnsFirst(d.decl, s) {
      NamedReturns(pkg.decls, arg, d, fn, s);
    }
  }

  lemma NamedIsExecuted(decls: seq<TopDecl>, arg: Node, d: TopDecl, fn: FuncId)
    requires Denotes(arg, fn) && OnlyBody(decls, d, fn)
    ensures forall f :: Executes(FuncsOf(decls), arg, f) <==> f == Func(d.decl.result, d.decl.body.value)
  {
    FuncsOfIff(decls, fn);
    var e :| IsBodyOf(decls, e, fn, FuncsOf(decls)[fn]);
    assert e == d;
  }

  lemma NamedReturns(decls: seq<TopDecl>, arg: Node, d: TopDecl, fn: FuncId, s: Type)
    requires Denotes(arg, fn) && OnlyBody(decls, d, fn)
    ensures ReturnedFirst(FuncsOf(decls), arg, s) <==> ReturnsFirst(d.decl, s)
  {
    NamedIsExecuted(decls, arg, d, fn);
    forall results ensures Returned(FuncsOf(decls), arg, results) <==> Leaves(d.decl.body.value, results) {
      if Leaves(d.decl.body.value, results) {
        assert Executes(FuncsOf(decls), arg, Func(d.decl.result, d.decl.body.value));
      }
    }
  }

  method CollectMethodDecls(decls: seq<TopDecl>) returns (methods: map<FuncId, seq<Node>>)
    ensures methods == MethodsOf(decls)
  {
    methods := map[];
    var k := 0;
    while k < |decls|
      invariant 0 <= k <= |decls|
      invariant methods == MethodsOf(decls[..k])
    {
      assert decls[..k + 1][..k] == decls[..k];
      if decls[k].Fun? && decls[k].decl.fn.recv != "" && decls[k].decl.body.Some? {
        methods := methods[decls[k].decl.fn := decls[k].decl.body.value];
      }
      k := k + 1;
    }
    assert decls[..k] == decls;
  }

  /** The methods a package exports a nil-body verdict for. */
  function NilExports(pkg: Package): set<FuncId>
  {
    var methods := MethodsOf(pkg.decls);
    set fn | fn in methods && fn.name == CHECK && IsSoleNilReturn(methods[fn])
  }

  /** The methods called HealthCheck that are declared with the body `return nil`. */
  lemma NilExportsIff(pkg: Package, fn: FuncId)
    ensures fn in NilExports(pkg) <==>
      fn.recv != "" && fn.name == "HealthCheck" && fn in FuncsOf(pkg.decls) &&
      IsSoleNilReturn(FuncsOf(pkg.decls)[fn].body)
  {
    FuncsOfIff(pkg.decls, fn);
  }

  function ContextOf(cfg: Config, pkg: Package, facts: set<FuncId>): Context
  {
    Context(FuncsOf(pkg.decls), MethodsOf(pkg.decls), facts, {}, cfg.strict)
  }

  function ReportsOf(findings: seq<Finding>): seq<SiteReport>
  {
    if findings == [] then [] else ReportsOf(findings[..|findings| - 1]) + findings[|findings| - 1].1
  }

  function RecordsOf(findings: seq<Finding>): seq<ServiceRecord>
  {
    if findings == [] then [] else RecordsOf(findings[..|findings| - 1]) + [findings[|findings| - 1].0]
  }

  /** What the analyzer finds in one package when the given facts are known. */
  function PackageFindings(u: Universe, cfg: Config, pkg: Package, facts: set<FuncId>): seq<Finding>
  {
    if pkg.importsDo then AnalyzeDecls(u, ContextOf(cfg, pkg, facts), pkg.decls) else []
  }

  ghost function HW0At(positions: set<nat>): multiset<Diagnostic>
  {
    multiset(set p | p in positions :: Diagnostic(HW0, p))
  }

  /** Its diagnostics; the orphans among them come in no particular order. */
  ghost function PackageDiagnostics(u: Universe, cfg: Config, pkg: Package, facts: set<FuncId>): multiset<Diagnostic>
  {
    if !pkg.importsDo then multiset{}
    else
      var dm := DirectivesOf(pkg.comments, ReaderAt(cfg.now));
      var st := ProcessAll(dm, Disabled(cfg), ReportsOf(PackageFindings(u, cfg, pkg, facts)));
      multiset(st.diags) + HW0At(Malformed(dm) - st.marked)
  }

  lemma OneEachIsMultiset(diags: seq<Diagnostic>, positions: set<nat>)
    requires OneEach(diags, positions)
    ensures multiset(diags) == HW0At(positions)
  {
    forall d ensures multiset(diags)[d] == HW0At(positions)[d] {
      var s := set p | p in positions :: Diagnostic(HW0, p);
      assert d in s <==> d.rule == HW0 && d.pos in positions;
    }
  }

  /** An unresolved site is reported exactly under the strict flag. */
  lemma StrictReports(u: Universe, cfg: Config, pkg: Package, facts: set<FuncId>, kind: ServiceKind, site: Site,
                      arg: Node)
    requires !kind.Alias?
    ensures var (rec, reports) := EvalProvider(u, ContextOf(cfg, pkg, facts), kind, site, arg);
      SiteReport(Unresolved, site) in reports <==> cfg.strict && rec.unresolved
  {
    UnresolvedIff(u, ContextOf(cfg, pkg, facts), kind, site, arg);
  }

  // ---------------------------------------------------------------- the fact store

  /** Facts by method object; verdicts about naked returns are not kept. */
  class FactStore {
    var facts: set<FuncId>

    constructor ()
      ensures facts == {}
    {
      facts := {};
    }

    method ExportFrom(fn: FuncId, fact: Fact)
      modifies this
      ensures facts == if fact.NilBody? then old(facts) + {fn} else old(facts)
    {
      if fact.NilBody? {
        facts := facts + {fn};
      }
    }

    predicate ImportInto(fn: FuncId, fact: Fact)
      reads this
    {
      fact.NilBody? && fn in facts
    }
  }

  /** The export loop over the package's methods, in any order. */
  method ExportFacts(methods: map<FuncId, seq<Node>>, store: FactStore)
    modifies store
    ensures store.facts == old(store.facts) + set fn | fn in methods && fn.name == CHECK && IsSoleNilReturn(methods[fn])
  {
    var todo := methods.Keys;
    while todo != {}
      invariant todo <= methods.Keys
      invariant store.facts == old(store.facts) +
        set fn | fn in methods && fn !in todo && fn.name == CHECK && IsSoleNilReturn(methods[fn])
      decreases todo
    {
      var fn :| fn in todo;
      todo := todo - {fn};
      if fn.name == CHECK {
        if IsSoleNilReturn(methods[fn]) {
          store.ExportFrom(fn, NilBody);
        } else if IsSoleNakedReturn(methods[fn]) {
          store.ExportFrom(fn, NakedReturn);
        }
      }
    }
  }

  /** One run of the analyzer: it exports its verdicts first, then evaluates its registration sites
      against the store. */
  method RunAnalyzer(u: Universe, cfg: Config, pkg: Package, store: FactStore)
    returns (diags: seq<Diagnostic>, records: seq<ServiceRecord>)
    requires DistinctComments(pkg.comments)
    modifies store
    ensures store.facts == old(store.facts) + NilExports(pkg)
    ensures multiset(diags) == PackageDiagnostics(u, cfg, pkg, store.facts)
    ensures records == RecordsOf(PackageFindings(u, cfg, pkg, store.facts))
    ensures !pkg.importsDo ==> diags == [] && records == []
  {
    var methods := CollectMethodDecls(pkg.decls);
    ExportFacts(methods, store);
    if !pkg.importsDo {
      return [], [];
    }
    var dm := CollectDirectives(pkg.comments, ReaderAt(cfg.now));
    var ids := ParseDisabledRules(cfg.disable);
    var nilFacts := set fn | fn in store.facts && store.ImportInto(fn, NilBody);
    var nakedFacts := set fn | fn in store.facts && store.ImportInto(fn, NakedReturn);
    assert nilFacts == store.facts && nakedFacts == {};
    var ctx := Context(FuncsOf(pkg.decls), methods, nilFacts, nakedFacts, cfg.strict);
    var reports;
    records, reports := InspectPackage(u, ctx, pkg.decls);
    var marked, orphans;
    diags, marked := ReportFindings(reports, dm, set r: Rule | ToUpper(RuleId(r)) in ids);
    CollectedAreDistinct(pkg.comments, ReaderAt(cfg.now));
    orphans := ReportOrphanedDirectives(dm, marked);
    OneEachIsMultiset(orphans, Malformed(dm) - marked);
    diags := diags + orphans;
  }

  /** The visitor over the package's calls: records and reports are appended site by site. */
  method InspectPackage(u: Universe, ctx: Context, decls: seq<TopDecl>)
    returns (records: seq<ServiceRecord>, reports: seq<SiteReport>)
    ensures records == RecordsOf(AnalyzeDecls(u, ctx, decls))
    ensures reports == ReportsOf(AnalyzeDecls(u, ctx, decls))
  {
    var wrappers, innerSkips := CollectWrappers(decls);
    records, reports := InspectCalls(u, ctx, wrappers, innerSkips, CallsIn(NodesOf(decls)));
    VisitAllInspects(u, ctx, EnvOf(decls), NodesOf(decls));
  }

  method InspectCalls(u: Universe, ctx: Context, wrappers: map<FuncId, WrapperInfo>, innerSkips: set<nat>,
                      calls: seq<Node>)
    returns (records: seq<ServiceRecord>, reports: seq<SiteReport>)
    requires forall c | c in calls :: c.Call?
    ensures records == RecordsOf(InspectEach(u, ctx, WrapperEnv(wrappers, innerSkips), calls))
    ensures reports == ReportsOf(InspectEach(u, ctx, WrapperEnv(wrappers, innerSkips), calls))
  {
    records, reports := [], [];
    ghost var found: seq<Finding> := [];
    var k := 0;
    while k < |calls|
      invariant 0 <= k <= |calls|
      invariant found == InspectEach(u, ctx, WrapperEnv(wrappers, innerSkips), calls[..k])
      invariant records == RecordsOf(found) && reports == ReportsOf(found)
    {
      var isReg, rec, reps := InspectRegistration(u, ctx, wrappers, innerSkips, calls[k]);
      InspectSnoc(u, ctx, WrapperEnv(wrappers, innerSkips), calls, k, found, if isReg then [(rec, reps)] else []);
      if isReg {
        records := records + [rec];
        reports := reports + reps;
        FindingsSnoc(found, rec, reps);
        found := found + [(rec, reps)];
      }
      k := k + 1;
    }
    assert calls[..k] == calls;
  }

  lemma FindingsSnoc(found: seq<Finding>, rec: ServiceRecord, reps: seq<SiteReport>)
    ensures RecordsOf(found + [(rec, reps)]) == RecordsOf(found) + [rec]
    ensures ReportsOf(found + [(rec, reps)]) == ReportsOf(found) + reps
  {
    assert (found + [(rec, reps)])[..|found|] == found;
  }

  lemma InspectSnoc(u: Universe, ctx: Context, env: WrapperEnv, calls: seq<Node>, k: nat, found: seq<Finding>,
                    here: seq<Finding>)
    requires k < |calls| && forall c | c in calls :: c.Call?
    requires found == InspectEach(u, ctx, env, calls[..k]) && here == InspectCall(u, ctx, env, calls[k])
    ensures InspectEach(u, ctx, env, calls[..k + 1]) == if here == [] then found else found + here
  {
    assert calls[..k + 1] == calls[..k] + [calls[k]];
    InspectEachAppend(u, ctx, env, calls[..k], [calls[k]]);
    assert InspectEach(u, ctx, env, [calls[k]][1..]) == [];
  }

  // ---------------------------------------------------------------- all packages

  /** Exactly the HealthCheck methods with a sole `return nil` that the scanned packages declare. */
  function AllNilExports(pkgs: seq<Package>): (facts: set<FuncId>)
    ensures forall fn :: fn in facts <==> exists pkg :: pkg in pkgs && fn in NilExports(pkg)
  {
    set pkg, fn | pkg in pkgs && fn in NilExports(pkg) :: fn
  }

  /** Sum over a sequence. */
  ghost function Sum<S, T>(xs: seq<S>, f: S -> multiset<T>): multiset<T>
  {
    if xs == [] then multiset{} else Sum(xs[..|xs| - 1], f) + f(xs[|xs| - 1])
  }

  ghost function Diagnoses(u: Universe, cfg: Config, facts: set<FuncId>): Package -> multiset<Diagnostic>
  {
    pkg => PackageDiagnostics(u, cfg, pkg, facts)
  }

  ghost function DiagnosticsOf(u: Universe, cfg: Config, pkgs: seq<Package>, facts: set<FuncId>): multiset<Diagnostic>
  {
    Sum(pkgs, Diagnoses(u, cfg, facts))
  }

  function AllRecords(u: Universe, cfg: Config, pkgs: seq<Package>, facts: set<FuncId>): seq<ServiceRecord>
  {
    if pkgs == [] then []
    else AllRecords(u, cfg, pkgs[..|pkgs| - 1], facts) + RecordsOf(PackageFindings(u, cfg, pkgs[|pkgs| - 1], facts))
  }

  lemma SumSnoc<S, T>(xs: seq<S>, x: S, f: S -> multiset<T>)
    ensures Sum(xs + [x], f) == Sum(xs, f) + f(x)
  {
    assert (xs + [x])[..|xs|] == xs;
  }

  lemma ExportsOf(pkgs: seq<Package>, pkg: Package)
    ensures AllNilExports(pkgs + [pkg]) == AllNilExports(pkgs) + NilExports(pkg)
  {
    forall fn ensures fn in AllNilExports(pkgs + [pkg]) <==> fn in AllNilExports(pkgs) || fn in NilExports(pkg) {
      assert forall p :: p in pkgs + [pkg] <==> p in pkgs || p == pkg;
    }
  }

  /** A package of the scan adds no fact that is not there. */
  lemma ExportsAreIn(pkgs: seq<Package>, pkg: Package)
    requires pkg in pkgs
    ensures AllNilExports(pkgs) + NilExports(pkg) == AllNilExports(pkgs)
  {
    forall fn | fn in NilExports(pkg) ensures fn in AllNilExports(pkgs) {}
  }

  /** The first sweep only collects facts. */
  method CollectFacts(u: Universe, cfg: Config, pkgs: seq<Package>) returns (store: FactStore)
    requires forall pkg | pkg in pkgs :: DistinctComments(pkg.comments)
    ensures fresh(store) && store.facts == AllNilExports(pkgs)
  {
    store := new FactStore();
    var k := 0;
    while k < |pkgs|
      invariant 0 <= k <= |pkgs|
      invariant fresh(store) && store.facts == AllNilExports(pkgs[..k])
    {
      ExportsOf(pkgs[..k], pkgs[k]);
      assert pkgs[..k + 1] == pkgs[..k] + [pkgs[k]];
      var _, _ := RunAnalyzer(u, cfg, pkgs[k], store);
      k := k + 1;
    }
    assert pkgs[..k] == pkgs;
  }

  lemma OneMore(u: Universe, cfg: Config, pkgs: seq<Package>, k: nat, facts: set<FuncId>)
    requires k < |pkgs|
    ensures AllRecords(u, cfg, pkgs[..k + 1], facts) ==
            AllRecords(u, cfg, pkgs[..k], facts) + RecordsOf(PackageFindings(u, cfg, pkgs[k], facts))
    ensures DiagnosticsOf(u, cfg, pkgs[..k + 1], facts) ==
            DiagnosticsOf(u, cfg, pkgs[..k], facts) + PackageDiagnostics(u, cfg, pkgs[k], facts)
  {
    assert pkgs[..k + 1] == pkgs[..k] + [pkgs[k]];
    assert pkgs[..k + 1][..k] == pkgs[..k];
    SumSnoc(pkgs[..k], pkgs[k], Diagnoses(u, cfg, facts));
  }

  /** The second sweep, after the first, is the authoritative one. */
  method AnalyzePackages(u: Universe, cfg: Config, pkgs: seq<Package>)
    returns (findings: seq<Diagnostic>, records: seq<ServiceRecord>)
    requires forall pkg | pkg in pkgs :: DistinctComments(pkg.comments)
    ensures multiset(findings) == DiagnosticsOf(u, cfg, pkgs, AllNilExports(pkgs))
    ensures records == AllRecords(u, cfg, pkgs, AllNilExports(pkgs))
  {
    var store := CollectFacts(u, cfg, pkgs);
    ghost var facts := store.facts;
    findings, records := [], [];
    var k := 0;
    while k < |pkgs|
      invariant 0 <= k <= |pkgs|
      invariant store.facts == facts == AllNilExports(pkgs)
      invariant multiset(findings) == DiagnosticsOf(u, cfg, pkgs[..k], facts)
      invariant records == AllRecords(u, cfg, pkgs[..k], facts)
    {
      ExportsAreIn(pkgs, pkgs[k]);
      OneMore(u, cfg, pkgs, k, facts);
      var diags, recs := RunAnalyzer(u, cfg, pkgs[k], store);
      records := records + recs;
      findings := findings + diags;
      k := k + 1;
    }
    assert pkgs[..k] == pkgs;
  }

  // ---------------------------------------------------------------- package order plays no part

  /** Sums do not depend on the order: taking one element out of the middle. */
  lemma {:induction false} SumRemove<S, T>(xs: seq<S>, f: S -> multiset<T>, i: nat)
    requires i < |xs|
    ensures Sum(xs, f) == Sum(xs[..i] + xs[i + 1..], f) + f(xs[i])
  {
    var n := |xs| - 1;
    if i == n {
      assert xs[..i] + xs[i + 1..] == xs[..n];
    } else {
      SumRemove(xs[..n], f, i);
      var rest := xs[..i] + xs[i + 1..];
      assert rest[..|rest| - 1] == xs[..n][..i] + xs[..n][i + 1..];
      assert rest[|rest| - 1] == xs[n];
    }
  }

  lemma {:induction false} SumIgnoresOrder<S, T>(a: seq<S>, b: seq<S>, f: S -> multiset<T>)
    requires multiset(a) == multiset(b)
    ensures Sum(a, f) == Sum(b, f)
    decreases |a|
  {
    if a == [] {
      assert |multiset(b)| == 0;
    } else {
      var n := |a| - 1;
      assert a[n] in multiset(a) && a[n] in multiset(b);
      var i :| 0 <= i < |b| && b[i] == a[n];
      WithoutOne(a, n);
      WithoutOne(b, i);
      assert a[..n] + a[n + 1..] == a[..n];
      SumIgnoresOrder(a[..n], b[..i] + b[i + 1..], f);
      SumRemove(b, f, i);
    }
  }

  lemma WithoutOne<S>(xs: seq<S>, i: nat)
    requires i < |xs|
    ensures multiset(xs[..i] + xs[i + 1..]) == multiset(xs) - multiset{xs[i]}
  {
    assert xs == xs[..i] + ([xs[i]] + xs[i + 1..]);
  }

  ghost function Records(u: Universe, cfg: Config, facts: set<FuncId>): Package -> multiset<ServiceRecord>
  {
    pkg => multiset(RecordsOf(PackageFindings(u, cfg, pkg, facts)))
  }

  lemma {:induction false} RecordsAreASum(u: Universe, cfg: Config, pkgs: seq<Package>, facts: set<FuncId>)
    ensures multiset(AllRecords(u, cfg, pkgs, facts)) == Sum(pkgs, Records(u, cfg, facts))
  {
    if pkgs != [] { RecordsAreASum(u, cfg, pkgs[..|pkgs| - 1], facts); }
  }

  /** Any permutation of the packages gives the same facts, and the same findings and records up to
      order. */
  lemma TwoSweepsIgnoreOrder(u: Universe, cfg: Config, a: seq<Package>, b: seq<Package>)
    requires multiset(a) == multiset(b)
    ensures AllNilExports(a) == AllNilExports(b)
    ensures DiagnosticsOf(u, cfg, a, AllNilExports(a)) == DiagnosticsOf(u, cfg, b, AllNilExports(b))
    ensures multiset(AllRecords(u, cfg, a, AllNilExports(a))) == multiset(AllRecords(u, cfg, b, AllNilExports(b)))
  {
    assert forall pkg :: pkg in a <==> pkg in multiset(a);
    assert forall pkg :: pkg in b <==> pkg in multiset(b);
    var facts := AllNilExports(a);
    assert facts == AllNilExports(b);
    SumIgnoresOrder(a, b, Diagnoses(u, cfg, facts));
    RecordsAreASum(u, cfg, a, facts);
    RecordsAreASum(u, cfg, b, facts);
    SumIgnoresOrder(a, b, Records(u, cfg, facts));
  }

  // ---------------------------------------------------------------- what one sweep would miss

  /** How often HW-7 comes out at position p. */
  function HW7Count(dm: DirectiveMap, disabled: set<Rule>, reports: seq<SiteReport>, p: nat): nat
  {
    multiset(EmittedReports(dm, disabled, reports))[Diagnostic(HW7, p)]
  }

  lemma {:induction false} EmittedAppend(dm: DirectiveMap, disabled: set<Rule>, a: seq<SiteReport>, b: seq<SiteReport>)
    ensures EmittedReports(dm, disabled, a + b) == EmittedReports(dm, disabled, a) + EmittedReports(dm, disabled, b)
  {
    if b == [] {
      assert a + b == a;
    } else {
      assert (a + b)[..|a + b| - 1] == a + b[..|b| - 1];
      EmittedAppend(dm, disabled, a, b[..|b| - 1]);
    }
  }

  /** More facts keep the record and can only add HW-7. */
  ghost predicate Grows(dm: DirectiveMap, disabled: set<Rule>, p: nat, fs: seq<Finding>, fs': seq<Finding>)
  {
    |fs| == |fs'| && forall i | 0 <= i < |fs| :: GrowsOne(dm, disabled, p, fs[i], fs'[i])
  }

  ghost predicate GrowsOne(dm: DirectiveMap, disabled: set<Rule>, p: nat, f: Finding, f': Finding)
  {
    f.0 == f'.0 && HW7Count(dm, disabled, f.1, p) <= HW7Count(dm, disabled, f'.1, p)
  }

  lemma {:induction false} EmittedAt(dm: DirectiveMap, disabled: set<Rule>, rules: seq<Rule>, site: Site, p: nat)
    ensures HW7Count(dm, disabled, ReportAt(rules, site), p) ==
      if site.pos == p && Emitted(dm, disabled, SiteReport(HW7, site)) then multiset(rules)[HW7] else 0
  {
    var reports := ReportAt(rules, site);
    if rules != [] {
      var init, rule := rules[..|rules| - 1], rules[|rules| - 1];
      EmittedAt(dm, disabled, init, site, p);
      assert rules == init + [rule];
      assert reports[..|reports| - 1] == ReportAt(init, site);
    }
  }

  lemma TimesAppend(a: seq<Rule>, b: seq<Rule>)
    ensures multiset(a + b)[HW7] == multiset(a)[HW7] + multiset(b)[HW7]
  {}

  lemma TimesInOne(c: bool, rule: Rule)
    ensures multiset(If(c, rule))[HW7] == if c && rule == HW7 then 1 else 0
  {}

  lemma TimesInCheckRules(kind: ServiceKind, facts: TypeFacts)
    ensures multiset(CheckRules(kind, facts))[HW7] == if facts.nilBody then 1 else 0
  {
    var a, b := If(kind.Lazy?, HW4), If(facts.bareCheck && !facts.ctxCheck, HW2);
    TimesAppend(a + b + If(facts.nilBody, HW7), If(facts.emptyBody, HW8));
    TimesAppend(a + b, If(facts.nilBody, HW7));
    TimesAppend(a, b);
    TimesInOne(kind.Lazy?, HW4);
    TimesInOne(facts.bareCheck && !facts.ctxCheck, HW2);
    TimesInOne(facts.nilBody, HW7);
    TimesInOne(facts.emptyBody, HW8);
  }

  /** HW-7 is among the rules at most once, and exactly when the check's body is a sole `return nil`. */
  lemma HW7Times(kind: ServiceKind, facts: TypeFacts)
    ensures multiset(KindRules(kind, facts))[HW7] ==
      if (kind.Lazy? || kind.Eager?) && facts.anyCheck && facts.nilBody then 1 else 0
  {
    if (kind.Lazy? || kind.Eager?) && facts.anyCheck {
      TimesInCheckRules(kind, facts);
      TimesInOne(facts.shutdown && !facts.anyCheck, HW1);
      TimesAppend(If(facts.shutdown && !facts.anyCheck, HW1), CheckRules(kind, facts));
    } else {
      NoCheckNoHW7(kind, facts);
    }
  }

  lemma NoCheckNoHW7(kind: ServiceKind, facts: TypeFacts)
    requires !(kind.Lazy? || kind.Eager?) || !facts.anyCheck
    ensures HW7 !in KindRules(kind, facts)
  {}

  lemma MoreRules(kind: ServiceKind, facts: TypeFacts, nil': bool)
    requires facts.nilBody ==> nil'
    ensures multiset(KindRules(kind, facts))[HW7] <= multiset(KindRules(kind, facts.(nilBody := nil')))[HW7]
  {
    HW7Times(kind, facts);
    HW7Times(kind, facts.(nilBody := nil'));
  }

  lemma EvalGrows(u: Universe, ctx: Context, more: set<FuncId>, dm: DirectiveMap, disabled: set<Rule>, p: nat,
                  kind: ServiceKind, site: Site, provider: Node)
    requires ctx.nilFacts <= more
    ensures GrowsOne(dm, disabled, p, EvalProvider(u, ctx, kind, site, provider),
                     EvalProvider(u, ctx.(nilFacts := more), kind, site, provider))
  {
    var t := RegistrationTypes(u, ctx.funcs, kind.Eager?, provider).1;
    if t != NoType {
      FactsGrow(u, ctx, more, kind, t);
      ReportsAtGrow(dm, disabled, p, kind, FactsOf(u, ctx, kind, t), FactsOf(u, ctx.(nilFacts := more), kind, t), site);
    }
  }

  lemma ReportsAtGrow(dm: DirectiveMap, disabled: set<Rule>, p: nat, kind: ServiceKind, facts: TypeFacts,
                      facts': TypeFacts, site: Site)
    requires facts' == facts.(nilBody := facts'.nilBody) && (facts.nilBody ==> facts'.nilBody)
    ensures HW7Count(dm, disabled, ReportAt(KindRules(kind, facts), site), p) <=
            HW7Count(dm, disabled, ReportAt(KindRules(kind, facts'), site), p)
  {
    MoreRules(kind, facts, facts'.nilBody);
    EmittedAt(dm, disabled, KindRules(kind, facts), site, p);
    EmittedAt(dm, disabled, KindRules(kind, facts'), site, p);
  }

  lemma FactsGrow(u: Universe, ctx: Context, more: set<FuncId>, kind: ServiceKind, t: Type)
    requires ctx.nilFacts <= more
    ensures var facts, facts' := FactsOf(u, ctx, kind, t), FactsOf(u, ctx.(nilFacts := more), kind, t);
      facts' == facts.(nilBody := facts'.nilBody) && (facts.nilBody ==> facts'.nilBody)
  {}

  lemma SiteGrows(u: Universe, ctx: Context, more: set<FuncId>, dm: DirectiveMap, disabled: set<Rule>, p: nat,
                  fnName: string, kind: ServiceKind, site: Site, args: seq<Node>, sub: Option<Node>)
    requires ctx.nilFacts <= more
    ensures GrowsOne(dm, disabled, p, EvalSite(u, ctx, fnName, kind, site, args, sub),
                     EvalSite(u, ctx.(nilFacts := more), fnName, kind, site, args, sub))
  {
    var provider := RegistrationProvider(fnName, args, sub);
    if provider.Some? { EvalGrows(u, ctx, more, dm, disabled, p, kind, site, provider.value); }
  }

  lemma InspectGrows(u: Universe, ctx: Context, more: set<FuncId>, env: WrapperEnv, dm: DirectiveMap,
                     disabled: set<Rule>, p: nat, call: Node)
    requires ctx.nilFacts <= more && call.Call?
    ensures Grows(dm, disabled, p, InspectCall(u, ctx, env, call), InspectCall(u, ctx.(nilFacts := more), env, call))
  {
    var d, w := DoRegistrationCall(call.fun), WrapperAt(env, call);
    if d.Some? {
      SiteGrows(u, ctx, more, dm, disabled, p, d.value.0, d.value.1, call.site, call.args, None);
    } else if w.Some? {
      SiteGrows(u, ctx, more, dm, disabled, p, w.value.innerFnName, w.value.kind, call.site, call.args,
                Some(call.args[w.value.paramIdx]));
    }
  }

  lemma {:induction false} InspectEachGrows(u: Universe, ctx: Context, more: set<FuncId>, env: WrapperEnv,
                                            dm: DirectiveMap, disabled: set<Rule>, p: nat, calls: seq<Node>)
    requires ctx.nilFacts <= more && forall c | c in calls :: c.Call?
    ensures Grows(dm, disabled, p, InspectEach(u, ctx, env, calls), InspectEach(u, ctx.(nilFacts := more), env, calls))
  {
    if calls != [] {
      InspectGrows(u, ctx, more, env, dm, disabled, p, calls[0]);
      InspectEachGrows(u, ctx, more, env, dm, disabled, p, calls[1..]);
    }
  }

  lemma {:induction false} ReportsGrow(dm: DirectiveMap, disabled: set<Rule>, p: nat, fs: seq<Finding>,
                                       fs': seq<Finding>)
    requires Grows(dm, disabled, p, fs, fs')
    ensures HW7Count(dm, disabled, ReportsOf(fs), p) <= HW7Count(dm, disabled, ReportsOf(fs'), p)
    ensures RecordsOf(fs) == RecordsOf(fs')
  {
    if fs != [] {
      var n := |fs| - 1;
      ReportsGrow(dm, disabled, p, fs[..n], fs'[..n]);
      EmittedAppend(dm, disabled, ReportsOf(fs[..n]), fs[n].1);
      EmittedAppend(dm, disabled, ReportsOf(fs'[..n]), fs'[n].1);
    }
  }

  lemma {:induction false} RulesOnlyKeeps(diags: seq<Diagnostic>, d: Diagnostic)
    requires d.rule != HW0
    ensures multiset(diags)[d] == multiset(RulesOnly(diags))[d]
  {
    if diags != [] {
      var init, last := diags[..|diags| - 1], diags[|diags| - 1];
      assert diags == init + [last];
      RulesOnlyKeeps(init, d);
    }
  }

  lemma NoHW0Rule(kind: ServiceKind, facts: TypeFacts)
    ensures HW0 !in KindRules(kind, facts)
  {}

  ghost predicate NoHW0(f: Finding)
  {
    forall r | r in f.1 :: r.rule != HW0
  }

  lemma EvalHasNoHW0(u: Universe, ctx: Context, fnName: string, kind: ServiceKind, site: Site, args: seq<Node>,
                     sub: Option<Node>)
    ensures NoHW0(EvalSite(u, ctx, fnName, kind, site, args, sub))
  {
    var provider := RegistrationProvider(fnName, args, sub);
    if !kind.Alias? && provider.Some? {
      var t := RegistrationTypes(u, ctx.funcs, kind.Eager?, provider.value).1;
      NoHW0Rule(kind, FactsOf(u, ctx, kind, t));
    }
  }

  /** The analyzer never reports HW-0 at a site on its own. */
  lemma {:induction false} NoHW0Reports(u: Universe, ctx: Context, env: WrapperEnv, calls: seq<Node>)
    requires forall c | c in calls :: c.Call?
    ensures forall f | f in InspectEach(u, ctx, env, calls) :: NoHW0(f)
  {
    if calls != [] {
      NoHW0Reports(u, ctx, env, calls[1..]);
      var c := calls[0];
      var d, w := DoRegistrationCall(c.fun), WrapperAt(env, c);
      if d.Some? { EvalHasNoHW0(u, ctx, d.value.0, d.value.1, c.site, c.args, None); }
      if w.Some? {
        EvalHasNoHW0(u, ctx, w.value.innerFnName, w.value.kind, c.site, c.args, Some(c.args[w.value.paramIdx]));
      }
    }
  }

  lemma {:induction false} NoHW0In(fs: seq<Finding>)
    requires forall f | f in fs :: NoHW0(f)
    ensures forall r | r in ReportsOf(fs) :: r.rule != HW0
  {
    if fs != [] {
      NoHW0In(fs[..|fs| - 1]);
      assert NoHW0(fs[|fs| - 1]);
    }
  }

  lemma FindingsHaveNoHW0(u: Universe, cfg: Config, pkg: Package, facts: set<FuncId>)
    ensures forall r | r in ReportsOf(PackageFindings(u, cfg, pkg, facts)) :: r.rule != HW0
  {
    var ctx := ContextOf(cfg, pkg, facts);
    VisitAllInspects(u, ctx, EnvOf(pkg.decls), NodesOf(pkg.decls));
    NoHW0Reports(u, ctx, EnvOf(pkg.decls), CallsIn(NodesOf(pkg.decls)));
    NoHW0In(PackageFindings(u, cfg, pkg, facts));
  }

  /** Apart from HW-0, a package's diagnostics are its emitted reports. */
  lemma DiagnosedReports(u: Universe, cfg: Config, pkg: Package, facts: set<FuncId>, d: Diagnostic)
    requires d.rule != HW0
    ensures PackageDiagnostics(u, cfg, pkg, facts)[d] ==
      if pkg.importsDo then
        multiset(EmittedReports(DirectivesOf(pkg.comments, ReaderAt(cfg.now)), Disabled(cfg),
                                ReportsOf(PackageFindings(u, cfg, pkg, facts))))[d]
      else 0
  {
    var dm := DirectivesOf(pkg.comments, ReaderAt(cfg.now));
    var reports := ReportsOf(PackageFindings(u, cfg, pkg, facts));
    FindingsHaveNoHW0(u, cfg, pkg, facts);
    EmittedIffNotSuppressed(dm, Disabled(cfg), reports);
    RulesOnlyKeeps(ProcessAll(dm, Disabled(cfg), reports).diags, d);
  }

  /** One package: with more facts known, the records stay and no HW-7 goes away. */
  lemma PackageGrows(u: Universe, cfg: Config, pkg: Package, facts: set<FuncId>, more: set<FuncId>, p: nat)
    requires facts <= more
    ensures RecordsOf(PackageFindings(u, cfg, pkg, facts)) == RecordsOf(PackageFindings(u, cfg, pkg, more))
    ensures PackageDiagnostics(u, cfg, pkg, facts)[Diagnostic(HW7, p)] <=
            PackageDiagnostics(u, cfg, pkg, more)[Diagnostic(HW7, p)]
  {
    DiagnosedReports(u, cfg, pkg, facts, Diagnostic(HW7, p));
    DiagnosedReports(u, cfg, pkg, more, Diagnostic(HW7, p));
    if pkg.importsDo {
      var dm, ctx, env := DirectivesOf(pkg.comments, ReaderAt(cfg.now)), ContextOf(cfg, pkg, facts), EnvOf(pkg.decls);
      VisitAllInspects(u, ctx, env, NodesOf(pkg.decls));
      VisitAllInspects(u, ContextOf(cfg, pkg, more), env, NodesOf(pkg.decls));
      InspectEachGrows(u, ctx, more, env, dm, Disabled(cfg), p, CallsIn(NodesOf(pkg.decls)));
      ReportsGrow(dm, Disabled(cfg), p, PackageFindings(u, cfg, pkg, facts), PackageFindings(u, cfg, pkg, more));
    }
  }

  /** A single sweep: each package sees only the verdicts of the packages before it and its own. */
  ghost function OneSweep(u: Universe, cfg: Config, pkgs: seq<Package>): multiset<Diagnostic>
  {
    if pkgs == [] then multiset{}
    else OneSweep(u, cfg, pkgs[..|pkgs| - 1]) + PackageDiagnostics(u, cfg, pkgs[|pkgs| - 1], AllNilExports(pkgs))
  }

  lemma PrefixExports(pkgs: seq<Package>, n: nat)
    requires n <= |pkgs|
    ensures AllNilExports(pkgs[..n]) <= AllNilExports(pkgs)
  {
    forall fn | fn in AllNilExports(pkgs[..n]) ensures fn in AllNilExports(pkgs) {
      var pkg :| pkg in pkgs[..n] && fn in NilExports(pkg);
      assert pkg in pkgs;
    }
  }

  /** A single sweep reports a part of the HW-7 findings of two sweeps. */
  lemma {:induction false} OneSweepMisses(u: Universe, cfg: Config, pkgs: seq<Package>, facts: set<FuncId>, p: nat)
    requires AllNilExports(pkgs) <= facts
    ensures OneSweep(u, cfg, pkgs)[Diagnostic(HW7, p)] <= DiagnosticsOf(u, cfg, pkgs, facts)[Diagnostic(HW7, p)]
  {
    if pkgs != [] {
      var n := |pkgs| - 1;
      PrefixExports(pkgs, n);
      OneSweepMisses(u, cfg, pkgs[..n], facts, p);
      PackageGrows(u, cfg, pkgs[n], AllNilExports(pkgs), facts, p);
      assert DiagnosticsOf(u, cfg, pkgs, facts) ==
        DiagnosticsOf(u, cfg, pkgs[..n], facts) + PackageDiagnostics(u, cfg, pkgs[n], facts);
    }
  }

  /** Packages that declare checks come before the packages that register services. */
  ghost predicate DeclaringFirst(pkgs: seq<Package>, facts: set<FuncId>)
  {
    forall k | 0 <= k < |pkgs| && pkgs[k].importsDo :: AllNilExports(pkgs[..k + 1]) == facts
  }

  /** In declaration order one sweep is enough: every diagnostic is the same. */
  lemma {:induction false} OneSweepSuffices(u: Universe, cfg: Config, pkgs: seq<Package>, facts: set<FuncId>)
    requires DeclaringFirst(pkgs, facts)
    ensures OneSweep(u, cfg, pkgs) == DiagnosticsOf(u, cfg, pkgs, facts)
  {
    if pkgs != [] {
      var n := |pkgs| - 1;
      forall k | 0 <= k < n && pkgs[..n][k].importsDo ensures AllNilExports(pkgs[..n][..k + 1]) == facts {
        assert pkgs[..n][..k + 1] == pkgs[..k + 1];
      }
      OneSweepSuffices(u, cfg, pkgs[..n], facts);
      assert pkgs[..n + 1] == pkgs;
      assert DiagnosticsOf(u, cfg, pkgs, facts) ==
        DiagnosticsOf(u, cfg, pkgs[..n], facts) + PackageDiagnostics(u, cfg, pkgs[n], facts);
    }
  }

  // ---------------------------------------------------------------- the driver's facts are the truth

  /** The program's bodies include those that the packages declare. */
  ghost predicate HasBodiesOf(bodies: map<FuncId, seq<Node>>, pkgs: seq<Package>)
  {
    forall q, fn | q in pkgs && fn in MethodsOf(q.decls) :: fn in bodies && bodies[fn] == MethodsOf(q.decls)[fn]
  }

  /** The contexts of a driver pass are truthful, so the soundness of the rules applies to what it
      reports. */
  lemma DriverContextIsTruthful(cfg: Config, pkgs: seq<Package>, pkg: Package, bodies: map<FuncId, seq<Node>>)
    requires HasBodiesOf(bodies, pkgs)
    requires pkg in pkgs
    ensures TruthfulContext(ContextOf(cfg, pkg, AllNilExports(pkgs)), bodies)
  {
    forall fn | fn in AllNilExports(pkgs) ensures fn in bodies && IsSoleNilReturn(bodies[fn]) {
      var q :| q in pkgs && fn in NilExports(q);
      assert fn in MethodsOf(q.decls);
    }
    assert forall fn | fn in MethodsOf(pkg.decls) :: fn in bodies && bodies[fn] == MethodsOf(pkg.decls)[fn];
  }

  /** Verdicts about naked returns are not kept: HW-8 is raised exactly on checks that the package declares
      itself. */
  lemma HW8StaysInPackage(u: Universe, cfg: Config, pkg: Package, facts: set<FuncId>, kind: ServiceKind, t: Type)
    requires WellFormed(u) && OfNamed(u, t)
    ensures HW8 in KindRules(kind, FactsOf(u, ContextOf(cfg, pkg, facts), kind, t)) <==>
      IsSwept(kind) && exists id :: Dispatches(u, t, id) && id in MethodsOf(pkg.decls) &&
                                    IsSoleNakedReturn(MethodsOf(pkg.decls)[id])
  {
    var ctx := ContextOf(cfg, pkg, facts);
    RulesAreWarranted(kind, FactsOf(u, ctx, kind, t), HW8);
    AnyCheckIsDispatch(u, t);
    forall id | Dispatches(u, t, id)
      ensures HasNakedReturnCheck(u, ctx, t) <==>
        id in MethodsOf(pkg.decls) && IsSoleNakedReturn(MethodsOf(pkg.decls)[id])
    {
      OwnNakedReturn(u, cfg, pkg, facts, t, id);
    }
  }

  lemma OwnNakedReturn(u: Universe, cfg: Config, pkg: Package, facts: set<FuncId>, t: Type, id: FuncId)
    requires WellFormed(u) && OfNamed(u, t) && Dispatches(u, t, id)
    ensures HasNakedReturnCheck(u, ContextOf(cfg, pkg, facts), t) <==>
      id in MethodsOf(pkg.decls) && IsSoleNakedReturn(MethodsOf(pkg.decls)[id])
  {
    JudgedBodyIsDispatched(u, t, id);
  }

  ghost predicate Scanned(pkgs: seq<Package>, id: FuncId)
  {
    exists q :: q in pkgs && id in MethodsOf(q.decls)
  }

  /** The check cannot fail and is declared elsewhere: as a sole naked return, or in a package that was not
      scanned. */
  ghost predicate Silent(pkgs: seq<Package>, pkg: Package, bodies: map<FuncId, seq<Node>>, id: FuncId)
  {
    id !in MethodsOf(pkg.decls) && id in bodies && CannotFail(bodies[id]) &&
    (IsSoleNakedReturn(bodies[id]) || !Scanned(pkgs, id))
  }

  /** Methods carry the names that they are selected by. */
  ghost predicate MethodsAreNamed(u: Universe)
  {
    forall n, f | n in u && f in u[n].members && u[n].members[f].Method? :: u[n].members[f].id.name == f
  }

  lemma DispatchedIsNamed(u: Universe, t: Type, id: FuncId)
    requires MethodsAreNamed(u) && Dispatches(u, t, id)
    ensures id.name == CHECK
  {}

  lemma BlindIffSilent(cfg: Config, pkgs: seq<Package>, pkg: Package, bodies: map<FuncId, seq<Node>>, id: FuncId)
    requires HasBodiesOf(bodies, pkgs) && NilIsSpelledNil(bodies) && id.name == CHECK
    ensures Blind(ContextOf(cfg, pkg, AllNilExports(pkgs)), bodies, id) <==> Silent(pkgs, pkg, bodies, id)
  {
    if id in bodies && CannotFail(bodies[id]) {
      assert NilSpelling(bodies[id]);
      forall q | q in pkgs && id in MethodsOf(q.decls)
        ensures id in NilExports(q) <==> IsSoleNilReturn(bodies[id])
      {}
    }
  }

  /** The driver's verdict on any registration is right exactly when, for a swept kind, the condition of
      VerdictHolds is met with the silent checks as the unseen ones: if every body of the program was scanned,
      those are the sole naked returns that another package declares. */
  lemma DriverVerdictIff(u: Universe, cfg: Config, pkgs: seq<Package>, pkg: Package, bodies: map<FuncId, seq<Node>>,
                         kind: ServiceKind, site: Site, arg: Node)
    requires WellFormed(u) && MethodsAreNamed(u) && HasBodiesOf(bodies, pkgs) && pkg in pkgs && !kind.Alias?
    requires NilIsSpelledNil(bodies)
    ensures var ctx := ContextOf(cfg, pkg, AllNilExports(pkgs));
      var (rec, reports) := EvalProvider(u, ctx, kind, site, arg);
      var says := SaysCanFail(rec, reports, site);
      (CanFail(u, bodies, kind, ctx, arg) <==> says) <==>
      (IsSwept(kind) ==> VerdictHolds(u, bodies, ctx, kind, arg, says,
                                      SilentOn(u, pkgs, pkg, bodies, InstanceOf(u, ctx, kind, arg))))
    ensures forall id | id in bodies && Scanned(pkgs, id) ::
      Silent(pkgs, pkg, bodies, id) <==> id !in MethodsOf(pkg.decls) && IsSoleNakedReturn(bodies[id])
  {
    var ctx := ContextOf(cfg, pkg, AllNilExports(pkgs));
    DriverContextIsTruthful(cfg, pkgs, pkg, bodies);
    VerdictRightIff(u, bodies, ctx, kind, site, arg);
    BlindOnIffSilent(u, cfg, pkgs, pkg, bodies, InstanceOf(u, ctx, kind, arg));
  }

  ghost predicate SilentOn(u: Universe, pkgs: seq<Package>, pkg: Package, bodies: map<FuncId, seq<Node>>, t: Type)
  {
    exists id :: Dispatches(u, t, id) && Silent(pkgs, pkg, bodies, id)
  }

  lemma BlindOnIffSilent(u: Universe, cfg: Config, pkgs: seq<Package>, pkg: Package, bodies: map<FuncId, seq<Node>>,
                         t: Type)
    requires MethodsAreNamed(u) && HasBodiesOf(bodies, pkgs) && NilIsSpelledNil(bodies)
    ensures BlindOn(u, ContextOf(cfg, pkg, AllNilExports(pkgs)), bodies, t) <==> SilentOn(u, pkgs, pkg, bodies, t)
  {
    forall id | Dispatches(u, t, id)
      ensures Blind(ContextOf(cfg, pkg, AllNilExports(pkgs)), bodies, id) <==> Silent(pkgs, pkg, bodies, id)
    {
      DispatchedIsNamed(u, t, id);
      BlindIffSilent(cfg, pkgs, pkg, bodies, id);
    }
  }
}
