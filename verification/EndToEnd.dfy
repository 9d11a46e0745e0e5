/** From the driver's output back to the container, and into the coverage ratchet: the results of the
    other modules put together. */
module EndToEnd {
  import opened GoTypes
  import opened Syntax
  import opened Resolve
  import opened Rules
  import opened Registry
  import opened Wrappers
  import opened Directives
  import opened Reporting
  import opened Container
  import opened Soundness
  import opened Driver
  import opened Losses
  import opened Coverage

  /** The call is taken for a registration for which the rule is raised. */
  ghost predicate RaisedAt(u: Universe, ctx: Context, decls: seq<TopDecl>, c: Node, rule: Rule)
  {
    c.Call? && exists kind, arg :: Attributes(decls, c, kind, arg) && Raises(u, ctx, kind, arg, rule)
  }

  lemma ReportIsRaised(u: Universe, ctx: Context, kind: ServiceKind, site: Site, arg: Node, r: SiteReport)
    requires !kind.Alias? && r in EvalProvider(u, ctx, kind, site, arg).1 && IsGreen(r.rule)
    ensures r.site == site && Raises(u, ctx, kind, arg, r.rule)
  {
    RaisesIsReported(u, ctx, "", kind, site, [], Some(arg), arg, r.rule);
  }

  lemma AttributedIsNoAlias(decls: seq<TopDecl>, c: Node, kind: ServiceKind, arg: Node)
    requires Attributes(decls, c, kind, arg)
    ensures c.Call? && !kind.Alias?
  {
    if AttributesIn(decls, c, kind, arg) {
      var d, inner, k: nat :| AttributesBy(decls, c, d, inner, k, kind, arg);
      ProviderIsNoAlias(d.decl, inner, k);
    }
  }

  lemma CallIsRaised(u: Universe, ctx: Context, decls: seq<TopDecl>, c: Node, f: Finding, r: SiteReport)
    requires c.Call? && f in InspectCall(u, ctx, EnvOf(decls), c) && r in f.1 && IsGreen(r.rule)
    ensures r.site == c.site && RaisedAt(u, ctx, decls, c, r.rule)
  {
    FoundIsPerformed(u, ctx, decls, c, f);
    var kind, arg :| FoundFor(u, ctx, decls, c, f, kind, arg);
    AttributedIsNoAlias(decls, c, kind, arg);
    ReportIsRaised(u, ctx, kind, c.site, arg, r);
  }

  lemma {:induction false} FindingIsAtCall(u: Universe, ctx: Context, env: WrapperEnv, calls: seq<Node>, f: Finding)
    returns (c: Node)
    requires forall x | x in calls :: x.Call?
    requires f in InspectEach(u, ctx, env, calls)
    ensures c in calls && f in InspectCall(u, ctx, env, c)
  {
    if f in InspectCall(u, ctx, env, calls[0]) {
      c := calls[0];
    } else {
      c := FindingIsAtCall(u, ctx, env, calls[1..], f);
    }
  }

  lemma {:induction false} ReportComesFromFinding(fs: seq<Finding>, r: SiteReport)
    requires r in ReportsOf(fs)
    ensures exists f :: f in fs && r in f.1
  {
    var n := |fs| - 1;
    if r in fs[n].1 {
      assert fs[n] in fs;
    } else {
      ReportComesFromFinding(fs[..n], r);
    }
  }

  lemma {:induction false} EmittedComesFromReport(dm: DirectiveMap, disabled: set<Rule>, reports: seq<SiteReport>,
                                                  d: Diagnostic)
    requires d in EmittedReports(dm, disabled, reports)
    ensures exists r :: r in reports && r.rule == d.rule && r.site.pos == d.pos
  {
    var n := |reports| - 1;
    if d in EmittedReports(dm, disabled, reports[..n]) {
      EmittedComesFromReport(dm, disabled, reports[..n], d);
      var r :| r in reports[..n] && r.rule == d.rule && r.site.pos == d.pos;
      assert r in reports;
    } else {
      assert reports[n] in reports;
    }
  }

  lemma DiagnosedReport(u: Universe, cfg: Config, pkg: Package, facts: set<FuncId>, d: Diagnostic)
    returns (r: SiteReport)
    requires d in PackageDiagnostics(u, cfg, pkg, facts) && IsGreen(d.rule)
    ensures r in ReportsOf(PackageFindings(u, cfg, pkg, facts)) && r.rule == d.rule && r.site.pos == d.pos
  {
    DiagnosedReports(u, cfg, pkg, facts, d);
    var reports := ReportsOf(PackageFindings(u, cfg, pkg, facts));
    EmittedComesFromReport(DirectivesOf(pkg.comments, ReaderAt(cfg.now)), Disabled(cfg), reports, d);
    r :| r in reports && r.rule == d.rule && r.site.pos == d.pos;
  }

  lemma {:induction false} EmittedIsEnabled(dm: DirectiveMap, disabled: set<Rule>, reports: seq<SiteReport>,
                                            d: Diagnostic)
    requires d in EmittedReports(dm, disabled, reports)
    ensures d.rule !in disabled
  {
    var n := |reports| - 1;
    if d in EmittedReports(dm, disabled, reports[..n]) { EmittedIsEnabled(dm, disabled, reports[..n], d); }
  }

  /** Every green diagnostic of a package stands at a call that is taken for a registration, and the rule was
      raised for that. */
  lemma DiagnosticIsRaised(u: Universe, cfg: Config, pkg: Package, facts: set<FuncId>, d: Diagnostic) returns (c: Node)
    requires d in PackageDiagnostics(u, cfg, pkg, facts) && IsGreen(d.rule)
    ensures c in CallsOfPackage(pkg) && Recorded(pkg, c) && c.site.pos == d.pos
    ensures RaisedAt(u, ContextOf(cfg, pkg, facts), pkg.decls, c, d.rule)
  {
    var r := DiagnosedReport(u, cfg, pkg, facts, d);
    var findings := PackageFindings(u, cfg, pkg, facts);
    ReportComesFromFinding(findings, r);
    var f :| f in findings && r in f.1;
    var ctx, env := ContextOf(cfg, pkg, facts), EnvOf(pkg.decls);
    VisitAllInspects(u, ctx, env, NodesOf(pkg.decls));
    c := FindingIsAtCall(u, ctx, env, CallsOfPackage(pkg), f);
    CallIsRaised(u, ctx, pkg.decls, c, f, r);
  }

  lemma {:induction false} DiagnosedSomewhere(u: Universe, cfg: Config, pkgs: seq<Package>, facts: set<FuncId>,
                                              d: Diagnostic)
    requires d in DiagnosticsOf(u, cfg, pkgs, facts)
    ensures exists pkg :: pkg in pkgs && d in PackageDiagnostics(u, cfg, pkg, facts)
  {
    var n := |pkgs| - 1;
    assert DiagnosticsOf(u, cfg, pkgs, facts) ==
      DiagnosticsOf(u, cfg, pkgs[..n], facts) + PackageDiagnostics(u, cfg, pkgs[n], facts);
    if d in PackageDiagnostics(u, cfg, pkgs[n], facts) {
      assert pkgs[n] in pkgs;
    } else {
      DiagnosedSomewhere(u, cfg, pkgs[..n], facts, d);
    }
  }

  /** A rule that the disable flag names, in any case and spacing, is never diagnosed in any package. Only HW-0
      cannot be switched off. */
  lemma DisabledIsSilent(u: Universe, cfg: Config, pkgs: seq<Package>, facts: set<FuncId>, d: Diagnostic, part: string)
    requires d in DiagnosticsOf(u, cfg, pkgs, facts) && d.rule != HW0
    requires part in SplitCommas(cfg.disable)
    ensures ToUpper(TrimSpace(part)) != ToUpper(RuleId(d.rule))
  {
    DiagnosedSomewhere(u, cfg, pkgs, facts, d);
    var pkg :| pkg in pkgs && d in PackageDiagnostics(u, cfg, pkg, facts);
    DiagnosedReports(u, cfg, pkg, facts, d);
    EmittedIsEnabled(DirectivesOf(pkg.comments, ReaderAt(cfg.now)), Disabled(cfg),
                     ReportsOf(PackageFindings(u, cfg, pkg, facts)), d);
    DisabledIff(cfg.disable, d.rule);
  }

  ghost predicate AttributesSome(decls: seq<TopDecl>, c: Node)
  {
    exists kind, arg :: Attributes(decls, c, kind, arg)
  }

  ghost predicate CallOf(pkgs: seq<Package>, pkg: Package, c: Node)
  {
    InProgram(pkgs, pkg, c) && Recorded(pkg, c) && AttributesSome(pkg.decls, c)
  }

  /** Of the calls that start at the position, the analyzer records at most this one. */
  ghost predicate OnlyAt(pkgs: seq<Package>, pos: nat, pkg: Package, c: Node)
  {
    forall q, b | CallOf(pkgs, q, b) && b.site.pos == pos :: q == pkg && b == c
  }

  ghost predicate WrappersTell(pkgs: seq<Package>)
  {
    forall q | q in pkgs :: OwnWrappers(q.decls) && LibraryIsForeign(q.decls)
  }

  lemma OnlyDirect(decls: seq<TopDecl>, c: Node, kind: ServiceKind, arg: Node)
    requires c.Call? && CallsRegistration(c.fun) && LibraryIsForeign(decls)
    ensures !AttributesIn(decls, c, kind, arg) && !PerformsIn(decls, c, kind, arg)
  {
    NoWrapperIsLibrary(decls, c);
  }

  lemma RegistersOne(c: Node, kind: ServiceKind, arg: Node, kind': ServiceKind, arg': Node)
    requires Registers(c, kind, arg) && Registers(c, kind', arg')
    ensures kind == kind' && arg == arg'
  {
    var api :| CallsApi(c.fun, api) && RegistersBy(api, c.args, kind, arg);
    RegistersTabulated(c, kind, arg);
    RegistersTabulated(c, kind', arg');
  }

  /** A call is taken for one registration. */
  lemma AttributesOne(decls: seq<TopDecl>, c: Node, kind: ServiceKind, arg: Node, kind': ServiceKind, arg': Node)
    requires OwnWrappers(decls) && LibraryIsForeign(decls)
    requires Attributes(decls, c, kind, arg) && Attributes(decls, c, kind', arg')
    ensures kind == kind' && arg == arg'
  {
    if c.Call? && CallsRegistration(c.fun) {
      OnlyDirect(decls, c, kind, arg);
      OnlyDirect(decls, c, kind', arg');
      RegistersOne(c, kind, arg, kind', arg');
    } else {
      WrapperAttributesOne(decls, c, kind, arg, kind', arg');
    }
  }

  lemma WrapperAttributesOne(decls: seq<TopDecl>, c: Node, kind: ServiceKind, arg: Node, kind': ServiceKind, arg': Node)
    requires OwnWrappers(decls) && AttributesIn(decls, c, kind, arg) && AttributesIn(decls, c, kind', arg')
    ensures kind == kind' && arg == arg'
  {
    var d, inner, k: nat :| AttributesBy(decls, c, d, inner, k, kind, arg);
    var d', inner', k': nat :| AttributesBy(decls, c, d', inner', k', kind', arg');
    SameWrapper(decls, c, d, inner, k, d', inner', k');
  }

  /** A call performs one registration, by itself or as the only known one of the wrapper it calls. What it
      leads to through further calls is told by Losses. */
  lemma PerformsOne(decls: seq<TopDecl>, c: Node, kind: ServiceKind, arg: Node, kind': ServiceKind, arg': Node)
    requires OwnWrappers(decls) && LibraryIsForeign(decls)
    requires Performs(decls, c, kind, arg) && Performs(decls, c, kind', arg')
    ensures kind == kind' && arg == arg'
  {
    if c.Call? && CallsRegistration(c.fun) {
      OnlyDirect(decls, c, kind, arg);
      OnlyDirect(decls, c, kind', arg');
      RegistersOne(c, kind, arg, kind', arg');
    } else {
      WrapperPerformsOne(decls, c, kind, arg, kind', arg');
    }
  }

  lemma WrapperPerformsOne(decls: seq<TopDecl>, c: Node, kind: ServiceKind, arg: Node, kind': ServiceKind, arg': Node)
    requires OwnWrappers(decls) && PerformsIn(decls, c, kind, arg) && PerformsIn(decls, c, kind', arg')
    ensures kind == kind' && arg == arg'
  {
    var d, inner, k: nat :| PerformsBy(decls, c, d, inner, k, kind, arg);
    var d', inner', k': nat :| PerformsBy(decls, c, d', inner', k', kind', arg');
    SameWrapper(decls, c, d, inner, k, d', inner', k');
    RegistersOne(Instantiate(d.decl, c.args, inner, c.site), kind, arg, kind', arg');
  }

  lemma PerformedIsAttributed(decls: seq<TopDecl>, c: Node, kind: ServiceKind, arg: Node)
    requires OwnWrappers(decls) && LibraryIsForeign(decls) && c.Call? && Performs(decls, c, kind, arg)
    ensures AttributesSome(decls, c) && !kind.Alias?
    ensures !ProvidesFixed(decls, c) ==> arg.Ident? && arg.obj.VarObj?
  {
    if ProvidesFixed(decls, c) {
      FixedIsAttributed(decls, c, kind, arg);
      AttributedIsNoAlias(decls, c, kind, arg);
    } else {
      var a := LooseIsAttributed(decls, c, kind, arg);
      AttributedIsNoAlias(decls, c, kind, a);
    }
  }

  lemma RaisedForAttributed(u: Universe, ctx: Context, decls: seq<TopDecl>, c: Node, kind: ServiceKind, arg: Node,
                            rule: Rule)
    requires OwnWrappers(decls) && LibraryIsForeign(decls)
    requires RaisedAt(u, ctx, decls, c, rule) && Attributes(decls, c, kind, arg)
    ensures Raises(u, ctx, kind, arg, rule)
  {
    var kind', arg' :| Attributes(decls, c, kind', arg') && Raises(u, ctx, kind', arg', rule);
    AttributesOne(decls, c, kind, arg, kind', arg');
  }

  /** The call that a diagnostic stands at: every emitted green diagnostic has one, with a record. */
  lemma FindingsStandAtRegistrations(u: Universe, cfg: Config, pkgs: seq<Package>, d: Diagnostic)
    returns (pkg: Package, c: Node)
    requires d in DiagnosticsOf(u, cfg, pkgs, AllNilExports(pkgs)) && IsGreen(d.rule)
    ensures CallOf(pkgs, pkg, c) && c.site.pos == d.pos
    ensures RaisedAt(u, ContextOf(cfg, pkg, AllNilExports(pkgs)), pkg.decls, c, d.rule)
  {
    var facts := AllNilExports(pkgs);
    DiagnosedSomewhere(u, cfg, pkgs, facts, d);
    pkg :| pkg in pkgs && d in PackageDiagnostics(u, cfg, pkg, facts);
    c := DiagnosticIsRaised(u, cfg, pkg, facts, d);
  }

  /** What is reported, exactly: whenever a driver pass, over any packages in any order, emits HW-1, HW-3,
      HW-5, HW-7 or HW-8 at a position, take the registration that the call there performs. If the call passes
      its provider through a parameter that holds its argument throughout, or through none, the rule was raised
      for that registration, and no run of the container makes its service fail if and only if the claim's
      condition holds. If not, no run does if and only if nothing of the parameter's declared type can. */
  lemma DriverFindingsAreTrue(u: Universe, cfg: Config, pkgs: seq<Package>, bodies: map<FuncId, seq<Node>>,
                              d: Diagnostic, pkg: Package, c: Node, kind: ServiceKind, arg: Node)
    requires WellFormed(u) && HasBodiesOf(bodies, pkgs) && WrappersTell(pkgs)
    requires d in DiagnosticsOf(u, cfg, pkgs, AllNilExports(pkgs)) && IsGreen(d.rule)
    requires InProgram(pkgs, pkg, c) && c.site.pos == d.pos && OnlyAt(pkgs, d.pos, pkg, c)
    requires Performs(pkg.decls, c, kind, arg)
    ensures var ctx := ContextOf(cfg, pkg, AllNilExports(pkgs));
      if ProvidesFixed(pkg.decls, c) then
        && Raises(u, ctx, kind, arg, d.rule)
        && (!CanFail(u, bodies, kind, ctx, arg) <==> ClaimHolds(u, bodies, ctx, kind, arg, d.rule))
      else
        !CanFail(u, bodies, kind, ctx, arg) <==>
          !(IsSwept(kind) && SourceCanFail(u, bodies, DeclaredSource(u, kind, arg)))
  {
    var ctx := ContextOf(cfg, pkg, AllNilExports(pkgs));
    PerformedIsAttributed(pkg.decls, c, kind, arg);
    if ProvidesFixed(pkg.decls, c) {
      var q, b := FindingsStandAtRegistrations(u, cfg, pkgs, d);
      FixedIsAttributed(pkg.decls, c, kind, arg);
      RaisedForAttributed(u, ctx, pkg.decls, c, kind, arg, d.rule);
      DriverContextIsTruthful(cfg, pkgs, pkg, bodies);
      GreenHoldsIff(u, bodies, ctx, kind, arg, d.rule);
    } else {
      VariableCanFailIff(u, bodies, ctx, kind, arg);
    }
  }

  /** Services that are registered under different types count apart, whatever instances they are built as. */
  lemma DifferentTypesCountApart(u: Universe, ctx: Context, kind: ServiceKind, site: Site, arg: Node, s: Type,
                                 other: ServiceKind, site': Site, arg': Node, t: Type)
    requires !kind.Alias? && !other.Alias? && RegistersUnder(u, kind, arg, s) && RegistersUnder(u, other, arg', t)
    requires IsNamedChain(s) && IsNamedChain(t) && s != t
    ensures Registered([EvalProvider(u, ctx, kind, site, arg).0, EvalProvider(u, ctx, other, site', arg').0]) == 2
  {
    RecordIsNamed(u, ctx, kind, site, arg, s);
    RecordIsNamed(u, ctx, other, site', arg', t);
    if TypeString(s) == TypeString(t) { NamesTell(s, t); }
    TwoNamesCount(EvalProvider(u, ctx, kind, site, arg).0, EvalProvider(u, ctx, other, site', arg').0);
  }

  /** An alias row is never counted and never reported on. */
  lemma AliasesNeverCount(u: Universe, ctx: Context, fn: string, site: Site, args: seq<Node>, arg: Option<Node>,
                          records: seq<ServiceRecord>)
    ensures var (rec, reports) := EvalSite(u, ctx, fn, Alias, site, args, arg);
      reports == [] && Dedup(records + [rec]) == Dedup(records)
  {
    var (rec, reports) := EvalSite(u, ctx, fn, Alias, site, args, arg);
    assert (records + [rec])[..|records|] == records;
  }

  /** A call of a registration function that lacks its provider argument counts as a service without a check,
      and is neither reported nor unresolved. */
  lemma MissingProviderCounts(u: Universe, ctx: Context, api: Api, site: Site, args: seq<Node>)
    requires api.Provides? && ValidApi(api) && |args| <= ApiSlot(api).value
    ensures var (rec, reports) := EvalSite(u, ctx, ApiName(api), ApiKind(api), site, args, None);
      && reports == [] && !rec.implementsCheck && !rec.unresolved && rec.kind == api.wrapper
      && Registered([rec]) == 1 && Checked([rec]) == 0
  {
    var (rec, reports) := EvalSite(u, ctx, ApiName(api), ApiKind(api), site, args, None);
    TabulatedApi(api);
    UncheckedCounts(rec);
  }

  lemma UncheckedCounts(rec: ServiceRecord)
    requires !rec.kind.Alias? && !rec.implementsCheck
    ensures Registered([rec]) == 1 && Checked([rec]) == 0
  {
    assert [rec][..0] == [];
    assert Dedup([rec]) == map[rec.name := rec];
    assert CheckedNames([rec]) == {};
  }

  lemma TwoNamesCount(a: ServiceRecord, b: ServiceRecord)
    requires a.name != b.name && !a.kind.Alias? && !b.kind.Alias?
    ensures Registered([a, b]) == 2
  {
    forall n ensures n in Dedup([a, b]) <==> n in {a.name, b.name} {
      RegisteredNames([a, b], n);
      assert [a, b][0] == a && [a, b][1] == b;
    }
    assert Dedup([a, b]).Keys == {a.name, b.name};
  }

  /** The coverage of a scan: the registered count does not depend on the order of the packages, and
      neither does the checked count when the records are stable. */
  lemma CoverageIgnoresPackageOrder(u: Universe, cfg: Config, a: seq<Package>, b: seq<Package>)
    requires multiset(a) == multiset(b)
    ensures var ra, rb := AllRecords(u, cfg, a, AllNilExports(a)), AllRecords(u, cfg, b, AllNilExports(b));
      Registered(ra) == Registered(rb) && (Stable(ra) ==> Checked(ra) == Checked(rb))
  {
    TwoSweepsIgnoreOrder(u, cfg, a, b);
    var ra, rb := AllRecords(u, cfg, a, AllNilExports(a)), AllRecords(u, cfg, b, AllNilExports(b));
    RegisteredIgnoresOrder(ra, rb);
    if Stable(ra) { StableIgnoresOrder(ra, rb); }
  }
}
