# Verification of samber-linter

samber-linter finds services of a samber/do container whose health check renders green although it cannot
fail. This project models the linter and the container it judges, and proves exactly when the two agree.

| file | models |
|---|---|
| `GoTypes.dfy` | types, embedding, the method sets of the Go Language Specification, and the breadth-first member lookup the analyzer relies on |
| `Syntax.dfy` | the typed syntax tree the analyzer walks |
| `Resolve.dfy`, `Rules.dfy` | `pkg/healthwash/resolve.go`, `rules.go`, `facts.go`: stored types, lifecycle interfaces, the rule engine |
| `Registry.dfy` | the container library's registration functions (README.md, section 2.6), apart from the analyzer's tables |
| `Container.dfy` | the samber/do container and its health sweep as a state machine (README.md, section 2), and when a registration can fail |
| `Soundness.dfy` | what the analyzer says about a registration against what the container does with it, exactly |
| `Wrappers.dfy` | `pkg/healthwash/wrapper.go` and the site walk of `healthwash.go`; the registration that a call performs |
| `Inlining.dfy` | wrapper resolution as a program transformation |
| `Directives.dfy`, `Reporting.dfy` | `pkg/healthwash/suppress.go` and the suppression engine of `healthwash.go` |
| `Driver.dfy` | the two sweeps over packages with a shared fact store |
| `Losses.dfy` | what the calls of a program register, through any number of functions, and which of it is recorded |
| `Sorting.dfy`, `Coverage.dfy`, `Ratchet.dfy` | HW-6: deduplication, counts, listing, baseline, tolerance, histories |
| `HealthAudit.dfy` | the runtime audit object, under every interleaving of its threads |
| `Environment.dfy` | GOFLAGS sanitising and the loader's environment |
| `EndToEnd.dfy` | from an emitted finding back to the container, and package order against coverage |
| `Examples.dfy` | concrete programs on which the code says more, or less, than is true, and some on which it is right |

## Main results

* **When a reported rule is right, exactly.** Once HW-1, HW-3, HW-5, HW-7 or HW-8 is raised for a registration,
  no run of the container makes its service fail, whatever the method bodies do, if and only if (a transient
  apart) no loose source of the registration fits a type with a check that can fail, and for HW-7 the returned
  `nil` is the predeclared one (`Soundness.GreenHoldsIff`). Loose sources are an interface-typed value, an
  interface-typed or naked return, and a named result that a function literal overwrites. Under that condition the
  service is green in every sweep of every run (`Soundness.RuleSoundness`). Registrations whose sources are all of
  concrete type, in programs that do not shadow `nil`, meet it (`Soundness.VisibleClaimHolds`). A driver pass over
  any packages says this of every call at which it emits such a finding, unless the call is a wrapper's whose
  provided parameter is variadic or stored to; then the finding is right exactly when nothing of the parameter's
  declared type can fail (`EndToEnd.DriverFindingsAreTrue`).
* **When the verdict is right, exactly**, for every registration of every program. "Can fail" is right exactly when
  some loose source can, or the resolved type is concrete and its check is not one that cannot fail and goes
  unseen. "Cannot fail" is right exactly when no loose source can and, under HW-7, the `nil` is nil; without a
  resolved named type, when no concrete source has a check that can fail (`Soundness.VerdictRightIff`). For the
  driver, the unseen checks are named (`Driver.DriverVerdictIff`).
* **What is resolved.** Which types are concrete is defined from the language's side, and a provider whose first
  result is a pointer or a named type that is not an interface is resolved to it (`Resolve.ConcreteIff`,
  `Soundness.PlainIsResolved`); one that is named in the package and declared to return an interface is resolved to
  the type that the returns leaving its declared body agree on (`Driver.NamedProviderIff`).
* **The body that is judged is the body that runs**, for every embedding graph, cyclic ones included: the
  breadth-first lookup computes the specification's selectors (`GoTypes.SearchIsSelector`) and the method found
  on the base type is the one the sweep calls (`Soundness.JudgedBodyIsDispatched`).
* **What is found at a call is what the call is taken for, and that is what it performs wherever the provided
  parameter holds its argument throughout.** Which declarations are wrappers, and which parameter feeds the
  provider slot, is characterised from the program text (`Wrappers.WrapperOfDeclIff`); a call yields the verdict on
  the wrapper's kind and the argument passed for that parameter (`Wrappers.AttributionIsFound`), which is the
  wrapper's own registration with the arguments substituted if the parameter is neither variadic nor stored to in
  the body (`Wrappers.AttributionIsSubstitution`). Package by package, attribution is inlining
  (`Inlining.InliningPreservesFindings`).
* **Which registrations of a program leave a record, exactly.** What a call brings is read off the declarations
  alone: a chain of calls, through any number of functions of any package, that hands the provider down to a
  registration function. Every chain is brought by exactly one of its calls (`Losses.BroughtOnce`), and what is
  registered at its end, with the arguments substituted all the way, is what that call passes
  (`Losses.ReachedRegisters`). Each record is the verdict on one such registration (`Losses.RecordIsVerdict`), and one
  that is brought leaves no record exactly if the package does not import the library, it lies behind a further
  call, its own call is not written as a selector, or the function that performs it is not one that the analyzer
  looks into (`Losses.MissedIff`). So at every depth the accounts balance (`Losses.RecordsAndLosses`).
* **Package order plays no part** (`Driver.TwoSweepsIgnoreOrder`), **suppression is accounted for**
  (`Reporting.EmittedIff`, `Reporting.MalformedIsMonotone`, and over time `Reporting.TimeOnlyReveals`),
  **directives round-trip** (`Directives.ParsePrintParse`), **the ratchet holds over histories**
  (`Ratchet.RatchetOverHistory`) and **the audit invariant holds under every interleaving**
  (`HealthAudit.InvariantUnderInterleaving`).

## Where the code says less, or more, than its documentation

Each has its exact condition and, in `Examples.dfy` where a program is named, an input.

* A green rule is raised on the one concrete type that the returns agree on, although an interface-typed or naked
  return beside it, or a function literal that overwrites the named result, can store another type; the rule is
  right exactly when none of those fits a type that can fail (`Soundness.GreenHoldsIff`,
  `Examples.MixedReturnsFail`, `Examples.ReplacedResultFails`; `Examples.LooseSourceHolds` is one where it is right).
  The resolved type is the only one that can be stored exactly when no such source can hold another
  (`Soundness.OnlyStoredIff`).
* A wrapper's provided parameter is matched by its identifier alone. If the body stores to it, or it is variadic,
  the argument is judged and another value is registered; the finding then says nothing about the service
  (`Wrappers.AttributionIsSubstitution`, `EndToEnd.DriverFindingsAreTrue`, `Examples.AssignedParameterFails`,
  `Examples.VariadicParameterHides`).
* HW-7 goes by the spelling `nil`: beside the condition on the other returns, its claim holds exactly when the
  identifier is the predeclared one (`Soundness.HW7HoldsIff`, `Examples.ShadowedNilFails`).
* A value argument of interface type is judged by its static type; HW-1 on it holds exactly when the type is
  concrete or nothing that fits it can fail (`Soundness.HW1OnValueHoldsIff`, `Examples.InterfaceValueFails`).
* A provider that forwards a call with several results, and returns no other concrete type, is resolved to the
  result list and recorded without a check and without a report; it can fail exactly when the call's first result
  or another of its returns can (`Soundness.ForwardedIff`, `Soundness.ForwardedCallHidesCheck`,
  `Examples.ForwardedFails`).
* An unnamed struct that embeds a checker is recorded without a check; that is the only exception
  (`Soundness.ImplementsCheckIff`, `Examples.UnnamedStructFails`).
* The comment on the call classifier promises resilience to dot imports; a registration call is matched exactly
  when its callee is written as a selector (pkg/healthwash/wrapper.go:10-46, `Wrappers.MatchedIffSelector`,
  `Examples.DotImportIsLost`). The model follows the code.
* README.md describes HW-8 with the same cross-package plumbing as HW-7; the driver's store keeps HW-7's facts
  only, so HW-8 is raised exactly on checks that the registering package declares itself
  (`Driver.HW8StaysInPackage`). A check that cannot fail is unseen exactly when it is declared elsewhere, as a sole
  naked return or in a package that is not scanned, and "can fail" is then wrong unless a loose source can
  (`Driver.DriverVerdictIff`, `Examples.ForeignNakedReturnIsMissed`).
* A method that qualifies as a wrapper has its registration skipped and, since selector calls are not
  attributed, lost; within a package the findings are those of the inlined functions exactly when no method
  qualifies (`Inlining.WrapperMethodsLoseRegistrations`, `Inlining.FunctionInliningExactIff`).
* One level of wrappers is resolved (README.md:330-338). The records of a program are complete, and none is about a
  parameter, exactly when at every call the registrations brought are those recorded (`Losses.CompleteIff`). One
  that lies behind a further call is always missed, whatever else the call brings and records
  (`Losses.DeeperIsLost`, `Examples.WrapperOfWrapperIsLost`, `Examples.SecondRegistrationIsLost`).
* The checked count depends on the order of the records exactly when they are not stable
  (`Coverage.CheckedIgnoresOrderIff`, `Examples.OrderDecidesChecked`).
* The tolerance of the baseline hides a regression between two registered counts exactly when their product is
  at least 10^9 times their greatest common divisor (`Ratchet.NoHiddenRegressionIff`).
* A rewrite on a run without registrations switches the ratchet off (`Ratchet.RewriteKeepsFloorIff`).

## Model

| member | source | states |
|---|---|---|
| `GoTypes.SearchIsSelector` | pkg/healthwash/rules.go:424-438 | the breadth-first member search, which prunes seen types and marks repeated ones, finds exactly the member on the strictly shallowest path of embedded fields, or none if there is no such unique path |
| `GoTypes.LookupIsSelector` | pkg/healthwash/rules.go:418-438 | lookup with and without addressability against the specification's selector and receiver rule |
| `GoTypes.LookupIsMethodSet` | pkg/healthwash/resolve.go:69-84 | interface satisfaction as the library decides it is membership in the method set of T or *T |
| `GoTypes.AddressableLookupFindsIt` | pkg/healthwash/rules.go:418-438 | a method of the method set of T or *T is the one the addressable lookup on the base type finds |
| `Resolve.ConcreteInstanceFromReturns` | pkg/healthwash/resolve.go:182-207 | the scan returns the one concrete type all returns agree on, or none |
| `Syntax.ReturnsAreLeaving` | pkg/healthwash/resolve.go:209-227 | the scan collects exactly the returns reached from the body without entering a function literal |
| `Syntax.CallsOccur` | pkg/healthwash/healthwash.go:149-159 | the walk meets exactly the calls that some path through the tree leads to, those in function literals included |
| `Syntax.StoresOccur` | pkg/healthwash/wrapper.go:112-134 | a variable counts as stored to, or as stored to late, iff some path through the tree leads to such a store |
| `Resolve.UnifiedIff` | pkg/healthwash/resolve.go:175-207 | unification yields t iff some return of the body itself is concrete and all concrete ones have type t, in any order |
| `Resolve.ConcreteIff` | pkg/healthwash/resolve.go:106-125 | concrete are exactly the types that leave the dynamic type open neither as an interface, named or not, nor as a type parameter, and are the type of some instance |
| `Resolve.DeclaredResultIs` | pkg/healthwash/rules.go:161-170 | a function type, named or not, yields the first of its results, any other type none |
| `Soundness.PlainIsResolved` | pkg/healthwash/rules.go:152-182 | a provider, however it is given, whose first result is a pointer or a named type that is not an interface, and a value of such a type, are resolved to exactly that type and never recorded unresolved; nothing else can be stored |
| `Soundness.NoProviderType` | pkg/healthwash/rules.go:161-167 | a provider that is no function with a result is recorded unresolved, under an unknown type |
| `Soundness.RecordIsNamed` | pkg/healthwash/rules.go:42-53 | the record, resolved or not, has the name of the type that the container registers under: the value's, or the first result of the provider's signature |
| `Rules.NamesTell` | pkg/healthwash/rules.go:197-205 | named types, and pointers to them, have the same name only if they are the same |
| `Container.NilIsHeldIff` | pkg/healthwash/resolve.go:106-125 | nil can stand behind a static type iff that leaves the dynamic type open |
| `Container.RunStoresOwnValues` | README.md:119-143 | in every run each stored instance is one its own registration can store, and transients store none |
| `Soundness.JudgedBodyIsDispatched` | pkg/healthwash/rules.go:418-438 | whenever the sweep dispatches a method for a stored T or *T, promoted or declared, that is the method whose body HW-7 and HW-8 read |
| `Soundness.AnyCheckIsDispatch` | pkg/healthwash/resolve.go:86-91 | ImplementsCheck holds iff the sweep dispatches, for named types and pointers to them |
| `Soundness.ImplementsCheckIff` | pkg/healthwash/resolve.go:65-84 | over all types, that equivalence fails exactly for unnamed structs with a promoted check |
| `Soundness.RulesMeanMethodSets` | pkg/healthwash/rules.go:221-312 | HW-1 to HW-5 are raised exactly on the stated conditions over method sets and kind |
| `Container.DispatchIsUnique` | README.md:109-117 | at most one method is dispatched for a stored type |
| `Soundness.StoredHasInstanceType` | pkg/healthwash/rules.go:144-182 | when every source, an overwritten named result included, is of concrete type or nil, every non-nil instance the registration can store has the resolved type, and one such instance is possible |
| `Soundness.RaisesIsReported` | pkg/healthwash/rules.go:27-126 | a rule decided for the provider is what the site reports, whether direct or through a wrapper |
| `Soundness.GreenTypeCanFailIff` | pkg/healthwash/rules.go:246-312 | a swept type on which a green rule is raised dispatches a check that can report an error iff the rule is HW-7 and the `nil` of that body is not the predeclared one |
| `Soundness.OnlyStoredIff` | pkg/healthwash/rules.go:144-182 | a resolved type can be stored, and it is the only one that can exactly when no loose source (interface-typed value or return, naked return, overwritten named result) can hold another: an interface, named or not, is fitted by the types that have its methods, a type parameter by those that its constraint admits |
| `Soundness.UnresolvedIff` | pkg/healthwash/rules.go:27-72 | a record is unresolved iff the places its instance comes from show no concrete type or two different ones, each of which can be stored; it is then reported only as unresolved, and only under the strict flag |
| `Soundness.GreenHoldsIff` | pkg/healthwash/rules.go:144-312 | given that HW-1, HW-3, HW-5, HW-7 or HW-8 is raised, no run makes the service fail iff the kind is transient, or no loose source fits a type that can fail and HW-7's nil is the predeclared one |
| `Soundness.VisibleClaimHolds` | pkg/healthwash/rules.go:144-182 | registrations whose sources are all concrete (so that no literal overwrites a named result), in programs that do not shadow nil, meet that condition |
| `Soundness.RuleSoundness` | pkg/healthwash/rules.go:225-312 | in every run and for every behaviour of the bodies, a service on which a green rule is raised is green in every sweep, and so is every chain of aliases that leads to it, under the condition that GreenHoldsIff shows to be exact |
| `Container.LazyIsGreenUntilInvoked` | README.md:119-124 | without an invocation a lazy service, and every alias that leads to it, is green in every sweep |
| `Container.CanFailIff` | README.md:100-143 | some run and some behaviour make the service fail iff its kind is dispatched and it can store a type with a body that can fail |
| `Soundness.VerdictIsTrivialBody` | pkg/healthwash/rules.go:375-416 | HW-7 or HW-8's predicate holds iff the dispatched body cannot fail and the analyzer is not blind on it |
| `Soundness.VerdictRightIff` | pkg/healthwash/rules.go:80-126 | for every registration, the verdict (ImplementsCheck, not transient, neither HW-7 nor HW-8) is right iff, for a swept kind: where it says "can fail", a loose source can or the resolved type is concrete and no unseen check is dispatched on it; where it says "cannot", no loose source can and HW-7's nil is nil, or, without a resolved named type, no concrete source can either |
| `Soundness.RulesDecideFailability` | pkg/healthwash/rules.go:80-126 | on a concrete named type whose check is not unseen, "can fail" is always right; and a run can fail iff the verdict says so, a loose source can, or HW-7 is raised on a nil that is not nil |
| `Soundness.VariableCanFailIff` | pkg/healthwash/resolve.go:182-207 | a provider or value held in a variable can fail iff its kind is swept and its declared type admits an instance that can |
| `Soundness.HW7HoldsIff` | pkg/healthwash/rules.go:466-484 | HW-7's claim is true iff the returned identifier is the predeclared nil and no loose source fits a type that can fail |
| `Soundness.HW1OnValueHoldsIff` | pkg/healthwash/rules.go:155-159 | HW-1 on a value argument is true iff its static type is concrete or no fitting type can fail |
| `Soundness.ForwardedIff` | pkg/healthwash/resolve.go:182-207 | a provider behind a declared interface is resolved to a result list iff some return forwards it and no return is of another concrete type |
| `Soundness.ForwardedCallHidesCheck` | pkg/healthwash/resolve.go:182-207 | it is then recorded without check and report; it can fail iff it is lazy and the first result, or an interface-typed or naked return beside it, can |
| `Examples.ShadowedNilFails` | pkg/healthwash/rules.go:470-484 | a program with HW-7 raised on a check that fails |
| `Examples.InterfaceValueFails` | pkg/healthwash/rules.go:155-159 | a program with HW-1 raised on a value whose check fails |
| `Examples.UnnamedStructFails` | pkg/healthwash/resolve.go:65-84 | a stored type that the sweep dispatches on and the record denies |
| `Examples.MixedReturnsFail` | pkg/healthwash/resolve.go:175-207 | a program with HW-7 raised on a provider whose other return stores a type that fails, with an unshadowed nil |
| `Examples.NakedReturnFails` | pkg/healthwash/resolve.go:182-207 | a program with HW-7 raised beside a naked return, whose named result can hold a type that fails |
| `Examples.LooseSourceHolds` | pkg/healthwash/resolve.go:175-207 | a program with HW-7 raised beside a return behind an unnamed interface, and right: only the resolved type has the interface's methods, although another type of the program can fail |
| `Examples.ListedSourceHolds` | pkg/healthwash/resolve.go:182-207 | a provider whose instance is of a type parameter that lists one type cannot fail, although another type of the program can |
| `Examples.ReplacedResultFails` | pkg/healthwash/resolve.go:182-227 | a program with HW-7 raised, all returns of one concrete type, and a deferred literal that assigns the named result: another type is stored and fails |
| `Examples.AssignedParameterFails` | pkg/healthwash/wrapper.go:112-134 | a wrapper that assigns its provider parameter: HW-7 is raised for the argument, and the service registered in its place can fail |
| `Examples.VariadicParameterHides` | pkg/healthwash/wrapper.go:112-134 | a wrapper that registers its variadic parameter: the record says that the first value can fail, and the registered slice cannot |
| `Examples.WrapperOfWrapperIsLost` | pkg/healthwash/wrapper.go:54-82 | a call of a function that hands its parameter to a wrapper brings a registration and leaves no record |
| `Examples.SecondRegistrationIsLost` | pkg/healthwash/wrapper.go:84-134 | a wrapper that also hands its parameter to a function of another package that registers it: a call brings two registrations, the record stands for one, and the program is not complete |
| `Examples.ForwardedFails` | pkg/healthwash/resolve.go:175-207 | a nil error return beside a forwarded call: recorded without a check, and it can fail |
| `Examples.DotImportIsLost` | pkg/healthwash/wrapper.go:10-30 | a registration through a dot import is performed and leaves no record |
| `Examples.ForeignNakedReturnIsMissed` | internal/driver/driver.go:255-267 | a naked-return check registered from another package: the record says that it can fail, and it cannot |
| `Examples.OrderDecidesChecked` | internal/driver/driver.go:615-637 | two orders of the same two records with checked counts 1 and 0 |
| `Examples.ChecksBySignature` | pkg/healthwash/resolve.go:86-99 | a declared HealthCheck counts as a check iff it takes a context or nothing and returns an error, and draws HW-2 iff it takes nothing |
| `Examples.ShutdownsBySignature` | pkg/healthwash/resolve.go:101-104 | a declared Shutdown counts iff it takes a context or nothing and returns an error or nothing |
| `Examples.LiteralsAreWalked` | pkg/healthwash/healthwash.go:149-159 | a call inside nested function literals and statements is found like one outside |
| `Registry.TablesAreTheLibrarys` | pkg/healthwash/healthwash.go:44-76 | the kind and slot tables are those of the library: by verb, name and suffix of the function, the wrapper it creates and the place of its provider |
| `Wrappers.MatchedIffSelector` | pkg/healthwash/wrapper.go:10-46 | a call of a registration function is matched iff its callee, explicit instantiations taken off, is written as a selector |
| `Wrappers.CalleeFuncIff` | pkg/healthwash/wrapper.go:169-182 | the function of a callee is known iff it is written as an identifier, explicitly instantiated or not |
| `Wrappers.InstantiationIsTransparent` | pkg/healthwash/wrapper.go:32-44 | explicit instantiation changes nothing about what is matched, which wrapper is called, and what is found at a call |
| `Wrappers.WrapperOfDeclIff` | pkg/healthwash/wrapper.go:84-134 | a declaration is taken for a wrapper iff its body has exactly one known registration, whose provider slot holds one of its parameters; with that registration's name and kind and that parameter |
| `Wrappers.CollectWrappers` | pkg/healthwash/wrapper.go:63-82 | the two maps filled over the declarations are the wrapper environment |
| `Wrappers.AttributionIsFound` | pkg/healthwash/healthwash.go:188-231 | at a call that is taken for a registration (its own, or a wrapper's kind with the argument passed for the provided parameter) and is not inside a wrapper, a recognised call yields exactly the verdict on that, any other nothing |
| `Wrappers.FixedIsAttributed` | pkg/healthwash/wrapper.go:112-134 | a call performs exactly what it is taken for, if the provided parameter is neither variadic nor stored to in the body |
| `Wrappers.SubstIsEverywhere` | pkg/healthwash/healthwash.go:188-231 | the substitution by which a wrapper's registration is performed reaches every node of the tree, and changes nothing but bound identifiers |
| `Wrappers.AttributionIsSubstitution` | pkg/healthwash/healthwash.go:188-231 | so a recognised call yields the verdict on the registration it performs, the wrapper's own with the arguments substituted, if the provided parameter is neither variadic nor stored to; if it is, the parameter is registered and one of the call's arguments is judged |
| `Wrappers.FoundIsPerformed` | pkg/healthwash/healthwash.go:188-231 | whatever is reported at a call is the verdict on the registration that the call is taken for, which it performs if the provided parameter holds its argument throughout |
| `Inlining.ProviderInlined` | pkg/healthwash/rules.go:144-182 | the stored type of a provider is the same before and after inlining inside it |
| `Inlining.EvalProviderInlined` | pkg/healthwash/rules.go:27-126 | so is the whole verdict on a site |
| `Inlining.WrapperInlined` | pkg/healthwash/healthwash.go:208-230 | a wrapper call evaluates, on its mapped argument, as the wrapper's own registration with the provider substituted |
| `Inlining.VisitInlined` | pkg/healthwash/healthwash.go:149-159 | when the analyzer's wrapper table agrees with the declarations, the walk over the inlined tree, evaluated plainly, finds what the walk with wrappers finds, in order |
| `Inlining.InliningPreservesFindings` | pkg/healthwash/wrapper.go:54-82 | for every package: attribution at call sites equals plain evaluation of the package in which each wrapper call is replaced by the wrapper's own registration, substituted, and the wrappers' registrations are dropped; record for record and report for report |
| `Inlining.WrapperMethodsLoseRegistrations` | pkg/healthwash/wrapper.go:87-134 | inlining functions only finds exactly as many registrations more as there are methods that qualify as wrappers |
| `Inlining.FunctionInliningExactIff` | pkg/healthwash/wrapper.go:87-134 | within a package, the findings are those of the inlined functions iff no method qualifies as a wrapper |
| `Losses.BroughtOnce` | README.md:330-338 | every chain of calls that ends at a registration function is brought by exactly one of its calls, unless its first only passes on a parameter of its own function; so no registration counts twice and none is left out |
| `Losses.ReachedRegisters` | pkg/healthwash/wrapper.go:112-134 | the call at the end of the chain, with the arguments substituted all the way, registers with the end's kind exactly the argument that the first call brings, if every parameter on the way holds it, and a variable if one does not |
| `Losses.RecordIsVerdict` | pkg/healthwash/healthwash.go:188-231 | the record at a call is the verdict on the kind of the registration that it stands for and on the argument handed down to it, which is what is registered there if the parameter holds it |
| `Losses.MissedIff` | pkg/healthwash/wrapper.go:54-134 | a registration that a call brings leaves no record iff the package does not import the library, or it lies behind a further call, or its own call is not written as a selector, or the call is not an identifier of a function of the package whose only known registration it is, with an argument of its own for it |
| `Losses.RecordsAndLosses` | internal/driver/driver.go:206-241 | over all packages and at every depth, the records plus the registrations that are missed for one of those reasons are the registrations that the program's calls bring plus the records about parameters |
| `Losses.CompleteIff` | pkg/healthwash/wrapper.go:54-134 | nothing is missed at any depth, and no record is about a parameter, iff at every call the registrations brought are exactly those that a record stands for |
| `Losses.DeeperIsLost` | README.md:330-338 | a registration that a call brings behind a further call has no record, whatever else the call records, and the program is not complete |
| `Directives.ParsedIsCanonical` | pkg/healthwash/suppress.go:37-64 | parsing yields lower-cased rules, trimmed reasons, and a deadline only together with a rule and a reason |
| `Directives.DirectiveMatchesIff` | pkg/healthwash/suppress.go:25-27 | a line matches iff it can be read as slashes, prefix, token and text |
| `Directives.DirectiveReads` | pkg/healthwash/suppress.go:25-27 | what is matched are the token and the text of the reading in which each part of the expression takes what it can |
| `Directives.ParsedContains` | pkg/healthwash/healthwash.go:364-372 | a line that parses contains the prefix, so the reader's own test for it loses nothing |
| `Directives.UntilMatchesIff` | pkg/healthwash/suppress.go:29-30 | a deadline clause matches iff the text ends in one, and every reading has the same date |
| `Directives.PrintParse` | pkg/healthwash/suppress.go:72-83 | the printed form of a canonical directive parses to it |
| `Directives.ParsePrintParse` | pkg/healthwash/suppress.go:37-83 | for every line that parses, its printed form parses to the same rule, reason and deadline |
| `Directives.CanonicalIff` | pkg/healthwash/suppress.go:37-64 | the directives that parsing can yield are exactly the canonical ones |
| `Directives.DateRoundTrip` | pkg/healthwash/suppress.go:56-61 | a formatted calendar date parses to itself |
| `Directives.DateAsWritten` | pkg/healthwash/suppress.go:56-61 | a date is written and read as year, month, day |
| `Directives.EveryDayIsADate` | pkg/healthwash/suppress.go:56-61 | every day from the first of year 0 to the last of 9999, counted by the Gregorian rule, is a date |
| `Directives.BeforeIff` | pkg/healthwash/suppress.go:66-69 | dates are ordered as their days are counted |
| `Directives.ExpiredIff` | pkg/healthwash/suppress.go:66-69 | a directive has expired iff it carries a deadline and the moment lies past the midnight that begins that day |
| `Directives.NotAfterIff` | pkg/healthwash/suppress.go:66-69 | moments are ordered as they lie on the time line |
| `Directives.SpaceByCode` | pkg/healthwash/suppress.go:37-60 | the white space that is trimmed, by code point |
| `Directives.ReSpaceByCode` | pkg/healthwash/suppress.go:25-30 | the white space of the regular expressions, by code point |
| `Directives.LowerByAlphabet` | pkg/healthwash/suppress.go:52-52 | folding takes each capital to its small letter and leaves the rest |
| `Directives.ExpiryStays` | pkg/healthwash/suppress.go:66-69 | a directive expired at one moment is expired at every later one |
| `Directives.MalformedNeverExpired` | pkg/healthwash/healthwash.go:364-384 | malformed and expired exclude each other |
| `Reporting.SplitIsJoined` | pkg/healthwash/healthwash.go:169-186 | the parts of the disable flag are what stands between its commas |
| `Reporting.DisabledIff` | pkg/healthwash/healthwash.go:169-186 | a rule is disabled iff a part of the flag is its identifier, in any case and spacing |
| `Reporting.UpperByAlphabet` | pkg/healthwash/healthwash.go:169-186 | folding takes each small letter to its capital and leaves the rest |
| `Reporting.CollectDirectives` | pkg/healthwash/healthwash.go:343-362 | the collecting loop gives each line's directives in order |
| `Reporting.CollectedAreDistinct` | pkg/healthwash/healthwash.go:343-362 | every collected directive stands for one comment |
| `Reporting.ScanMeaning` | pkg/healthwash/healthwash.go:252-277 | scanning a span marks the site with the first malformed directive and suppresses iff a valid unexpired one matches |
| `Reporting.ReportFindings` | pkg/healthwash/healthwash.go:237-291 | the nested loops compute the specified diagnostics and marked directives |
| `Reporting.ReportOrphanedDirectives` | pkg/healthwash/healthwash.go:296-310 | in any iteration order, every unmarked malformed directive is reported at itself exactly once and nothing else is |
| `Reporting.EmittedIffNotSuppressed` | pkg/healthwash/healthwash.go:252-288 | apart from HW-0, exactly the reports that are neither disabled nor suppressed in their span come out, in order |
| `Reporting.EmittedIff` | pkg/healthwash/healthwash.go:237-384 | from the comments' text: a report comes out iff its rule is not disabled and no valid, unexpired, matching directive stands on the line above its call or on a line of it |
| `Reporting.AllowsIff` | pkg/healthwash/healthwash.go:364-384 | a comment is valid for a rule iff it parses with a reason and a token naming the rule, and carries no deadline whose midnight has passed |
| `Reporting.DeadlineDecides` | pkg/healthwash/healthwash.go:252-288 | a report whose only matching directive carries a deadline comes out iff the moment is past the midnight that begins that day |
| `Reporting.TimeOnlyReveals` | pkg/healthwash/healthwash.go:327-384 | on the same reports, what comes out now comes out at every later moment |
| `Reporting.TokenNamesOneRule` | pkg/healthwash/healthwash.go:334-341 | a directive's token names at most one rule or all of them |
| `Reporting.IdNamesItsRule` | pkg/healthwash/healthwash.go:334-341 | a rule's identifier names it, in small letters and in capitals |
| `Reporting.OneHW0PerSite` | pkg/healthwash/healthwash.go:258-271 | a site position gets exactly one HW-0 iff a malformed directive lies in the span of a report there |
| `Reporting.MarkedAreMalformed` | pkg/healthwash/healthwash.go:258-271 | only malformed directives are marked |
| `Reporting.MalformedReportedOnce` | pkg/healthwash/healthwash.go:296-310 | each malformed directive is marked at a site or reported at itself, never both, never twice |
| `Reporting.LockStep` | pkg/healthwash/healthwash.go:252-288 | with one more malformed directive no site loses its HW-0, at most that directive is newly marked, and the same reports are emitted |
| `Reporting.MalformedIsMonotone` | pkg/healthwash/healthwash.go:252-309 | adding a malformed directive anywhere removes no other diagnostic and never lowers the number of HW-0 |
| `Driver.CollectMethodDecls` | pkg/healthwash/rules.go:353-373 | the loop collects the bodies of exactly the methods declared with one |
| `Driver.FuncsOfIff` | pkg/healthwash/resolve.go:156-173 | the bodies found are those of the functions and methods that the package declares with one, each from such a declaration; the methods are those with a receiver |
| `Driver.NamedProviderIff` | pkg/healthwash/resolve.go:127-207 | a provider named in the package and declared to return an interface is resolved to t iff the returns that leave its declared body agree on t |
| `Driver.FactStore.ExportFrom` | internal/driver/driver.go:255-259 | only nil-body verdicts are stored |
| `Driver.ExportFacts` | pkg/healthwash/healthwash.go:118-129 | exactly the HealthCheck methods with a sole `return nil` are exported, in any order |
| `Driver.NilExportsIff` | pkg/healthwash/healthwash.go:118-129 | what a package exports are its methods called HealthCheck that are declared with the body `return nil` |
| `Driver.RunAnalyzer` | internal/driver/driver.go:397-438 | one run adds its package's verdicts and yields the package's diagnostics and records under the resulting facts |
| `Driver.CollectFacts` | internal/driver/driver.go:209-212 | after the first sweep the store holds exactly the exports of the scanned packages |
| `Driver.AnalyzePackages` | internal/driver/driver.go:206-241 | the findings and records are those of all packages under the complete facts |
| `Driver.TwoSweepsIgnoreOrder` | internal/driver/driver.go:197-241 | any permutation of the packages gives the same facts and, up to order, the same findings and records |
| `Driver.PackageGrows` | pkg/healthwash/rules.go:378-396 | with more facts the records stay and no HW-7 goes away |
| `Driver.OneSweepMisses` | internal/driver/driver.go:200-205 | one sweep reports a part of the HW-7 findings |
| `Driver.OneSweepSuffices` | internal/driver/driver.go:200-205 | with declaring packages first, one sweep reports everything |
| `Driver.DriverContextIsTruthful` | internal/driver/driver.go:243-267 | what the store says about bodies is true |
| `Driver.HW8StaysInPackage` | internal/driver/driver.go:255-267 | HW-8 is raised iff the kind is swept and the dispatched check is a sole naked return declared in the registering package |
| `Driver.StrictReports` | pkg/healthwash/rules.go:55-72 | an unresolved site is reported iff the strict flag is set |
| `Driver.DriverVerdictIff` | internal/driver/driver.go:243-267 | the driver's verdict on any registration is right iff the condition of VerdictRightIff holds, with the unseen checks being those that cannot fail and are declared elsewhere, as a sole naked return or in an unscanned package |
| `EndToEnd.FindingsStandAtRegistrations` | internal/driver/driver.go:206-241 | every emitted HW-1, HW-3, HW-5, HW-7 or HW-8 stands at a call that is taken for a registration, and the rule was raised for that |
| `EndToEnd.DisabledIsSilent` | pkg/healthwash/healthwash.go:169-186 | in no package is a rule other than HW-0 diagnosed that a part of the disable flag names, in any case and spacing |
| `EndToEnd.PerformsOne` | pkg/healthwash/healthwash.go:188-231 | by itself or as the only known registration of the wrapper that it calls, a call performs at most one, so what DriverFindingsAreTrue speaks about is unique; what the wrapper leads to through further calls is counted by `Losses.Brings` |
| `EndToEnd.DriverFindingsAreTrue` | internal/driver/driver.go:206-241 | for whatever registration the one recorded call at the position of an emitted green finding performs: if the provided parameter, if any, is neither variadic nor stored to, the rule was raised on it, and no run makes it fail iff the exact condition of GreenHoldsIff holds; if it is, no run makes it fail iff nothing of its declared type can |
| `EndToEnd.DifferentTypesCountApart` | pkg/healthwash/rules.go:42-53 | services registered under different types are two in the coverage, whatever instances they are built as |
| `EndToEnd.AliasesNeverCount` | pkg/healthwash/rules.go:37-39 | an alias row is not reported on and changes no count |
| `EndToEnd.MissingProviderCounts` | pkg/healthwash/rules.go:41-44 | a registration call without its provider argument counts as one unchecked service, without a report |
| `EndToEnd.CoverageIgnoresPackageOrder` | internal/driver/driver.go:603-642 | package order changes neither registered nor, for stable records, checked |
| `Coverage.DedupByName` | internal/driver/driver.go:615-626 | the loop computes the fold by name |
| `Coverage.CountCoverage` | internal/driver/driver.go:628-637 | the counts of the iteration, in any order |
| `Coverage.DedupClosedForm` | internal/driver/driver.go:615-626 | per name the kept ImplementsCheck and transience in closed form |
| `Coverage.RegisteredIgnoresOrder` | internal/driver/driver.go:628-628 | registered is the same for every order of the records |
| `Coverage.CheckedIgnoresOrderIff` | internal/driver/driver.go:617-637 | checked is the same for every order iff no name has disagreeing non-transient records or an implementing transient beside an implementing non-transient one |
| `Coverage.UncoveredRecordsAll` | internal/driver/driver.go:739-759 | the second deduplication yields the same kept records, one per name |
| `Coverage.UncheckedRecords` | internal/driver/driver.go:765-781 | exactly the unchecked rows, strictly sorted by name |
| `Coverage.ReportUncovered` | internal/driver/driver.go:712-735 | the listing printed is the uncovered listing |
| `Coverage.ListingIsUnique` | internal/driver/driver.go:765-781 | there is only one such listing, whatever the map order |
| `Coverage.ListingHasTheRest` | internal/driver/driver.go:717-781 | it has exactly registered minus checked rows |
| `Sorting.LessIff` | internal/driver/driver.go:765-781 | the order of names is that of their first difference, a proper prefix coming first |
| `Ratchet.RuleCounts` | internal/driver/driver.go:586-593 | the count of a rule is its number of findings |
| `Ratchet.CountsSumToFindings` | internal/driver/driver.go:586-593 | the counts sum to the number of findings |
| `Ratchet.Gate.EnforceRuleRatchet` | internal/driver/driver.go:983-1001 | the gate fails iff some rule exceeds its floor; exactly those rules are reported, in name order |
| `Ratchet.Gate.EnforceCoverageMin` | internal/driver/driver.go:801-816 | the gate fails iff something is registered and fewer are checked than the minimum share of it |
| `Ratchet.CoverageMinIsMonotone` | internal/driver/driver.go:801-816 | checking more never turns a pass into a failure, and full coverage passes every minimum up to 1 |
| `Ratchet.ValidBaselineIff` | internal/driver/driver.go:914-978 | a baseline is valid iff it has the schema, counters and counts in range, and the coverage of its counters up to the tolerance |
| `Ratchet.GatesFailIff` | internal/driver/driver.go:607-676 | whatever the minimum, the gates fail iff too few are checked or the baseline gate fails |
| `Ratchet.Gate.EnforceBaselineRatchet` | internal/driver/driver.go:823-894 | missing and absent-like baselines change nothing, unreadable ones fail, and others fail iff they are invalid, fewer are checked than their share, or a rule exceeds its count |
| `Ratchet.Gate.ReportCoverage` | internal/driver/driver.go:607-676 | the gates compose and never clear the flag; setting a baseline replaces them |
| `Ratchet.WrittenIsValid` | internal/driver/driver.go:914-978 | a written baseline validates iff every finding names its rule |
| `Ratchet.SetThenCheck` | internal/driver/driver.go:646-669 | an immediate re-run passes iff nothing is registered or every finding names its rule |
| `Ratchet.GcdIsDifference` | internal/driver/driver.go:968-974 | the smallest coverage step between r and R registrations is attained by counts in range |
| `Ratchet.NoHiddenRegressionIff` | internal/driver/driver.go:878-909 | the tolerance hides no regression iff r * R < 10^9 * gcd(r, R), hence none while r * R < 10^9 |
| `Ratchet.RatchetOverHistory` | internal/driver/driver.go:818-894 | in a disciplined history the floor's coverage never falls, no rule's count rises, and a passing run respects every earlier floor |
| `Ratchet.RewriteKeepsFloorIff` | internal/driver/driver.go:851-863 | a passing rewrite keeps a floor iff its run registers something; otherwise everything passes afterwards |
| `HealthAudit.InvAlways` | pkg/healthaudit/healthaudit.go:64-103 | order is duplicate-free with the elements of registered after any operations |
| `HealthAudit.OnlyGrows` | pkg/healthaudit/healthaudit.go:64-103 | the three sets and the order only grow |
| `HealthAudit.SetsAreHistory` | pkg/healthaudit/healthaudit.go:64-103 | the registered, invoked and errored names are exactly those of the registrations, invocations and failed sweeps so far |
| `HealthAudit.OrderIsOfFirsts` | pkg/healthaudit/healthaudit.go:64-74 | the order is that of the first registrations |
| `HealthAudit.SkippedAndErroredIff` | pkg/healthaudit/healthaudit.go:120-147 | skipped and errored add up to registered iff every errored name is registered |
| `HealthAudit.Audit.AfterRegistration` | pkg/healthaudit/healthaudit.go:64-74 | registers a name once, in order, and keeps the invariant |
| `HealthAudit.Audit.AfterInvocation` | pkg/healthaudit/healthaudit.go:78-85 | records the invocation only |
| `HealthAudit.Audit.RecordSweep` | pkg/healthaudit/healthaudit.go:89-102 | adds exactly the names with an error, in any order |
| `HealthAudit.Audit.Registered` | pkg/healthaudit/healthaudit.go:105-110 | the number of registered names, which is the length of the order |
| `HealthAudit.Audit.Skipped` | pkg/healthaudit/healthaudit.go:132-147 | the sorted list of registered names that never errored |
| `HealthAudit.AlwaysConsistent` | pkg/healthaudit/healthaudit.go:39-103 | under every schedule of single writes: mutual exclusion, and memory as if the ended operations had run one after another |
| `HealthAudit.InvariantUnderInterleaving` | pkg/healthaudit/healthaudit.go:39-147 | the invariant holds whenever the mutex is free, and for every state a reader sees |
| `Environment.StripModTokens` | internal/driver/driver.go:377-391 | the loop yields the joined tokens without -mod entries |
| `Environment.StrippingKeepsTheRest` | internal/driver/driver.go:375-391 | its tokens are exactly the other tokens, in order; it is idempotent |
| `Environment.ModTokens` | internal/driver/driver.go:375-391 | -mod and -mod=value are taken out; flags that only begin alike are not |
| `Environment.LoadEnv` | internal/driver/driver.go:357-373 | the other entries in order, then the sanitised GOFLAGS |
| `Environment.LoaderEnvironment` | internal/driver/driver.go:326-373 | last-wins lookup of every key in the loader's environment |
| `Environment.LoaderFlags` | internal/driver/driver.go:357-373 | GOFLAGS itself has its inherited value without the -mod tokens, or is empty |

## Left out

- Directives.ToLower: folds ASCII letters only; lower-casing of other scripts is not modelled.
- Container.ReportsError: bodies other than a sole return of nil or a sole naked return are opaque; each of them is taken to be able to report an error.
- Container.SweepErrs: scopes and the concurrency of the sweep are not part of this model.
- Ratchet.Ratio: coverage is an exact fraction; IEEE rounding is not modelled.
- Ratchet.File: the JSON codec of the baseline is the identity on documents; unreadable text is one case.
- Rules.TypeString: package-relative spelling of type names in messages and in unresolved records is not modelled; unnamed function and interface types and result lists are spelled by their form alone, so only named types and pointers to them are told apart by name.
- Container.MayStore: the error beside a provider's result is not modelled; an instance returned with an error counts as storable.
- Syntax.Node: parenthesised expressions are not a form of their own; a registration function used as a value, and then called, is not followed; control flow is not modelled, so a call counts as performing what the body of its wrapper contains.
- Syntax.Stores: goes by the statements of the body, whatever their order: a parameter that is stored to after the registration, or to its own value, counts as not holding its argument.
- Syntax.Overwritten: any function literal that stores to a named result, and any address taken of it, counts as able to replace what a return has put there; a panic and its recovery are not modelled.
- Losses.Made: a call is followed to the declaration that its callee names; calls of function values and through interfaces are not, and what a function literal's own parameter stands for counts as brought where it is registered.
- Registry.Registers: a registration function is told by package and name; methods of the library are not told apart from its functions.
- Rules.EvalSite: the visitor callbacks are recursive functions on the tree; the name of an alias record, which never counts, is empty.
- GoTypes.Type: a type parameter is not concrete, and is fitted by whatever its constraint admits; it is not instantiated at a wrapper's call. Type aliases and instantiated methods are not modelled.
- `packages.Load`, `go list`, file reads and writes, and the table, JSON and SARIF output.
- The config allowlist (a filter over an opaque path match) and the mapping of confidences to exit codes.
- Diagnostic wording, and the lines printed on standard output.
- CLI wiring, the golangci-lint plugin, `pkg/sdk`, version strings and the static rule table.
