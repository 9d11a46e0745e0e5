/** The registration functions of the container library, read from its side (README.md, section 2.6): how
    a function's name is put together, which wrapper it creates, and where its provider stands. */
module Registry {
  import opened GoTypes
  import opened Syntax
  import opened Rules

  /** A provider registration, plain or replacing, with or without a service name; or an alias row. */
  datatype Api = Provides(overrides: bool, named: bool, wrapper: ServiceKind) | Aliases(named: bool)

  predicate ValidApi(api: Api)
  {
    api.Provides? ==> !api.wrapper.Alias?
  }

  function Verb(api: Api): string
  {
    if api.Aliases? then "As" else if api.overrides then "Override" else "Provide"
  }

  /** A lazy provider carries no suffix. */
  function Suffix(api: Api): string
  {
    if api.Aliases? || api.wrapper.Lazy? then "" else if api.wrapper.Eager? then "Value" else "Transient"
  }

  function ApiName(api: Api): string
  {
    Verb(api) + ((if api.named then "Named" else "") + Suffix(api))
  }

  function ApiKind(api: Api): ServiceKind
  {
    if api.Aliases? then Alias else api.wrapper
  }

  /** The injector comes first, then the service name if there is one, then the provider. */
  function ApiSlot(api: Api): Option<nat>
  {
    if api.Aliases? then None else Some(if api.named then 2 else 1)
  }

  lemma LazyNames()
    ensures ApiName(Provides(false, false, Lazy)) == "Provide" && ApiName(Provides(false, true, Lazy)) == "ProvideNamed"
    ensures ApiName(Provides(true, false, Lazy)) == "Override" && ApiName(Provides(true, true, Lazy)) == "OverrideNamed"
  {}

  lemma EagerNames()
    ensures ApiName(Provides(false, false, Eager)) == "ProvideValue"
    ensures ApiName(Provides(false, true, Eager)) == "ProvideNamedValue"
    ensures ApiName(Provides(true, false, Eager)) == "OverrideValue"
    ensures ApiName(Provides(true, true, Eager)) == "OverrideNamedValue"
  {}

  lemma TransientNames()
    ensures ApiName(Provides(false, false, Transient)) == "ProvideTransient"
    ensures ApiName(Provides(false, true, Transient)) == "ProvideNamedTransient"
    ensures ApiName(Provides(true, false, Transient)) == "OverrideTransient"
    ensures ApiName(Provides(true, true, Transient)) == "OverrideNamedTransient"
  {}

  lemma AliasNames()
    ensures ApiName(Aliases(false)) == "As" && ApiName(Aliases(true)) == "AsNamed"
  {}

  /** The registration function of that name, if it is one. */
  lemma ApiOf(fn: string) returns (api: Api)
    requires RegKindOf(fn).Some?
    ensures ValidApi(api) && ApiName(api) == fn
  {
    LazyNames();
    EagerNames();
    TransientNames();
    AliasNames();
    if fn == "As" || fn == "AsNamed" {
      api := Aliases(fn == "AsNamed");
    } else if fn == "Provide" || fn == "ProvideNamed" {
      api := Provides(false, fn == "ProvideNamed", Lazy);
    } else if fn == "Override" || fn == "OverrideNamed" {
      api := Provides(true, fn == "OverrideNamed", Lazy);
    } else if fn == "ProvideValue" || fn == "ProvideNamedValue" {
      api := Provides(false, fn == "ProvideNamedValue", Eager);
    } else if fn == "OverrideValue" || fn == "OverrideNamedValue" {
      api := Provides(true, fn == "OverrideNamedValue", Eager);
    } else if fn == "ProvideTransient" || fn == "ProvideNamedTransient" {
      api := Provides(false, fn == "ProvideNamedTransient", Transient);
    } else {
      api := Provides(true, fn == "OverrideNamedTransient", Transient);
    }
  }

  lemma TabulatedApi(api: Api)
    requires ValidApi(api)
    ensures RegKindOf(ApiName(api)) == Some(ApiKind(api)) && ProviderArgIndex(ApiName(api)) == ApiSlot(api)
  {
    LazyNames();
    EagerNames();
    TransientNames();
    AliasNames();
  }

  /** The analyzer's two tables are the library's. */
  lemma TablesAreTheLibrarys(fn: string)
    ensures forall kind :: RegKindOf(fn) == Some(kind) <==>
      exists api :: ValidApi(api) && ApiName(api) == fn && ApiKind(api) == kind
    ensures forall slot :: ProviderArgIndex(fn) == Some(slot) <==>
      exists api :: ValidApi(api) && ApiName(api) == fn && ApiSlot(api) == Some(slot)
  {
    forall api | ValidApi(api) && ApiName(api) == fn
      ensures RegKindOf(fn) == Some(ApiKind(api)) && ProviderArgIndex(fn) == ApiSlot(api)
    {
      TabulatedApi(api);
    }
    if RegKindOf(fn).Some? { var api := ApiOf(fn); }
  }

  // ---------------------------------------------------------------- the registration that a call performs

  /** The function that a callee denotes, explicit instantiation stripped, however it is written. */
  function CalleeObject(fun: Node): Option<FuncId>
  {
    match fun
    case Ident(_, FuncObj(fn), _) => Some(fn)
    case Selector(_, _, FuncObj(fn), _) => Some(fn)
    case Index(x, _, _) => CalleeObject(x)
    case _ => None
  }

  /** What the callee is written as, once explicit instantiations are taken off. */
  ghost predicate WrittenAsSelector(fun: Node)
  {
    fun.Selector? || (fun.Index? && WrittenAsSelector(fun.x))
  }

  ghost predicate WrittenAsIdent(fun: Node)
  {
    fun.Ident? || (fun.Index? && WrittenAsIdent(fun.x))
  }

  ghost predicate CallsApi(fun: Node, api: Api)
  {
    ValidApi(api) && CalleeObject(fun).Some? && CalleeObject(fun).value.pkg == DO_PATH &&
    CalleeObject(fun).value.name == ApiName(api)
  }

  ghost predicate CallsRegistration(fun: Node)
  {
    exists api :: CallsApi(fun, api)
  }

  /** Calling a registration function registers its provider argument with the wrapper it creates. */
  ghost predicate Registers(c: Node, kind: ServiceKind, arg: Node)
  {
    c.Call? && exists api :: CallsApi(c.fun, api) && RegistersBy(api, c.args, kind, arg)
  }

  ghost predicate RegistersBy(api: Api, args: seq<Node>, kind: ServiceKind, arg: Node)
  {
    api.Provides? && kind == api.wrapper && ApiSlot(api).value < |args| && arg == args[ApiSlot(api).value]
  }

  lemma CallsTabulated(fun: Node)
    ensures CallsRegistration(fun) <==>
      CalleeObject(fun).Some? && CalleeObject(fun).value.pkg == DO_PATH && RegKindOf(CalleeObject(fun).value.name).Some?
    ensures forall api | CallsApi(fun, api) ::
      RegKindOf(CalleeObject(fun).value.name) == Some(ApiKind(api)) &&
      ProviderArgIndex(CalleeObject(fun).value.name) == ApiSlot(api)
  {
    forall api | CallsApi(fun, api)
      ensures RegKindOf(CalleeObject(fun).value.name) == Some(ApiKind(api))
      ensures ProviderArgIndex(CalleeObject(fun).value.name) == ApiSlot(api)
    {
      TabulatedApi(api);
    }
    if CalleeObject(fun).Some? && RegKindOf(CalleeObject(fun).value.name).Some? {
      var api := ApiOf(CalleeObject(fun).value.name);
      assert CalleeObject(fun).value.pkg == DO_PATH ==> CallsApi(fun, api);
    }
  }

  /** The analyzer's tables read off a call what it registers. */
  lemma RegistersTabulated(c: Node, kind: ServiceKind, arg: Node)
    requires c.Call? && CallsRegistration(c.fun)
    ensures Registers(c, kind, arg) <==>
      && RegKindOf(CalleeObject(c.fun).value.name) == Some(kind)
      && RegistrationProvider(CalleeObject(c.fun).value.name, c.args, None) == Some(arg)
  {
    CallsTabulated(c.fun);
    var api :| CallsApi(c.fun, api);
  }
}
