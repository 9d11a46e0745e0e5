/** The environment for package loading (internal/driver/driver.go): GOFLAGS without its -mod tokens,
    everything else as inherited, explicit entries last. */
module Environment {
  import opened GoTypes
  import opened Directives

  predicate IsWordChar(c: char)
  {
    !IsSpace(c)
  }

  /** The longest prefix without white space. */
  function WordOf(s: string): (w: string)
    ensures w <= s && All(w, IsWordChar)
    ensures s != "" && !IsSpace(s[0]) ==> w != ""
  {
    if s == "" || IsSpace(s[0]) then ""
    else
      var w := WordOf(s[1..]);
      assert s == [s[0]] + s[1..];
      [s[0]] + w
  }

  /** Split around runs of white space. */
  function Fields(s: string): seq<string>
    decreases |s|
  {
    var a := TrimLeft(s, IsSpace);
    if a == "" then [] else [WordOf(a)] + Fields(a[|WordOf(a)|..])
  }

  function Join(tokens: seq<string>): string
  {
    if tokens == [] then ""
    else if |tokens| == 1 then tokens[0]
    else tokens[0] + (" " + Join(tokens[1..]))
  }

  predicate IsModToken(tok: string)
  {
    tok == "-mod" || "-mod=" <= tok
  }

  function WithoutMod(tokens: seq<string>): seq<string>
  {
    if tokens == [] then []
    else
      var init, t := WithoutMod(tokens[..|tokens| - 1]), tokens[|tokens| - 1];
      if IsModToken(t) then init else init + [t]
  }

  lemma {:induction false} WithoutModMembers(tokens: seq<string>)
    ensures forall t :: t in WithoutMod(tokens) <==> t in tokens && !IsModToken(t)
  {
    if tokens != [] {
      var init, last := tokens[..|tokens| - 1], tokens[|tokens| - 1];
      WithoutModMembers(init);
      assert forall t :: t in tokens <==> t in init || t == last;
    }
  }

  function Stripped(flags: string): string
  {
    Join(WithoutMod(Fields(flags)))
  }

  method StripModTokens(flags: string) returns (r: string)
    ensures r == Stripped(flags)
  {
    var tokens := Fields(flags);
    var kept: seq<string> := [];
    var k := 0;
    while k < |tokens|
      invariant 0 <= k <= |tokens|
      invariant kept == WithoutMod(tokens[..k])
    {
      var tok := tokens[k];
      assert tokens[..k + 1][..k] == tokens[..k];
      k := k + 1;
      if IsModToken(tok) { continue; }
      kept := kept + [tok];
    }
    assert tokens[..k] == tokens;
    r := Join(kept);
  }

  ghost predicate IsWord(t: string)
  {
    t != "" && All(t, IsWordChar)
  }

  lemma {:induction false} FieldsAreWords(s: string)
    ensures forall t | t in Fields(s) :: IsWord(t)
    decreases |s|
  {
    var a := TrimLeft(s, IsSpace);
    if a != "" { FieldsAreWords(a[|WordOf(a)|..]); }
  }

  lemma {:induction false} WordRun(w: string, rest: string)
    requires All(w, IsWordChar) && (rest == "" || IsSpace(rest[0]))
    ensures WordOf(w + rest) == w
  {
    if w == "" {
      assert w + rest == rest;
    } else {
      assert (w + rest)[1..] == w[1..] + rest;
      WordRun(w[1..], rest);
    }
  }

  /** One word, then the rest. */
  lemma FieldsStep(w: string, rest: string)
    requires IsWord(w) && (rest == "" || IsSpace(rest[0]))
    ensures Fields(w + rest) == [w] + Fields(rest)
  {
    WordRun(w, rest);
    assert (w + rest)[0] == w[0];
    assert (w + rest)[|w|..] == rest;
  }

  lemma FieldsSkip(s: string)
    ensures Fields(" " + s) == Fields(s)
  {
    assert (" " + s)[1..] == s;
  }

  lemma {:induction false} FieldsOfJoin(tokens: seq<string>)
    requires forall t | t in tokens :: IsWord(t)
    ensures Fields(Join(tokens)) == tokens
  {
    if tokens != [] {
      var w, more := tokens[0], tokens[1..];
      assert w in tokens && forall t | t in more :: t in tokens;
      JoinCons(w, more);
      assert tokens == [w] + more;
      FieldsOfJoin(more);
      if more == [] { LastField(w); } else { NextField(w, Join(more)); }
    }
  }

  lemma JoinCons(w: string, more: seq<string>)
    ensures Join([w] + more) == if more == [] then w else w + (" " + Join(more))
  {
    assert ([w] + more)[1..] == more;
  }

  lemma LastField(w: string)
    requires IsWord(w)
    ensures Fields(w) == [w]
  {
    FieldsStep(w, "");
    assert w + "" == w;
  }

  lemma NextField(w: string, rest: string)
    requires IsWord(w)
    ensures Fields(w + (" " + rest)) == [w] + Fields(rest)
  {
    FieldsStep(w, " " + rest);
    FieldsSkip(rest);
  }

  /** Of the flags that begin alike, -mod and its values are taken out, -modfile and -modcacherw are not. */
  lemma ModTokens(value: string)
    ensures IsModToken("-mod") && IsModToken("-mod=" + value)
    ensures !IsModToken("-modfile=" + value) && !IsModToken("-modcacherw") && !IsModToken("mod") && !IsModToken("--mod")
  {
    assert ("-mod=" + value)[..5] == "-mod=";
    assert ("-modfile=" + value)[4] == 'f';
    assert "-modcacherw"[4] == 'c' && "--mod"[1] == '-';
  }

  lemma {:induction false} WithoutModTwice(tokens: seq<string>)
    requires forall t | t in tokens :: !IsModToken(t)
    ensures WithoutMod(tokens) == tokens
  {
    if tokens != [] { WithoutModTwice(tokens[..|tokens| - 1]); }
  }

  /** The tokens that are left are exactly the others, in order; stripping again changes nothing. */
  lemma StrippingKeepsTheRest(flags: string)
    ensures Fields(Stripped(flags)) == WithoutMod(Fields(flags))
    ensures Stripped(Stripped(flags)) == Stripped(flags)
  {
    FieldsAreWords(flags);
    WithoutModMembers(Fields(flags));
    FieldsOfJoin(WithoutMod(Fields(flags)));
    WithoutModTwice(WithoutMod(Fields(flags)));
  }

  // ---------------------------------------------------------------- the environment

  const GOFLAGS := "GOFLAGS"

  /** Key and value around the first '='. */
  function Cut(entry: string): (r: Option<(string, string)>)
    ensures r.Some? ==> entry == r.value.0 + "=" + r.value.1
    ensures r.None? ==> '=' !in entry
  {
    if entry == "" then None
    else if entry[0] == '=' then Some(("", entry[1..]))
    else
      match Cut(entry[1..])
      case None => None
      case Some((k, v)) => Some(([entry[0]] + k, v))
  }

  predicate HasKey(entry: string, key: string)
  {
    Cut(entry).Some? && Cut(entry).value.0 == key
  }

  /** The last occurrence of a key wins. */
  function Lookup(env: seq<string>, key: string): Option<string>
  {
    if env == [] then None
    else if HasKey(env[|env| - 1], key) then Some(Cut(env[|env| - 1]).value.1)
    else Lookup(env[..|env| - 1], key)
  }

  function Others(inherited: seq<string>): seq<string>
  {
    if inherited == [] then []
    else
      var init, e := Others(inherited[..|inherited| - 1]), inherited[|inherited| - 1];
      if HasKey(e, GOFLAGS) then init else init + [e]
  }

  function InheritedFlags(inherited: seq<string>): string
  {
    match Lookup(inherited, GOFLAGS) case Some(v) => v case None => ""
  }

  method LoadEnv(inherited: seq<string>) returns (env: seq<string>)
    ensures env == Others(inherited) + [GOFLAGS + "=" + Stripped(InheritedFlags(inherited))]
  {
    env := [];
    var goFlags := "";
    var k := 0;
    while k < |inherited|
      invariant 0 <= k <= |inherited|
      invariant env == Others(inherited[..k]) && goFlags == InheritedFlags(inherited[..k])
    {
      var entry := inherited[k];
      assert inherited[..k + 1][..k] == inherited[..k];
      k := k + 1;
      var cut := Cut(entry);
      if cut.Some? && cut.value.0 == GOFLAGS {
        goFlags := cut.value.1;
        continue;
      }
      env := env + [entry];
    }
    assert inherited[..k] == inherited;
    var stripped := StripModTokens(goFlags);
    env := env + [GOFLAGS + "=" + stripped];
  }

  lemma {:induction false} LookupAppend(a: seq<string>, b: seq<string>, key: string)
    ensures Lookup(a + b, key) == if Lookup(b, key).Some? then Lookup(b, key) else Lookup(a, key)
  {
    if b == [] {
      assert a + b == a;
    } else {
      assert (a + b)[..|a + b| - 1] == a + b[..|b| - 1];
      LookupAppend(a, b[..|b| - 1], key);
    }
  }

  lemma {:induction false} OthersKeep(inherited: seq<string>, key: string)
    ensures Lookup(Others(inherited), key) == if key == GOFLAGS then None else Lookup(inherited, key)
  {
    if inherited != [] {
      var init, e := inherited[..|inherited| - 1], inherited[|inherited| - 1];
      OthersKeep(init, key);
      if !HasKey(e, GOFLAGS) { assert (Others(init) + [e])[..|Others(init)|] == Others(init); }
    }
  }

  lemma {:induction false} CutOf(key: string, value: string)
    requires '=' !in key
    ensures Cut(key + "=" + value) == Some((key, value))
  {
    var s := key + "=" + value;
    if key == "" {
      assert s[1..] == value;
    } else {
      assert s[1..] == key[1..] + "=" + value;
      CutOf(key[1..], value);
      assert key == [key[0]] + key[1..];
    }
  }

  /** The loader's environment under last-wins lookup: an explicit entry decides; otherwise every key but
      GOFLAGS has its inherited value, and GOFLAGS the inherited value without its -mod tokens. */
  lemma LoaderEnvironment(inherited: seq<string>, extra: seq<string>, key: string)
    ensures var env := Others(inherited) + [GOFLAGS + "=" + Stripped(InheritedFlags(inherited))] + extra;
      Lookup(env, key) ==
        if Lookup(extra, key).Some? then Lookup(extra, key)
        else if key == GOFLAGS then Some(Stripped(InheritedFlags(inherited)))
        else Lookup(inherited, key)
  {
    var flags := Stripped(InheritedFlags(inherited));
    var entry := GOFLAGS + "=" + flags;
    LookupAppend(Others(inherited) + [entry], extra, key);
    LookupAppend(Others(inherited), [entry], key);
    OthersKeep(inherited, key);
    CutOf(GOFLAGS, flags);
    LookupOne(entry, GOFLAGS, flags, key);
  }

  /** In particular GOFLAGS itself, with nothing explicit. */
  lemma LoaderFlags(inherited: seq<string>)
    ensures Lookup(Others(inherited) + [GOFLAGS + "=" + Stripped(InheritedFlags(inherited))] + [], "GOFLAGS") ==
      match Lookup(inherited, "GOFLAGS") case Some(flags) => Some(Stripped(flags)) case None => Some("")
  {
    LoaderEnvironment(inherited, [], "GOFLAGS");
    assert Stripped("") == "";
  }

  lemma LookupOne(entry: string, k: string, v: string, key: string)
    requires Cut(entry) == Some((k, v))
    ensures Lookup([entry], key) == if key == k then Some(v) else None
  {
    assert [entry][..0] == [];
  }
}
