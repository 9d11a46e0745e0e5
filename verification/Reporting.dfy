/** From rule reports and suppression directives to diagnostics (pkg/healthwash/healthwash.go):
    suppression in the line span of a site, HW-0 for malformed directives, and the orphan scan. */
module Reporting {
  import opened GoTypes
  import opened Syntax
  import opened Rules
  import opened Directives

  datatype Key = Key(file: string, line: int)

  /** A directive at its comment: whether it is malformed or expired, and the rules its token names. */
  datatype Found = Found(invalid: bool, expired: bool, names: set<Rule>, pos: nat)

  datatype Comment = Comment(pos: nat, file: string, line: int, text: string)

  datatype Diagnostic = Diagnostic(rule: Rule, pos: nat)

  type DirectiveMap = map<Key, seq<Found>>

  // ---------------------------------------------------------------- reading comments

  predicate MatchesRule(token: string, rule: Rule)
  {
    var tok := ToLower(TrimSpace(token));
    tok == "all" || tok == ToLower(RuleId(rule))
  }

  function RulesNamed(token: string): set<Rule>
  {
    set r: Rule | MatchesRule(token, r)
  }

  function ReadComment(c: Comment, now: Instant): Option<Found>
  {
    match ParseDirectiveComment(c.text, now)
    case None => None
    case Some(p) => Some(Found(p.invalid, p.expired, RulesNamed(p.rule), c.pos))
  }

  /** The comment reader at a moment. */
  function ReaderAt(now: Instant): Comment -> Option<Found>
  {
    c => ReadComment(c, now)
  }

  function ToUpper(s: string): (r: string)
    ensures |r| == |s| && forall i | 0 <= i < |s| :: r[i] == UpperChar(s[i])
  {
    if s == "" then "" else [UpperChar(s[0])] + ToUpper(s[1..])
  }

  function UpperChar(c: char): char
  {
    if 'a' <= c <= 'z' then (c as int - 32) as char else c
  }

  lemma UpperByAlphabet(c: char)
    ensures forall k | 0 <= k < 26 :: UpperChar(LOWERS[k]) == UPPERS[k]
    ensures c !in LOWERS ==> UpperChar(c) == c
  {
    if 'a' <= c <= 'z' { assert LOWERS[c as int - 97] == c; }
  }

  /** The parts between commas. */
  function SplitCommas(s: string): (parts: seq<string>)
    ensures parts != []
  {
    if s == "" then [""]
    else
      var rest := SplitCommas(s[1..]);
      if s[0] == ',' then [""] + rest else [[s[0]] + rest[0]] + rest[1..]
  }

  /** The identifiers named by the parts of the disable flag. */
  function DisabledIds(parts: seq<string>): set<string>
  {
    set p | p in parts && ToUpper(TrimSpace(p)) != "" :: ToUpper(TrimSpace(p))
  }

  method ParseDisabledRules(flag: string) returns (ids: set<string>)
    ensures ids == DisabledIds(SplitCommas(flag))
  {
    ids := {};
    var parts, k := SplitCommas(flag), 0;
    while k < |parts|
      invariant 0 <= k <= |parts|
      invariant ids == DisabledIds(parts[..k])
    {
      var r := ToUpper(TrimSpace(parts[k]));
      assert forall p :: p in parts[..k + 1] <==> p in parts[..k] || p == parts[k];
      if r != "" {
        ids := ids + {r};
      }
      k := k + 1;
    }
    assert parts[..k] == parts;
  }

  /** The rules that the disable flag switches off. */
  function DisabledRules(flag: string): set<Rule>
  {
    set r: Rule | ToUpper(RuleId(r)) in DisabledIds(SplitCommas(flag))
  }

  function JoinCommas(parts: seq<string>): string
    requires parts != []
  {
    if |parts| == 1 then parts[0] else parts[0] + "," + JoinCommas(parts[1..])
  }

  /** The parts are what stands between the commas. */
  lemma {:induction false} SplitIsJoined(s: string)
    ensures JoinCommas(SplitCommas(s)) == s
    ensures forall p | p in SplitCommas(s) :: ',' !in p
  {
    if s != "" {
      var rest, parts := SplitCommas(s[1..]), SplitCommas(s);
      SplitIsJoined(s[1..]);
      if s[0] == ',' {
        assert parts[1..] == rest;
      } else {
        assert parts[1..] == rest[1..] && rest[0] in rest;
      }
    }
  }

  /** A rule is disabled exactly when a part of the flag is its identifier, in any case and spacing. */
  lemma DisabledIff(flag: string, rule: Rule)
    ensures rule in DisabledRules(flag) <==>
      exists p :: p in SplitCommas(flag) && ToUpper(TrimSpace(p)) == ToUpper(RuleId(rule))
  {
    assert ToUpper(RuleId(rule)) != "";
  }

  // ---------------------------------------------------------------- collecting directives

  function At(dm: DirectiveMap, file: string, line: int): seq<Found>
  {
    if Key(file, line) in dm then dm[Key(file, line)] else []
  }

  function Add(dm: DirectiveMap, c: Comment, f: Option<Found>): DirectiveMap
  {
    match f
    case None => dm
    case Some(found) => dm[Key(c.file, c.line) := At(dm, c.file, c.line) + [found]]
  }

  function DirectivesOf(comments: seq<Comment>, read: Comment -> Option<Found>): DirectiveMap
  {
    if comments == [] then map[]
    else Add(DirectivesOf(comments[..|comments| - 1], read), comments[|comments| - 1], read(comments[|comments| - 1]))
  }

  method CollectDirectives(comments: seq<Comment>, read: Comment -> Option<Found>) returns (dm: DirectiveMap)
    ensures dm == DirectivesOf(comments, read)
  {
    dm := map[];
    var k := 0;
    while k < |comments|
      invariant 0 <= k <= |comments|
      invariant dm == DirectivesOf(comments[..k], read)
    {
      var c := comments[k];
      var found := read(c);
      assert comments[..k + 1][..k] == comments[..k];
      if found.Some? {
        dm := dm[Key(c.file, c.line) := At(dm, c.file, c.line) + [found.value]];
      }
      k := k + 1;
    }
    assert comments[..k] == comments;
  }

  /** Each collected directive is a comment of its own. */
  ghost predicate Distinct(dm: DirectiveMap)
  {
    forall k, i, k', i' | k in dm && k' in dm && 0 <= i < |dm[k]| && 0 <= i' < |dm[k']| && (k, i) != (k', i') ::
      dm[k][i].pos != dm[k'][i'].pos
  }

  ghost predicate DistinctComments(comments: seq<Comment>)
  {
    forall i, j | 0 <= i < j < |comments| :: comments[i].pos != comments[j].pos
  }

  ghost predicate FromComment(comments: seq<Comment>, read: Comment -> Option<Found>, k: Key, f: Found)
  {
    exists c :: c in comments && k == Key(c.file, c.line) && read(c) == Some(f)
  }

  /** Readers keep the position of the comment. */
  ghost predicate KeepsPositions(read: Comment -> Option<Found>)
  {
    forall c :: read(c).Some? ==> read(c).value.pos == c.pos
  }

  ghost predicate Holds(dm: DirectiveMap, k: Key, f: Found)
  {
    k in dm && f in dm[k]
  }

  /** What is collected under a line are the directives read from the comments of that line. */
  lemma {:induction false} CollectedAreComments(comments: seq<Comment>, read: Comment -> Option<Found>)
    ensures forall k, f :: Holds(DirectivesOf(comments, read), k, f) <==> FromComment(comments, read, k, f)
  {
    if comments != [] {
      var init, c := comments[..|comments| - 1], comments[|comments| - 1];
      CollectedAreComments(init, read);
      var dm := DirectivesOf(init, read);
      forall k, f ensures Holds(Add(dm, c, read(c)), k, f) <==> FromComment(comments, read, k, f) {
        AddHolds(dm, c, read(c), k, f);
        assert comments == init + [c];
        assert forall x :: x in comments <==> x in init || x == c;
        assert FromComment(comments, read, k, f) <==>
          FromComment(init, read, k, f) || (k == Key(c.file, c.line) && read(c) == Some(f));
      }
    }
  }

  lemma AddHolds(dm: DirectiveMap, c: Comment, found: Option<Found>, k: Key, f: Found)
    ensures Holds(Add(dm, c, found), k, f) <==> Holds(dm, k, f) || (k == Key(c.file, c.line) && found == Some(f))
  {}

  lemma {:induction false} CollectedAreDistinct(comments: seq<Comment>, read: Comment -> Option<Found>)
    requires DistinctComments(comments) && KeepsPositions(read)
    ensures Distinct(DirectivesOf(comments, read))
  {
    if comments != [] {
      var n := |comments| - 1;
      var init, c := comments[..n], comments[n];
      CollectedAreDistinct(init, read);
      CollectedAreComments(init, read);
      var dm := DirectivesOf(init, read);
      forall k, f | Holds(dm, k, f) ensures f.pos != c.pos {
        assert FromComment(init, read, k, f);
        var b :| b in init && read(b) == Some(f);
        var j :| 0 <= j < n && init[j] == b;
        assert comments[j] == b;
      }
      if read(c).Some? { AppendDistinct(dm, Key(c.file, c.line), read(c).value); }
    }
  }

  lemma AppendDistinct(dm: DirectiveMap, k: Key, f: Found)
    requires Distinct(dm) && forall k', f' | Holds(dm, k', f') :: f'.pos != f.pos
    ensures Distinct(dm[k := At(dm, k.file, k.line) + [f]])
  {
    var before := At(dm, k.file, k.line);
    var dm': DirectiveMap := dm[k := before + [f]];
    forall a: Key, i: int, b: Key, j: int | a in dm' && b in dm' && 0 <= i < |dm'[a]| && 0 <= j < |dm'[b]| &&
      (a, i) != (b, j)
      ensures dm'[a][i].pos != dm'[b][j].pos
    {
      AppendAt(dm, k, f, a, i);
      AppendAt(dm, k, f, b, j);
    }
  }

  lemma AppendAt(dm: DirectiveMap, k: Key, f: Found, a: Key, i: int)
    ensures var dm': DirectiveMap := dm[k := At(dm, k.file, k.line) + [f]];
      a in dm' && 0 <= i < |dm'[a]| ==>
        (a in dm && i < |dm[a]| && dm'[a][i] == dm[a][i] && Holds(dm, a, dm[a][i])) ||
        (a == k && i == |At(dm, k.file, k.line)| && dm'[a][i] == f)
  {}

  // ---------------------------------------------------------------- the span of a site

  /** The directives on the line above the call and on its own lines. */
  function Span(dm: DirectiveMap, file: string, first: int, last: int): seq<Found>
    decreases last - first
  {
    if first > last then [] else Span(dm, file, first, last - 1) + At(dm, file, last)
  }

  function SpanOf(dm: DirectiveMap, site: Site): seq<Found>
  {
    Span(dm, site.file, site.line - 1, site.endLine)
  }

  predicate Silences(f: Found, rule: Rule)
  {
    !f.invalid && !f.expired && rule in f.names
  }

  predicate Suppressed(span: seq<Found>, rule: Rule)
  {
    exists f :: f in span && Silences(f, rule)
  }

  function FirstInvalid(span: seq<Found>): (r: Option<Found>)
    ensures r.None? ==> forall f | f in span :: !f.invalid
    ensures r.Some? ==> r.value in span && r.value.invalid
  {
    if span == [] then None
    else if span[0].invalid then Some(span[0])
    else FirstInvalid(span[1..])
  }

  predicate Emitted(dm: DirectiveMap, disabled: set<Rule>, r: SiteReport)
  {
    !Suppressed(SpanOf(dm, r.site), r.rule) && r.rule !in disabled
  }

  // ---------------------------------------------------------------- the report loop

  /** Site positions that already got their HW-0, the directives those stand for, and the output. */
  datatype State = State(sites: set<nat>, marked: set<nat>, diags: seq<Diagnostic>)

  function MarkSite(st: State, site: Site, first: Option<Found>): State
  {
    if first.Some? && site.pos !in st.sites
    then State(st.sites + {site.pos}, st.marked + {first.value.pos}, st.diags + [Diagnostic(HW0, site.pos)])
    else st
  }

  function Process(dm: DirectiveMap, disabled: set<Rule>, st: State, r: SiteReport): State
  {
    var st' := MarkSite(st, r.site, FirstInvalid(SpanOf(dm, r.site)));
    if Emitted(dm, disabled, r) then st'.(diags := st'.diags + [Diagnostic(r.rule, r.site.pos)]) else st'
  }

  function ProcessAll(dm: DirectiveMap, disabled: set<Rule>, reports: seq<SiteReport>): State
  {
    if reports == [] then State({}, {}, [])
    else Process(dm, disabled, ProcessAll(dm, disabled, reports[..|reports| - 1]), reports[|reports| - 1])
  }

  lemma {:induction false} FirstInvalidAppend(a: seq<Found>, b: seq<Found>)
    ensures FirstInvalid(a + b) == if FirstInvalid(a).Some? then FirstInvalid(a) else FirstInvalid(b)
  {
    if a == [] {
      assert a + b == b;
    } else {
      assert (a + b)[1..] == a[1..] + b;
      FirstInvalidAppend(a[1..], b);
    }
  }

  lemma SuppressedAppend(a: seq<Found>, b: seq<Found>, rule: Rule)
    ensures Suppressed(a + b, rule) <==> Suppressed(a, rule) || Suppressed(b, rule)
  {
    assert forall f :: f in a + b <==> f in a || f in b;
  }

  /** What one directive does to the scan of a report's span. */
  function ScanOne(st: State, suppressed: bool, r: SiteReport, f: Found): (State, bool)
  {
    if f.invalid then (MarkSite(st, r.site, Some(f)), suppressed)
    else (st, suppressed || Silences(f, r.rule))
  }

  function Scan(st: State, suppressed: bool, r: SiteReport, fs: seq<Found>): (State, bool)
  {
    if fs == [] then (st, suppressed)
    else
      var (st', s') := Scan(st, suppressed, r, fs[..|fs| - 1]);
      ScanOne(st', s', r, fs[|fs| - 1])
  }

  lemma {:induction false} ScanAppend(st: State, suppressed: bool, r: SiteReport, a: seq<Found>, b: seq<Found>)
    ensures var (st', s') := Scan(st, suppressed, r, a);
      Scan(st, suppressed, r, a + b) == Scan(st', s', r, b)
  {
    if b == [] {
      assert a + b == a;
    } else {
      assert (a + b)[..|a + b| - 1] == a + b[..|b| - 1];
      ScanAppend(st, suppressed, r, a, b[..|b| - 1]);
    }
  }

  /** A whole scan marks the site with the first malformed directive, and suppresses when some valid one
      silences the rule. */
  lemma {:induction false} ScanMeaning(st: State, r: SiteReport, fs: seq<Found>)
    ensures Scan(st, false, r, fs) == (MarkSite(st, r.site, FirstInvalid(fs)), Suppressed(fs, r.rule))
  {
    if fs != [] {
      var init, f := fs[..|fs| - 1], fs[|fs| - 1];
      assert fs == init + [f];
      ScanMeaning(st, r, init);
      FirstInvalidAppend(init, [f]);
      assert FirstInvalid([f]) == if f.invalid then Some(f) else None;
      SuppressedAppend(init, [f], r.rule);
      assert f in [f];
    }
  }

  /** One line of the span. */
  method ScanLine(here: seq<Found>, r: SiteReport, st0: State, s0: bool) returns (st: State, suppressed: bool)
    ensures (st, suppressed) == Scan(st0, s0, r, here)
  {
    var reportedSites, reportedDirectives, diags := st0.sites, st0.marked, st0.diags;
    suppressed := s0;
    var i := 0;
    while i < |here|
      invariant 0 <= i <= |here|
      invariant (State(reportedSites, reportedDirectives, diags), suppressed) == Scan(st0, s0, r, here[..i])
    {
      var f := here[i];
      assert here[..i + 1][..i] == here[..i];
      if f.invalid {
        if r.site.pos !in reportedSites {
          reportedSites := reportedSites + {r.site.pos};
          reportedDirectives := reportedDirectives + {f.pos};
          diags := diags + [Diagnostic(HW0, r.site.pos)];
        }
      } else if !f.expired && r.rule in f.names {
        suppressed := true;
      }
      i := i + 1;
    }
    assert here[..i] == here;
    st := State(reportedSites, reportedDirectives, diags);
  }

  lemma SpanStep(dm: DirectiveMap, file: string, first: int, line: int)
    requires first <= line
    ensures Span(dm, file, first, line) == Span(dm, file, first, line - 1) + At(dm, file, line)
  {}

  lemma SpanEnds(dm: DirectiveMap, site: Site, line: int)
    requires line == site.endLine + 1 || (line == site.line - 1 && site.endLine < line)
    ensures Span(dm, site.file, site.line - 1, line - 1) == SpanOf(dm, site)
  {}

  /** All lines of the span. */
  method ScanSpan(dm: DirectiveMap, r: SiteReport, st0: State) returns (st: State, suppressed: bool)
    ensures st == MarkSite(st0, r.site, FirstInvalid(SpanOf(dm, r.site)))
    ensures suppressed <==> Suppressed(SpanOf(dm, r.site), r.rule)
  {
    st, suppressed := st0, false;
    var first := r.site.line - 1;
    var line := first;
    while line <= r.site.endLine
      invariant line == first || first < line <= r.site.endLine + 1
      invariant (st, suppressed) == Scan(st0, false, r, Span(dm, r.site.file, first, line - 1))
    {
      ScanAppend(st0, false, r, Span(dm, r.site.file, first, line - 1), At(dm, r.site.file, line));
      SpanStep(dm, r.site.file, first, line);
      st, suppressed := ScanLine(At(dm, r.site.file, line), r, st, suppressed);
      line := line + 1;
    }
    SpanEnds(dm, r.site, line);
    ScanMeaning(st0, r, SpanOf(dm, r.site));
  }

  /** The nested loops: reports, the lines of a report's span, and the directives of a line. */
  method ReportFindings(reports: seq<SiteReport>, dm: DirectiveMap, disabled: set<Rule>)
    returns (diags: seq<Diagnostic>, reportedDirectives: set<nat>)
    ensures diags == ProcessAll(dm, disabled, reports).diags
    ensures reportedDirectives == ProcessAll(dm, disabled, reports).marked
  {
    var st := State({}, {}, []);
    var k := 0;
    while k < |reports|
      invariant 0 <= k <= |reports|
      invariant st == ProcessAll(dm, disabled, reports[..k])
    {
      var r := reports[k];
      assert reports[..k + 1][..k] == reports[..k];
      var suppressed;
      st, suppressed := ScanSpan(dm, r, st);
      if !suppressed && r.rule !in disabled {
        st := st.(diags := st.diags + [Diagnostic(r.rule, r.site.pos)]);
      }
      k := k + 1;
    }
    assert reports[..k] == reports;
    return st.diags, st.marked;
  }

  // ---------------------------------------------------------------- the orphan scan

  /** Positions of malformed directives. */
  ghost function Malformed(dm: DirectiveMap): (s: set<nat>)
    ensures forall p :: p in s <==> exists k, i :: k in dm && 0 <= i < |dm[k]| && dm[k][i].invalid && dm[k][i].pos == p
  {
    set k, i | k in dm && 0 <= i < |dm[k]| && dm[k][i].invalid :: dm[k][i].pos
  }

  ghost predicate OneEach(diags: seq<Diagnostic>, positions: set<nat>)
  {
    forall d :: multiset(diags)[d] == if d.rule == HW0 && d.pos in positions then 1 else 0
  }

  /** Whatever the order in which the map is iterated, each unmarked malformed directive is reported at
      itself, once. */
  method ReportOrphanedDirectives(dm: DirectiveMap, alreadyReported: set<nat>) returns (diags: seq<Diagnostic>)
    requires Distinct(dm)
    ensures OneEach(diags, Malformed(dm) - alreadyReported)
  {
    diags := [];
    var todo := dm.Keys;
    ghost var done: set<Key> := {};
    while todo != {}
      invariant todo + done == dm.Keys && todo !! done
      invariant OneEach(diags, Orphans(dm, done, alreadyReported))
      decreases todo
    {
      var k :| k in todo;
      var i := 0;
      ghost var base := Orphans(dm, done, alreadyReported);
      while i < |dm[k]|
        invariant 0 <= i <= |dm[k]|
        invariant OneEach(diags, base + OrphansAt(dm[k][..i], alreadyReported))
      {
        var f := dm[k][i];
        OrphansAtStep(dm[k], i, alreadyReported);
        if f.invalid && f.pos !in alreadyReported {
          assert f.pos !in base + OrphansAt(dm[k][..i], alreadyReported);
          diags := diags + [Diagnostic(HW0, f.pos)];
        }
        i := i + 1;
      }
      assert dm[k][..i] == dm[k];
      todo, done := todo - {k}, done + {k};
      OrphansStep(dm, done, k, alreadyReported);
    }
    assert Orphans(dm, done, alreadyReported) == Malformed(dm) - alreadyReported;
  }

  ghost function OrphansAt(fs: seq<Found>, already: set<nat>): set<nat>
  {
    set i | 0 <= i < |fs| && fs[i].invalid && fs[i].pos !in already :: fs[i].pos
  }

  ghost function Orphans(dm: DirectiveMap, keys: set<Key>, already: set<nat>): set<nat>
  {
    set k, i | k in keys && k in dm && 0 <= i < |dm[k]| && dm[k][i].invalid && dm[k][i].pos !in already :: dm[k][i].pos
  }

  lemma OrphansAtStep(fs: seq<Found>, i: nat, already: set<nat>)
    requires i < |fs|
    ensures OrphansAt(fs[..i + 1], already) ==
      OrphansAt(fs[..i], already) + if fs[i].invalid && fs[i].pos !in already then {fs[i].pos} else {}
  {
    var a, b := fs[..i], fs[..i + 1];
    forall j | 0 <= j < |b| ensures b[j] == if j < i then a[j] else fs[i] {}
    forall p | p in OrphansAt(b, already)
      ensures p in OrphansAt(a, already) + if fs[i].invalid && fs[i].pos !in already then {fs[i].pos} else {}
    {
      var j :| 0 <= j < |b| && b[j].invalid && b[j].pos !in already && b[j].pos == p;
      if j < i { assert a[j] == b[j]; }
    }
    forall p | p in OrphansAt(a, already) ensures p in OrphansAt(b, already) {
      var j :| 0 <= j < |a| && a[j].invalid && a[j].pos !in already && a[j].pos == p;
      assert b[j] == a[j];
    }
    if fs[i].invalid && fs[i].pos !in already { assert b[i] == fs[i]; }
  }

  lemma OrphansStep(dm: DirectiveMap, done: set<Key>, k: Key, already: set<nat>)
    requires k in done && k in dm
    ensures Orphans(dm, done, already) == Orphans(dm, done - {k}, already) + OrphansAt(dm[k], already)
  {}

  // ---------------------------------------------------------------- accounting

  function RulesOnly(diags: seq<Diagnostic>): seq<Diagnostic>
  {
    if diags == [] then []
    else
      var init, d := RulesOnly(diags[..|diags| - 1]), diags[|diags| - 1];
      if d.rule == HW0 then init else init + [d]
  }

  function EmittedReports(dm: DirectiveMap, disabled: set<Rule>, reports: seq<SiteReport>): seq<Diagnostic>
  {
    if reports == [] then []
    else
      var init, r := EmittedReports(dm, disabled, reports[..|reports| - 1]), reports[|reports| - 1];
      if Emitted(dm, disabled, r) then init + [Diagnostic(r.rule, r.site.pos)] else init
  }

  lemma RulesOnlyAppend(diags: seq<Diagnostic>, d: Diagnostic)
    ensures RulesOnly(diags + [d]) == RulesOnly(diags) + if d.rule == HW0 then [] else [d]
  {
    assert (diags + [d])[..|diags|] == diags;
  }

  /** Apart from HW-0, exactly the reports come out that are neither disabled nor silenced by a valid,
      unexpired, matching directive in their span, in order. */
  lemma {:induction false} EmittedIffNotSuppressed(dm: DirectiveMap, disabled: set<Rule>, reports: seq<SiteReport>)
    requires forall r | r in reports :: r.rule != HW0
    ensures RulesOnly(ProcessAll(dm, disabled, reports).diags) == EmittedReports(dm, disabled, reports)
  {
    if reports != [] {
      var init, r := reports[..|reports| - 1], reports[|reports| - 1];
      EmittedIffNotSuppressed(dm, disabled, init);
      assert r in reports;
      ProcessEmits(dm, disabled, ProcessAll(dm, disabled, init), r);
    }
  }

  lemma ProcessEmits(dm: DirectiveMap, disabled: set<Rule>, st: State, r: SiteReport)
    requires r.rule != HW0
    ensures RulesOnly(Process(dm, disabled, st, r).diags) ==
      RulesOnly(st.diags) + if Emitted(dm, disabled, r) then [Diagnostic(r.rule, r.site.pos)] else []
  {
    RulesOnlyAppend(st.diags, Diagnostic(HW0, r.site.pos));
    RulesOnlyAppend(MarkSite(st, r.site, FirstInvalid(SpanOf(dm, r.site))).diags, Diagnostic(r.rule, r.site.pos));
  }

  /** The comment is a valid directive for the rule that has not expired. */
  ghost predicate Allows(c: Comment, now: Instant, rule: Rule)
  {
    match ParseDirectiveComment(c.text, now)
    case None => false
    case Some(p) => !p.invalid && !p.expired && MatchesRule(p.rule, rule)
  }

  /** The comment is a directive with a rule, which it names, and a reason, and carries the deadline, if any. */
  ghost predicate Excuses(c: Comment, rule: Rule, expires: Option<Date>)
  {
    ParseDirective(c.text).Some? &&
    var d := ParseDirective(c.text).value;
    d.rule != "" && d.reason != "" && MatchesRule(d.rule, rule) && d.expires == expires
  }

  /** The moment lies past the midnight with which the day begins. */
  ghost predicate Past(now: Instant, day: Date)
  {
    Timeline(now) > Timeline(Instant(day, 0))
  }

  /** A directive is valid for a rule as long as it carries no deadline, or the moment is not past it. */
  lemma AllowsIff(c: Comment, now: Instant, rule: Rule)
    requires ValidInstant(now)
    ensures Allows(c, now, rule) <==>
      exists expires :: Excuses(c, rule, expires) && (expires.Some? ==> !Past(now, expires.value))
  {
    if ParseDirective(c.text).Some? {
      var d := ParseDirective(c.text).value;
      AllowsDirective(c, now, rule, d);
      ExcusesOwnDeadline(c, rule, d);
      ParsedIsCanonical(c.text);
      ExpiredIsPast(d, now);
    }
  }

  lemma AllowsDirective(c: Comment, now: Instant, rule: Rule, d: Directive)
    requires ParseDirective(c.text) == Some(d)
    ensures Allows(c, now, rule) <==> Excuses(c, rule, d.expires) && !Expired(d, now)
  {
    ParsedContains(c.text);
  }

  lemma ExpiredIsPast(d: Directive, now: Instant)
    requires ValidInstant(now) && (d.expires.Some? ==> ValidDate(d.expires.value))
    ensures Expired(d, now) <==> d.expires.Some? && Past(now, d.expires.value)
  {
    ExpiredIff(d, now);
  }

  lemma ExcusesOwnDeadline(c: Comment, rule: Rule, d: Directive)
    requires ParseDirective(c.text) == Some(d)
    ensures forall expires | Excuses(c, rule, expires) :: expires == d.expires
    ensures Excuses(c, rule, d.expires) <==> d.rule != "" && d.reason != "" && MatchesRule(d.rule, rule)
  {}

  /** The comment stands on the line above the call or on one of its lines. */
  ghost predicate Near(c: Comment, site: Site)
  {
    c.file == site.file && site.line - 1 <= c.line <= site.endLine
  }

  ghost predicate Allowed(comments: seq<Comment>, now: Instant, r: SiteReport)
  {
    exists c :: c in comments && Near(c, r.site) && Allows(c, now, r.rule)
  }

  lemma {:induction false} LineInSpan(dm: DirectiveMap, file: string, first: int, last: int, line: int, f: Found)
    requires first <= line <= last && f in At(dm, file, line)
    ensures f in Span(dm, file, first, last)
    decreases last - line
  {
    if line < last { LineInSpan(dm, file, first, last - 1, line, f); }
  }

  ghost predicate ReadSilences(read: Comment -> Option<Found>, c: Comment, rule: Rule)
  {
    read(c).Some? && Silences(read(c).value, rule)
  }

  ghost predicate Silenced(comments: seq<Comment>, read: Comment -> Option<Found>, site: Site, rule: Rule)
  {
    exists c :: c in comments && Near(c, site) && ReadSilences(read, c, rule)
  }

  lemma AllowsIsSilences(c: Comment, now: Instant, rule: Rule)
    ensures Allows(c, now, rule) <==> ReadSilences(ReaderAt(now), c, rule)
  {}

  lemma IsCollected(comments: seq<Comment>, read: Comment -> Option<Found>, c: Comment, f: Found)
    requires c in comments && read(c) == Some(f)
    ensures f in At(DirectivesOf(comments, read), c.file, c.line)
  {
    CollectedAreComments(comments, read);
    assert FromComment(comments, read, Key(c.file, c.line), f);
    assert Holds(DirectivesOf(comments, read), Key(c.file, c.line), f);
  }

  lemma IsRead(comments: seq<Comment>, read: Comment -> Option<Found>, k: Key, f: Found) returns (c: Comment)
    requires k in DirectivesOf(comments, read) && f in DirectivesOf(comments, read)[k]
    ensures c in comments && k == Key(c.file, c.line) && read(c) == Some(f)
  {
    CollectedAreComments(comments, read);
    assert Holds(DirectivesOf(comments, read), k, f) && FromComment(comments, read, k, f);
    c :| c in comments && k == Key(c.file, c.line) && read(c) == Some(f);
  }

  /** The directives that suppress at a site are those read from the comments of its span. */
  lemma SuppressedIff(comments: seq<Comment>, read: Comment -> Option<Found>, site: Site, rule: Rule)
    ensures Suppressed(SpanOf(DirectivesOf(comments, read), site), rule) <==> Silenced(comments, read, site, rule)
  {
    var dm := DirectivesOf(comments, read);
    forall c | c in comments && Near(c, site) && ReadSilences(read, c, rule)
      ensures Suppressed(SpanOf(dm, site), rule)
    {
      IsCollected(comments, read, c, read(c).value);
      LineInSpan(dm, site.file, site.line - 1, site.endLine, c.line, read(c).value);
    }
    forall f | f in SpanOf(dm, site) && Silences(f, rule) ensures Silenced(comments, read, site, rule) {
      InSpan(dm, site.file, site.line - 1, site.endLine, f);
      var k: Key, i: int :|
        k in dm && 0 <= i < |dm[k]| && dm[k][i] == f && k.file == site.file && site.line - 1 <= k.line <= site.endLine;
      var c := IsRead(comments, read, k, f);
      assert Near(c, site) && ReadSilences(read, c, rule);
    }
  }

  lemma AllowedIsSilenced(comments: seq<Comment>, now: Instant, r: SiteReport)
    ensures Allowed(comments, now, r) <==> Silenced(comments, ReaderAt(now), r.site, r.rule)
  {
    forall c ensures Allows(c, now, r.rule) <==> ReadSilences(ReaderAt(now), c, r.rule) {
      AllowsIsSilences(c, now, r.rule);
    }
  }

  /** From the comments' text to the output: a report comes out exactly when its rule is not disabled and
      no valid, unexpired directive that matches it stands in the span of its call. */
  lemma EmittedIff(comments: seq<Comment>, now: Instant, disabled: set<Rule>, r: SiteReport)
    ensures Emitted(DirectivesOf(comments, ReaderAt(now)), disabled, r) <==>
      r.rule !in disabled && !Allowed(comments, now, r)
  {
    SuppressedIff(comments, ReaderAt(now), r.site, r.rule);
    AllowedIsSilenced(comments, now, r);
  }

  /** The only directive near the report's call that is for its rule. */
  ghost predicate OnlyExcuse(comments: seq<Comment>, r: SiteReport, c: Comment, deadline: Date)
  {
    && c in comments && Near(c, r.site) && Excuses(c, r.rule, Some(deadline))
    && forall b, expires | b in comments && Near(b, r.site) && Excuses(b, r.rule, expires) :: b == c
  }

  /** A report whose only matching directive carries a deadline comes out exactly when the moment is past the
      midnight that begins that day. */
  lemma DeadlineDecides(comments: seq<Comment>, now: Instant, disabled: set<Rule>, r: SiteReport, c: Comment,
                        deadline: Date)
    requires ValidInstant(now) && r.rule !in disabled && OnlyExcuse(comments, r, c, deadline)
    ensures Emitted(DirectivesOf(comments, ReaderAt(now)), disabled, r) <==> Past(now, deadline)
  {
    EmittedIff(comments, now, disabled, r);
    AllowsIff(c, now, r.rule);
    if Allowed(comments, now, r) {
      var b :| b in comments && Near(b, r.site) && Allows(b, now, r.rule);
      AllowsIff(b, now, r.rule);
    } else {
      assert !Allows(c, now, r.rule);
    }
  }

  lemma AllowedEarlier(comments: seq<Comment>, now: Instant, later: Instant, r: SiteReport)
    requires NotAfter(now, later) && Allowed(comments, later, r)
    ensures Allowed(comments, now, r)
  {
    var c :| c in comments && Near(c, r.site) && Allows(c, later, r.rule);
    ReadEarlier(c.text, now, later);
    assert Allows(c, now, r.rule);
  }

  /** Time only brings findings back: what comes out now comes out at any later moment on the same
      reports, each as often. */
  lemma {:induction false} TimeOnlyReveals(comments: seq<Comment>, now: Instant, later: Instant, disabled: set<Rule>,
                                           reports: seq<SiteReport>)
    requires NotAfter(now, later)
    ensures multiset(EmittedReports(DirectivesOf(comments, ReaderAt(now)), disabled, reports)) <=
            multiset(EmittedReports(DirectivesOf(comments, ReaderAt(later)), disabled, reports))
  {
    if reports != [] {
      var r := reports[|reports| - 1];
      TimeOnlyReveals(comments, now, later, disabled, reports[..|reports| - 1]);
      EmittedIff(comments, now, disabled, r);
      EmittedIff(comments, later, disabled, r);
      if Allowed(comments, later, r) { AllowedEarlier(comments, now, later, r); }
    }
  }

  lemma IdIsTrimmed(rule: Rule)
    ensures TrimSpace(RuleId(rule)) == RuleId(rule)
  {
    var id := RuleId(rule);
    assert id[0] == 'H' && (id[|id| - 1] == 'd' || '0' <= id[|id| - 1] <= '8');
    TrimmedIsFixed(id);
  }

  lemma LowerIdIsTrimmed(rule: Rule)
    ensures TrimSpace(ToLower(RuleId(rule))) == ToLower(RuleId(rule))
  {
    var id := RuleId(rule);
    LowerKeepsEnds(id);
    assert id[0] == 'H' && (id[|id| - 1] == 'd' || '0' <= id[|id| - 1] <= '8');
    TrimmedIsFixed(ToLower(id));
  }

  lemma LowerKeepsEnds(s: string)
    requires s != ""
    ensures ToLower(s)[0] == LowerChar(s[0]) && ToLower(s)[|s| - 1] == LowerChar(s[|s| - 1])
  {}

  lemma LowerTwice(s: string)
    ensures ToLower(ToLower(s)) == ToLower(s)
  {}

  /** A rule's identifier names it, in small letters and in capitals. */
  lemma IdNamesItsRule(rule: Rule)
    ensures MatchesRule(RuleId(rule), rule) && MatchesRule(ToLower(RuleId(rule)), rule)
  {
    IdIsTrimmed(rule);
    LowerIdIsTrimmed(rule);
    LowerTwice(RuleId(rule));
  }

  /** A token names one rule, whatever its case, or all of them. */
  lemma TokenNamesOneRule(token: string, a: Rule, b: Rule)
    requires MatchesRule(token, a) && MatchesRule(token, b) && a != b
    ensures forall r :: MatchesRule(token, r)
  {
    var tok := ToLower(TrimSpace(token));
    if tok != "all" { IdsDiffer(a, b); }
  }

  /** The character of an identifier that tells the rules apart. */
  lemma IdsDiffer(a: Rule, b: Rule)
    requires a != b
    ensures ToLower(RuleId(a)) != ToLower(RuleId(b))
  {
    FourthOf(a);
    FourthOf(b);
    assert ToLower(RuleId(a))[3] == LowerChar(FourthChar(a)) && ToLower(RuleId(b))[3] == LowerChar(FourthChar(b));
  }

  function FourthChar(rule: Rule): char
  {
    match rule
    case HW0 => '0' case HW1 => '1' case HW2 => '2' case HW3 => '3' case HW4 => '4' case HW5 => '5'
    case HW7 => '7' case HW8 => '8' case Unresolved => 'u'
  }

  lemma FourthOf(rule: Rule)
    ensures |RuleId(rule)| > 3 && RuleId(rule)[3] == FourthChar(rule)
  {}

  /** Some report at position p has a malformed directive in its span. */
  ghost predicate MalformedAt(dm: DirectiveMap, reports: seq<SiteReport>, p: nat)
  {
    exists r :: r in reports && r.site.pos == p && FirstInvalid(SpanOf(dm, r.site)).Some?
  }

  /** What processing one report does to the state. */
  lemma ProcessAdds(dm: DirectiveMap, disabled: set<Rule>, st: State, r: SiteReport)
    ensures var st', f := Process(dm, disabled, st, r), FirstInvalid(SpanOf(dm, r.site));
      && st'.sites == (if f.Some? then st.sites + {r.site.pos} else st.sites)
      && st'.marked == (if f.Some? && r.site.pos !in st.sites then st.marked + {f.value.pos} else st.marked)
      && st'.diags == st.diags +
           (if f.Some? && r.site.pos !in st.sites then [Diagnostic(HW0, r.site.pos)] else []) +
           (if Emitted(dm, disabled, r) then [Diagnostic(r.rule, r.site.pos)] else [])
  {}

  lemma {:induction false} SitesAre(dm: DirectiveMap, disabled: set<Rule>, reports: seq<SiteReport>, p: nat)
    ensures p in ProcessAll(dm, disabled, reports).sites <==> MalformedAt(dm, reports, p)
  {
    if reports != [] {
      var init, r := reports[..|reports| - 1], reports[|reports| - 1];
      SitesAre(dm, disabled, init, p);
      ProcessAdds(dm, disabled, ProcessAll(dm, disabled, init), r);
      MalformedAtSnoc(dm, init, r, p);
      assert reports == init + [r];
    }
  }

  lemma MalformedAtSnoc(dm: DirectiveMap, init: seq<SiteReport>, r: SiteReport, p: nat)
    ensures MalformedAt(dm, init + [r], p) <==>
      MalformedAt(dm, init, p) || (r.site.pos == p && FirstInvalid(SpanOf(dm, r.site)).Some?)
  {
    assert forall x :: x in init + [r] <==> x in init || x == r;
  }

  /** Each site position with a malformed directive in span gets exactly one HW-0, the others none. */
  lemma {:induction false} OneHW0PerSite(dm: DirectiveMap, disabled: set<Rule>, reports: seq<SiteReport>, p: nat)
    requires forall r | r in reports :: r.rule != HW0
    ensures multiset(ProcessAll(dm, disabled, reports).diags)[Diagnostic(HW0, p)] ==
      if MalformedAt(dm, reports, p) then 1 else 0
  {
    SitesAre(dm, disabled, reports, p);
    CountedBySites(dm, disabled, reports, p);
  }

  lemma {:induction false} CountedBySites(dm: DirectiveMap, disabled: set<Rule>, reports: seq<SiteReport>, p: nat)
    requires forall r | r in reports :: r.rule != HW0
    ensures var st := ProcessAll(dm, disabled, reports);
      multiset(st.diags)[Diagnostic(HW0, p)] == if p in st.sites then 1 else 0
  {
    if reports != [] {
      var init, r := reports[..|reports| - 1], reports[|reports| - 1];
      CountedBySites(dm, disabled, init, p);
      ProcessAdds(dm, disabled, ProcessAll(dm, disabled, init), r);
      assert r in reports;
    }
  }

  lemma {:induction false} InSpan(dm: DirectiveMap, file: string, first: int, last: int, f: Found)
    requires f in Span(dm, file, first, last)
    ensures exists k: Key, i: int ::
              k in dm && 0 <= i < |dm[k]| && dm[k][i] == f && k.file == file && first <= k.line <= last
    decreases last - first
  {
    if f in At(dm, file, last) {
      var k := Key(file, last);
      var i :| 0 <= i < |dm[k]| && dm[k][i] == f;
    } else {
      InSpan(dm, file, first, last - 1, f);
    }
  }

  /** Only malformed directives are marked, so every malformed directive is either marked at a site or
      reported at itself, never both. */
  lemma {:induction false} MarkedAreMalformed(dm: DirectiveMap, disabled: set<Rule>, reports: seq<SiteReport>)
    ensures ProcessAll(dm, disabled, reports).marked <= Malformed(dm)
  {
    if reports != [] {
      var init, r := reports[..|reports| - 1], reports[|reports| - 1];
      MarkedAreMalformed(dm, disabled, init);
      FirstIsMalformed(dm, r.site);
      ProcessAdds(dm, disabled, ProcessAll(dm, disabled, init), r);
    }
  }

  lemma FirstIsMalformed(dm: DirectiveMap, site: Site)
    ensures FirstInvalid(SpanOf(dm, site)).Some? ==> FirstInvalid(SpanOf(dm, site)).value.pos in Malformed(dm)
  {
    var f := FirstInvalid(SpanOf(dm, site));
    if f.Some? { InSpan(dm, site.file, site.line - 1, site.endLine, f.value); }
  }

  lemma MalformedReportedOnce(dm: DirectiveMap, disabled: set<Rule>, reports: seq<SiteReport>,
                              orphans: seq<Diagnostic>, p: nat)
    requires p in Malformed(dm)
    requires OneEach(orphans, Malformed(dm) - ProcessAll(dm, disabled, reports).marked)
    ensures multiset(orphans)[Diagnostic(HW0, p)] == if p in ProcessAll(dm, disabled, reports).marked then 0 else 1
    ensures p in ProcessAll(dm, disabled, reports).marked ==> exists r :: r in reports && MarksAt(dm, r, p)
  {
    if p in ProcessAll(dm, disabled, reports).marked { MarkedBySite(dm, disabled, reports, p); }
  }

  /** p is the first malformed directive of r's span. */
  ghost predicate MarksAt(dm: DirectiveMap, r: SiteReport, p: nat)
  {
    FirstInvalid(SpanOf(dm, r.site)).Some? && FirstInvalid(SpanOf(dm, r.site)).value.pos == p
  }

  lemma {:induction false} MarkedBySite(dm: DirectiveMap, disabled: set<Rule>, reports: seq<SiteReport>, p: nat)
    requires p in ProcessAll(dm, disabled, reports).marked
    ensures exists r :: r in reports && MarksAt(dm, r, p)
  {
    var init, r := reports[..|reports| - 1], reports[|reports| - 1];
    if p in ProcessAll(dm, disabled, init).marked {
      MarkedBySite(dm, disabled, init, p);
      var x :| x in init && MarksAt(dm, x, p);
      assert x in reports;
    } else {
      assert r in reports && MarksAt(dm, r, p);
    }
  }

  // ---------------------------------------------------------------- adding a malformed directive

  function CountHW0(diags: seq<Diagnostic>): nat
  {
    if diags == [] then 0
    else CountHW0(diags[..|diags| - 1]) + if diags[|diags| - 1].rule == HW0 then 1 else 0
  }

  lemma {:induction false} CountHW0Append(a: seq<Diagnostic>, b: seq<Diagnostic>)
    ensures CountHW0(a + b) == CountHW0(a) + CountHW0(b)
  {
    if b == [] {
      assert a + b == a;
    } else {
      assert (a + b)[..|a + b| - 1] == a + b[..|b| - 1];
      CountHW0Append(a, b[..|b| - 1]);
    }
  }

  lemma {:induction false} SitesAreCounted(dm: DirectiveMap, disabled: set<Rule>, reports: seq<SiteReport>)
    requires forall r | r in reports :: r.rule != HW0
    ensures CountHW0(ProcessAll(dm, disabled, reports).diags) == |ProcessAll(dm, disabled, reports).sites|
  {
    if reports != [] {
      var init, r := reports[..|reports| - 1], reports[|reports| - 1];
      SitesAreCounted(dm, disabled, init);
      assert r in reports;
      ProcessCounts(dm, disabled, ProcessAll(dm, disabled, init), r);
    }
  }

  lemma ProcessCounts(dm: DirectiveMap, disabled: set<Rule>, st: State, r: SiteReport)
    requires r.rule != HW0 && CountHW0(st.diags) == |st.sites|
    ensures var st' := Process(dm, disabled, st, r); CountHW0(st'.diags) == |st'.sites|
  {
    MarkSiteCounts(st, r.site, FirstInvalid(SpanOf(dm, r.site)));
    var marked := MarkSite(st, r.site, FirstInvalid(SpanOf(dm, r.site)));
    CountHW0Append(marked.diags, [Diagnostic(r.rule, r.site.pos)]);
    CountHW0One(Diagnostic(r.rule, r.site.pos));
  }

  lemma MarkSiteCounts(st: State, site: Site, first: Option<Found>)
    requires CountHW0(st.diags) == |st.sites|
    ensures var st' := MarkSite(st, site, first); CountHW0(st'.diags) == |st'.sites|
  {
    CountHW0Append(st.diags, [Diagnostic(HW0, site.pos)]);
    CountHW0One(Diagnostic(HW0, site.pos));
  }

  lemma CountHW0One(d: Diagnostic)
    ensures CountHW0([d]) == if d.rule == HW0 then 1 else 0
  {
    assert [d][..0] == [];
  }

  lemma {:induction false} OrphansAreCounted(diags: seq<Diagnostic>, positions: set<nat>)
    requires OneEach(diags, positions)
    ensures CountHW0(diags) == |positions|
    decreases |diags|
  {
    if diags == [] {
      assert forall p | p in positions :: multiset(diags)[Diagnostic(HW0, p)] == 1;
      assert positions == {};
    } else {
      var init, d := diags[..|diags| - 1], diags[|diags| - 1];
      assert diags == init + [d];
      assert multiset(diags)[d] >= 1;
      assert OneEach(init, positions - {d.pos});
      OrphansAreCounted(init, positions - {d.pos});
    }
  }

  /** f inserted before index i of the directives of line k. */
  function Insert(dm: DirectiveMap, k: Key, i: nat, f: Found): DirectiveMap
    requires i <= |At(dm, k.file, k.line)|
  {
    var fs := At(dm, k.file, k.line);
    dm[k := fs[..i] + [f] + fs[i..]]
  }

  /** Inserting malformed directives can only make one of them the first malformed one, and changes no
      suppression. */
  ghost predicate Inserted(a: seq<Found>, b: seq<Found>, f: Found, rule: Rule)
  {
    (FirstInvalid(b) == FirstInvalid(a) || FirstInvalid(b) == Some(f)) && (Suppressed(b, rule) <==> Suppressed(a, rule))
  }

  lemma LineInsert(fs: seq<Found>, i: nat, f: Found, rule: Rule)
    requires i <= |fs| && f.invalid
    ensures Inserted(fs, fs[..i] + [f] + fs[i..], f, rule)
  {
    var a, b := fs[..i], fs[i..];
    assert fs == a + b;
    assert FirstInvalid([f]) == Some(f);
    FirstInvalidAppend(a, b);
    FirstInvalidAppend(a + [f], b);
    FirstInvalidAppend(a, [f]);
    SuppressedAppend(a, b, rule);
    SuppressedAppend(a + [f], b, rule);
    SuppressedAppend(a, [f], rule);
  }

  lemma InsertAt(dm: DirectiveMap, k: Key, i: nat, f: Found, file: string, line: int, rule: Rule)
    requires i <= |At(dm, k.file, k.line)| && f.invalid
    ensures Inserted(At(dm, file, line), At(Insert(dm, k, i, f), file, line), f, rule)
  {
    LineInsert(At(dm, k.file, k.line), i, f, rule);
  }

  lemma InsertedAppend(a: seq<Found>, a': seq<Found>, b: seq<Found>, b': seq<Found>, f: Found, rule: Rule)
    requires Inserted(a, a', f, rule) && Inserted(b, b', f, rule)
    ensures Inserted(a + b, a' + b', f, rule)
  {
    FirstInvalidAppend(a, b);
    FirstInvalidAppend(a', b');
    SuppressedAppend(a, b, rule);
    SuppressedAppend(a', b', rule);
  }

  lemma {:induction false} SpanInsert(dm: DirectiveMap, k: Key, i: nat, f: Found, file: string, first: int,
                                      last: int, rule: Rule)
    requires i <= |At(dm, k.file, k.line)| && f.invalid
    ensures Inserted(Span(dm, file, first, last), Span(Insert(dm, k, i, f), file, first, last), f, rule)
    decreases last - first
  {
    if first <= last {
      var dm' := Insert(dm, k, i, f);
      SpanInsert(dm, k, i, f, file, first, last - 1, rule);
      InsertAt(dm, k, i, f, file, last, rule);
      InsertedAppend(Span(dm, file, first, last - 1), Span(dm', file, first, last - 1),
                     At(dm, file, last), At(dm', file, last), f, rule);
    }
  }

  /** The two runs in lock step: no site loses its HW-0, and at most the new directive is newly marked. */
  lemma {:induction false} LockStep(dm: DirectiveMap, k: Key, i: nat, f: Found, disabled: set<Rule>,
                                    reports: seq<SiteReport>)
    requires i <= |At(dm, k.file, k.line)| && f.invalid
    ensures var st, st' := ProcessAll(dm, disabled, reports), ProcessAll(Insert(dm, k, i, f), disabled, reports);
      st.sites <= st'.sites && st'.marked <= st.marked + {f.pos}
    ensures EmittedReports(Insert(dm, k, i, f), disabled, reports) == EmittedReports(dm, disabled, reports)
  {
    if reports != [] {
      var init, r := reports[..|reports| - 1], reports[|reports| - 1];
      var dm' := Insert(dm, k, i, f);
      LockStep(dm, k, i, f, disabled, init);
      SpanInsert(dm, k, i, f, r.site.file, r.site.line - 1, r.site.endLine, r.rule);
      ProcessAdds(dm, disabled, ProcessAll(dm, disabled, init), r);
      ProcessAdds(dm', disabled, ProcessAll(dm', disabled, init), r);
      assert Emitted(dm', disabled, r) <==> Emitted(dm, disabled, r);
    }
  }

  lemma MalformedHolds(dm: DirectiveMap)
    ensures forall p :: p in Malformed(dm) <==> exists k, f :: Holds(dm, k, f) && f.invalid && f.pos == p
  {
    forall p | p in Malformed(dm) ensures exists k, f :: Holds(dm, k, f) && f.invalid && f.pos == p {
      var k, i :| k in dm && 0 <= i < |dm[k]| && dm[k][i].invalid && dm[k][i].pos == p;
      assert Holds(dm, k, dm[k][i]);
    }
    forall k, f | Holds(dm, k, f) && f.invalid ensures f.pos in Malformed(dm) {
      var i :| 0 <= i < |dm[k]| && dm[k][i] == f;
    }
  }

  lemma InsertHolds(dm: DirectiveMap, k: Key, i: nat, f: Found)
    requires i <= |At(dm, k.file, k.line)|
    ensures forall k', g :: Holds(Insert(dm, k, i, f), k', g) <==> Holds(dm, k', g) || (k' == k && g == f)
  {
    var fs := At(dm, k.file, k.line);
    assert fs == fs[..i] + fs[i..];
    assert forall g :: g in fs[..i] + [f] + fs[i..] <==> g in fs || g == f;
  }

  lemma InsertMalformed(dm: DirectiveMap, k: Key, i: nat, f: Found)
    requires i <= |At(dm, k.file, k.line)| && f.invalid
    ensures Malformed(Insert(dm, k, i, f)) == Malformed(dm) + {f.pos}
  {
    MalformedHolds(dm);
    MalformedHolds(Insert(dm, k, i, f));
    InsertHolds(dm, k, i, f);
    assert Holds(Insert(dm, k, i, f), k, f);
  }

  /** Adding a malformed directive anywhere removes no other diagnostic and never lowers the number of
      HW-0 diagnostics. */
  lemma MalformedIsMonotone(dm: DirectiveMap, k: Key, i: nat, f: Found, disabled: set<Rule>, reports: seq<SiteReport>,
                            orphans: seq<Diagnostic>, orphans': seq<Diagnostic>)
    requires forall r | r in reports :: r.rule != HW0
    requires i <= |At(dm, k.file, k.line)| && f.invalid && f.pos !in Malformed(dm)
    requires OneEach(orphans, Malformed(dm) - ProcessAll(dm, disabled, reports).marked)
    requires OneEach(orphans', Malformed(Insert(dm, k, i, f)) -
                               ProcessAll(Insert(dm, k, i, f), disabled, reports).marked)
    ensures var diags := ProcessAll(dm, disabled, reports).diags;
      var diags' := ProcessAll(Insert(dm, k, i, f), disabled, reports).diags;
      && RulesOnly(diags') == RulesOnly(diags)
      && CountHW0(diags' + orphans') >= CountHW0(diags + orphans)
  {
    var dm' := Insert(dm, k, i, f);
    var st, st' := ProcessAll(dm, disabled, reports), ProcessAll(dm', disabled, reports);
    EmittedIffNotSuppressed(dm, disabled, reports);
    EmittedIffNotSuppressed(dm', disabled, reports);
    LockStep(dm, k, i, f, disabled, reports);
    SitesAreCounted(dm, disabled, reports);
    SitesAreCounted(dm', disabled, reports);
    OrphansAreCounted(orphans, Malformed(dm) - st.marked);
    OrphansAreCounted(orphans', Malformed(dm') - st'.marked);
    CountHW0Append(st.diags, orphans);
    CountHW0Append(st'.diags, orphans');
    InsertMalformed(dm, k, i, f);
    MarkedAreMalformed(dm, disabled, reports);
    MarkedAreMalformed(dm', disabled, reports);
    CountsCompare(Malformed(dm), st.marked, st'.marked, f.pos, st.sites, st'.sites);
  }

  lemma CountsCompare(malformed: set<nat>, marked: set<nat>, marked': set<nat>, p: nat, sites: set<nat>,
                      sites': set<nat>)
    requires p !in malformed && marked <= malformed && marked' <= marked + {p} && sites <= sites'
    ensures |sites'| + |malformed + {p} - marked'| >= |sites| + |malformed - marked|
  {
    SubsetSize(sites, sites');
    SubsetSize(malformed - marked, malformed + {p} - marked');
    if marked' <= marked {
      SubsetSize(malformed - marked, malformed + {p} - marked');
    }
  }

  lemma {:induction false} SubsetSize(a: set<nat>, b: set<nat>)
    ensures a <= b ==> |a| <= |b|
  {
    if a <= b { assert b == a + (b - a); }
  }
}
