/** The HW-6 gates (internal/driver/driver.go): the committed baseline, its validation, the coverage and
    per-rule ratchets, and what they keep over a history of runs. Coverage is an exact fraction here. */
module Ratchet {
  import opened GoTypes
  import opened Rules
  import opened Sorting
  import opened Coverage

  const SCHEMA_VERSION := 2

  /** Slack between the stored coverage and checked / registered. */
  const TOLERANCE: real := 0.000000001

  datatype Baseline = Baseline(version: int, checked: int, registered: int, coverage: real, findings: map<string, int>)

  /** What is at the baseline path. */
  datatype File = Missing | NotJson | Doc(b: Baseline)

  datatype BaselineError = BadSchema | BadCounters | BadRules | BadCoverage

  datatype Options = Options(coverageMin: real, setBaseline: bool)

  // ---------------------------------------------------------------- counting

  function CountOf(counts: map<string, int>, rule: string): int
  {
    if rule in counts then counts[rule] else 0
  }

  /** Findings per rule, findings given by their rule names. */
  ghost predicate CountsFindings(counts: map<string, int>, findings: seq<string>)
  {
    forall rule :: CountOf(counts, rule) == multiset(findings)[rule] && (rule in counts <==> rule in findings)
  }

  function RuleCountsOf(findings: seq<string>): map<string, int>
  {
    if findings == [] then map[]
    else
      var counts, rule := RuleCountsOf(findings[..|findings| - 1]), findings[|findings| - 1];
      counts[rule := CountOf(counts, rule) + 1]
  }

  method RuleCounts(findings: seq<string>) returns (counts: map<string, int>)
    ensures counts == RuleCountsOf(findings) && CountsFindings(counts, findings)
  {
    counts := map[];
    var k := 0;
    while k < |findings|
      invariant 0 <= k <= |findings|
      invariant counts == RuleCountsOf(findings[..k])
    {
      assert findings[..k + 1][..k] == findings[..k];
      counts := counts[findings[k] := CountOf(counts, findings[k]) + 1];
      k := k + 1;
    }
    assert findings[..k] == findings;
    RuleCountsCount(findings);
  }

  lemma {:induction false} RuleCountsCount(findings: seq<string>)
    ensures CountsFindings(RuleCountsOf(findings), findings)
  {
    if findings != [] {
      var init, rule := findings[..|findings| - 1], findings[|findings| - 1];
      RuleCountsCount(init);
      assert findings == init + [rule];
      assert forall x :: x in findings <==> x in init || x == rule;
    }
  }

  /** Sum of the counts of some rules. */
  function Total(counts: map<string, int>, rules: seq<string>): int
  {
    if rules == [] then 0 else CountOf(counts, rules[0]) + Total(counts, rules[1..])
  }

  lemma {:induction false} TotalOneMore(counts: map<string, int>, rule: string, n: int, rules: seq<string>)
    requires forall i, j | 0 <= i < j < |rules| :: rules[i] != rules[j]
    ensures Total(counts[rule := n], rules) == Total(counts, rules) +
      if rule in rules then n - CountOf(counts, rule) else 0
  {
    if rules != [] {
      TotalOneMore(counts, rule, n, rules[1..]);
      if rules[0] == rule {
        forall i | 0 <= i < |rules[1..]| ensures rules[1..][i] != rule { assert rules[i + 1] != rules[0]; }
        assert rule !in rules[1..];
      }
    }
  }

  /** The counts, over any listing of rules that covers them, sum to the number of findings. */
  lemma {:induction false} CountsSumToFindings(findings: seq<string>, rules: seq<string>)
    requires forall i, j | 0 <= i < j < |rules| :: rules[i] != rules[j]
    requires forall f | f in findings :: f in rules
    ensures Total(RuleCountsOf(findings), rules) == |findings|
  {
    if findings == [] {
      TotalOfNothing(rules);
    } else {
      var init, rule := findings[..|findings| - 1], findings[|findings| - 1];
      CountsSumToFindings(init, rules);
      TotalOneMore(RuleCountsOf(init), rule, CountOf(RuleCountsOf(init), rule) + 1, rules);
    }
  }

  lemma {:induction false} TotalOfNothing(rules: seq<string>)
    ensures Total(map[], rules) == 0
  {
    if rules != [] { TotalOfNothing(rules[1..]); }
  }

  // ---------------------------------------------------------------- validation

  function Ratio(checked: int, registered: int): real
  {
    if registered > 0 then checked as real / registered as real else 0.0
  }

  function ValidateCounters(b: Baseline): Option<BaselineError>
  {
    if b.checked < 0 || b.registered < 0 then Some(BadCounters)
    else if b.checked > b.registered then Some(BadCounters)
    else if b.coverage < 0.0 || b.coverage > 1.0 then Some(BadCoverage)
    else if b.registered > 0 &&
            (b.coverage - Ratio(b.checked, b.registered) > TOLERANCE ||
             Ratio(b.checked, b.registered) - b.coverage > TOLERANCE)
    then Some(BadCoverage)
    else None
  }

  function ValidateBaseline(b: Baseline): Option<BaselineError>
  {
    if b.version != SCHEMA_VERSION then Some(BadSchema)
    else if ValidateCounters(b).Some? then ValidateCounters(b)
    else if exists rule :: rule in b.findings && (rule == "" || b.findings[rule] < 0) then Some(BadRules)
    else None
  }

  predicate ValidBaseline(b: Baseline)
  {
    ValidateBaseline(b).None?
  }

  // ---------------------------------------------------------------- the gates

  /** No rule may produce more findings than its committed count; an absent rule has floor 0. */
  predicate RuleRatchetFails(base: map<string, int>, current: map<string, int>)
  {
    exists rule :: rule in current && current[rule] > CountOf(base, rule)
  }

  predicate BaselineRatchetFails(file: File, counts: map<string, int>, checked: nat, registered: nat)
  {
    match file
    case Missing => false
    case NotJson => true
    case Doc(b) =>
      b.registered > 0 &&
      (!ValidBaseline(b) || Ratio(checked, registered) < b.coverage || RuleRatchetFails(b.findings, counts))
  }

  predicate CoverageMinFails(min: real, checked: nat, registered: nat)
  {
    registered > 0 && Ratio(checked, registered) < min
  }

  /** Without division: the gate fails exactly when fewer are checked than the minimum share. */
  lemma CoverageMinIff(min: real, checked: nat, registered: nat)
    ensures CoverageMinFails(min, checked, registered) <==> registered > 0 && checked as real < min * registered as real
  {
    if registered > 0 {
      assert Ratio(checked, registered) * registered as real == checked as real;
      TimesPositive(Ratio(checked, registered), min, registered as real);
    }
  }

  /** Without division: fewer are checked than the floor's share; of nothing, nothing is covered. */
  predicate BelowFloor(floor: real, checked: nat, registered: nat)
  {
    if registered == 0 then 0.0 < floor else checked as real < floor * registered as real
  }

  lemma FloorIff(floor: real, checked: nat, registered: nat)
    ensures Ratio(checked, registered) < floor <==> BelowFloor(floor, checked, registered)
  {
    CoverageMinIff(floor, checked, registered);
  }

  /** A baseline is valid exactly when it has the current schema, its counters and counts are in range, and its
      coverage is that of its counters up to the tolerance. */
  lemma ValidBaselineIff(b: Baseline)
    ensures ValidBaseline(b) <==>
      && b.version == 2 && 0 <= b.checked <= b.registered && 0.0 <= b.coverage <= 1.0
      && (b.registered > 0 ==>
            var exact, slack := b.coverage * b.registered as real, TOLERANCE * b.registered as real;
            -slack <= exact - b.checked as real <= slack)
      && forall rule | rule in b.findings :: rule != "" && b.findings[rule] >= 0
  {
    if b.registered > 0 { WithinTolerance(b.coverage, b.checked, b.registered); }
  }

  lemma WithinTolerance(coverage: real, checked: int, registered: nat)
    requires registered > 0
    ensures var exact, slack := coverage * registered as real, TOLERANCE * registered as real;
      -TOLERANCE <= coverage - Ratio(checked, registered) <= TOLERANCE <==> -slack <= exact - checked as real <= slack
  {
    var q, y := Ratio(checked, registered), registered as real;
    assert q * y == checked as real;
    ScaledSlack(coverage, q, checked as real, TOLERANCE, y);
  }

  lemma ScaledSlack(p: real, q: real, c: real, slack: real, y: real)
    requires y > 0.0 && q * y == c
    ensures -slack <= p - q <= slack <==> -(slack * y) <= p * y - c <= slack * y
  {
    TimesPositive(slack, p - q, y);
    TimesPositive(p - q, -slack, y);
    assert (p - q) * y == p * y - q * y;
    assert (-slack) * y == -(slack * y);
  }

  /** The gates together, whatever the minimum: those of the coverage minimum and of the baseline. */
  lemma GatesFailIff(file: File, records: seq<ServiceRecord>, findings: seq<string>, min: real)
    ensures GatesFail(file, records, findings, min) <==>
      var checked, registered := Checked(records), Registered(records);
      (registered > 0 && checked as real < min * registered as real) || !Passes(file, records, findings)
  {
    CoverageMinIff(min, Checked(records), Registered(records));
    CoverageMinIff(0.0, Checked(records), Registered(records));
  }

  /** Checking more never turns a pass into a failure, and full coverage passes every minimum up to 1. */
  lemma CoverageMinIsMonotone(min: real, checked: nat, more: nat, registered: nat)
    requires checked <= more
    ensures CoverageMinFails(min, more, registered) ==> CoverageMinFails(min, checked, registered)
    ensures min <= 1.0 ==> !CoverageMinFails(min, registered, registered)
  {
    CoverageMinIff(min, checked, registered);
    CoverageMinIff(min, more, registered);
    CoverageMinIff(min, registered, registered);
    if registered > 0 { TimesPositive(1.0, min, registered as real); }
  }

  function NewBaseline(records: seq<ServiceRecord>, findings: seq<string>): Baseline
  {
    var checked, registered := Checked(records), Registered(records);
    Baseline(SCHEMA_VERSION, checked, registered, Ratio(checked, registered), RuleCountsOf(findings))
  }

  /** The gate flag that the checks share; none of them ever clears it. */
  class Gate {
    var failed: bool

    constructor ()
      ensures !failed
    {
      failed := false;
    }

    /** Each rule above its floor is reported, in the order of the rule names. */
    method EnforceRuleRatchet(base: map<string, int>, current: map<string, int>) returns (exceeded: seq<string>)
      modifies this
      ensures failed == (old(failed) || RuleRatchetFails(base, current))
      ensures StrictlySorted(exceeded, x => x)
      ensures forall rule :: rule in exceeded <==> rule in current && current[rule] > CountOf(base, rule)
    {
      var rules := SortedKeys(current);
      exceeded := [];
      var k := 0;
      while k < |rules|
        invariant 0 <= k <= |rules|
        invariant forall rule :: rule in exceeded <==> rule in rules[..k] && current[rule] > CountOf(base, rule)
        invariant StrictlySorted(exceeded, x => x)
        invariant failed == (old(failed) || exceeded != [])
      {
        var rule := rules[k];
        assert rules[..k + 1] == rules[..k] + [rule];
        k := k + 1;
        if current[rule] <= CountOf(base, rule) { continue; }
        forall i | 0 <= i < |exceeded| ensures Less(exceeded[i], rule) {
          assert exceeded[i] in exceeded;
          var j :| 0 <= j < k - 1 && rules[j] == exceeded[i];
        }
        exceeded := exceeded + [rule];
        failed := true;
      }
      assert rules[..k] == rules;
      assert exceeded != [] ==> exceeded[0] in exceeded;
    }

    /** It fails exactly when something is registered and less than the minimum share of it is checked. */
    method EnforceCoverageMin(checked: nat, registered: nat, min: real)
      modifies this
      ensures failed == (old(failed) || (registered > 0 && checked as real < min * registered as real))
    {
      CoverageMinIff(min, checked, registered);
      if registered > 0 && Ratio(checked, registered) < min {
        failed := true;
      }
    }

    /** Without a baseline nothing fails, an unreadable one fails, and an enforced one fails when it is invalid,
        when coverage is below its own, or when a rule exceeds its count. */
    method EnforceBaselineRatchet(file: File, counts: map<string, int>, checked: nat, registered: nat)
      modifies this
      ensures failed == (old(failed) || BaselineRatchetFails(file, counts, checked, registered))
      ensures file.Missing? ==> failed == old(failed)
      ensures file.NotJson? ==> failed
      ensures file.Doc? && file.b.registered <= 0 ==> failed == old(failed)
      ensures file.Doc? && file.b.registered > 0 ==>
        (failed <==> old(failed) || !ValidBaseline(file.b) || BelowFloor(file.b.coverage, checked, registered) ||
                     RuleRatchetFails(file.b.findings, counts))
    {
      FloorIff(if file.Doc? then file.b.coverage else 0.0, checked, registered);
      if file.Missing? { return; }
      if file.NotJson? {
        failed := true;
        return;
      }
      var b := file.b;
      if b.registered <= 0 { return; }
      if ValidateBaseline(b).Some? {
        failed := true;
        return;
      }
      if Ratio(checked, registered) < b.coverage {
        failed := true;
      }
      var _ := EnforceRuleRatchet(b.findings, counts);
    }

    /** The gates compose; setting a baseline replaces them. writable says whether the file could be
        written. */
    method ReportCoverage(file: File, records: seq<ServiceRecord>, findings: seq<string>, opts: Options, writable: bool)
      returns (file': File)
      modifies this
      ensures file' == if opts.setBaseline && writable then Doc(NewBaseline(records, findings)) else file
      ensures opts.setBaseline ==> failed == (old(failed) || !writable)
      ensures !opts.setBaseline ==> failed == (old(failed) || GatesFail(file, records, findings, opts.coverageMin))
    {
      var checked, registered := CountCoverage(records);
      var counts := RuleCounts(findings);
      file' := file;
      if opts.setBaseline {
        if !writable {
          failed := true;
          return;
        }
        file' := Doc(Baseline(SCHEMA_VERSION, checked, registered, Ratio(checked, registered), counts));
        return;
      }
      if opts.coverageMin > 0.0 {
        EnforceCoverageMin(checked, registered, opts.coverageMin);
      }
      EnforceBaselineRatchet(file, counts, checked, registered);
    }
  }

  predicate Passes(file: File, records: seq<ServiceRecord>, findings: seq<string>)
  {
    !BaselineRatchetFails(file, RuleCountsOf(findings), Checked(records), Registered(records))
  }

  predicate GatesFail(file: File, records: seq<ServiceRecord>, findings: seq<string>, min: real)
  {
    (min > 0.0 && CoverageMinFails(min, Checked(records), Registered(records))) || !Passes(file, records, findings)
  }

  method SortedKeys(counts: map<string, int>) returns (rules: seq<string>)
    ensures StrictlySorted(rules, x => x) && forall rule :: rule in rules <==> rule in counts
  {
    var keys: seq<string> := [];
    var todo := counts.Keys;
    while todo != {}
      invariant todo <= counts.Keys
      invariant forall rule :: rule in keys <==> rule in counts.Keys - todo
      invariant DistinctKeys(keys, x => x)
      decreases todo
    {
      var rule :| rule in todo;
      assert forall i | 0 <= i < |keys| :: keys[i] in keys;
      keys := keys + [rule];
      todo := todo - {rule};
    }
    rules := Sort(keys, x => x);
    SortIsStrict(keys, x => x);
  }

  // ---------------------------------------------------------------- set, then check

  /** The baseline written from any records and findings with named rules is absent-like or valid. */
  lemma WrittenIsValid(records: seq<ServiceRecord>, findings: seq<string>)
    ensures var b := NewBaseline(records, findings);
      ValidBaseline(b) <==> "" !in findings
  {
    RuleCountsCount(findings);
    CheckedWithinRegistered(records);
    RatioInRange(Checked(records), Registered(records));
    var counts := RuleCountsOf(findings);
    forall rule | rule in counts ensures counts[rule] == CountOf(counts, rule) >= 0 {}
  }

  lemma CheckedWithinRegistered(records: seq<ServiceRecord>)
    ensures Checked(records) <= Registered(records)
  {
    var uniq := Dedup(records);
    assert CheckedNames(records) <= uniq.Keys && |uniq| == |uniq.Keys|;
    assert uniq.Keys == CheckedNames(records) + (uniq.Keys - CheckedNames(records));
  }

  lemma RatioInRange(c: nat, r: nat)
    requires c <= r
    ensures 0.0 <= Ratio(c, r) <= 1.0
  {
    if r > 0 {
      var q := Ratio(c, r);
      assert q * r as real == c as real;
      TimesPositive(q, 0.0, r as real);
      TimesPositive(1.0, q, r as real);
    }
  }

  /** Multiplication by a positive number keeps the order. */
  lemma TimesPositive(a: real, b: real, y: real)
    requires y > 0.0
    ensures a < b <==> a * y < b * y
  {
    assert (b - a) * y == b * y - a * y;
    if a < b {
      PositiveProduct(b - a, y);
    } else {
      assert (a - b) * y == a * y - b * y;
      if a > b { PositiveProduct(a - b, y); }
    }
  }

  lemma PositiveProduct(a: real, y: real)
    requires a > 0.0 && y > 0.0
    ensures a * y > 0.0
  {}

  /** An immediate re-run on the same inputs passes the ratchet, exactly when nothing is registered or
      every finding names its rule. */
  lemma SetThenCheck(records: seq<ServiceRecord>, findings: seq<string>)
    ensures Passes(Doc(NewBaseline(records, findings)), records, findings) <==>
      Registered(records) == 0 || "" !in findings
  {
    WrittenIsValid(records, findings);
  }

  // ---------------------------------------------------------------- the tolerance

  /** Greatest common divisor, by subtraction. */
  function Gcd(a: nat, b: nat): (g: nat)
    requires a > 0 && b > 0
    ensures 0 < g <= a && g <= b
    decreases a + b
  {
    if a == b then a else if a > b then Gcd(a - b, b) else Gcd(a, b - a)
  }

  lemma Distribute(a: int, b: int, c: int)
    ensures a * (b + c) == a * b + a * c
    ensures a * (b - c) == a * b - a * c
    ensures (b + c) * a == b * a + c * a
  {}

  lemma Exchange(a: int, b: int, c: int)
    ensures a * (b * c) == b * (a * c)
  {
    assert a * (b * c) == (a * b) * c;
    assert (a * b) * c == (b * a) * c;
  }

  /** It divides both. */
  lemma {:induction false} GcdDivides(a: nat, b: nat) returns (x: nat, y: nat)
    requires a > 0 && b > 0
    ensures a == Gcd(a, b) * x && b == Gcd(a, b) * y
    decreases a + b
  {
    if a == b {
      x, y := 1, 1;
    } else if a > b {
      var x0, y0 := GcdDivides(a - b, b);
      Distribute(Gcd(a - b, b), x0, y0);
      x, y := x0 + y0, y0;
    } else {
      var x0, y0 := GcdDivides(a, b - a);
      Distribute(Gcd(a, b - a), x0, y0);
      x, y := x0, x0 + y0;
    }
  }

  /** It is a difference of multiples, within the range of a coverage: oldC * r - c * oldR for some counts
      oldC of oldR and c of r. */
  lemma {:induction false} GcdIsDifference(r: nat, oldR: nat) returns (oldC: nat, c: nat)
    requires r > 0 && oldR > 0
    ensures 1 <= oldC <= oldR && c < r && oldC * r - c * oldR == Gcd(r, oldR)
    decreases r + oldR
  {
    if r == oldR {
      oldC, c := 1, 0;
    } else if r > oldR {
      var oldC0, c0 := GcdIsDifference(r - oldR, oldR);
      Distribute(oldC0, r, oldR);
      Distribute(oldR, oldC0, c0);
      oldC, c := oldC0, oldC0 + c0;
    } else {
      var oldC0, c0 := GcdIsDifference(r, oldR - r);
      Distribute(c0, oldR, r);
      Distribute(r, oldC0, c0);
      oldC, c := oldC0 + c0, c0;
    }
  }

  lemma Combine(oldC: int, c: int, d: int, x: int, y: int)
    ensures oldC * (d * x) - c * (d * y) == d * (oldC * x - c * y)
  {
    Exchange(oldC, d, x);
    Exchange(c, d, y);
    Distribute(d, oldC * x, c * y);
  }

  /** A run with c of r checked passes the coverage test against a valid baseline of oldC of oldR although its
      exact coverage is lower. */
  ghost predicate HiddenRegression(b: Baseline, c: nat, r: nat)
  {
    && ValidBaseline(b) && b.registered > 0 && r > 0 && c <= r
    && Ratio(c, r) >= b.coverage
    && c * b.registered < b.checked * r
  }

  lemma CrossMultiply(c: int, r: nat, oldC: int, oldR: nat)
    requires r > 0 && oldR > 0
    ensures Ratio(oldC, oldR) - Ratio(c, r) == (oldC * r - c * oldR) as real / (r * oldR) as real
    ensures r * oldR > 0
  {
    var p, q := Ratio(c, r), Ratio(oldC, oldR);
    var newReal, oldReal := r as real, oldR as real;
    assert p * newReal == c as real && q * oldReal == oldC as real;
    assert (q - p) * (newReal * oldReal) == (oldC * r - c * oldR) as real by {
      assert (q - p) * (newReal * oldReal) == (q * oldReal) * newReal - (p * newReal) * oldReal;
    }
    assert newReal * oldReal == (r * oldR) as real;
    assert newReal * oldReal > 0.0;
    assert (q - p) == ((q - p) * (newReal * oldReal)) / (newReal * oldReal);
  }

  lemma Scale(n: int, d: int)
    requires d > 0
    ensures n as real / d as real <= TOLERANCE <==> n * 1_000_000_000 <= d
  {
    var q := n as real / d as real;
    assert q * d as real == n as real;
    TimesPositive(TOLERANCE, q, d as real);
    assert TOLERANCE * 1000000000.0 == 1.0;
    assert (TOLERANCE * d as real) * 1000000000.0 == d as real;
    assert (n * 1_000_000_000) as real == n as real * 1000000000.0;
  }

  /** Regressions come in steps of gcd(r, oldR) / (r * oldR); the tolerance hides one exactly when a step fits
      into it. In particular none is hidden while r * oldR < 10^9. */
  lemma NoHiddenRegressionIff(r: nat, oldR: nat)
    requires r > 0 && oldR > 0
    ensures (forall b: Baseline, c: nat | b.registered == oldR :: !HiddenRegression(b, c, r)) <==>
      r * oldR < 1_000_000_000 * Gcd(r, oldR)
    ensures r * oldR < 1_000_000_000 ==> r * oldR < 1_000_000_000 * Gcd(r, oldR)
  {
    if r * oldR < 1_000_000_000 * Gcd(r, oldR) {
      forall b: Baseline, c: nat | b.registered == oldR ensures !HiddenRegression(b, c, r) {
        if HiddenRegression(b, c, r) { StepsAreLarge(b, c, r); }
      }
    } else {
      var b, c := HiddenExample(r, oldR);
      assert HiddenRegression(b, c, r);
    }
  }

  /** A hidden regression is at least one step, so the step fits into the tolerance. */
  lemma StepsAreLarge(b: Baseline, c: nat, r: nat)
    requires HiddenRegression(b, c, r)
    ensures r * b.registered >= 1_000_000_000 * Gcd(r, b.registered)
  {
    var oldR: nat, g := b.registered, Gcd(r, b.registered);
    var d := b.checked * r - c * oldR;
    HiddenFits(b, c, r, d);
    var x, y := GcdDivides(r, oldR);
    Combine(b.checked, c, g, x, y);
    MultipleIsLarge(g, b.checked * x - c * y);
  }

  lemma HiddenFits(b: Baseline, c: nat, r: nat, d: int)
    requires HiddenRegression(b, c, r) && d == b.checked * r - c * b.registered
    ensures 0 < d && d * 1_000_000_000 <= r * b.registered
  {
    CrossMultiply(c, r, b.checked, b.registered);
    Scale(d, r * b.registered);
  }

  lemma MultipleIsLarge(g: nat, k: int)
    ensures k <= 0 ==> g * k <= 0
    ensures k >= 1 ==> g * k >= g
  {}

  lemma HiddenExample(r: nat, oldR: nat) returns (b: Baseline, c: nat)
    requires r > 0 && oldR > 0 && r * oldR >= 1_000_000_000 * Gcd(r, oldR)
    ensures b.registered == oldR && HiddenRegression(b, c, r)
  {
    var oldC;
    oldC, c := GcdIsDifference(r, oldR);
    CrossMultiply(c, r, oldC, oldR);
    Scale(Gcd(r, oldR), r * oldR);
    RatioInRange(c, r);
    b := Baseline(SCHEMA_VERSION, oldC, oldR, Ratio(c, r), map[]);
    assert Gcd(r, oldR) as real / (r * oldR) as real > 0.0;
  }

  // ---------------------------------------------------------------- histories of runs

  /** One run over the same file; a run that sets the baseline rewrites it. */
  datatype Run = Run(records: seq<ServiceRecord>, findings: seq<string>, sets: bool)

  function FileAfter(file: File, runs: seq<Run>): File
  {
    if runs == [] then file
    else
      var last := runs[|runs| - 1];
      if last.sets then Doc(NewBaseline(last.records, last.findings)) else FileAfter(file, runs[..|runs| - 1])
  }

  /** Every run registers something, and the baseline is rewritten only on inputs that pass the gate. */
  ghost predicate Disciplined(file: File, runs: seq<Run>)
  {
    forall i | 0 <= i < |runs| ::
      Registered(runs[i].records) > 0 &&
      (runs[i].sets ==> Passes(FileAfter(file, runs[..i]), runs[i].records, runs[i].findings))
  }

  /** The file enforces a floor. */
  predicate Enforced(file: File)
  {
    file.Doc? && file.b.registered > 0 && ValidBaseline(file.b)
  }

  /** g's floor is at least as demanding as f's. */
  ghost predicate AtLeast(g: File, f: File)
  {
    Enforced(f) ==>
      Enforced(g) && g.b.coverage >= f.b.coverage &&
      forall rule :: CountOf(g.b.findings, rule) <= CountOf(f.b.findings, rule)
  }

  lemma PassesMeans(file: File, records: seq<ServiceRecord>, findings: seq<string>)
    requires Enforced(file) && Passes(file, records, findings)
    ensures Ratio(Checked(records), Registered(records)) >= file.b.coverage
    ensures forall rule :: CountOf(RuleCountsOf(findings), rule) <= CountOf(file.b.findings, rule)
  {
    var counts := RuleCountsOf(findings);
    assert forall rule | rule in file.b.findings :: file.b.findings[rule] >= 0;
    forall rule ensures CountOf(counts, rule) <= CountOf(file.b.findings, rule) {
      if rule in counts { assert counts[rule] <= CountOf(file.b.findings, rule); }
    }
  }

  /** A finding without a rule name never passes an enforced floor. */
  lemma PassingFindingsAreNamed(file: File, records: seq<ServiceRecord>, findings: seq<string>)
    requires Enforced(file) && Passes(file, records, findings)
    ensures "" !in findings
  {
    PassesMeans(file, records, findings);
    RuleCountsCount(findings);
    var counts := RuleCountsOf(findings);
    assert "" !in file.b.findings;
    assert CountOf(counts, "") <= 0;
  }

  lemma RewriteIsAtLeast(file: File, records: seq<ServiceRecord>, findings: seq<string>)
    requires Passes(file, records, findings) && Registered(records) > 0
    ensures AtLeast(Doc(NewBaseline(records, findings)), file)
  {
    if Enforced(file) {
      PassesMeans(file, records, findings);
      PassingFindingsAreNamed(file, records, findings);
      WrittenIsValid(records, findings);
    }
  }

  lemma {:induction false} FloorNeverFalls(file: File, runs: seq<Run>, i: nat)
    requires Disciplined(file, runs) && i <= |runs|
    ensures AtLeast(FileAfter(file, runs), FileAfter(file, runs[..i]))
    decreases |runs|
  {
    if i == |runs| {
      assert runs[..i] == runs;
    } else {
      var n := |runs| - 1;
      var init, last := runs[..n], runs[n];
      forall k | 0 <= k < n ensures init[k] == runs[k] && init[..k] == runs[..k] {}
      FloorNeverFalls(file, init, i);
      assert init[..i] == runs[..i];
      if last.sets { RewriteIsAtLeast(FileAfter(file, init), last.records, last.findings); }
    }
  }

  /** Ratchet over histories: the floor's coverage never falls and no rule's committed count ever rises;
      and every run that passes, is at or above every earlier floor in coverage and at or below it for
      each rule. */
  lemma RatchetOverHistory(file: File, runs: seq<Run>, i: nat, records: seq<ServiceRecord>, findings: seq<string>)
    requires Disciplined(file, runs) && i <= |runs|
    ensures AtLeast(FileAfter(file, runs), FileAfter(file, runs[..i]))
    ensures Enforced(FileAfter(file, runs[..i])) && Passes(FileAfter(file, runs), records, findings) ==>
      var floor := FileAfter(file, runs[..i]).b;
      && Ratio(Checked(records), Registered(records)) >= floor.coverage
      && forall rule :: CountOf(RuleCountsOf(findings), rule) <= CountOf(floor.findings, rule)
  {
    FloorNeverFalls(file, runs, i);
    if Enforced(FileAfter(file, runs[..i])) && Passes(FileAfter(file, runs), records, findings) {
      PassesMeans(FileAfter(file, runs), records, findings);
    }
  }

  /** Why the history must register something: a passing rewrite keeps the floor enforced exactly when
      its run registers at least one service. With none, the file reads as no baseline at all. */
  lemma RewriteKeepsFloorIff(file: File, records: seq<ServiceRecord>, findings: seq<string>)
    requires Enforced(file) && Passes(file, records, findings)
    ensures Enforced(Doc(NewBaseline(records, findings))) <==> Registered(records) > 0
    ensures Registered(records) == 0 ==>
      forall rs, fs :: Passes(Doc(NewBaseline(records, findings)), rs, fs)
  {
    PassingFindingsAreNamed(file, records, findings);
    WrittenIsValid(records, findings);
  }
}
