/** HW-6 coverage: deduplication of the registration records by service name, the checked and
    registered counts, and the listing of uncovered services (internal/driver/driver.go). */
module Coverage {
  import opened GoTypes
  import opened Rules
  import opened Sorting

  type ByName = map<string, ServiceRecord>

  /** The keep rule: the first record of a name, replaced by a later non-transient one that disagrees on
      ImplementsCheck. Alias rows never count. */
  function Keep(uniq: ByName, r: ServiceRecord): ByName
  {
    if r.kind.Alias? then uniq
    else if r.name !in uniq || (!r.kind.Transient? && uniq[r.name].implementsCheck != r.implementsCheck)
    then uniq[r.name := r]
    else uniq
  }

  function Dedup(records: seq<ServiceRecord>): ByName
  {
    if records == [] then map[] else Keep(Dedup(records[..|records| - 1]), records[|records| - 1])
  }

  /** Transients are never checked, whatever they implement. */
  predicate IsChecked(r: ServiceRecord)
  {
    r.implementsCheck && !r.kind.Transient?
  }

  function Registered(records: seq<ServiceRecord>): nat
  {
    |Dedup(records)|
  }

  function CheckedNames(records: seq<ServiceRecord>): set<string>
  {
    var uniq := Dedup(records);
    set n | n in uniq && IsChecked(uniq[n])
  }

  function Checked(records: seq<ServiceRecord>): nat
  {
    |CheckedNames(records)|
  }

  method DedupByName(records: seq<ServiceRecord>) returns (uniq: ByName)
    ensures uniq == Dedup(records)
  {
    uniq := map[];
    var k := 0;
    while k < |records|
      invariant 0 <= k <= |records|
      invariant uniq == Dedup(records[..k])
    {
      var r := records[k];
      assert records[..k + 1][..k] == records[..k];
      k := k + 1;
      if r.kind.Alias? { continue; }
      if r.name !in uniq || (!r.kind.Transient? && uniq[r.name].implementsCheck != r.implementsCheck) {
        uniq := uniq[r.name := r];
      }
    }
    assert records[..k] == records;
  }

  /** The counting loop of the coverage line; the map is iterated in any order. */
  method CountCoverage(records: seq<ServiceRecord>) returns (checked: nat, registered: nat)
    ensures checked == Checked(records) && registered == Registered(records)
  {
    var uniq := DedupByName(records);
    registered := |uniq|;
    checked := 0;
    var todo := uniq.Keys;
    ghost var done: set<string> := {};
    while todo != {}
      invariant todo + done == uniq.Keys && todo !! done
      invariant checked == |CheckedAmong(uniq, done)|
      decreases todo
    {
      var n :| n in todo;
      CheckedStep(uniq, done, n);
      if uniq[n].implementsCheck && uniq[n].kind != Transient {
        checked := checked + 1;
      }
      todo, done := todo - {n}, done + {n};
    }
    assert done == uniq.Keys;
    AllAmong(records);
  }

  lemma AllAmong(records: seq<ServiceRecord>)
    ensures CheckedAmong(Dedup(records), Dedup(records).Keys) == CheckedNames(records)
  {}

  function CheckedAmong(uniq: ByName, names: set<string>): set<string>
  {
    set n | n in names && n in uniq && IsChecked(uniq[n])
  }

  lemma CheckedStep(uniq: ByName, names: set<string>, n: string)
    requires n in uniq && n !in names
    ensures |CheckedAmong(uniq, names + {n})| == |CheckedAmong(uniq, names)| + if IsChecked(uniq[n]) then 1 else 0
  {
    assert CheckedAmong(uniq, names + {n}) == CheckedAmong(uniq, names) + if IsChecked(uniq[n]) then {n} else {};
  }

  // ---------------------------------------------------------------- the fold in closed form

  /** The counted records of one name, in order. */
  function Named(records: seq<ServiceRecord>, n: string): (occ: seq<ServiceRecord>)
    ensures forall r :: r in occ <==> r in records && r.name == n && !r.kind.Alias?
  {
    if records == [] then []
    else
      var init, r := Named(records[..|records| - 1], n), records[|records| - 1];
      assert forall x :: x in records <==> x in records[..|records| - 1] || x == r;
      if r.name == n && !r.kind.Alias? then init + [r] else init
  }

  lemma {:induction false} NamedAppend(a: seq<ServiceRecord>, b: seq<ServiceRecord>, n: string)
    ensures Named(a + b, n) == Named(a, n) + Named(b, n)
  {
    if b == [] {
      assert a + b == a;
    } else {
      assert (a + b)[..|a + b| - 1] == a + b[..|b| - 1];
      NamedAppend(a, b[..|b| - 1], n);
    }
  }

  /** The last record that is not transient. */
  function LastDispatched(occ: seq<ServiceRecord>): (r: Option<ServiceRecord>)
    ensures r.None? <==> forall x | x in occ :: x.kind.Transient?
    ensures r.Some? ==> r.value in occ && !r.value.kind.Transient?
  {
    if occ == [] then None
    else
      var last := occ[|occ| - 1];
      assert forall x :: x in occ <==> x in occ[..|occ| - 1] || x == last;
      if !last.kind.Transient? then Some(last) else LastDispatched(occ[..|occ| - 1])
  }

  /** What is kept of the records of one name, without the fold: ImplementsCheck is that of the last
      non-transient record, of the first one if all are transient; the kept record is transient exactly
      when the first is and no non-transient one differs from it. */
  ghost predicate KeptFrom(kept: ServiceRecord, occ: seq<ServiceRecord>)
    requires occ != []
  {
    && kept in occ
    && kept.implementsCheck ==
       (match LastDispatched(occ) case Some(r) => r.implementsCheck case None => occ[0].implementsCheck)
    && (kept.kind.Transient? <==>
         occ[0].kind.Transient? &&
         forall r | r in occ && !r.kind.Transient? :: r.implementsCheck == occ[0].implementsCheck)
  }

  lemma KeptStep(kept: ServiceRecord, occ: seq<ServiceRecord>, r: ServiceRecord)
    requires occ != [] && KeptFrom(kept, occ)
    ensures KeptFrom(if !r.kind.Transient? && kept.implementsCheck != r.implementsCheck then r else kept, occ + [r])
  {
    var all := occ + [r];
    assert all[..|all| - 1] == occ && all[0] == occ[0];
    assert forall x :: x in all <==> x in occ || x == r;
    assert occ[0] in occ;
  }

  /** The fold equals its closed form, name by name. */
  lemma {:induction false} DedupClosedForm(records: seq<ServiceRecord>, n: string)
    ensures n in Dedup(records) <==> Named(records, n) != []
    ensures n in Dedup(records) ==> KeptFrom(Dedup(records)[n], Named(records, n)) && Dedup(records)[n].name == n
  {
    if records != [] {
      var init, r := records[..|records| - 1], records[|records| - 1];
      DedupClosedForm(init, n);
      if r.name == n && !r.kind.Alias? {
        var occ := Named(init, n);
        if occ == [] {
          assert occ + [r] == [r];
          assert KeptFrom(r, [r]) by { assert r in [r]; assert [r][..0] == []; }
        } else {
          KeptStep(Dedup(init)[n], occ, r);
        }
      }
    }
  }

  /** Whether a name counts as checked, read off its records. */
  ghost predicate Verdict(occ: seq<ServiceRecord>)
  {
    && LastDispatched(occ).Some? && LastDispatched(occ).value.implementsCheck
    && (occ[0].kind.Transient? ==>
          exists r :: r in occ && !r.kind.Transient? && r.implementsCheck != occ[0].implementsCheck)
  }

  lemma CheckedIff(records: seq<ServiceRecord>, n: string)
    ensures n in CheckedNames(records) <==> Verdict(Named(records, n))
  {
    DedupClosedForm(records, n);
    EmptyOrMember(Named(records, n));
  }

  lemma EmptyOrMember(occ: seq<ServiceRecord>)
    ensures occ != [] <==> exists r :: r in occ
  {
    if occ != [] { assert occ[0] in occ; }
  }

  // ---------------------------------------------------------------- order of the records

  lemma SameElements(a: seq<ServiceRecord>, b: seq<ServiceRecord>)
    requires multiset(a) == multiset(b)
    ensures forall r :: r in a <==> r in b
  {
    assert forall r :: r in a <==> r in multiset(a);
    assert forall r :: r in b <==> r in multiset(b);
  }

  lemma RegisteredNames(records: seq<ServiceRecord>, n: string)
    ensures n in Dedup(records) <==> exists r :: r in records && r.name == n && !r.kind.Alias?
  {
    DedupClosedForm(records, n);
    EmptyOrMember(Named(records, n));
    if r :| r in records && r.name == n && !r.kind.Alias? { assert r in Named(records, n); }
  }

  /** The registered count does not depend on the order of the records. */
  lemma RegisteredIgnoresOrder(a: seq<ServiceRecord>, b: seq<ServiceRecord>)
    requires multiset(a) == multiset(b)
    ensures Dedup(a).Keys == Dedup(b).Keys && Registered(a) == Registered(b)
  {
    SameElements(a, b);
    forall n ensures n in Dedup(a) <==> n in Dedup(b) {
      RegisteredNames(a, n);
      RegisteredNames(b, n);
    }
    assert |Dedup(a)| == |Dedup(a).Keys| && |Dedup(b)| == |Dedup(b).Keys|;
  }

  /** No name has non-transient records that disagree on ImplementsCheck, or a transient record that
      implements a check beside a non-transient one that does. */
  ghost predicate Stable(records: seq<ServiceRecord>)
  {
    forall a, b | a in records && b in records && !a.kind.Alias? && !b.kind.Alias? && a.name == b.name &&
      IsChecked(a) ::
      if b.kind.Transient? then !b.implementsCheck else b.implementsCheck
  }

  /** For stable records a name is checked when any of its records is. */
  lemma StableChecked(records: seq<ServiceRecord>, n: string)
    requires Stable(records)
    ensures n in CheckedNames(records) <==> exists r :: r in records && r.name == n && !r.kind.Alias? && IsChecked(r)
  {
    var occ := Named(records, n);
    CheckedIff(records, n);
    EmptyOrMember(occ);
    assert occ != [] ==> occ[0] in occ;
    forall r | r in records && r.name == n && !r.kind.Alias? && IsChecked(r) ensures Verdict(occ) {
      assert r in occ;
    }
  }

  lemma StableIgnoresOrder(a: seq<ServiceRecord>, b: seq<ServiceRecord>)
    requires multiset(a) == multiset(b) && Stable(a)
    ensures Checked(a) == Checked(b)
  {
    SameElements(a, b);
    assert Stable(b);
    forall n ensures n in CheckedNames(a) <==> n in CheckedNames(b) {
      StableChecked(a, n);
      StableChecked(b, n);
    }
    assert CheckedNames(a) == CheckedNames(b);
  }

  /** Two orders that differ in the records of one name only, which is checked in one of them. */
  lemma OneNameDiffers(a: seq<ServiceRecord>, b: seq<ServiceRecord>, n: string)
    requires forall m | m != n :: Named(a, m) == Named(b, m)
    requires n in CheckedNames(b) && n !in CheckedNames(a)
    ensures Checked(b) == Checked(a) + 1
  {
    forall m | m != n ensures m in CheckedNames(a) <==> m in CheckedNames(b) {
      CheckedIff(a, m);
      CheckedIff(b, m);
    }
    assert CheckedNames(b) == CheckedNames(a) + {n};
  }

  /** Swapping x and y, both of name n, at one place of the sequence. */
  lemma SwapNamed(head: seq<ServiceRecord>, x: ServiceRecord, y: ServiceRecord, tail: seq<ServiceRecord>)
    requires x.name == y.name
    ensures forall m | m != x.name :: Named(head + [x, y] + tail, m) == Named(head + [y, x] + tail, m)
  {
    forall m | m != x.name ensures Named(head + [x, y] + tail, m) == Named(head + [y, x] + tail, m) {
      NamedAppend(head + [x, y], tail, m);
      NamedAppend(head + [y, x], tail, m);
      NamedAppend(head, [x, y], m);
      NamedAppend(head, [y, x], m);
      NamedPair(x, y, m);
      NamedPair(y, x, m);
    }
  }

  lemma NamedPair(x: ServiceRecord, y: ServiceRecord, m: string)
    ensures Named([x, y], m) == Named([x], m) + Named([y], m)
    ensures Named([x], m) == if x.name == m && !x.kind.Alias? then [x] else []
  {
    NamedAppend([x], [y], m);
    assert [x] + [y] == [x, y] && [x][..0] == [];
  }

  lemma TakeOne(records: seq<ServiceRecord>, a: ServiceRecord) returns (rest: seq<ServiceRecord>)
    requires a in records
    ensures multiset(rest) + multiset{a} == multiset(records)
    ensures forall r | r in records && r != a :: r in rest
    ensures forall r | r in rest :: r in records
  {
    var i :| 0 <= i < |records| && records[i] == a;
    rest := records[..i] + records[i + 1..];
    assert records == records[..i] + ([a] + records[i + 1..]);
    assert forall r :: r in records <==> r in records[..i] || r == a || r in records[i + 1..];
  }

  lemma TakeTwo(records: seq<ServiceRecord>, a: ServiceRecord, b: ServiceRecord) returns (rest: seq<ServiceRecord>)
    requires a in records && b in records && a != b
    ensures multiset(rest) + multiset{a, b} == multiset(records)
    ensures forall r | r in rest :: r in records
  {
    var most := TakeOne(records, a);
    rest := TakeOne(most, b);
  }

  /** The last of two disagreeing non-transient records decides. */
  lemma LastDecides(rest: seq<ServiceRecord>, x: ServiceRecord, y: ServiceRecord)
    requires !x.kind.Alias? && !x.kind.Transient? && !y.kind.Alias? && !y.kind.Transient?
    requires x.name == y.name && x.implementsCheck != y.implementsCheck
    ensures y.name in CheckedNames(rest + [x, y]) <==> y.implementsCheck
  {
    var n := y.name;
    CheckedIff(rest + [x, y], n);
    NamedAppend(rest, [x, y], n);
    BothNamed(x, y);
    LastDecidesIn(Named(rest, n), x, y);
  }

  lemma BothNamed(x: ServiceRecord, y: ServiceRecord)
    requires x.name == y.name && !x.kind.Alias? && !y.kind.Alias?
    ensures Named([x, y], y.name) == [x, y]
  {
    NamedPair(x, y, y.name);
    NamedPair(y, x, y.name);
    assert [x] + [y] == [x, y];
  }

  lemma LastDecidesIn(more: seq<ServiceRecord>, x: ServiceRecord, y: ServiceRecord)
    requires !x.kind.Transient? && !y.kind.Transient? && x.implementsCheck != y.implementsCheck
    ensures Verdict(more + [x, y]) <==> y.implementsCheck
  {
    var occ := more + [x, y];
    assert occ[|occ| - 1] == y && occ[|occ| - 2] == x;
    assert x in occ && y in occ;
    assert LastDispatched(occ) == Some(y);
  }

  lemma DispatchedDisagree(records: seq<ServiceRecord>, a: ServiceRecord, b: ServiceRecord)
    returns (p: seq<ServiceRecord>, q: seq<ServiceRecord>)
    requires a in records && b in records && a.name == b.name && IsChecked(a) && !a.kind.Alias?
    requires !b.kind.Alias? && !b.kind.Transient? && !b.implementsCheck
    ensures multiset(p) == multiset(records) && multiset(q) == multiset(records)
    ensures Checked(q) == Checked(p) + 1
  {
    var rest := TakeTwo(records, a, b);
    p, q := rest + [a, b], rest + [b, a];
    LastDecides(rest, a, b);
    LastDecides(rest, b, a);
    SwapNamed(rest, a, b, []);
    assert rest + [a, b] + [] == p && rest + [b, a] + [] == q;
    OneNameDiffers(p, q, a.name);
  }

  /** Among records that all implement the check, a transient one hides the others when it is first. */
  lemma FirstDecides(a: ServiceRecord, b: ServiceRecord, rest: seq<ServiceRecord>)
    requires !a.kind.Alias? && IsChecked(a) && b.kind.Transient? && b.implementsCheck && a.name == b.name
    requires forall r | r in rest && r.name == a.name && !r.kind.Alias? && !r.kind.Transient? :: r.implementsCheck
    ensures a.name !in CheckedNames([b, a] + rest) && a.name in CheckedNames([a, b] + rest)
  {
    FirstDecidesIn(a, b, Named(rest, a.name));
    FirstNamed(a, b, rest);
    FirstNamed(b, a, rest);
    CheckedIff([b, a] + rest, a.name);
    CheckedIff([a, b] + rest, a.name);
  }

  lemma FirstNamed(x: ServiceRecord, y: ServiceRecord, rest: seq<ServiceRecord>)
    requires x.name == y.name && !x.kind.Alias? && !y.kind.Alias?
    ensures Named([x, y] + rest, x.name) == [x, y] + Named(rest, x.name)
  {
    NamedAppend([x, y], rest, x.name);
    BothNamed(x, y);
  }

  lemma FirstDecidesIn(a: ServiceRecord, b: ServiceRecord, more: seq<ServiceRecord>)
    requires IsChecked(a) && b.kind.Transient? && b.implementsCheck
    requires forall r | r in more && !r.kind.Transient? :: r.implementsCheck
    ensures !Verdict([b, a] + more) && Verdict([a, b] + more)
  {
    var p, q := [b, a] + more, [a, b] + more;
    assert forall r :: r in p <==> r == a || r == b || r in more;
    assert forall r :: r in q <==> r == a || r == b || r in more;
    assert a in q && q[0] == a && p[0] == b;
  }

  lemma TransientHides(records: seq<ServiceRecord>, a: ServiceRecord, b: ServiceRecord)
    returns (p: seq<ServiceRecord>, q: seq<ServiceRecord>)
    requires a in records && b in records && a.name == b.name && IsChecked(a) && !a.kind.Alias?
    requires b.kind.Transient? && b.implementsCheck
    requires forall r | r in records && r.name == a.name && !r.kind.Alias? && !r.kind.Transient? :: r.implementsCheck
    ensures multiset(p) == multiset(records) && multiset(q) == multiset(records)
    ensures Checked(q) == Checked(p) + 1
  {
    var rest := TakeTwo(records, a, b);
    p, q := [b, a] + rest, [a, b] + rest;
    FirstDecides(a, b, rest);
    SwapNamed([], b, a, rest);
    assert [] + [b, a] + rest == p && [] + [a, b] + rest == q;
    OneNameDiffers(p, q, a.name);
  }

  /** Two orders of the same records with different checked counts. */
  lemma Disagreement(records: seq<ServiceRecord>) returns (p: seq<ServiceRecord>, q: seq<ServiceRecord>)
    requires !Stable(records)
    ensures multiset(p) == multiset(records) && multiset(q) == multiset(records)
    ensures Checked(p) != Checked(q)
  {
    var a, b :| a in records && b in records && !a.kind.Alias? && !b.kind.Alias? && a.name == b.name && IsChecked(a) &&
      !(if b.kind.Transient? then !b.implementsCheck else b.implementsCheck);
    if x :| x in records && x.name == a.name && !x.kind.Alias? && !x.kind.Transient? && !x.implementsCheck {
      p, q := DispatchedDisagree(records, a, x);
    } else {
      p, q := TransientHides(records, a, b);
    }
  }

  /** The checked count is the same in every order of the records exactly when they are stable. */
  lemma CheckedIgnoresOrderIff(records: seq<ServiceRecord>)
    ensures (forall p | multiset(p) == multiset(records) :: Checked(p) == Checked(records)) <==> Stable(records)
  {
    if Stable(records) {
      forall p | multiset(p) == multiset(records) ensures Checked(p) == Checked(records) {
        StableIgnoresOrder(records, p);
      }
    } else {
      var p, q := Disagreement(records);
      assert Checked(p) != Checked(records) || Checked(q) != Checked(records);
    }
  }

  // ---------------------------------------------------------------- the uncovered listing

  function NameKey(r: ServiceRecord): string
  {
    r.name
  }

  ghost predicate Kept(records: seq<ServiceRecord>, r: ServiceRecord)
  {
    r.name in Dedup(records) && Dedup(records)[r.name] == r
  }

  /** A second, separate deduplication, its values in whatever order the map gives them. */
  method UncoveredRecordsAll(records: seq<ServiceRecord>) returns (out: seq<ServiceRecord>)
    ensures forall r :: r in out <==> Kept(records, r)
    ensures DistinctKeys(out, NameKey) && |out| == Registered(records)
  {
    var uniq := DedupByName(records);
    forall n | n in uniq ensures uniq[n].name == n { DedupClosedForm(records, n); }
    out := [];
    var todo := uniq.Keys;
    while todo != {}
      invariant todo <= uniq.Keys
      invariant forall r :: r in out <==> r.name in uniq.Keys - todo && uniq[r.name] == r
      invariant DistinctKeys(out, NameKey) && |out| + |todo| == |uniq|
      decreases todo
    {
      var n :| n in todo;
      assert forall i | 0 <= i < |out| :: out[i] in out;
      out := out + [uniq[n]];
      todo := todo - {n};
    }
  }

  /** The rows the sweep never checks, sorted by name. */
  method UncheckedRecords(all: seq<ServiceRecord>) returns (rows: seq<ServiceRecord>)
    requires DistinctKeys(all, NameKey)
    ensures StrictlySorted(rows, NameKey)
    ensures forall r :: r in rows <==> r in all && !IsChecked(r)
  {
    var uncovered: seq<ServiceRecord> := [];
    var k := 0;
    while k < |all|
      invariant 0 <= k <= |all|
      invariant forall r :: r in uncovered <==> r in all[..k] && !IsChecked(r)
      invariant DistinctKeys(uncovered, NameKey)
    {
      var r := all[k];
      assert all[..k + 1] == all[..k] + [r];
      assert forall i | 0 <= i < |uncovered| :: uncovered[i] in uncovered;
      k := k + 1;
      if r.implementsCheck && r.kind != Transient { continue; }
      uncovered := uncovered + [r];
    }
    assert all[..k] == all;
    rows := Sort(uncovered, NameKey);
    SortIsStrict(uncovered, NameKey);
  }

  /** Strictly sorted, one row per unchecked kept record. */
  ghost predicate IsUncoveredListing(records: seq<ServiceRecord>, rows: seq<ServiceRecord>)
  {
    StrictlySorted(rows, NameKey) && forall r :: r in rows <==> Kept(records, r) && !IsChecked(r)
  }

  method ReportUncovered(records: seq<ServiceRecord>) returns (rows: seq<ServiceRecord>)
    ensures IsUncoveredListing(records, rows)
  {
    var all := UncoveredRecordsAll(records);
    rows := UncheckedRecords(all);
  }

  /** Whatever the iteration order, the listing is one and the same. */
  lemma ListingIsUnique(records: seq<ServiceRecord>, a: seq<ServiceRecord>, b: seq<ServiceRecord>)
    requires IsUncoveredListing(records, a) && IsUncoveredListing(records, b)
    ensures a == b
  {
    StrictlySortedIsUnique(a, b, NameKey);
  }

  lemma {:induction false} StrictlySortedSize(rows: seq<ServiceRecord>, names: set<string>)
    requires StrictlySorted(rows, NameKey)
    requires forall n :: n in names <==> exists r :: r in rows && r.name == n
    ensures |rows| == |names|
  {
    if rows == [] {
      assert names == {};
    } else {
      var n := rows[0].name;
      assert rows[0] in rows && rows == [rows[0]] + rows[1..];
      LessIsStrict(n, n);
      forall m ensures m in names - {n} <==> exists r :: r in rows[1..] && r.name == m {
        if m in names - {n} {
          var r :| r in rows && r.name == m;
          assert r in rows[1..];
        }
        if r :| r in rows[1..] && r.name == m {
          var i :| 0 <= i < |rows[1..]| && rows[1..][i] == r;
          assert Less(NameKey(rows[0]), NameKey(rows[i + 1]));
          assert r in rows;
        }
      }
      StrictlySortedSize(rows[1..], names - {n});
    }
  }

  /** The two computations agree: the listing has exactly registered minus checked rows. */
  lemma ListingHasTheRest(records: seq<ServiceRecord>, rows: seq<ServiceRecord>)
    requires IsUncoveredListing(records, rows)
    ensures Checked(records) <= Registered(records)
    ensures |rows| == Registered(records) - Checked(records)
  {
    var uniq := Dedup(records);
    var names := uniq.Keys - CheckedNames(records);
    forall n ensures n in names <==> exists r :: r in rows && r.name == n {
      DedupClosedForm(records, n);
      if n in names { assert Kept(records, uniq[n]) && uniq[n] in rows; }
    }
    StrictlySortedSize(rows, names);
    assert CheckedNames(records) <= uniq.Keys;
    assert uniq.Keys == names + CheckedNames(records);
    assert |uniq.Keys| == |uniq|;
  }
}
