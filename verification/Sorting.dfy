/** The order of strings and sorting by a string key, as the listings of the driver and of the audit
    use them. */
module Sorting {

  /** Lexicographic order by code points. */
  predicate Less(a: string, b: string)
  {
    b != "" && (a == "" || a[0] < b[0] || (a[0] == b[0] && Less(a[1..], b[1..])))
  }

  lemma {:induction false} LessIsTotal(a: string, b: string)
    ensures Less(a, b) || a == b || Less(b, a)
  {
    if a != "" && b != "" && a[0] == b[0] {
      LessIsTotal(a[1..], b[1..]);
      assert a == [a[0]] + a[1..] && b == [b[0]] + b[1..];
    }
  }

  lemma {:induction false} LessIsStrict(a: string, b: string)
    ensures !(Less(a, b) && Less(b, a)) && !Less(a, a)
  {
    if a != "" {
      LessIsStrict(a[1..], a[1..]);
      if b != "" { LessIsStrict(a[1..], b[1..]); }
    }
  }

  lemma {:induction false} LessIsTransitive(a: string, b: string, c: string)
    requires Less(a, b) && Less(b, c)
    ensures Less(a, c)
  {
    if a != "" && a[0] == b[0] == c[0] { LessIsTransitive(a[1..], b[1..], c[1..]); }
  }

  /** The strings agree before position k, where the first has the smaller character. */
  ghost predicate SmallerAt(a: string, b: string, k: nat)
  {
    k < |a| && k < |b| && a[..k] == b[..k] && a[k] < b[k]
  }

  ghost predicate Smaller(a: string, b: string)
  {
    exists k: nat :: SmallerAt(a, b, k)
  }

  /** The order is that of the first difference, a proper prefix coming first. */
  lemma {:induction false} LessIff(a: string, b: string)
    ensures Less(a, b) <==> a < b || Smaller(a, b)
  {
    if a == "" || b == "" {
    } else if a[0] == b[0] {
      LessIff(a[1..], b[1..]);
      PrefixFurther(a, b);
      if k: nat :| SmallerAt(a, b, k) { SmallerFurther(a, b, k - 1); }
      if k: nat :| SmallerAt(a[1..], b[1..], k) { SmallerFurther(a, b, k); }
    } else {
      assert SmallerAt(a, b, 0) <==> a[0] < b[0];
      assert forall k: nat | 0 < k <= |a| && k <= |b| :: a[..k][0] == a[0] && b[..k][0] == b[0];
    }
  }

  lemma PrefixFurther(a: string, b: string)
    requires a != "" && b != "" && a[0] == b[0]
    ensures a < b <==> a[1..] < b[1..]
  {
    if |a| < |b| { assert b[..|a|] == [b[0]] + b[1..][..|a| - 1] && a == [a[0]] + a[1..]; }
    if a < b { assert a[1..] == b[..|a|][1..] == b[1..][..|a| - 1]; }
  }

  lemma SmallerFurther(a: string, b: string, k: nat)
    requires a != "" && b != "" && a[0] == b[0]
    ensures SmallerAt(a, b, k + 1) <==> SmallerAt(a[1..], b[1..], k)
  {
    if k + 1 < |a| && k + 1 < |b| {
      assert a[..k + 1] == [a[0]] + a[1..][..k] && b[..k + 1] == [b[0]] + b[1..][..k];
      assert a[..k + 1][1..] == a[1..][..k] && b[..k + 1][1..] == b[1..][..k];
    }
  }

  ghost predicate StrictlySorted<T(!new)>(s: seq<T>, key: T -> string)
  {
    forall i, j | 0 <= i < j < |s| :: Less(key(s[i]), key(s[j]))
  }

  function InsertSorted<T(!new)>(s: seq<T>, x: T, key: T -> string): seq<T>
  {
    if s == [] || Less(key(x), key(s[0])) then [x] + s
    else [s[0]] + InsertSorted(s[1..], x, key)
  }

  function Sort<T(!new)>(s: seq<T>, key: T -> string): seq<T>
  {
    if s == [] then [] else InsertSorted(Sort(s[..|s| - 1], key), s[|s| - 1], key)
  }

  lemma {:induction false} InsertKeepsStrict<T(!new)>(s: seq<T>, x: T, key: T -> string)
    requires StrictlySorted(s, key) && forall y | y in s :: key(y) != key(x)
    ensures StrictlySorted(InsertSorted(s, x, key), key)
    ensures forall y :: y in InsertSorted(s, x, key) <==> y in s || y == x
    ensures |InsertSorted(s, x, key)| == |s| + 1
  {
    if s == [] {
    } else if Less(key(x), key(s[0])) {
      forall j | 0 < j < |s| ensures Less(key(x), key(s[j])) {
        LessIsTransitive(key(x), key(s[0]), key(s[j]));
      }
    } else {
      var tail := InsertSorted(s[1..], x, key);
      InsertKeepsStrict(s[1..], x, key);
      LessIsTotal(key(x), key(s[0]));
      forall j | 0 <= j < |tail| ensures Less(key(s[0]), key(tail[j])) {
        assert tail[j] in tail;
      }
      assert s == [s[0]] + s[1..];
    }
  }

  ghost predicate DistinctKeys<T(!new)>(s: seq<T>, key: T -> string)
  {
    forall i, j | 0 <= i < j < |s| :: key(s[i]) != key(s[j])
  }

  /** Distinct keys come out strictly sorted, nothing is lost or added. */
  lemma {:induction false} SortIsStrict<T(!new)>(s: seq<T>, key: T -> string)
    requires DistinctKeys(s, key)
    ensures StrictlySorted(Sort(s, key), key)
    ensures forall x :: x in Sort(s, key) <==> x in s
    ensures |Sort(s, key)| == |s|
  {
    if s != [] {
      var init, x := s[..|s| - 1], s[|s| - 1];
      assert s == init + [x];
      SortIsStrict(init, key);
      InsertKeepsStrict(Sort(init, key), x, key);
    }
  }

  lemma EmptyOrNot<T>(s: seq<T>)
    ensures s == [] || exists x :: x in s
  {
    if s != [] { assert s[0] in s; }
  }

  /** A strictly sorted sequence is determined by its elements. */
  lemma {:induction false} StrictlySortedIsUnique<T(!new)>(a: seq<T>, b: seq<T>, key: T -> string)
    requires StrictlySorted(a, key) && StrictlySorted(b, key)
    requires forall x :: x in a <==> x in b
    ensures a == b
    decreases |a|
  {
    EmptyOrNot(b);
    if a != [] {
      assert a[0] in b && a[0] in a;
      assert b[0] in a && b[0] in b;
      LessIsStrict(key(a[0]), key(b[0]));
      assert a[0] == b[0];
      TailWithoutHead(a, key);
      TailWithoutHead(b, key);
      StrictlySortedIsUnique(a[1..], b[1..], key);
    }
  }

  lemma TailWithoutHead<T(!new)>(a: seq<T>, key: T -> string)
    requires StrictlySorted(a, key) && a != []
    ensures forall x :: x in a[1..] <==> x in a && x != a[0]
  {
    LessIsStrict(key(a[0]), key(a[0]));
    assert a == [a[0]] + a[1..];
    forall x | x in a[1..] ensures x != a[0] {
      var i :| 0 <= i < |a[1..]| && a[1..][i] == x;
      assert Less(key(a[0]), key(a[i + 1]));
    }
  }
}
