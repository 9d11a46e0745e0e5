/** A compact universe of Go types: named types with declared methods, structs with embedded
    fields, and the two ways a method is found on them.

    The reference is the Go Language Specification, sections "Selectors", "Struct types" and
    "Method sets": a selector denotes the member reached by the strictly shallowest path of
    embedded fields, and a method belongs to a method set when its receiver kind allows it.
    The algorithm is the breadth-first member lookup that the analyzer calls, which visits each
    type once and only remembers that a type was met "several times" at a depth. */
module GoTypes {

  datatype Option<+T> = None | Some(value: T)

  type TypeName = string

  /** Identity of a declared function or method; recv is empty for a plain function. */
  datatype FuncId = FuncId(pkg: string, recv: string, name: string)

  datatype Sig = Sig(params: seq<string>, results: seq<string>)

  datatype Member = Field | Method(id: FuncId, ptrRecv: bool, sig: Sig)

  datatype Embed = Embed(ptr: bool, target: TypeName)

  datatype Underlying = StructType | InterfaceType | FuncType(results: seq<Type>) | OtherType

  /** What one type declares itself: its fields, its own methods (for an interface, its whole
      method set), and its embedded fields. One name cannot be both a field and a method. */
  datatype Decl = Decl(under: Underlying, members: map<string, Member>, embeds: seq<Embed>)

  /** Unnamed struct types live in the universe as well, under a key that nothing embeds. */
  datatype Type =
    | Named(name: TypeName)
    | StructLit(key: TypeName)
    | Pointer(elem: Type)
    | FuncLitType(results: seq<Type>)
    | InterfaceLit(methods: map<string, Sig>)
    | Basic(name: string)
    | UntypedNil
    | TypeParam(name: string, constraint: Constraint)
    | Tuple(parts: seq<Type>)
    | NoType

  /** What a type parameter's constraint asks for: methods, and, when it is a union, one of the listed types
      (those of an approximation element spelled out). */
  datatype Constraint = Constraint(methods: map<string, Sig>, terms: Option<seq<Type>>)

  type Universe = map<TypeName, Decl>

  /** Embedded types are declared, interfaces embed nothing further (their members are already
      flattened), have no pointer receivers, and are never embedded through a pointer. */
  ghost predicate WellFormed(u: Universe)
  {
    forall n | n in u ::
      && (forall i | 0 <= i < |u[n].embeds| :: u[n].embeds[i].target in u)
      && (forall i | 0 <= i < |u[n].embeds| ::
            u[n].embeds[i].ptr ==> !u[u[n].embeds[i].target].under.InterfaceType?)
      && (u[n].under.InterfaceType? ==>
            && u[n].embeds == []
            && forall f | f in u[n].members :: u[n].members[f].Method? ==> !u[n].members[f].ptrRecv)
  }

  /** The static type leaves the dynamic type open: an interface, named or not, a type parameter, or no type
      of an instance at all. */
  ghost predicate IsOpen(u: Universe, t: Type)
  {
    t == NoType || t == UntypedNil || t.TypeParam? || t.InterfaceLit? ||
    (t.Named? && t.name in u && u[t.name].under.InterfaceType?)
  }

  // ---------------------------------------------------------------- the specification's selectors

  /** The type reached from root by following the embedded fields p, if p is a path at all. */
  ghost function Walk(u: Universe, root: TypeName, p: seq<nat>): Option<TypeName>
  {
    if p == [] then
      if root in u then Some(root) else None
    else
      match Walk(u, root, p[..|p| - 1])
      case None => None
      case Some(n) =>
        var last := p[|p| - 1];
        if n in u && last < |u[n].embeds| && u[n].embeds[last].target in u
        then Some(u[n].embeds[last].target) else None
  }

  /** Some embedded field along p is a pointer. */
  ghost predicate ThroughPointer(u: Universe, root: TypeName, p: seq<nat>)
    requires Walk(u, root, p).Some?
  {
    p != [] &&
    var init := p[..|p| - 1];
    ThroughPointer(u, root, init) || u[Walk(u, root, init).value].embeds[p[|p| - 1]].ptr
  }

  lemma WalkInUniverse(u: Universe, root: TypeName, p: seq<nat>)
    requires Walk(u, root, p).Some?
    ensures Walk(u, root, p).value in u
  {}

  ghost predicate Declares(u: Universe, root: TypeName, p: seq<nat>, f: string)
  {
    Walk(u, root, p).Some? && Walk(u, root, p).value in u && f in u[Walk(u, root, p).value].members
  }

  ghost function MemberAt(u: Universe, root: TypeName, p: seq<nat>, f: string): Member
    requires Declares(u, root, p, f)
  {
    u[Walk(u, root, p).value].members[f]
  }

  /** "x.f denotes the field or method at the shallowest depth in T where there is such an f";
      with more than one f at that depth the selector is illegal. */
  ghost predicate Selects(u: Universe, root: TypeName, f: string, p: seq<nat>)
  {
    Declares(u, root, p, f) && forall q | Declares(u, root, q, f) :: q == p || |p| < |q|
  }

  /** m is the method f of the method set of t. A value's set holds value-receiver methods and those
      promoted through an embedded pointer; a pointer's set holds both receiver forms. Pointers
      to interfaces and to pointers have no methods. */
  ghost predicate InMethodSet(u: Universe, t: Type, f: string, m: Member)
  {
    match t
    case Named(n) => exists p :: Selects(u, n, f, p) && ValueMethodAt(u, n, f, p, m)
    case StructLit(n) => exists p :: Selects(u, n, f, p) && ValueMethodAt(u, n, f, p, m)
    case Pointer(Named(n)) =>
      n in u && !u[n].under.InterfaceType? && exists p :: Selects(u, n, f, p) && MethodAt(u, n, f, p, m)
    case Pointer(StructLit(n)) => exists p :: Selects(u, n, f, p) && MethodAt(u, n, f, p, m)
    case _ => false
  }

  ghost predicate MethodAt(u: Universe, root: TypeName, f: string, p: seq<nat>, m: Member)
  {
    Declares(u, root, p, f) && m == MemberAt(u, root, p, f) && m.Method?
  }

  ghost predicate ValueMethodAt(u: Universe, root: TypeName, f: string, p: seq<nat>, m: Member)
  {
    MethodAt(u, root, f, p, m) && (m.ptrRecv ==> ThroughPointer(u, root, p))
  }

  lemma SelectedIsUnique(u: Universe, root: TypeName, f: string, p: seq<nat>, q: seq<nat>)
    requires Selects(u, root, f, p) && Selects(u, root, f, q)
    ensures p == q
  {}

  // ---------------------------------------------------------------- the breadth-first lookup

  /** One type under consideration: how it was reached, and whether it was reached repeatedly at
      this depth (then its members are ambiguous). */
  datatype Entry = Entry(typ: TypeName, index: seq<nat>, indirect: bool, multiples: bool)

  function Unseen(current: seq<Entry>, seen: set<TypeName>): (live: seq<Entry>)
    ensures forall e :: e in live <==> e in current && e.typ !in seen
    ensures DistinctTypes(current) ==> DistinctTypes(live)
  {
    if current == [] then []
    else
      var rest := Unseen(current[1..], seen);
      if current[0].typ in seen then rest else [current[0]] + rest
  }

  function Declaring(u: Universe, live: seq<Entry>, f: string): (hits: seq<Entry>)
    ensures forall e :: e in hits <==> e in live && e.typ in u && f in u[e.typ].members
    ensures DistinctTypes(live) ==> DistinctTypes(hits)
  {
    if live == [] then []
    else
      var rest := Declaring(u, live[1..], f);
      if live[0].typ in u && f in u[live[0].typ].members then [live[0]] + rest else rest
  }

  ghost predicate DistinctTypes(s: seq<Entry>)
  {
    forall i, j | 0 <= i < j < |s| :: s[i].typ != s[j].typ
  }

  function Child(u: Universe, e: Entry, i: nat): Entry
    requires e.typ in u && i < |u[e.typ].embeds|
  {
    var em := u[e.typ].embeds[i];
    Entry(em.target, e.index + [i], e.indirect || em.ptr, e.multiples)
  }

  /** The embedded fields of one type, one level deeper. */
  function Embedded(u: Universe, e: Entry): (c: seq<Entry>)
    requires e.typ in u
    ensures |c| == |u[e.typ].embeds| && forall i | 0 <= i < |c| :: c[i] == Child(u, e, i)
  {
    seq(|u[e.typ].embeds|, i requires 0 <= i < |u[e.typ].embeds| => Child(u, e, i))
  }

  function Expand(u: Universe, live: seq<Entry>): seq<Entry>
  {
    if live == [] then []
    else (if live[0].typ in u then Embedded(u, live[0]) else []) + Expand(u, live[1..])
  }

  /** Types met more than once at one depth are kept once, marked. Two entries are two meetings
      when their index paths differ. */
  function Consolidate(s: seq<Entry>): seq<Entry>
    decreases |s|
  {
    if s == [] then []
    else
      var again := exists b :: b in s && b.typ == s[0].typ && b.index != s[0].index;
      [s[0].(multiples := s[0].multiples || again)] + Consolidate(DropType(s[1..], s[0].typ))
  }

  function DropType(s: seq<Entry>, t: TypeName): (r: seq<Entry>)
    ensures |r| <= |s|
    ensures forall e :: e in r <==> e in s && e.typ != t
  {
    if s == [] then [] else (if s[0].typ == t then [] else [s[0]]) + DropType(s[1..], t)
  }

  function TypesOf(s: seq<Entry>): set<TypeName>
  {
    set e | e in s :: e.typ
  }

  /** Level by level until some type declares f. Two declarations at one depth, or one on a type
      met repeatedly, are a collision. */
  function Search(u: Universe, f: string, current: seq<Entry>, seen: set<TypeName>): Option<Entry>
    decreases u.Keys - seen, |current|
  {
    if current == [] then None
    else
      var live := Unseen(current, seen);
      var hits := Declaring(u, live, f);
      if hits == [] then
        var known := Declared(u, live);
        if known == [] then None
        else
          assert known[0] in known && known[0].typ in TypesOf(known);
          Search(u, f, Consolidate(Expand(u, known)), seen + TypesOf(known))
      else if |hits| == 1 && !hits[0].multiples then Some(hits[0])
      else None
  }

  function Declared(u: Universe, s: seq<Entry>): (r: seq<Entry>)
    ensures forall e :: e in r <==> e in s && e.typ in u
    ensures DistinctTypes(s) ==> DistinctTypes(r)
  {
    if s == [] then [] else (if s[0].typ in u then [s[0]] else []) + Declared(u, s[1..])
  }

  /** The library lookup on a named type or a pointer to one. Without addressability a
      pointer-receiver method needs an indirection on the way. */
  function LookupMember(u: Universe, root: TypeName, isPtr: bool, addressable: bool, f: string): Option<Member>
  {
    if root !in u || (isPtr && u[root].under.InterfaceType?) then None
    else
      match Search(u, f, [Entry(root, [], isPtr, false)], {})
      case None => None
      case Some(e) =>
        if e.typ !in u || f !in u[e.typ].members then None
        else
          var m := u[e.typ].members[f];
          if m.Method? && m.ptrRecv && !e.indirect && !addressable then None else Some(m)
  }

  // ---------------------------------------------------------------- lookup meets the specification

  ghost predicate MetAgain(a: Entry, s: seq<Entry>)
  {
    exists b :: b in s && b.typ == a.typ && b.index != a.index
  }

  /** x is a, marked exactly when a was marked or its type is met again in s. */
  ghost predicate Marks(x: Entry, a: Entry, s: seq<Entry>)
  {
    a in s && x.typ == a.typ && x.index == a.index && x.indirect == a.indirect &&
    (x.multiples <==> a.multiples || MetAgain(a, s))
  }

  /** Each kept entry stands for all entries of its type: unmarked exactly when there is only one
      and it was not marked. */
  ghost predicate StandsFor(x: Entry, s: seq<Entry>)
  {
    exists a :: Marks(x, a, s)
  }

  lemma {:induction false} ConsolidateKeeps(s: seq<Entry>)
    ensures DistinctTypes(Consolidate(s))
    ensures forall x | x in Consolidate(s) :: StandsFor(x, s)
    ensures forall a | a in s :: Listed(Consolidate(s), a.typ)
    decreases |s|
  {
    if s != [] {
      var others := DropType(s[1..], s[0].typ);
      ConsolidateKeeps(others);
      ConsolidateHead(s);
      forall x | x in Consolidate(others) ensures x.typ != s[0].typ && StandsFor(x, s) {
        StandsStill(x, s[0].typ, others, s);
      }
      DistinctCons(Consolidate(s), Consolidate(others));
      forall a | a in s ensures Listed(Consolidate(s), a.typ) {
        if a.typ != s[0].typ {
          assert a in others;
          ListedCons(Consolidate(s), Consolidate(others), a.typ);
        }
      }
    }
  }

  lemma DistinctCons(s: seq<Entry>, rest: seq<Entry>)
    requires s != [] && s == [s[0]] + rest && DistinctTypes(rest) && forall x | x in rest :: x.typ != s[0].typ
    ensures DistinctTypes(s)
  {
    forall i, j | 0 <= i < j < |s| ensures s[i].typ != s[j].typ {
      assert s[j] == rest[j - 1] && rest[j - 1] in rest;
    }
  }

  lemma ListedCons(s: seq<Entry>, rest: seq<Entry>, n: TypeName)
    requires s != [] && s == [s[0]] + rest && Listed(rest, n)
    ensures Listed(s, n)
  {
    var x :| x in rest && x.typ == n;
    assert x in s;
  }

  lemma ConsolidateHead(s: seq<Entry>)
    requires s != []
    ensures var r, rest := Consolidate(s), Consolidate(DropType(s[1..], s[0].typ));
      && r == [r[0]] + rest && r[0].typ == s[0].typ && StandsFor(r[0], s)
      && Listed(r, s[0].typ)
  {
    var r := Consolidate(s);
    assert s[0] in s && Marks(r[0], s[0], s);
    assert r[0] in r;
  }

  /** Dropping another type changes nothing for x. */
  lemma StandsStill(x: Entry, t: TypeName, others: seq<Entry>, s: seq<Entry>)
    requires StandsFor(x, others) && forall b :: b in others <==> b in s && b.typ != t
    ensures x.typ != t && StandsFor(x, s)
  {
    var a :| Marks(x, a, others);
    assert MetAgain(a, others) <==> MetAgain(a, s);
    assert Marks(x, a, s);
  }

  /** Exactly the one-step extensions. */
  lemma {:induction false} ExpandIsChildren(u: Universe, live: seq<Entry>)
    requires forall e | e in live :: e.typ in u
    ensures forall x | x in Expand(u, live) :: IsChildOf(u, live, x)
    ensures forall e, i | e in live && 0 <= i < |u[e.typ].embeds| :: Child(u, e, i) in Expand(u, live)
  {
    if live == [] {
    } else {
      var e0, rest := live[0], live[1..];
      ExpandIsChildren(u, rest);
      var head, tail := Embedded(u, e0), Expand(u, rest);
      forall x | x in head + tail ensures IsChildOf(u, live, x) {
        if x in tail {
          assert IsChildOf(u, rest, x);
        } else {
          var i :| 0 <= i < |head| && head[i] == x;
          assert x == Child(u, e0, i);
        }
      }
      forall e, i | e in live && 0 <= i < |u[e.typ].embeds| ensures Child(u, e, i) in head + tail {
        if e == e0 { assert head[i] == Child(u, e, i); } else { assert e in rest; }
      }
    }
  }

  ghost predicate IsChildOf(u: Universe, live: seq<Entry>, x: Entry)
  {
    exists e, i :: e in live && e.typ in u && 0 <= i < |u[e.typ].embeds| && x == Child(u, e, i)
  }

  /** What the search knows after k levels without a declaration of f. */
  ghost predicate Frontier(
    u: Universe, root: TypeName, isPtr: bool, f: string, current: seq<Entry>, seen: set<TypeName>, k: nat)
  {
    && DistinctTypes(current)
    && AllFollowPaths(u, root, isPtr, current, k)
    && AllMarkedRight(u, root, current, seen, k)
    && SeenIsShallower(u, root, seen, k)
    && Covers(u, root, current, seen, k)
    && NoneBefore(u, root, f, k)
  }

  ghost predicate AllFollowPaths(u: Universe, root: TypeName, isPtr: bool, current: seq<Entry>, k: nat)
  {
    forall e | e in current :: FollowsPath(u, root, isPtr, e, k)
  }

  ghost predicate AllMarkedRight(u: Universe, root: TypeName, current: seq<Entry>, seen: set<TypeName>, k: nat)
  {
    forall e | e in current && e.typ !in seen :: MarkedRight(u, root, e, k)
  }

  /** seen holds exactly the types with a path shorter than k. */
  ghost predicate SeenIsShallower(u: Universe, root: TypeName, seen: set<TypeName>, k: nat)
  {
    && (forall q | |q| < k && Walk(u, root, q).Some? :: Walk(u, root, q).value in seen)
    && (forall n | n in seen :: ReachedBefore(u, root, n, k))
  }

  ghost predicate Covers(u: Universe, root: TypeName, current: seq<Entry>, seen: set<TypeName>, k: nat)
  {
    forall q | |q| == k && Walk(u, root, q).Some? && Walk(u, root, q).value !in seen ::
      Listed(current, Walk(u, root, q).value)
  }

  ghost predicate Listed(current: seq<Entry>, n: TypeName)
  {
    exists e :: e in current && e.typ == n
  }

  ghost predicate NoneBefore(u: Universe, root: TypeName, f: string, k: nat)
  {
    forall q | |q| < k :: !Declares(u, root, q, f)
  }

  ghost predicate FollowsPath(u: Universe, root: TypeName, isPtr: bool, e: Entry, k: nat)
  {
    && |e.index| == k && Walk(u, root, e.index) == Some(e.typ)
    && (e.indirect <==> isPtr || ThroughPointer(u, root, e.index))
  }

  ghost predicate MarkedRight(u: Universe, root: TypeName, e: Entry, k: nat)
  {
    e.multiples <==> exists q :: |q| == k && q != e.index && Walk(u, root, q) == Some(e.typ)
  }

  ghost predicate ReachedBefore(u: Universe, root: TypeName, n: TypeName, k: nat)
  {
    exists q :: |q| < k && Walk(u, root, q) == Some(n)
  }

  lemma WalkStep(u: Universe, root: TypeName, p: seq<nat>, i: nat)
    requires Walk(u, root, p).Some? && Walk(u, root, p).value in u
    ensures Walk(u, root, p + [i]) ==
      var n := Walk(u, root, p).value;
      if i < |u[n].embeds| && u[n].embeds[i].target in u then Some(u[n].embeds[i].target) else None
    ensures Walk(u, root, p + [i]).Some? ==>
      (ThroughPointer(u, root, p + [i]) <==>
        ThroughPointer(u, root, p) || u[Walk(u, root, p).value].embeds[i].ptr)
  {
    assert (p + [i])[..|p + [i]| - 1] == p;
  }

  /** A path splits into its prefix and its last step. */
  lemma WalkSplit(u: Universe, root: TypeName, q: seq<nat>)
    requires q != [] && Walk(u, root, q).Some?
    ensures var p, i := q[..|q| - 1], q[|q| - 1];
      && Walk(u, root, p).Some? && Walk(u, root, p).value in u
      && i < |u[Walk(u, root, p).value].embeds|
      && q == p + [i]
      && Walk(u, root, q) == Some(u[Walk(u, root, p).value].embeds[i].target)
  {
    WalkInUniverse(u, root, q[..|q| - 1]);
  }

  /** known are the entries processed at depth k. */
  ghost predicate Processes(u: Universe, current: seq<Entry>, seen: set<TypeName>, known: seq<Entry>)
  {
    && DistinctTypes(known)
    && forall e :: e in known <==> e in current && e.typ !in seen && e.typ in u
  }

  /** After depth k is processed, all types with a path of length at most k are seen. */
  lemma SeenStep(u: Universe, root: TypeName, isPtr: bool, current: seq<Entry>, seen: set<TypeName>, k: nat,
                 known: seq<Entry>)
    requires SeenIsShallower(u, root, seen, k) && Covers(u, root, current, seen, k)
    requires AllFollowPaths(u, root, isPtr, current, k) && Processes(u, current, seen, known)
    ensures SeenIsShallower(u, root, seen + TypesOf(known), k + 1)
  {
    var seen' := seen + TypesOf(known);
    forall q | |q| < k + 1 && Walk(u, root, q).Some? ensures Walk(u, root, q).value in seen' {
      var n := Walk(u, root, q).value;
      WalkInUniverse(u, root, q);
      if n !in seen {
        assert Listed(current, n);
        var e :| e in current && e.typ == n;
        assert e in known;
      }
    }
    forall n | n in seen' ensures ReachedBefore(u, root, n, k + 1) {
      if n in seen {
        assert ReachedBefore(u, root, n, k);
      } else {
        var e :| e in known && e.typ == n;
        assert FollowsPath(u, root, isPtr, e, k);
      }
    }
  }

  lemma SeenDeclareNothing(u: Universe, root: TypeName, f: string, seen: set<TypeName>, k: nat)
    requires SeenIsShallower(u, root, seen, k) && NoneBefore(u, root, f, k)
    ensures forall q | Declares(u, root, q, f) :: Walk(u, root, q).value !in seen
  {
    forall n, q | n in seen && Walk(u, root, q) == Some(n) ensures !Declares(u, root, q, f) {
      assert ReachedBefore(u, root, n, k);
      var q0 :| |q0| < k && Walk(u, root, q0) == Some(n);
      assert !Declares(u, root, q0, f);
    }
  }

  /** One step further than a seen type is again a path of length at most k. */
  lemma SeenChildren(u: Universe, root: TypeName, seen: set<TypeName>, seen': set<TypeName>, k: nat)
    requires WellFormed(u)
    requires SeenIsShallower(u, root, seen, k) && SeenIsShallower(u, root, seen', k + 1)
    ensures forall n, i | n in seen && n in u && 0 <= i < |u[n].embeds| :: u[n].embeds[i].target in seen'
  {
    forall n, i | n in seen && n in u && 0 <= i < |u[n].embeds| ensures u[n].embeds[i].target in seen' {
      assert ReachedBefore(u, root, n, k);
      var q0 :| |q0| < k && Walk(u, root, q0) == Some(n);
      WalkStep(u, root, q0, i);
    }
  }

  /** A path of length k + 1 to a fresh type extends the path of an entry processed at depth k:
      pruning the types already seen loses no fresh type. */
  lemma FreshParent(u: Universe, root: TypeName, current: seq<Entry>,
                    seen: set<TypeName>, k: nat, known: seq<Entry>, q: seq<nat>) returns (e: Entry, i: nat)
    requires WellFormed(u) && Processes(u, current, seen, known)
    requires Covers(u, root, current, seen, k) && SeenIsShallower(u, root, seen, k)
    requires SeenIsShallower(u, root, seen + TypesOf(known), k + 1)
    requires |q| == k + 1 && Walk(u, root, q).Some? && Walk(u, root, q).value !in seen + TypesOf(known)
    ensures e in known && i < |u[e.typ].embeds| && i == q[k] && Child(u, e, i) in Expand(u, known)
    ensures Walk(u, root, q[..k]) == Some(e.typ) && q == q[..k] + [i]
    ensures Child(u, e, i).typ == Walk(u, root, q).value
  {
    i := q[k];
    WalkSplit(u, root, q);
    var n := Walk(u, root, q[..k]).value;
    SeenChildren(u, root, seen, seen + TypesOf(known), k);
    assert Listed(current, n);
    e :| e in current && e.typ == n;
    ExpandIsChildren(u, known);
  }

  lemma ChildFollowsPath(u: Universe, root: TypeName, isPtr: bool, e: Entry, k: nat, i: nat)
    requires FollowsPath(u, root, isPtr, e, k) && e.typ in u && i < |u[e.typ].embeds| && WellFormed(u)
    ensures FollowsPath(u, root, isPtr, Child(u, e, i), k + 1)
  {
    WalkStep(u, root, e.index, i);
  }

  lemma ExpandFollowsPath(u: Universe, root: TypeName, isPtr: bool, k: nat, known: seq<Entry>, b: Entry)
    requires WellFormed(u) && AllFollowPaths(u, root, isPtr, known, k)
    requires (forall e | e in known :: e.typ in u) && b in Expand(u, known)
    ensures FollowsPath(u, root, isPtr, b, k + 1)
  {
    ExpandIsChildren(u, known);
    assert IsChildOf(u, known, b);
    var e, i :| e in known && e.typ in u && 0 <= i < |u[e.typ].embeds| && b == Child(u, e, i);
    ChildFollowsPath(u, root, isPtr, e, k, i);
  }

  /** The child entry that a consolidated entry stands for, and its parent. */
  lemma OriginOf(u: Universe, known: seq<Entry>, x: Entry) returns (a: Entry, e: Entry, i: nat)
    requires (forall e | e in known :: e.typ in u) && StandsFor(x, Expand(u, known))
    ensures Marks(x, a, Expand(u, known)) && e in known && i < |u[e.typ].embeds| && a == Child(u, e, i)
  {
    ExpandIsChildren(u, known);
    a :| Marks(x, a, Expand(u, known));
    assert IsChildOf(u, known, a);
    e, i :| e in known && e.typ in u && 0 <= i < |u[e.typ].embeds| && a == Child(u, e, i);
  }

  /** A marked child is met on two paths: its parent was, or two parents lead to it. */
  lemma MarkedHasTwoPaths(u: Universe, root: TypeName, isPtr: bool, k: nat, known: seq<Entry>, a: Entry,
                          e: Entry, i: nat) returns (q: seq<nat>)
    requires WellFormed(u) && AllFollowPaths(u, root, isPtr, known, k)
    requires forall x | x in known :: x.typ in u && MarkedRight(u, root, x, k)
    requires e in known && i < |u[e.typ].embeds| && a == Child(u, e, i)
    requires a.multiples || MetAgain(a, Expand(u, known))
    ensures |q| == k + 1 && q != a.index && Walk(u, root, q) == Some(a.typ)
  {
    assert FollowsPath(u, root, isPtr, e, k);
    if a.multiples {
      assert MarkedRight(u, root, e, k);
      var q0 :| |q0| == k && q0 != e.index && Walk(u, root, q0) == Some(e.typ);
      WalkStep(u, root, q0, i);
      q := q0 + [i];
      assert q[..k] == q0 && a.index[..k] == e.index;
    } else {
      var b :| b in Expand(u, known) && b.typ == a.typ && b.index != a.index;
      ExpandFollowsPath(u, root, isPtr, k, known, b);
      q := b.index;
    }
  }

  /** A second path to a fresh child comes from a second child entry or from a marked parent. */
  lemma SecondPathIsMarked(u: Universe, root: TypeName, isPtr: bool, current: seq<Entry>, seen: set<TypeName>,
                           k: nat, known: seq<Entry>, a: Entry, e: Entry, i: nat, q: seq<nat>)
    requires WellFormed(u) && Processes(u, current, seen, known)
    requires Covers(u, root, current, seen, k) && SeenIsShallower(u, root, seen, k)
    requires SeenIsShallower(u, root, seen + TypesOf(known), k + 1)
    requires AllFollowPaths(u, root, isPtr, known, k)
    requires MarkedRight(u, root, e, k)
    requires e in known && i < |u[e.typ].embeds| && a == Child(u, e, i) && a.typ !in seen + TypesOf(known)
    requires |q| == k + 1 && q != a.index && Walk(u, root, q) == Some(a.typ)
    ensures a.multiples || MetAgain(a, Expand(u, known))
  {
    var e', i' := FreshParent(u, root, current, seen, k, known, q);
    var b := Child(u, e', i');
    assert FollowsPath(u, root, isPtr, e, k) && FollowsPath(u, root, isPtr, e', k);
    if b.index == a.index {
      assert b.index[..k] == e'.index && a.index[..k] == e.index;
      assert b.index[k] == i' && a.index[k] == i;
      assert q[..k] != e.index;
    }
  }

  lemma MarkedStep(u: Universe, root: TypeName, isPtr: bool, current: seq<Entry>,
                   seen: set<TypeName>, k: nat, known: seq<Entry>, x: Entry)
    requires WellFormed(u) && Processes(u, current, seen, known)
    requires Covers(u, root, current, seen, k) && SeenIsShallower(u, root, seen, k)
    requires SeenIsShallower(u, root, seen + TypesOf(known), k + 1)
    requires AllFollowPaths(u, root, isPtr, known, k) && AllMarkedRight(u, root, known, seen, k)
    requires StandsFor(x, Expand(u, known)) && x.typ !in seen + TypesOf(known)
    ensures MarkedRight(u, root, x, k + 1)
  {
    var a, e, i := OriginOf(u, known, x);
    if x.multiples {
      var q := MarkedHasTwoPaths(u, root, isPtr, k, known, a, e, i);
    }
    forall q | |q| == k + 1 && q != x.index && Walk(u, root, q) == Some(x.typ) ensures x.multiples {
      SecondPathIsMarked(u, root, isPtr, current, seen, k, known, a, e, i, q);
    }
  }

  lemma PathsStep(u: Universe, root: TypeName, isPtr: bool, k: nat, known: seq<Entry>)
    requires WellFormed(u) && AllFollowPaths(u, root, isPtr, known, k)
    requires forall e | e in known :: e.typ in u
    ensures AllFollowPaths(u, root, isPtr, Consolidate(Expand(u, known)), k + 1)
  {
    var all := Expand(u, known);
    ConsolidateKeeps(all);
    forall x | x in Consolidate(all) ensures FollowsPath(u, root, isPtr, x, k + 1) {
      assert StandsFor(x, all);
      var a :| Marks(x, a, all);
      ExpandFollowsPath(u, root, isPtr, k, known, a);
    }
  }

  lemma FrontierStep(u: Universe, root: TypeName, isPtr: bool, f: string, current: seq<Entry>,
                     seen: set<TypeName>, k: nat, known: seq<Entry>)
    requires WellFormed(u) && Frontier(u, root, isPtr, f, current, seen, k)
    requires Processes(u, current, seen, known)
    requires forall e | e in known :: f !in u[e.typ].members
    ensures Frontier(u, root, isPtr, f, Consolidate(Expand(u, known)), seen + TypesOf(known), k + 1)
  {
    var all := Expand(u, known);
    var next, seen' := Consolidate(all), seen + TypesOf(known);
    PathsStep(u, root, isPtr, k, known);
    ConsolidateKeeps(all);
    SeenStep(u, root, isPtr, current, seen, k, known);
    forall x | x in next && x.typ !in seen' ensures MarkedRight(u, root, x, k + 1) {
      MarkedStep(u, root, isPtr, current, seen, k, known, x);
    }
    forall q | |q| == k + 1 && Walk(u, root, q).Some? && Walk(u, root, q).value !in seen'
      ensures Listed(next, Walk(u, root, q).value)
    {
      var e, i := FreshParent(u, root, current, seen, k, known, q);
    }
    NoneAt(u, root, f, current, seen, k, known);
  }

  lemma NoneAt(u: Universe, root: TypeName, f: string, current: seq<Entry>, seen: set<TypeName>, k: nat,
               known: seq<Entry>)
    requires NoneBefore(u, root, f, k) && SeenIsShallower(u, root, seen, k) && Covers(u, root, current, seen, k)
    requires Processes(u, current, seen, known) && forall e | e in known :: f !in u[e.typ].members
    ensures NoneBefore(u, root, f, k + 1)
  {
    SeenDeclareNothing(u, root, f, seen, k);
    forall q | |q| == k && Walk(u, root, q).Some? ensures !Declares(u, root, q, f) {
      var n := Walk(u, root, q).value;
      WalkInUniverse(u, root, q);
      if n !in seen {
        assert Listed(current, n);
        var e :| e in current && e.typ == n;
        assert e in known;
      }
    }
  }

  /** When no fresh type is left, every reachable type was reached before, hence declares no f. */
  lemma {:induction false} Exhausted(u: Universe, root: TypeName, f: string,
                                     seen: set<TypeName>, k: nat, q: seq<nat>)
    requires WellFormed(u) && SeenIsShallower(u, root, seen, k) && SeenIsShallower(u, root, seen, k + 1)
    requires NoneBefore(u, root, f, k) && Walk(u, root, q).Some?
    ensures Walk(u, root, q).value in seen && !Declares(u, root, q, f)
    decreases |q|
  {
    SeenDeclareNothing(u, root, f, seen, k);
    if |q| > k {
      WalkSplit(u, root, q);
      Exhausted(u, root, f, seen, k, q[..|q| - 1]);
      SeenChildren(u, root, seen, seen, k);
    }
  }

  lemma NothingLeft(u: Universe, root: TypeName, isPtr: bool, f: string, current: seq<Entry>,
                    seen: set<TypeName>, k: nat)
    requires WellFormed(u) && Frontier(u, root, isPtr, f, current, seen, k)
    requires forall e | e in current :: e.typ in seen || e.typ !in u
    ensures forall p :: !Selects(u, root, f, p)
  {
    SeenStep(u, root, isPtr, current, seen, k, []);
    assert seen + TypesOf([]) == seen;
    forall p | Walk(u, root, p).Some? ensures !Declares(u, root, p, f) {
      Exhausted(u, root, f, seen, k, p);
    }
  }

  /** The search finds exactly the member that the specification's selector denotes. */
  lemma {:induction false} SearchIsSelector(u: Universe, root: TypeName, isPtr: bool, f: string,
                                            current: seq<Entry>, seen: set<TypeName>, k: nat)
    requires WellFormed(u) && Frontier(u, root, isPtr, f, current, seen, k)
    ensures Found(u, root, isPtr, f, Search(u, f, current, seen))
    decreases u.Keys - seen, |current|
  {
    if current == [] {
      NothingLeft(u, root, isPtr, f, current, seen, k);
    } else {
      var live := Unseen(current, seen);
      var hits := Declaring(u, live, f);
      if hits == [] {
        var known := Declared(u, live);
        assert Processes(u, current, seen, known);
        forall e | e in live && e.typ in u ensures f !in u[e.typ].members {
          assert e !in hits;
        }
        if known == [] {
          forall e | e in current ensures e.typ in seen || e.typ !in u {
            assert e !in known;
          }
          NothingLeft(u, root, isPtr, f, current, seen, k);
        } else {
          FrontierStep(u, root, isPtr, f, current, seen, k, known);
          assert known[0] in known && known[0].typ in TypesOf(known);
          SearchIsSelector(u, root, isPtr, f, Consolidate(Expand(u, known)), seen + TypesOf(known), k + 1);
        }
      } else {
        HitsDecide(u, root, isPtr, f, current, seen, k, hits);
      }
    }
  }

  ghost predicate Found(u: Universe, root: TypeName, isPtr: bool, f: string, r: Option<Entry>)
  {
    match r
    case Some(e) =>
      && Selects(u, root, f, e.index) && Walk(u, root, e.index) == Some(e.typ)
      && (e.indirect <==> isPtr || ThroughPointer(u, root, e.index))
    case None => forall p :: !Selects(u, root, f, p)
  }

  lemma HitsDecide(u: Universe, root: TypeName, isPtr: bool, f: string,
                   current: seq<Entry>, seen: set<TypeName>, k: nat, hits: seq<Entry>)
    requires WellFormed(u) && Frontier(u, root, isPtr, f, current, seen, k)
    requires forall e :: e in hits <==> e in current && e.typ !in seen && e.typ in u && f in u[e.typ].members
    requires DistinctTypes(hits) && hits != []
    ensures Found(u, root, isPtr, f, if |hits| == 1 && !hits[0].multiples then Some(hits[0]) else None)
  {
    var h := hits[0];
    assert h in hits && FollowsPath(u, root, isPtr, h, k) && MarkedRight(u, root, h, k);
    assert Declares(u, root, h.index, f);
    if |hits| == 1 && !h.multiples {
      SeenDeclareNothing(u, root, f, seen, k);
      forall q | Declares(u, root, q, f) && |q| == k ensures q == h.index {
        var n := Walk(u, root, q).value;
        assert Listed(current, n);
        var e :| e in current && e.typ == n;
        assert e in hits;
      }
    } else {
      var q: seq<nat>;
      if h.multiples {
        q :| |q| == k && q != h.index && Walk(u, root, q) == Some(h.typ);
      } else {
        assert hits[1] in hits && FollowsPath(u, root, isPtr, hits[1], k);
        q := hits[1].index;
      }
      assert Declares(u, root, q, f) && |q| == k && q != h.index;
      assert forall p | Declares(u, root, p, f) :: |p| >= k;
    }
  }

  ghost predicate SelectsMember(u: Universe, root: TypeName, f: string, p: seq<nat>, m: Member)
  {
    Selects(u, root, f, p) && m == MemberAt(u, root, p, f)
  }

  /** A pointer-receiver method reached without any pointer on the way. */
  ghost predicate NeedsAddress(u: Universe, root: TypeName, p: seq<nat>, m: Member)
    requires Walk(u, root, p).Some?
  {
    m.Method? && m.ptrRecv && !ThroughPointer(u, root, p)
  }

  /** The library lookup against the specification: with addressability it is the selected member;
      without, it is the method of the method set of T, or of *T when looked up through a pointer. */
  lemma LookupIsSelector(u: Universe, root: TypeName, isPtr: bool, addressable: bool, f: string)
    requires WellFormed(u) && root in u && (isPtr ==> !u[root].under.InterfaceType?)
    ensures match LookupMember(u, root, isPtr, addressable, f)
            case Some(m) => exists p :: SelectsMember(u, root, f, p, m) &&
                                        (addressable || isPtr || !NeedsAddress(u, root, p, m))
            case None => forall p, m | SelectsMember(u, root, f, p, m) ::
                           !addressable && !isPtr && NeedsAddress(u, root, p, m)
  {
    var start := Entry(root, [], isPtr, false);
    assert Walk(u, root, []) == Some(root) && start in [start];
    assert FollowsPath(u, root, isPtr, start, 0) && MarkedRight(u, root, start, 0);
    assert Covers(u, root, [start], {}, 0) by {
      forall q | |q| == 0 && Walk(u, root, q).Some? ensures Listed([start], Walk(u, root, q).value) {
        assert q == [];
      }
    }
    SearchIsSelector(u, root, isPtr, f, [start], {}, 0);
    var found := Search(u, f, [start], {});
    if found.Some? {
      var e := found.value;
      assert SelectsMember(u, root, f, e.index, u[e.typ].members[f]);
      forall p | Selects(u, root, f, p) ensures p == e.index {
        SelectedIsUnique(u, root, f, p, e.index);
      }
    }
  }

  function Stored(root: TypeName, isPtr: bool): Type
  {
    if isPtr then Pointer(Named(root)) else Named(root)
  }

  /** Interface satisfaction in the library (unaddressable lookup, then the exact signature) is
      membership in the specification's method set. */
  lemma LookupIsMethodSet(u: Universe, root: TypeName, isPtr: bool, f: string, m: Member)
    requires WellFormed(u) && root in u && m.Method?
    ensures LookupMember(u, root, isPtr, false, f) == Some(m) <==> InMethodSet(u, Stored(root, isPtr), f, m)
  {
    if isPtr && u[root].under.InterfaceType? {
    } else {
      LookupIsSelector(u, root, isPtr, false, f);
      var r := LookupMember(u, root, isPtr, false, f);
      if r.Some? {
        var p :| SelectsMember(u, root, f, p, r.value) && (isPtr || !NeedsAddress(u, root, p, r.value));
        forall q | Selects(u, root, f, q) ensures q == p { SelectedIsUnique(u, root, f, p, q); }
        if r.value == m {
          assert MethodAt(u, root, f, p, m);
          assert isPtr || ValueMethodAt(u, root, f, p, m);
        }
      } else {
        forall p | Selects(u, root, f, p) && MethodAt(u, root, f, p, m)
          ensures !isPtr && !ValueMethodAt(u, root, f, p, m)
        {
          assert SelectsMember(u, root, f, p, m);
        }
      }
    }
  }

  /** The method that a stored T or *T exposes is found by the addressable lookup on the base type,
      whether it is declared there or promoted, and on either receiver form. */
  lemma AddressableLookupFindsIt(u: Universe, root: TypeName, isPtr: bool, f: string, m: Member)
    requires WellFormed(u) && root in u && InMethodSet(u, Stored(root, isPtr), f, m)
    ensures LookupMember(u, root, false, true, f) == Some(m)
  {
    LookupIsSelector(u, root, false, true, f);
    var p :| Selects(u, root, f, p) && MethodAt(u, root, f, p, m);
    assert SelectsMember(u, root, f, p, m);
    forall q | Selects(u, root, f, q) ensures q == p { SelectedIsUnique(u, root, f, p, q); }
  }
}
