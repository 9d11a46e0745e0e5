/** The part of the typed syntax tree that the analyzer looks at. Each expression carries the type
    and the object that the type checker recorded for it. */
module Syntax {
  import opened GoTypes

  /** What an identifier resolves to. A program may declare something of its own called nil. */
  datatype Obj = FuncObj(fn: FuncId) | VarObj(id: nat) | PredeclaredNil | OtherObj

  /** A function's body, and its first result when that is named. */
  datatype Func = Func(result: Option<nat>, body: seq<Node>)

  /** A call's identity in the tree and its source extent. */
  datatype Site = Site(id: nat, pos: nat, file: string, line: int, endLine: int)

  /** Store is any statement or expression that stores to variables: an assignment, an increment, a range
      clause, or (byAddress) the taking of an address through which a store can follow. */
  datatype Node =
    | Ident(name: string, obj: Obj, typ: Type)
    | Selector(x: Node, name: string, obj: Obj, typ: Type)
    | Index(x: Node, indices: seq<Node>, typ: Type)
    | Call(site: Site, fun: Node, args: seq<Node>, typ: Type)
    | FuncLit(result: Option<nat>, body: seq<Node>, typ: Type)
    | Return(results: seq<Node>)
    | Other(children: seq<Node>, typ: Type)
    | Store(vars: seq<nat>, byAddress: bool, operands: seq<Node>, typ: Type)

  function TypeOf(n: Node): Type
  {
    if n.Return? then NoType else n.typ
  }

  /** The last parameter may be variadic; the first result may be named. */
  datatype FuncDecl = FuncDecl(
    fn: FuncId, params: seq<nat>, variadic: bool, result: Option<nat>, body: Option<seq<Node>>)

  datatype TopDecl = Fun(decl: FuncDecl) | Gen(nodes: seq<Node>)

  /** The calls of a tree in the order of a depth-first walk, a call before its operands. */
  function CallsOf(n: Node): (calls: seq<Node>)
    ensures forall c | c in calls :: c.Call?
  {
    match n
    case Ident(_, _, _) => []
    case Selector(x, _, _, _) => CallsOf(x)
    case Index(x, indices, _) => CallsOf(x) + CallsIn(indices)
    case Call(_, fun, args, _) => [n] + CallsOf(fun) + CallsIn(args)
    case FuncLit(_, body, _) => CallsIn(body)
    case Return(results) => CallsIn(results)
    case Other(children, _) => CallsIn(children)
    case Store(_, _, operands, _) => CallsIn(operands)
  }

  function CallsIn(nodes: seq<Node>): (calls: seq<Node>)
    ensures forall c | c in calls :: c.Call?
  {
    if nodes == [] then [] else CallsOf(nodes[0]) + CallsIn(nodes[1..])
  }

  /** The result lists of the return statements of a body, those of nested function literals
      excluded: they leave the literal, not the body. */
  function ReturnsOf(n: Node): seq<seq<Node>>
  {
    match n
    case Ident(_, _, _) => []
    case Selector(x, _, _, _) => ReturnsOf(x)
    case Index(x, indices, _) => ReturnsOf(x) + ReturnsIn(indices)
    case Call(_, fun, args, _) => ReturnsOf(fun) + ReturnsIn(args)
    case FuncLit(_, _, _) => []
    case Return(results) => [results] + ReturnsIn(results)
    case Other(children, _) => ReturnsIn(children)
    case Store(_, _, operands, _) => ReturnsIn(operands)
  }

  function ReturnsIn(nodes: seq<Node>): seq<seq<Node>>
  {
    if nodes == [] then [] else ReturnsOf(nodes[0]) + ReturnsIn(nodes[1..])
  }

  // ---------------------------------------------------------------- which returns leave a body

  function Children(n: Node): seq<Node>
  {
    match n
    case Ident(_, _, _) => []
    case Selector(x, _, _, _) => [x]
    case Index(x, indices, _) => [x] + indices
    case Call(_, fun, args, _) => [fun] + args
    case FuncLit(_, body, _) => body
    case Return(results) => results
    case Other(children, _) => children
    case Store(_, _, operands, _) => operands
  }

  /** The path, child by child, ends at a return of these results and enters no function literal. */
  ghost predicate LeavesBy(nodes: seq<Node>, path: seq<nat>, results: seq<Node>)
    decreases |path|
  {
    path != [] && path[0] < |nodes| &&
    var n := nodes[path[0]];
    if |path| == 1 then n == Return(results) else !n.FuncLit? && LeavesBy(Children(n), path[1..], results)
  }

  /** Executing the statements can leave the body they belong to with these results. */
  ghost predicate Leaves(nodes: seq<Node>, results: seq<Node>)
  {
    exists path :: LeavesBy(nodes, path, results)
  }

  ghost predicate LeavesAt(n: Node, results: seq<Node>)
  {
    n == Return(results) || (!n.FuncLit? && Leaves(Children(n), results))
  }

  lemma LeavesSome(nodes: seq<Node>, results: seq<Node>)
    ensures Leaves(nodes, results) <==> exists i :: 0 <= i < |nodes| && LeavesAt(nodes[i], results)
  {
    forall path | LeavesBy(nodes, path, results) ensures LeavesAt(nodes[path[0]], results) {
      if |path| > 1 { assert LeavesBy(Children(nodes[path[0]]), path[1..], results); }
    }
    forall i | 0 <= i < |nodes| && LeavesAt(nodes[i], results) ensures Leaves(nodes, results) {
      if nodes[i] == Return(results) {
        assert LeavesBy(nodes, [i], results);
      } else {
        var path :| LeavesBy(Children(nodes[i]), path, results);
        assert ([i] + path)[1..] == path;
        assert LeavesBy(nodes, [i] + path, results);
      }
    }
  }

  lemma LeavesCons(n: Node, rest: seq<Node>, results: seq<Node>)
    ensures Leaves([n] + rest, results) <==> LeavesAt(n, results) || Leaves(rest, results)
  {
    var all := [n] + rest;
    LeavesSome(all, results);
    LeavesSome(rest, results);
    if LeavesAt(n, results) { assert LeavesAt(all[0], results); }
    forall i | 0 <= i < |rest| && LeavesAt(rest[i], results) ensures LeavesAt(all[i + 1], results) {}
    forall i | 0 < i < |all| && LeavesAt(all[i], results) ensures LeavesAt(rest[i - 1], results) {}
  }

  /** The scan collects exactly the returns that leave the body. */
  lemma {:induction false} ReturnsAreLeaving(nodes: seq<Node>, results: seq<Node>)
    ensures results in ReturnsIn(nodes) <==> Leaves(nodes, results)
    decreases nodes
  {
    if nodes == [] {
      LeavesSome(nodes, results);
    } else {
      ReturnAtNode(nodes[0], results);
      ReturnsAreLeaving(nodes[1..], results);
      LeavesCons(nodes[0], nodes[1..], results);
      assert [nodes[0]] + nodes[1..] == nodes;
    }
  }

  lemma {:induction false} ReturnAtNode(n: Node, results: seq<Node>)
    ensures results in ReturnsOf(n) <==> LeavesAt(n, results)
    decreases n
  {
    match n
    case Ident(_, _, _) => LeavesSome([], results);
    case Selector(x, _, _, _) =>
      ReturnAtNode(x, results);
      LeavesCons(x, [], results);
      LeavesSome([], results);
      assert [x] + [] == [x];
    case Index(x, indices, _) =>
      ReturnAtNode(x, results);
      ReturnsAreLeaving(indices, results);
      LeavesCons(x, indices, results);
    case Call(_, fun, args, _) =>
      ReturnAtNode(fun, results);
      ReturnsAreLeaving(args, results);
      LeavesCons(fun, args, results);
    case FuncLit(_, _, _) =>
    case Return(inner) => ReturnsAreLeaving(inner, results);
    case Other(children, _) => ReturnsAreLeaving(children, results);
    case Store(_, _, operands, _) => ReturnsAreLeaving(operands, results);
  }

  // ---------------------------------------------------------------- stores to a variable

  /** The variable is stored to, here or in a nested literal, or its address is taken. */
  predicate Stores(n: Node, v: nat)
  {
    match n
    case Ident(_, _, _) => false
    case Selector(x, _, _, _) => Stores(x, v)
    case Index(x, indices, _) => Stores(x, v) || StoresIn(indices, v)
    case Call(_, fun, args, _) => Stores(fun, v) || StoresIn(args, v)
    case FuncLit(_, body, _) => StoresIn(body, v)
    case Return(results) => StoresIn(results, v)
    case Other(children, _) => StoresIn(children, v)
    case Store(vars, _, operands, _) => v in vars || StoresIn(operands, v)
  }

  predicate StoresIn(nodes: seq<Node>, v: nat)
  {
    nodes != [] && (Stores(nodes[0], v) || StoresIn(nodes[1..], v))
  }

  /** A function literal stores to the variable, or its address is taken: the store can follow a return. */
  predicate StoresLate(n: Node, v: nat)
  {
    match n
    case Ident(_, _, _) => false
    case Selector(x, _, _, _) => StoresLate(x, v)
    case Index(x, indices, _) => StoresLate(x, v) || StoresLateIn(indices, v)
    case Call(_, fun, args, _) => StoresLate(fun, v) || StoresLateIn(args, v)
    case FuncLit(_, body, _) => StoresIn(body, v)
    case Return(results) => StoresLateIn(results, v)
    case Other(children, _) => StoresLateIn(children, v)
    case Store(vars, byAddress, operands, _) => (byAddress && v in vars) || StoresLateIn(operands, v)
  }

  predicate StoresLateIn(nodes: seq<Node>, v: nat)
  {
    nodes != [] && (StoresLate(nodes[0], v) || StoresLateIn(nodes[1..], v))
  }

  /** The first result is named, and a deferred literal may replace what a return has put there. */
  predicate Overwritten(f: Func)
  {
    f.result.Some? && StoresLateIn(f.body, f.result.value)
  }

  // ---------------------------------------------------------------- walks against paths

  /** The node that a path, child by child, leads to. */
  function NodeAt(nodes: seq<Node>, path: seq<nat>): Option<Node>
    decreases |path|
  {
    if path == [] || path[0] >= |nodes| then None
    else if |path| == 1 then Some(nodes[path[0]])
    else NodeAt(Children(nodes[path[0]]), path[1..])
  }

  ghost predicate Occurs(nodes: seq<Node>, c: Node)
  {
    exists path :: NodeAt(nodes, path) == Some(c)
  }

  ghost predicate OccursIn(n: Node, c: Node)
  {
    n == c || Occurs(Children(n), c)
  }

  lemma OccursSome(nodes: seq<Node>, c: Node)
    ensures Occurs(nodes, c) <==> exists i :: 0 <= i < |nodes| && OccursIn(nodes[i], c)
  {
    forall path | NodeAt(nodes, path) == Some(c) ensures OccursIn(nodes[path[0]], c) {
      if |path| > 1 { assert NodeAt(Children(nodes[path[0]]), path[1..]) == Some(c); }
    }
    forall i | 0 <= i < |nodes| && OccursIn(nodes[i], c) ensures Occurs(nodes, c) {
      if nodes[i] == c {
        assert NodeAt(nodes, [i]) == Some(c);
      } else {
        var path :| NodeAt(Children(nodes[i]), path) == Some(c);
        assert ([i] + path)[1..] == path;
        assert NodeAt(nodes, [i] + path) == Some(c);
      }
    }
  }

  lemma OccursCons(n: Node, rest: seq<Node>, c: Node)
    ensures Occurs([n] + rest, c) <==> OccursIn(n, c) || Occurs(rest, c)
  {
    var all := [n] + rest;
    OccursSome(all, c);
    OccursSome(rest, c);
    if OccursIn(n, c) { assert OccursIn(all[0], c); }
    forall i | 0 <= i < |rest| && OccursIn(rest[i], c) ensures OccursIn(all[i + 1], c) {}
    forall i | 0 < i < |all| && OccursIn(all[i], c) ensures OccursIn(rest[i - 1], c) {}
  }

  /** The walk meets exactly the calls of the tree, those in function literals included. */
  lemma {:induction false} CallsOccur(nodes: seq<Node>, c: Node)
    ensures c in CallsIn(nodes) <==> c.Call? && Occurs(nodes, c)
    decreases nodes
  {
    if nodes == [] {
      OccursSome(nodes, c);
    } else {
      CallOccurs(nodes[0], c);
      CallsOccur(nodes[1..], c);
      OccursCons(nodes[0], nodes[1..], c);
      assert [nodes[0]] + nodes[1..] == nodes;
    }
  }

  lemma {:induction false} CallOccurs(n: Node, c: Node)
    ensures c in CallsOf(n) <==> c.Call? && OccursIn(n, c)
    decreases n
  {
    match n
    case Ident(_, _, _) => OccursSome([], c);
    case Selector(x, _, _, _) =>
      CallOccurs(x, c);
      OccursCons(x, [], c);
      OccursSome([], c);
      assert [x] + [] == [x];
    case Index(x, indices, _) =>
      CallOccurs(x, c);
      CallsOccur(indices, c);
      OccursCons(x, indices, c);
    case Call(_, fun, args, _) =>
      CallOccurs(fun, c);
      CallsOccur(args, c);
      OccursCons(fun, args, c);
    case FuncLit(_, body, _) => CallsOccur(body, c);
    case Return(results) => CallsOccur(results, c);
    case Other(children, _) => CallsOccur(children, c);
    case Store(_, _, operands, _) => CallsOccur(operands, c);
  }

  /** The path ends at a store to the variable: one inside a function literal, or of its address. */
  ghost predicate LateBy(nodes: seq<Node>, path: seq<nat>, v: nat, inside: bool)
    decreases |path|
  {
    path != [] && path[0] < |nodes| &&
    var n := nodes[path[0]];
    if |path| == 1 then n.Store? && v in n.vars && (inside || n.byAddress)
    else LateBy(Children(n), path[1..], v, inside || n.FuncLit?)
  }

  ghost predicate Late(nodes: seq<Node>, v: nat, inside: bool)
  {
    exists path :: LateBy(nodes, path, v, inside)
  }

  ghost predicate LateAt(n: Node, v: nat, inside: bool)
  {
    (n.Store? && v in n.vars && (inside || n.byAddress)) || Late(Children(n), v, inside || n.FuncLit?)
  }

  lemma LateSome(nodes: seq<Node>, v: nat, inside: bool)
    ensures Late(nodes, v, inside) <==> exists i :: 0 <= i < |nodes| && LateAt(nodes[i], v, inside)
  {
    forall path | LateBy(nodes, path, v, inside) ensures LateAt(nodes[path[0]], v, inside) {
      var n := nodes[path[0]];
      if |path| > 1 { assert LateBy(Children(n), path[1..], v, inside || n.FuncLit?); }
    }
    forall i | 0 <= i < |nodes| && LateAt(nodes[i], v, inside) ensures Late(nodes, v, inside) {
      var n := nodes[i];
      if n.Store? && v in n.vars && (inside || n.byAddress) {
        assert LateBy(nodes, [i], v, inside);
      } else {
        var path :| LateBy(Children(n), path, v, inside || n.FuncLit?);
        assert ([i] + path)[1..] == path;
        assert LateBy(nodes, [i] + path, v, inside);
      }
    }
  }

  lemma LateCons(n: Node, rest: seq<Node>, v: nat, inside: bool)
    ensures Late([n] + rest, v, inside) <==> LateAt(n, v, inside) || Late(rest, v, inside)
  {
    var all := [n] + rest;
    LateSome(all, v, inside);
    LateSome(rest, v, inside);
    if LateAt(n, v, inside) { assert LateAt(all[0], v, inside); }
    forall i | 0 <= i < |rest| && LateAt(rest[i], v, inside) ensures LateAt(all[i + 1], v, inside) {}
    forall i | 0 < i < |all| && LateAt(all[i], v, inside) ensures LateAt(rest[i - 1], v, inside) {}
  }

  /** A variable is stored to, or stored to late, exactly when the tree has such a store. */
  lemma {:induction false} StoresOccur(nodes: seq<Node>, v: nat, inside: bool)
    ensures Late(nodes, v, inside) <==> if inside then StoresIn(nodes, v) else StoresLateIn(nodes, v)
    decreases nodes
  {
    if nodes == [] {
      LateSome(nodes, v, inside);
    } else {
      StoreOccurs(nodes[0], v, inside);
      StoresOccur(nodes[1..], v, inside);
      LateCons(nodes[0], nodes[1..], v, inside);
      assert [nodes[0]] + nodes[1..] == nodes;
    }
  }

  lemma {:induction false} StoreOccurs(n: Node, v: nat, inside: bool)
    ensures LateAt(n, v, inside) <==> if inside then Stores(n, v) else StoresLate(n, v)
    decreases n
  {
    match n
    case Ident(_, _, _) => LateSome([], v, inside);
    case Selector(x, _, _, _) =>
      StoreOccurs(x, v, inside);
      LateCons(x, [], v, inside);
      LateSome([], v, inside);
      assert [x] + [] == [x];
    case Index(x, indices, _) =>
      StoreOccurs(x, v, inside);
      StoresOccur(indices, v, inside);
      LateCons(x, indices, v, inside);
    case Call(_, fun, args, _) =>
      StoreOccurs(fun, v, inside);
      StoresOccur(args, v, inside);
      LateCons(fun, args, v, inside);
    case FuncLit(_, body, _) => StoresOccur(body, v, true);
    case Return(results) => StoresOccur(results, v, inside);
    case Other(children, _) => StoresOccur(children, v, inside);
    case Store(_, _, operands, _) => StoresOccur(operands, v, inside);
  }
}
