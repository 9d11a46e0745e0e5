/** The runtime audit (pkg/healthaudit/healthaudit.go): an object behind a mutex that hooks and sweeps
    update, and the invariant it keeps under every interleaving of the threads that use it. */
module HealthAudit {
  import opened GoTypes
  import opened Sorting

  /** order lists the registered names in the order of their first registration. */
  datatype AuditState = AuditState(order: seq<string>, registered: set<string>, invoked: set<string>,
                                   errored: set<string>)

  /** One critical section. A sweep is recorded with the names whose result was an error. */
  datatype Op = Register(name: string) | Invocation(name: string) | Record(errors: set<string>) | Read

  const EMPTY := AuditState([], {}, {}, {})

  function Apply(op: Op, s: AuditState): AuditState
  {
    match op
    case Register(n) => if n in s.registered then s else s.(registered := s.registered + {n}, order := s.order + [n])
    case Invocation(n) => s.(invoked := s.invoked + {n})
    case Record(errors) => s.(errored := s.errored + errors)
    case Read => s
  }

  function ApplyAll(ops: seq<Op>): AuditState
  {
    if ops == [] then EMPTY else Apply(ops[|ops| - 1], ApplyAll(ops[..|ops| - 1]))
  }

  ghost predicate Inv(s: AuditState)
  {
    && (forall i, j | 0 <= i < j < |s.order| :: s.order[i] != s.order[j])
    && (forall n :: n in s.order <==> n in s.registered)
  }

  ghost predicate Grown(a: AuditState, b: AuditState)
  {
    a.order <= b.order && a.registered <= b.registered && a.invoked <= b.invoked && a.errored <= b.errored
  }

  lemma {:induction false} InvAlways(ops: seq<Op>)
    ensures Inv(ApplyAll(ops))
  {
    if ops != [] { InvAlways(ops[..|ops| - 1]); }
  }

  lemma {:induction false} OnlyGrows(ops: seq<Op>, k: nat)
    requires k <= |ops|
    ensures Grown(ApplyAll(ops[..k]), ApplyAll(ops))
  {
    if k == |ops| {
      assert ops[..k] == ops;
    } else {
      var init := ops[..|ops| - 1];
      OnlyGrows(init, k);
      assert init[..k] == ops[..k];
    }
  }

  // ---------------------------------------------------------------- what is remembered

  ghost predicate ErroredIn(ops: seq<Op>, n: string)
  {
    exists op :: op in ops && op.Record? && n in op.errors
  }

  /** Each set holds exactly the names of its own operations. */
  lemma {:induction false} SetsAreHistory(ops: seq<Op>, n: string)
    ensures n in ApplyAll(ops).registered <==> Register(n) in ops
    ensures n in ApplyAll(ops).invoked <==> Invocation(n) in ops
    ensures n in ApplyAll(ops).errored <==> ErroredIn(ops, n)
  {
    if ops != [] {
      var init, op := ops[..|ops| - 1], ops[|ops| - 1];
      SetsAreHistory(init, n);
      assert ops == init + [op];
      if op.Record? && n in op.errors { assert op in ops; }
      if ErroredIn(init, n) {
        var o :| o in init && o.Record? && n in o.errors;
        assert o in ops;
      }
    }
  }

  /** The operation that first registered the name. */
  ghost predicate FirstAt(ops: seq<Op>, n: string, i: nat)
  {
    i < |ops| && ops[i] == Register(n) && Register(n) !in ops[..i]
  }

  /** The order is that of the first registrations. */
  lemma {:induction false} OrderIsOfFirsts(ops: seq<Op>, a: nat, b: nat, i: nat, j: nat)
    requires a < b < |ApplyAll(ops).order|
    requires FirstAt(ops, ApplyAll(ops).order[a], i) && FirstAt(ops, ApplyAll(ops).order[b], j)
    ensures i < j
  {
    var init, op := ops[..|ops| - 1], ops[|ops| - 1];
    var before := ApplyAll(init).order;
    InvAlways(init);
    InitOrder(ops);
    FirstIsEarlier(ops, before[a], i);
    if b < |before| {
      FirstIsEarlier(ops, before[b], j);
      OrderIsOfFirsts(init, a, b, i, j);
    } else {
      SetsAreHistory(init, ApplyAll(ops).order[b]);
      LastIsFirst(ops, j);
    }
  }

  lemma InitOrder(ops: seq<Op>)
    requires ops != []
    ensures var before, op := ApplyAll(ops[..|ops| - 1]), ops[|ops| - 1];
      ApplyAll(ops).order ==
        if op.Register? && op.name !in before.registered then before.order + [op.name] else before.order
  {
    OrderAfter(ops[|ops| - 1], ApplyAll(ops[..|ops| - 1]));
  }

  lemma OrderAfter(op: Op, s: AuditState)
    ensures Apply(op, s).order == if op.Register? && op.name !in s.registered then s.order + [op.name] else s.order
  {}

  /** A name that is in the order already was registered before the last operation. */
  lemma FirstIsEarlier(ops: seq<Op>, n: string, i: nat)
    requires ops != [] && n in ApplyAll(ops[..|ops| - 1]).order && FirstAt(ops, n, i)
    ensures i < |ops| - 1 && FirstAt(ops[..|ops| - 1], n, i)
  {
    var init := ops[..|ops| - 1];
    InvAlways(init);
    SetsAreHistory(init, n);
    var k :| 0 <= k < |init| && init[k] == Register(n);
    assert forall x | 0 <= x < i :: ops[x] in ops[..i];
    assert init[..i] == ops[..i];
  }

  lemma LastIsFirst(ops: seq<Op>, j: nat)
    requires ops != [] && ops[|ops| - 1].Register? && FirstAt(ops, ops[|ops| - 1].name, j)
    requires Register(ops[|ops| - 1].name) !in ops[..|ops| - 1]
    ensures j == |ops| - 1
  {
    assert forall x | 0 <= x < |ops| - 1 :: ops[x] in ops[..|ops| - 1];
  }

  // ---------------------------------------------------------------- the skipped listing

  ghost predicate IsSkipped(s: AuditState, out: seq<string>)
  {
    StrictlySorted(out, x => x) && forall n :: n in out <==> n in s.registered && n !in s.errored
  }

  lemma {:induction false} DistinctSize(out: seq<string>, names: set<string>)
    requires forall i, j | 0 <= i < j < |out| :: out[i] != out[j]
    requires forall n :: n in out <==> n in names
    ensures |out| == |names|
  {
    if out == [] {
      assert names == {};
    } else {
      assert out[0] in out && out == [out[0]] + out[1..];
      forall n ensures n in out[1..] <==> n in names - {out[0]} {
        if n in out[1..] {
          var i :| 0 <= i < |out[1..]| && out[1..][i] == n;
          assert out[i + 1] == n;
        }
      }
      DistinctSize(out[1..], names - {out[0]});
    }
  }

  /** Skipped and errored services together are as many as the registered ones exactly when every name
      that errored in a sweep is registered. */
  lemma SkippedAndErroredIff(s: AuditState, out: seq<string>)
    requires IsSkipped(s, out)
    ensures |out| + |s.errored| == |s.registered| <==> s.errored <= s.registered
  {
    forall i, j | 0 <= i < j < |out| ensures out[i] != out[j] { LessIsStrict(out[i], out[j]); }
    DistinctSize(out, s.registered - s.errored);
    var both, extra := s.errored * s.registered, s.errored - s.registered;
    assert s.registered == (s.registered - s.errored) + both;
    assert s.errored == both + extra;
    assert extra == {} <==> s.errored <= s.registered;
  }

  // ---------------------------------------------------------------- the object

  class Audit {
    var order: seq<string>
    var registered: set<string>
    var invoked: set<string>
    var errored: set<string>

    function View(): AuditState
      reads this
    {
      AuditState(order, registered, invoked, errored)
    }

    constructor ()
      ensures View() == EMPTY && Inv(View())
    {
      order, registered, invoked, errored := [], {}, {}, {};
    }

    method AfterRegistration(name: string)
      requires Inv(View())
      modifies this
      ensures View() == Apply(Register(name), old(View())) && Inv(View())
    {
      if name !in registered {
        registered := registered + {name};
        order := order + [name];
      }
    }

    method AfterInvocation(name: string)
      requires Inv(View())
      modifies this
      ensures View() == Apply(Invocation(name), old(View())) && Inv(View())
    {
      invoked := invoked + {name};
    }

    /** The recording part of a sweep; the results (name to whether it is an error) are iterated in any
        order. */
    method RecordSweep(results: map<string, bool>)
      requires Inv(View())
      modifies this
      ensures View() == Apply(Record(set n | n in results && results[n]), old(View())) && Inv(View())
    {
      var todo := results.Keys;
      while todo != {}
        invariant todo <= results.Keys
        invariant View() == old(View()).(errored := old(errored) + set n | n in results && n !in todo && results[n])
        decreases todo
      {
        var n :| n in todo;
        todo := todo - {n};
        if results[n] {
          errored := errored + {n};
        }
      }
    }

    method Registered() returns (n: nat)
      requires Inv(View())
      ensures n == |registered| == |order|
    {
      DistinctSize(order, registered);
      n := |registered|;
    }

    method Invoked() returns (n: nat)
      ensures n == |invoked|
    {
      n := |invoked|;
    }

    method Errored() returns (n: nat)
      ensures n == |errored|
    {
      n := |errored|;
    }

    /** The registered services that never errored, sorted. */
    method Skipped() returns (out: seq<string>)
      requires Inv(View())
      ensures IsSkipped(View(), out)
    {
      var names: seq<string> := [];
      var k := 0;
      while k < |order|
        invariant 0 <= k <= |order|
        invariant forall n :: n in names <==> n in order[..k] && n !in errored
        invariant DistinctKeys(names, x => x)
      {
        var name := order[k];
        assert order[..k + 1] == order[..k] + [name];
        if name !in errored {
          assert forall i | 0 <= i < |names| :: names[i] in names;
          names := names + [name];
        }
        k := k + 1;
      }
      assert order[..k] == order;
      out := Sort(names, x => x);
      SortIsStrict(names, x => x);
    }
  }

  // ---------------------------------------------------------------- threads

  /** Where a thread is: outside; waiting for the mutex; or inside, before its update, between the two
      writes of a registration, in the recording loop, or done. */
  datatype Stage = Start | Registered(name: string) | Loop(left: set<string>) | Done

  datatype Pc = Idle | Waiting(op: Op) | Inside(op: Op, stage: Stage)

  /** Shared memory, mutex owner and threads; the operations whose critical section has ended, in that
      order; and what readers saw, with the number of operations ended by then. */
  datatype System = System(
    shared: AuditState, owner: Option<nat>, threads: map<nat, Pc>, ended: seq<Op>, seen: seq<(nat, AuditState)>)

  /** A scheduler's choice: a thread calls an operation, takes the mutex, makes its next single write (in
      the recording loop the map decides which name), or leaves. */
  datatype Choice = Call(t: nat, op: Op) | Lock(t: nat) | Work(t: nat, name: string) | Unlock(t: nat)

  function PcOf(y: System, t: nat): Pc
  {
    if t in y.threads then y.threads[t] else Idle
  }

  /** Choices that are not possible change nothing. */
  function Next(y: System, c: Choice): System
  {
    var pc := PcOf(y, c.t);
    match c
    case Call(t, op) => if pc.Idle? then y.(threads := y.threads[t := Waiting(op)]) else y
    case Lock(t) =>
      if pc.Waiting? && y.owner.None?
      then y.(owner := Some(t), threads := y.threads[t := Inside(pc.op, Entry(pc.op))])
      else y
    case Work(t, name) => if pc.Inside? && y.owner == Some(t) then Write(y, t, pc, name) else y
    case Unlock(t) =>
      if pc.Inside? && pc.stage == Done && y.owner == Some(t)
      then y.(owner := None, threads := y.threads[t := Idle], ended := y.ended + [pc.op])
      else y
  }

  function Entry(op: Op): Stage
  {
    if op.Record? then Loop(op.errors) else Start
  }

  /** One write to shared memory. */
  function Write(y: System, t: nat, pc: Pc, name: string): System
    requires pc.Inside?
  {
    var s := y.shared;
    match (pc.op, pc.stage)
    case (Register(n), Start) =>
      if n in s.registered then At(y, t, pc, Done)
      else At(y, t, pc, Registered(n)).(shared := s.(registered := s.registered + {n}))
    case (Register(n), Registered(m)) => At(y, t, pc, Done).(shared := s.(order := s.order + [m]))
    case (Invocation(n), Start) => At(y, t, pc, Done).(shared := s.(invoked := s.invoked + {n}))
    case (Record(_), Loop(left)) =>
      if left == {} then At(y, t, pc, Done)
      else if name in left then At(y, t, pc, Loop(left - {name})).(shared := s.(errored := s.errored + {name}))
      else y
    case (Read, Start) => At(y, t, pc, Done).(seen := y.seen + [(|y.ended|, s)])
    case _ => y
  }

  function At(y: System, t: nat, pc: Pc, stage: Stage): System
    requires pc.Inside?
  {
    y.(threads := y.threads[t := Inside(pc.op, stage)])
  }

  function Schedule(choices: seq<Choice>): System
  {
    if choices == [] then System(EMPTY, None, map[], [], [])
    else Next(Schedule(choices[..|choices| - 1]), choices[|choices| - 1])
  }

  /** The shared memory of a critical section that is under way, from the state it started in. */
  ghost predicate Partial(base: AuditState, op: Op, stage: Stage, s: AuditState)
  {
    match stage
    case Start => s == base && !op.Record?
    case Registered(n) => op == Register(n) && n !in base.registered && s == base.(registered := base.registered + {n})
    case Loop(left) => op.Record? && left <= op.errors && s == base.(errored := base.errored + (op.errors - left))
    case Done => s == Apply(op, base)
  }

  /** Mutual exclusion, and the shared memory as if the ended operations had run one after another. */
  ghost predicate Consistent(y: System)
  {
    && (forall t | t in y.threads && y.threads[t].Inside? :: y.owner == Some(t))
    && (match y.owner
        case None => y.shared == ApplyAll(y.ended)
        case Some(t) => PcOf(y, t).Inside? && Partial(ApplyAll(y.ended), PcOf(y, t).op, PcOf(y, t).stage, y.shared))
    && (forall i | 0 <= i < |y.seen| :: y.seen[i].0 <= |y.ended| && y.seen[i].1 == ApplyAll(y.ended[..y.seen[i].0]))
  }

  lemma WriteConsistent(y: System, t: nat, name: string)
    requires Consistent(y) && PcOf(y, t).Inside? && y.owner == Some(t)
    ensures Consistent(Write(y, t, PcOf(y, t), name))
  {
    var pc, base := PcOf(y, t), ApplyAll(y.ended);
    assert y.ended[..|y.ended|] == y.ended;
    if pc.op.Record? && pc.stage.Loop? && name in pc.stage.left {
      var left := pc.stage.left;
      assert (pc.op.errors - left) + {name} == pc.op.errors - (left - {name});
      assert base.errored + (pc.op.errors - left) + {name} == base.errored + (pc.op.errors - (left - {name}));
    }
  }

  lemma UnlockConsistent(y: System, t: nat)
    requires Consistent(y)
    ensures Consistent(Next(y, Unlock(t)))
  {
    var y' := Next(y, Unlock(t));
    if y' != y {
      assert y'.ended[..|y.ended|] == y.ended;
      forall i | 0 <= i < |y.seen| ensures y'.ended[..y.seen[i].0] == y.ended[..y.seen[i].0] {}
    }
  }

  lemma NextConsistent(y: System, c: Choice)
    requires Consistent(y)
    ensures Consistent(Next(y, c))
  {
    match c
    case Call(t, op) =>
    case Lock(t) =>
      if PcOf(y, t).Waiting? && PcOf(y, t).op.Record? {
        assert PcOf(y, t).op.errors - PcOf(y, t).op.errors == {};
        assert ApplyAll(y.ended).errored + {} == ApplyAll(y.ended).errored;
      }
    case Work(t, name) => if PcOf(y, t).Inside? && y.owner == Some(t) { WriteConsistent(y, t, name); }
    case Unlock(t) => UnlockConsistent(y, t);
  }

  lemma {:induction false} AlwaysConsistent(choices: seq<Choice>)
    ensures Consistent(Schedule(choices))
  {
    if choices != [] {
      AlwaysConsistent(choices[..|choices| - 1]);
      NextConsistent(Schedule(choices[..|choices| - 1]), choices[|choices| - 1]);
    }
  }

  /** Under every interleaving of single writes: whenever the mutex is free the invariant holds, and what
      any reader saw was an invariant-satisfying state that later states only extend. */
  lemma InvariantUnderInterleaving(choices: seq<Choice>)
    ensures var y := Schedule(choices);
      && (y.owner.None? ==> Inv(y.shared) && y.shared == ApplyAll(y.ended))
      && forall i | 0 <= i < |y.seen| :: Inv(y.seen[i].1) && Grown(y.seen[i].1, ApplyAll(y.ended))
  {
    var y := Schedule(choices);
    AlwaysConsistent(choices);
    InvAlways(y.ended);
    forall i | 0 <= i < |y.seen| ensures Inv(y.seen[i].1) && Grown(y.seen[i].1, ApplyAll(y.ended)) {
      InvAlways(y.ended[..y.seen[i].0]);
      OnlyGrows(y.ended, y.seen[i].0);
    }
  }
}
