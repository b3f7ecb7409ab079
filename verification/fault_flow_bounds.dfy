/**
  What the fault-flow walk puts into the scope tree of an entry point, stated against the
  reference traversal `Gathered`: a fault escapes an entry point only if some statement of it
  throws it, and a fault thrown in a request-response body escapes unless a handler installed in
  that body catches it.
*/
module FaultFlowBounds {
  import opened Util
  import opened Ast
  import opened Scopes
  import opened FaultFlow

  /** Every fault a frame holds: recorded in the current scope, or somewhere below one of its
      children or below a scope it lifted. */
  function FrameFaults(f: Frame): set<string>
  {
    f.thrown.Keys + TreesFaults(f.children) + TreesFaults(f.lifted)
  }

  /** Appending a finished scope, followed by the scopes it lifted, adds exactly its frame's faults. */
  lemma AttachFaults(ts: seq<ScopeTree>, inner: Frame, promotes: bool)
    ensures TreesFaults(ts + [Close(inner, promotes)] + inner.lifted) == TreesFaults(ts) + FrameFaults(inner)
  {
    TreesFaultsConcat(ts + [Close(inner, promotes)], inner.lifted);
    TreesFaultsConcat(ts, [Close(inner, promotes)]);
    assert [Close(inner, promotes)][1..] == [];
  }

  // ---------------------------------------------------------------- upper bound

  /** A walk adds to the frame only faults thrown somewhere inside the statement: in the current
      scope, in a nested scope, or in a handler body. */
  lemma {:induction false} WalkWithin(env: FlowEnv, s: Stmt, f: Frame, rootLevel: bool, fuel: nat)
    ensures FrameFaults(Walk(env, s, f, rootLevel, fuel)) <= FrameFaults(f) + Gathered(env, s, AllThrown, fuel)
    decreases fuel, s, 1
  {
    if s.Basic? {
      WalkBasicWithin(env, s, f, rootLevel, fuel);
    } else if IsComposite(s) {
      WalkCompositeWithin(env, s, f, rootLevel, fuel);
    } else if HasBody(s) {
      WalkBodyWithin(env, s, f, rootLevel, fuel);
    } else {
      WalkScopingWithin(env, s, f, rootLevel, fuel);
    }
  }

  lemma {:induction false} WalkBasicWithin(env: FlowEnv, s: Stmt, f: Frame, rootLevel: bool, fuel: nat)
    requires s.Basic?
    ensures FrameFaults(WalkAction(env, s.action, f, rootLevel, fuel)) <= FrameFaults(f) + Gathered(env, s, AllThrown, fuel)
    decreases fuel, s, 0
  {
    assert Gathered(env, s, AllThrown, fuel) == GatheredAction(env, s.action, AllThrown, fuel);
    WalkActionWithin(env, s.action, f, rootLevel, fuel);
  }

  lemma {:induction false} WalkBodyWithin(env: FlowEnv, s: Stmt, f: Frame, rootLevel: bool, fuel: nat)
    requires HasBody(s)
    ensures FrameFaults(WalkBody(env, s, f, rootLevel, fuel)) <= FrameFaults(f) + Gathered(env, s, AllThrown, fuel)
    decreases fuel, s, 0
  {
    assert Gathered(env, s, AllThrown, fuel) == Gathered(env, s.body, AllThrown, fuel);
    WalkWithin(env, s.body, f, rootLevel, fuel);
  }

  lemma {:induction false} WalkActionWithin(env: FlowEnv, a: Action, f: Frame, rootLevel: bool, fuel: nat)
    ensures FrameFaults(WalkAction(env, a, f, rootLevel, fuel)) <= FrameFaults(f) + GatheredAction(env, a, AllThrown, fuel)
    decreases fuel, a
  {
    if a.Call? && fuel > 0 && a.id in env.defines {
      WalkWithin(env, env.defines[a.id], f, rootLevel, fuel - 1);
    }
  }

  lemma {:induction false} WalkCompositeWithin(env: FlowEnv, s: Stmt, f: Frame, rootLevel: bool, fuel: nat)
    requires IsComposite(s)
    ensures FrameFaults(WalkComposite(env, s, f, rootLevel, fuel)) <= FrameFaults(f) + Gathered(env, s, AllThrown, fuel)
    decreases fuel, s, 0
  {
    match s
    case Sequence(cs) =>
      assert Gathered(env, s, AllThrown, fuel) == GatheredAll(env, cs, AllThrown, fuel);
      WalkAllWithin(env, cs, f, rootLevel, fuel);
    case Parallel(cs) =>
      assert Gathered(env, s, AllThrown, fuel) == GatheredAll(env, cs, AllThrown, fuel);
      WalkAllWithin(env, cs, f, rootLevel, fuel);
    case InputChoice(bs) =>
      assert Gathered(env, s, AllThrown, fuel) == GatheredBranches(env, bs, AllThrown, fuel);
      WalkBranchesWithin(env, bs, f, rootLevel, fuel);
    case If(cs, e) =>
      var f1 := WalkConditionals(env, cs, f, rootLevel, fuel);
      WalkConditionalsWithin(env, cs, f, rootLevel, fuel);
      if e.Some? {
        WalkWithin(env, e.value, f1, rootLevel, fuel);
      }
  }

  lemma {:induction false} WalkAllWithin(env: FlowEnv, cs: seq<Stmt>, f: Frame, rootLevel: bool, fuel: nat)
    ensures FrameFaults(WalkAll(env, cs, f, rootLevel, fuel)) <= FrameFaults(f) + GatheredAll(env, cs, AllThrown, fuel)
    decreases fuel, cs
  {
    if cs != [] {
      WalkWithin(env, cs[0], f, rootLevel, fuel);
      WalkAllWithin(env, cs[1..], Walk(env, cs[0], f, rootLevel, fuel), rootLevel, fuel);
    }
  }

  lemma {:induction false} WalkBranchesWithin(env: FlowEnv, bs: seq<ChoiceBranch>, f: Frame, rootLevel: bool, fuel: nat)
    ensures FrameFaults(WalkBranches(env, bs, f, rootLevel, fuel)) <= FrameFaults(f) + GatheredBranches(env, bs, AllThrown, fuel)
    decreases fuel, bs
  {
    if bs != [] {
      WalkBranchWithin(env, bs[0], f, rootLevel, fuel);
      WalkBranchesWithin(env, bs[1..], WalkBranch(env, bs[0], f, rootLevel, fuel), rootLevel, fuel);
    }
  }

  lemma {:induction false} WalkBranchWithin(env: FlowEnv, b: ChoiceBranch, f: Frame, rootLevel: bool, fuel: nat)
    ensures FrameFaults(WalkBranch(env, b, f, rootLevel, fuel)) <= FrameFaults(f) + GatheredBranch(env, b, AllThrown, fuel)
    decreases fuel, b
  {
    WalkWithin(env, b.guard, f, rootLevel, fuel);
    WalkWithin(env, b.body, Walk(env, b.guard, f, rootLevel, fuel), rootLevel, fuel);
  }

  lemma {:induction false} WalkConditionalsWithin(env: FlowEnv, cs: seq<IfBranch>, f: Frame, rootLevel: bool, fuel: nat)
    ensures FrameFaults(WalkConditionals(env, cs, f, rootLevel, fuel)) <= FrameFaults(f) + GatheredConditionals(env, cs, AllThrown, fuel)
    decreases fuel, cs
  {
    if cs != [] {
      WalkConditionalWithin(env, cs[0], f, rootLevel, fuel);
      WalkConditionalsWithin(env, cs[1..], WalkConditional(env, cs[0], f, rootLevel, fuel), rootLevel, fuel);
    }
  }

  lemma {:induction false} WalkConditionalWithin(env: FlowEnv, c: IfBranch, f: Frame, rootLevel: bool, fuel: nat)
    ensures FrameFaults(WalkConditional(env, c, f, rootLevel, fuel)) <= FrameFaults(f) + GatheredConditional(env, c, AllThrown, fuel)
    decreases fuel, c
  {
    WalkWithin(env, c.body, f, rootLevel, fuel);
  }

  lemma {:induction false} WalkScopingWithin(env: FlowEnv, s: Stmt, f: Frame, rootLevel: bool, fuel: nat)
    requires IsScoping(s)
    ensures FrameFaults(WalkScoping(env, s, f, rootLevel, fuel)) <= FrameFaults(f) + Gathered(env, s, AllThrown, fuel)
    decreases fuel, s, 0
  {
    match s
    case RequestResponseIn(_, _, process) =>
      assert Gathered(env, s, AllThrown, fuel) == Gathered(env, process, AllThrown, fuel);
      WalkNestedWithin(env, process, f, fuel);
    case ScopeStmt(_, body) =>
      assert Gathered(env, s, AllThrown, fuel) == Gathered(env, body, AllThrown, fuel);
      WalkNestedWithin(env, body, f, fuel);
    case Install(hs) =>
      assert Gathered(env, s, AllThrown, fuel) == GatheredHandlers(env, hs, AllThrown, fuel);
      WalkHandlersWithin(env, hs, f, rootLevel, fuel);
    case CourierChoice(_, _, _, _) =>
  }

  /** A nested scope brings in exactly the faults of its own walk. */
  lemma {:induction false} WalkNestedWithin(env: FlowEnv, body: Stmt, f: Frame, fuel: nat)
    ensures FrameFaults(WalkNested(env, body, f, fuel)) <= FrameFaults(f) + Gathered(env, body, AllThrown, fuel)
    decreases fuel, body, 2
  {
    var inner := Walk(env, body, EmptyFrame, false, fuel);
    WalkWithin(env, body, EmptyFrame, false, fuel);
    AttachFaults(f.children, inner, true);
  }

  lemma {:induction false} WalkHandlersWithin(env: FlowEnv, hs: seq<Handler>, f: Frame, rootLevel: bool, fuel: nat)
    ensures FrameFaults(WalkHandlers(env, hs, f, rootLevel, fuel)) <= FrameFaults(f) + GatheredHandlers(env, hs, AllThrown, fuel)
    decreases fuel, hs
  {
    if hs != [] {
      var h := hs[0];
      var handler := Walk(env, h.body, EmptyFrame, rootLevel, fuel);
      WalkWithin(env, h.body, EmptyFrame, rootLevel, fuel);
      if rootLevel {
        AttachFaults(f.children, handler, false);
      } else {
        AttachFaults(f.lifted, handler, true);
      }
      WalkHandlersWithin(env, hs[1..], WalkHandler(env, h, f, rootLevel, fuel), rootLevel, fuel);
    }
  }

  /** Every fault that escapes an entry point is thrown by one of its statements, possibly inside a
      nested scope, a handler body or an inlined procedure. */
  lemma EntryResidualWithin(env: FlowEnv, first: Stmt, rest: Stmt, fuel: nat)
    ensures Resolve(RootScope(env, first, rest, fuel)).Keys <= Gathered(env, first, AllThrown, fuel) + Gathered(env, rest, AllThrown, fuel)
  {
    var w1 := Walk(env, first, EmptyFrame, true, fuel);
    WalkWithin(env, first, EmptyFrame, true, fuel);
    WalkWithin(env, rest, w1, true, fuel);
    ResolveWithin(RootScope(env, first, rest, fuel));
  }

  // ---------------------------------------------------------------- lower bounds

  /** A fault an entry point records in its own scope escapes it unless a handler installed at the
      entry level catches that name or catches everything. */
  lemma RootFaultEscapes(env: FlowEnv, first: Stmt, rest: Stmt, fuel: nat, x: string)
    requires x in Gathered(env, first, OwnThrown, fuel) + Gathered(env, rest, OwnThrown, fuel)
    requires x !in Gathered(env, first, OwnCaught, fuel) + Gathered(env, rest, OwnCaught, fuel)
    requires CatchAll !in Gathered(env, first, OwnCaught, fuel) + Gathered(env, rest, OwnCaught, fuel)
    ensures x in Resolve(RootScope(env, first, rest, fuel))
  {
    ResolveNames(RootScope(env, first, rest, fuel), x);
  }

  /** A fault a request-response body records in its own scope escapes the entry point of that
      operation unless a handler installed in the body catches that name or catches everything. */
  lemma RequestResponseFaultEscapes(env: FlowEnv, op: string, input: Option<VarPath>, body: Stmt, fuel: nat, x: string)
    requires x in Gathered(env, body, OwnThrown, fuel)
    requires x !in Gathered(env, body, OwnCaught, fuel) && CatchAll !in Gathered(env, body, OwnCaught, fuel)
    ensures x in Resolve(RootScope(env, RequestResponseIn(op, input, body), Basic(NullProcess), fuel))
  {
    var s := RequestResponseIn(op, input, body);
    var inner := Walk(env, body, EmptyFrame, false, fuel);
    var w := Walk(env, s, EmptyFrame, true, fuel);
    assert w == WalkScoping(env, s, EmptyFrame, true, fuel) == WalkNested(env, body, EmptyFrame, fuel);
    assert Walk(env, Basic(NullProcess), w, true, fuel) == WalkAction(env, NullProcess, w, true, fuel) == w;
    var root := RootScope(env, s, Basic(NullProcess), fuel);
    assert root.caught == [] && root.children[0] == Close(inner, true);
    ResolveNames(Close(inner, true), x);
    assert Escapes(root.children, x);
    ResolveNames(root, x);
  }
}
