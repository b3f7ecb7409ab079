/**
  Properties of the fault-flow verifier: how install statements shape the scope tree, which
  procedures a call can reach, and what the warnings of an entry point say about its residual
  faults.
*/
module FaultFlowProperties {
  import opened Util
  import opened Ast
  import opened Scopes
  import opened FaultFlow

  // ---------------------------------------------------------------- install

  /** An install marks every handler name as caught in the current scope, listing each name once,
      and records no fault there. */
  lemma {:induction false} InstallCatches(env: FlowEnv, hs: seq<Handler>, f: Frame, rootLevel: bool, fuel: nat)
    ensures WalkHandlers(env, hs, f, rootLevel, fuel).thrown == f.thrown
    ensures Names(WalkHandlers(env, hs, f, rootLevel, fuel).caught) == Names(f.caught) + HandlerFaults(hs)
    ensures NoDuplicates(f.caught) ==> NoDuplicates(WalkHandlers(env, hs, f, rootLevel, fuel).caught)
    decreases hs
  {
    if hs != [] {
      var f1 := WalkHandler(env, hs[0], f, rootLevel, fuel);
      assert f1.caught == AddCaught(f.caught, hs[0].fault);
      InstallCatches(env, hs[1..], f1, rootLevel, fuel);
    }
  }

  /** The scope a handler body is walked in, before it is attached. */
  function HandlerFrame(env: FlowEnv, h: Handler, rootLevel: bool, fuel: nat): Frame
  {
    Walk(env, h.body, EmptyFrame, rootLevel, fuel)
  }

  lemma HandlerStep(env: FlowEnv, h: Handler, f: Frame, rootLevel: bool, fuel: nat)
    ensures var handler := HandlerFrame(env, h, rootLevel, fuel);
      var r := WalkHandler(env, h, f, rootLevel, fuel);
      r.caught == AddCaught(f.caught, h.fault) &&
      (rootLevel ==> r.children == f.children + [Close(handler, false)] && r.lifted == f.lifted) &&
      (!rootLevel ==> r.children == f.children && r.lifted == f.lifted + [Close(handler, true)] + handler.lifted)
  {
  }

  /** The scopes an install attaches, in order: for each handler the scope of its body, which can
      promote below the entry level and cannot at it, followed by the scopes that body lifted. */
  function HandlerScopes(env: FlowEnv, hs: seq<Handler>, rootLevel: bool, fuel: nat): seq<ScopeTree>
  {
    if hs == [] then []
    else
      var handler := HandlerFrame(env, hs[0], rootLevel, fuel);
      [Close(handler, !rootLevel)] + handler.lifted + HandlerScopes(env, hs[1..], rootLevel, fuel)
  }

  lemma HandlersStep(env: FlowEnv, hs: seq<Handler>, f: Frame, rootLevel: bool, fuel: nat)
    requires hs != []
    ensures WalkHandlers(env, hs, f, rootLevel, fuel) == WalkHandlers(env, hs[1..], WalkHandler(env, hs[0], f, rootLevel, fuel), rootLevel, fuel)
    ensures HandlerScopes(env, hs, rootLevel, fuel) ==
      [Close(HandlerFrame(env, hs[0], rootLevel, fuel), !rootLevel)] + HandlerFrame(env, hs[0], rootLevel, fuel).lifted +
      HandlerScopes(env, hs[1..], rootLevel, fuel)
  {
  }

  lemma AppendStep(before: seq<ScopeTree>, t: ScopeTree, lifted: seq<ScopeTree>, rest: seq<ScopeTree>)
    ensures before + [t] + lifted + rest == before + ([t] + lifted + rest)
  {
  }

  /** At the entry level an install attaches its handler scopes to the current scope. */
  lemma {:induction false} RootHandlersAttach(env: FlowEnv, hs: seq<Handler>, f: Frame, fuel: nat)
    ensures var r := WalkHandlers(env, hs, f, true, fuel);
      r.children == f.children + HandlerScopes(env, hs, true, fuel) && r.lifted == f.lifted
    decreases hs
  {
    if hs != [] {
      var handler := HandlerFrame(env, hs[0], true, fuel);
      var f1 := WalkHandler(env, hs[0], f, true, fuel);
      HandlerStep(env, hs[0], f, true, fuel);
      HandlersStep(env, hs, f, true, fuel);
      RootHandlersAttach(env, hs[1..], f1, fuel);
      assert handler.lifted == [];
      AppendStep(f.children, Close(handler, false), handler.lifted, HandlerScopes(env, hs[1..], true, fuel));
    }
  }

  /** Below the entry level an install lifts its handler scopes to the parent. */
  lemma {:induction false} NestedHandlersAttach(env: FlowEnv, hs: seq<Handler>, f: Frame, fuel: nat)
    ensures var r := WalkHandlers(env, hs, f, false, fuel);
      r.children == f.children && r.lifted == f.lifted + HandlerScopes(env, hs, false, fuel)
    decreases hs
  {
    if hs != [] {
      var handler := HandlerFrame(env, hs[0], false, fuel);
      var f1 := WalkHandler(env, hs[0], f, false, fuel);
      HandlerStep(env, hs[0], f, false, fuel);
      HandlersStep(env, hs, f, false, fuel);
      NestedHandlersAttach(env, hs[1..], f1, fuel);
      AppendStep(f.lifted, Close(handler, true), handler.lifted, HandlerScopes(env, hs[1..], false, fuel));
    }
  }

  /** At the entry level the handler scopes are exactly one per handler, in order. */
  lemma {:induction false} RootHandlerScopes(env: FlowEnv, hs: seq<Handler>, fuel: nat)
    ensures var ts := HandlerScopes(env, hs, true, fuel);
      |ts| == |hs| && forall i :: 0 <= i < |hs| ==> ts[i] == Close(HandlerFrame(env, hs[i], true, fuel), false)
    decreases hs
  {
    if hs != [] {
      var handler := HandlerFrame(env, hs[0], true, fuel);
      assert handler.lifted == [];
      RootHandlerScopes(env, hs[1..], fuel);
      var ts := HandlerScopes(env, hs, true, fuel);
      assert ts == [Close(handler, false)] + HandlerScopes(env, hs[1..], true, fuel);
      forall i | 0 < i < |hs|
        ensures ts[i] == Close(HandlerFrame(env, hs[i], true, fuel), false)
      {
        assert hs[i] == hs[1..][i - 1];
      }
    }
  }

  /** At the entry level each handler body gets a scope listed under the current scope, one per
      handler and in installation order, holding the walk of that handler's body; none of them has
      a parent, so the faults they let escape go nowhere. */
  lemma RootInstallOrphans(env: FlowEnv, hs: seq<Handler>, f: Frame, fuel: nat)
    ensures var r := WalkHandlers(env, hs, f, true, fuel);
      |r.children| == |f.children| + |hs| && r.children[..|f.children|] == f.children &&
      (forall i :: 0 <= i < |hs| ==> r.children[|f.children|..][i] == Close(HandlerFrame(env, hs[i], true, fuel), false)) &&
      forall j :: |f.children| <= j < |r.children| ==> !r.children[j].promotes
  {
    RootHandlersAttach(env, hs, f, fuel);
    RootHandlerScopes(env, hs, fuel);
    var r := WalkHandlers(env, hs, f, true, fuel);
    assert r.children[|f.children|..] == HandlerScopes(env, hs, true, fuel);
    forall j | |f.children| <= j < |r.children|
      ensures !r.children[j].promotes
    {
      assert r.children[j] == r.children[|f.children|..][j - |f.children|];
    }
  }

  /** Which scopes an install below the entry level may lift for handler `h`: the scope of its
      body, or a scope that body lifted in turn. */
  predicate LiftedFor(env: FlowEnv, h: Handler, fuel: nat, t: ScopeTree)
  {
    t == Close(HandlerFrame(env, h, false, fuel), true) || t in HandlerFrame(env, h, false, fuel).lifted
  }

  /** Below the entry level the handler scopes hold each handler body's walk, the first one in
      front. */
  lemma {:induction false} NestedHandlerScopesCover(env: FlowEnv, hs: seq<Handler>, fuel: nat)
    ensures var ts := HandlerScopes(env, hs, false, fuel);
      |hs| <= |ts| && (hs != [] ==> ts[0] == Close(HandlerFrame(env, hs[0], false, fuel), true)) &&
      forall i :: 0 <= i < |hs| ==> Close(HandlerFrame(env, hs[i], false, fuel), true) in ts
    decreases hs
  {
    if hs != [] {
      var handler := HandlerFrame(env, hs[0], false, fuel);
      var rest := HandlerScopes(env, hs[1..], false, fuel);
      NestedHandlerScopesCover(env, hs[1..], fuel);
      var ts := HandlerScopes(env, hs, false, fuel);
      assert ts == [Close(handler, true)] + handler.lifted + rest;
      forall i | 0 < i < |hs|
        ensures Close(HandlerFrame(env, hs[i], false, fuel), true) in ts
      {
        assert hs[i] == hs[1..][i - 1];
        assert Close(HandlerFrame(env, hs[1..][i - 1], false, fuel), true) in rest;
      }
    }
  }

  /** Below the entry level every handler scope comes from one of the handlers and can promote. */
  lemma {:induction false} NestedHandlerScopesFrom(env: FlowEnv, hs: seq<Handler>, fuel: nat, t: ScopeTree)
    requires t in HandlerScopes(env, hs, false, fuel)
    ensures t.promotes && exists i :: 0 <= i < |hs| && LiftedFor(env, hs[i], fuel, t)
    decreases hs
  {
    var handler := HandlerFrame(env, hs[0], false, fuel);
    var rest := HandlerScopes(env, hs[1..], false, fuel);
    assert HandlerScopes(env, hs, false, fuel) == [Close(handler, true)] + handler.lifted + rest;
    if t in rest {
      NestedHandlerScopesFrom(env, hs[1..], fuel, t);
      var k :| 0 <= k < |hs[1..]| && LiftedFor(env, hs[1..][k], fuel, t);
      assert hs[1..][k] == hs[k + 1];
    } else if t == Close(handler, true) {
      assert LiftedFor(env, hs[0], fuel, t);
    } else {
      assert t in handler.lifted;
      assert LiftsPromoting([], handler.lifted);
      assert LiftedFor(env, hs[0], fuel, t);
    }
  }

  /** Below the entry level the handler scopes are lifted to the parent scope and the current
      scope gains no child. Every handler's body gets a lifted scope holding its walk, the first
      handler's right after the scopes lifted before; every lifted scope comes from one of the
      handlers and can promote to the parent. */
  lemma NestedInstallLifts(env: FlowEnv, hs: seq<Handler>, f: Frame, fuel: nat)
    ensures var r := WalkHandlers(env, hs, f, false, fuel);
      r.children == f.children && |f.lifted| + |hs| <= |r.lifted| && r.lifted[..|f.lifted|] == f.lifted &&
      (forall i :: 0 <= i < |hs| ==> Close(HandlerFrame(env, hs[i], false, fuel), true) in r.lifted[|f.lifted|..]) &&
      forall t :: t in r.lifted[|f.lifted|..] ==> t.promotes && exists i :: 0 <= i < |hs| && LiftedFor(env, hs[i], fuel, t)
    ensures hs != [] ==>
      WalkHandlers(env, hs, f, false, fuel).lifted[|f.lifted|] == Close(HandlerFrame(env, hs[0], false, fuel), true)
  {
    NestedHandlersAttach(env, hs, f, fuel);
    NestedHandlerScopesCover(env, hs, fuel);
    var r := WalkHandlers(env, hs, f, false, fuel);
    assert r.lifted[|f.lifted|..] == HandlerScopes(env, hs, false, fuel);
    forall t | t in r.lifted[|f.lifted|..]
      ensures t.promotes && exists i :: 0 <= i < |hs| && LiftedFor(env, hs[i], fuel, t)
    {
      NestedHandlerScopesFrom(env, hs, fuel, t);
    }
    if hs != [] {
      assert r.lifted[|f.lifted|] == r.lifted[|f.lifted|..][0];
    }
  }

  /** An entry point that only installs handlers lets nothing escape, whatever the handler bodies
      throw: at the entry level their scopes have no parent to promote to. */
  lemma RootHandlersContained(env: FlowEnv, hs: seq<Handler>, fuel: nat)
    ensures Resolve(RootScope(env, Install(hs), Basic(NullProcess), fuel)) == map[]
  {
    var w := Walk(env, Install(hs), EmptyFrame, true, fuel);
    assert w == WalkScoping(env, Install(hs), EmptyFrame, true, fuel) == WalkHandlers(env, hs, EmptyFrame, true, fuel);
    assert Walk(env, Basic(NullProcess), w, true, fuel) == WalkAction(env, NullProcess, w, true, fuel) == w;
    InstallCatches(env, hs, EmptyFrame, true, fuel);
    RootInstallOrphans(env, hs, EmptyFrame, fuel);
    var root := RootScope(env, Install(hs), Basic(NullProcess), fuel);
    assert root.thrown == map[] && root.children == w.children;
    forall x
      ensures x !in Promote(root.thrown, root.children)
    {
      PromoteNames(root.thrown, root.children, x);
    }
    assert Promote(root.thrown, root.children) == map[];
  }

  /** The handler body of the two examples below records its fault in a fresh scope. */
  lemma ThrowFrame(env: FlowEnv, rootLevel: bool, fuel: nat)
    ensures Walk(env, Basic(Throw("g", None)), EmptyFrame, rootLevel, fuel) == Frame(map["g" := None], [], [], [])
  {
    assert Walk(env, Basic(Throw("g", None)), EmptyFrame, rootLevel, fuel)
      == WalkAction(env, Throw("g", None), EmptyFrame, rootLevel, fuel) == ActionFlow(env, Throw("g", None), EmptyFrame);
  }

  /** Example: a fault thrown by a handler installed directly in an entry point is dropped... */
  lemma RootHandlerFaultDropped(env: FlowEnv, fuel: nat)
    ensures Resolve(RootScope(env, Install([Handler("f", Basic(Throw("g", None)))]), Basic(NullProcess), fuel)) == map[]
  {
    var hs := [Handler("f", Basic(Throw("g", None)))];
    var handler := Walk(env, hs[0].body, EmptyFrame, true, fuel);
    ThrowFrame(env, true, fuel);
    var h1 := WalkHandler(env, hs[0], EmptyFrame, true, fuel);
    assert h1 == Frame(map[], ["f"], [Close(handler, false)], []);
    assert WalkHandlers(env, hs, EmptyFrame, true, fuel) == WalkHandlers(env, hs[1..], h1, true, fuel) == h1;
    var w := Walk(env, Install(hs), EmptyFrame, true, fuel);
    assert w == WalkScoping(env, Install(hs), EmptyFrame, true, fuel) == h1;
    assert Walk(env, Basic(NullProcess), w, true, fuel) == WalkAction(env, NullProcess, w, true, fuel) == w;
    var root := RootScope(env, Install(hs), Basic(NullProcess), fuel);
    assert root == ScopeTree(false, map[], ["f"], [Close(handler, false)]);
    assert Promote(map[], root.children) == Promote(Merge(map[], Handed(root.children[0])), []);
  }

  /** ...while the same install inside a `scope` block lets it escape to the entry point. */
  lemma ScopedHandlerFaultEscapes(env: FlowEnv, fuel: nat)
    ensures Resolve(RootScope(env, ScopeStmt("s", Install([Handler("f", Basic(Throw("g", None)))])), Basic(NullProcess), fuel))
      == map["g" := None]
  {
    var handler := Frame(map["g" := None], [], [], []);
    var inner := Frame(map[], ["f"], [], [Close(handler, true)]);
    var root := RootScope(env, ScopeStmt("s", Install([Handler("f", Basic(Throw("g", None)))])), Basic(NullProcess), fuel);
    ScopedInstallTree(env, fuel);
    assert root == ScopeTree(false, map[], [], [Close(inner, true), Close(handler, true)]);
    assert Resolve(Close(inner, true)) == map[];
    assert Resolve(Close(handler, true)) == map["g" := None] by {
      assert Promote(map["g" := None], []) == map["g" := None];
    }
    var m1 := Merge(map[], Handed(root.children[0]));
    assert m1 == map[];
    var m2 := Merge(m1, Handed(root.children[1]));
    assert m2 == map["g" := None];
    assert Promote(map[], root.children) == Promote(m1, root.children[1..]);
    assert Promote(m1, root.children[1..]) == Promote(m2, []);
  }

  /** The entry-point scope of the example above: the `scope` block, then the handler scope it
      lifted, both promoting their faults to the entry point. */
  lemma ScopedInstallTree(env: FlowEnv, fuel: nat)
    ensures var handler := Frame(map["g" := None], [], [], []);
      RootScope(env, ScopeStmt("s", Install([Handler("f", Basic(Throw("g", None)))])), Basic(NullProcess), fuel)
      == ScopeTree(false, map[], [], [Close(Frame(map[], ["f"], [], [Close(handler, true)]), true), Close(handler, true)])
  {
    var hs := [Handler("f", Basic(Throw("g", None)))];
    var inner := Walk(env, Install(hs), EmptyFrame, false, fuel);
    NestedInstallFrame(env, fuel);
    var w := Walk(env, ScopeStmt("s", Install(hs)), EmptyFrame, true, fuel);
    assert w == WalkScoping(env, ScopeStmt("s", Install(hs)), EmptyFrame, true, fuel);
    assert w == WalkNested(env, Install(hs), EmptyFrame, fuel);
    assert Walk(env, Basic(NullProcess), w, true, fuel) == WalkAction(env, NullProcess, w, true, fuel) == w;
  }

  /** The install of the example walked below the entry level: the handler scope is lifted. */
  lemma NestedInstallFrame(env: FlowEnv, fuel: nat)
    ensures Walk(env, Install([Handler("f", Basic(Throw("g", None)))]), EmptyFrame, false, fuel)
      == Frame(map[], ["f"], [], [Close(Frame(map["g" := None], [], [], []), true)])
  {
    var hs := [Handler("f", Basic(Throw("g", None)))];
    var handler := Walk(env, hs[0].body, EmptyFrame, false, fuel);
    ThrowFrame(env, false, fuel);
    var h1 := WalkHandler(env, hs[0], EmptyFrame, false, fuel);
    assert h1 == Frame(map[], ["f"], [], [Close(handler, true)]);
    assert WalkHandlers(env, hs, EmptyFrame, false, fuel) == WalkHandlers(env, hs[1..], h1, false, fuel) == h1;
    assert Walk(env, Install(hs), EmptyFrame, false, fuel) == WalkScoping(env, Install(hs), EmptyFrame, false, fuel);
  }

  // ---------------------------------------------------------------- procedures

  /** A procedure keeps its first definition: a later definition with the same id is ignored. */
  lemma {:induction false} FirstDefinitionKept(st: FlowState, prog: Program, fuel: nat, id: string)
    requires id in st.env.defines
    ensures id in VisitFlowProgram(st, prog, fuel).env.defines
    ensures VisitFlowProgram(st, prog, fuel).env.defines[id] == st.env.defines[id]
    decreases prog
  {
    if prog != [] {
      FirstDefinitionKept(VisitFlowDecl(st, prog[0], fuel), prog[1..], fuel, id);
    }
  }

  // ---------------------------------------------------------------- entry points

  /** The keys `main` adds to the entry points: the guards' operations of an input choice, the
      operation of a request-response body, or no operation for any other body. */
  function EntryKeys(body: Stmt): set<Option<string>>
  {
    if body.InputChoice? then GuardKeys(body.branches)
    else if body.RequestResponseIn? then {Some(body.op)}
    else {None}
  }

  lemma GuardKeysCons(bs: seq<ChoiceBranch>)
    requires bs != []
    ensures GuardKeys(bs) == {ReceivedOperation(bs[0].guard)} + GuardKeys(bs[1..])
  {
    assert forall i :: 1 <= i < |bs| ==> bs[i] == bs[1..][i - 1];
    assert forall i :: 0 <= i < |bs[1..]| ==> bs[1..][i] == bs[i + 1];
  }

  /** An entry point whose key no branch receives is left as it was. */
  lemma {:induction false} ChoiceRootsKept(env: FlowEnv, bs: seq<ChoiceBranch>, roots: map<Option<string>, ScopeTree>, fuel: nat, k: Option<string>)
    requires k in roots && k !in GuardKeys(bs)
    ensures k in ChoiceRoots(env, bs, roots, fuel) && ChoiceRoots(env, bs, roots, fuel)[k] == roots[k]
    decreases bs
  {
    if bs != [] {
      GuardKeysCons(bs);
      ChoiceRootsKept(env, bs[1..], roots[ReceivedOperation(bs[0].guard) := RootScope(env, bs[0].guard, bs[0].body, fuel)], fuel, k);
    }
  }

  /** The entry point of an operation is the scope of the last branch whose guard receives it. */
  lemma {:induction false} ChoiceRootsLastWins(env: FlowEnv, bs: seq<ChoiceBranch>, roots: map<Option<string>, ScopeTree>, fuel: nat, i: nat)
    requires i < |bs|
    requires forall j :: i < j < |bs| ==> ReceivedOperation(bs[j].guard) != ReceivedOperation(bs[i].guard)
    ensures var k := ReceivedOperation(bs[i].guard);
      k in ChoiceRoots(env, bs, roots, fuel) && ChoiceRoots(env, bs, roots, fuel)[k] == RootScope(env, bs[i].guard, bs[i].body, fuel)
    decreases bs
  {
    var k := ReceivedOperation(bs[i].guard);
    var roots1 := roots[ReceivedOperation(bs[0].guard) := RootScope(env, bs[0].guard, bs[0].body, fuel)];
    if i == 0 {
      assert forall j :: 0 <= j < |bs[1..]| ==> bs[1..][j] == bs[j + 1];
      assert k !in GuardKeys(bs[1..]);
      ChoiceRootsKept(env, bs[1..], roots1, fuel, k);
    } else {
      assert bs[1..][i - 1] == bs[i];
      assert forall j :: i - 1 < j < |bs[1..]| ==> bs[1..][j] == bs[j + 1];
      ChoiceRootsLastWins(env, bs[1..], roots1, fuel, i - 1);
    }
  }

  /** Walking `main` keeps every earlier entry point whose key it does not add. */
  lemma MainRootsKept(env: FlowEnv, body: Stmt, roots: map<Option<string>, ScopeTree>, fuel: nat, k: Option<string>)
    requires k in roots && k !in EntryKeys(body)
    ensures k in MainRoots(env, body, roots, fuel) && MainRoots(env, body, roots, fuel)[k] == roots[k]
  {
    if body.InputChoice? {
      ChoiceRootsKept(env, body.branches, roots, fuel, k);
    }
  }

  // ---------------------------------------------------------------- warnings

  /** An undeclared fault that escapes an entry point serving a request-response operation is
      reported once, with its first origin; a declared fault that does not escape is reported
      exactly when some other fault does. */
  lemma EntryWarningsIff(ops: map<string, OperationDecl>, op: string, root: ScopeTree, x: string)
    requires op in ops && ops[op].RequestResponseDecl?
    ensures var residual := Resolve(root);
      NotDeclared(x, ops[op].id, if x in residual then residual[x] else None) in EntryWarnings(ops, Some(op), root) <==>
      x in residual && x !in ops[op].faults
    ensures NeverThrown(x, ops[op].id) in EntryWarnings(ops, Some(op), root) <==>
      x in ops[op].faults && x !in Resolve(root) && Resolve(root) != map[]
  {
  }
}
