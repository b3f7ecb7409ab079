/**
  The structural verifier's walk over process statements. A statement visit reads the registered
  declarations and the courier context and has four independent effects: it adds diagnostics,
  records assignments for constant tracking, logs a warning per `run`, and may move the courier
  context. Each effect is a function of its own; `VisitStmt` applies all four to the state.
*/
module Traversal {
  import opened Util
  import opened Ast
  import opened Diagnostics
  import opened VerifierState
  import opened Expressions

  // ---------------------------------------------------------------- reference: sub-statements

  /** Every statement occurring in `s`, `s` included, counted with multiplicity. Guards of input
      choices, handler bodies, conditional branches and courier branches are all included. */
  function Statements(s: Stmt): multiset<Stmt>
    decreases s, 1
  {
    multiset{s} + SubStatements(s)
  }

  /** The statements strictly inside `s`. */
  function SubStatements(s: Stmt): multiset<Stmt>
    decreases s, 0
  {
    match s
    case Sequence(cs) => StatementsOf(cs)
    case Parallel(cs) => StatementsOf(cs)
    case InputChoice(bs) => ChoiceStatements(bs)
    case RequestResponseIn(_, _, p) => Statements(p)
    case Install(hs) => HandlersStatements(hs)
    case ScopeStmt(_, b) => Statements(b)
    case Synchronized(b) => Statements(b)
    case Spawn(b) => Statements(b)
    case If(cs, e) => IfStatements(cs) + ElseStatements(e)
    case While(_, b) => Statements(b)
    case For(i, _, p, b) => Statements(i) + Statements(p) + Statements(b)
    case ForEach(_, _, b) => Statements(b)
    case CourierChoice(a, b, c, d) => StatementsOf(a) + StatementsOf(b) + StatementsOf(c) + StatementsOf(d)
    case _ => multiset{}
  }

  function StatementsOf(cs: seq<Stmt>): multiset<Stmt>
    decreases cs
  {
    if cs == [] then multiset{} else Statements(cs[0]) + StatementsOf(cs[1..])
  }

  function BranchStatements(br: ChoiceBranch): multiset<Stmt>
    decreases br
  {
    Statements(br.guard) + Statements(br.body)
  }

  function ChoiceStatements(bs: seq<ChoiceBranch>): multiset<Stmt>
    decreases bs
  {
    if bs == [] then multiset{} else BranchStatements(bs[0]) + ChoiceStatements(bs[1..])
  }

  function IfBranchStatements(b: IfBranch): multiset<Stmt>
    decreases b
  {
    Statements(b.body)
  }

  function IfStatements(bs: seq<IfBranch>): multiset<Stmt>
    decreases bs
  {
    if bs == [] then multiset{} else IfBranchStatements(bs[0]) + IfStatements(bs[1..])
  }

  function ElseStatements(e: Option<Stmt>): multiset<Stmt>
    decreases e
  {
    if e.Some? then Statements(e.value) else multiset{}
  }

  function HandlerStatements(h: Handler): multiset<Stmt>
    decreases h
  {
    Statements(h.body)
  }

  function HandlersStatements(hs: seq<Handler>): multiset<Stmt>
    decreases hs
  {
    if hs == [] then multiset{} else HandlerStatements(hs[0]) + HandlersStatements(hs[1..])
  }

  // ---------------------------------------------------------------- courier context

  /** Whether a courier choice occurs anywhere in `s`. */
  predicate HasCourierChoice(s: Stmt)
    decreases s
  {
    match s
    case CourierChoice(_, _, _, _) => true
    case Sequence(cs) => AnyCourierChoice(cs)
    case Parallel(cs) => AnyCourierChoice(cs)
    case InputChoice(bs) => ChoiceHasCourierChoice(bs)
    case RequestResponseIn(_, _, p) => HasCourierChoice(p)
    case Install(hs) => HandlersHaveCourierChoice(hs)
    case ScopeStmt(_, b) => HasCourierChoice(b)
    case Synchronized(b) => HasCourierChoice(b)
    case Spawn(b) => HasCourierChoice(b)
    case If(cs, e) => IfHasCourierChoice(cs) || (e.Some? && ElseHasCourierChoice(e))
    case While(_, b) => HasCourierChoice(b)
    case For(i, _, p, b) => HasCourierChoice(i) || HasCourierChoice(p) || HasCourierChoice(b)
    case ForEach(_, _, b) => HasCourierChoice(b)
    case _ => false
  }

  predicate AnyCourierChoice(cs: seq<Stmt>)
    decreases cs
  {
    cs != [] && (HasCourierChoice(cs[0]) || AnyCourierChoice(cs[1..]))
  }

  predicate BranchHasCourierChoice(br: ChoiceBranch)
    decreases br
  {
    HasCourierChoice(br.guard) || HasCourierChoice(br.body)
  }

  predicate ChoiceHasCourierChoice(bs: seq<ChoiceBranch>)
    decreases bs
  {
    bs != [] && (BranchHasCourierChoice(bs[0]) || ChoiceHasCourierChoice(bs[1..]))
  }

  predicate IfBranchHasCourierChoice(b: IfBranch)
    decreases b
  {
    HasCourierChoice(b.body)
  }

  predicate IfHasCourierChoice(bs: seq<IfBranch>)
    decreases bs
  {
    bs != [] && (IfBranchHasCourierChoice(bs[0]) || IfHasCourierChoice(bs[1..]))
  }

  predicate ElseHasCourierChoice(e: Option<Stmt>)
    decreases e
  {
    e.Some? && HasCourierChoice(e.value)
  }

  predicate HandlerHasCourierChoice(h: Handler)
    decreases h
  {
    HasCourierChoice(h.body)
  }

  predicate HandlersHaveCourierChoice(hs: seq<Handler>)
    decreases hs
  {
    hs != [] && (HandlerHasCourierChoice(hs[0]) || HandlersHaveCourierChoice(hs[1..]))
  }

  /** The courier context after visiting `s`: only a courier choice changes it, and it always
      leaves it unset (its branches set it before each body). */
  function CourierAfter(k: Option<OperationKind>, s: Stmt): (r: Option<OperationKind>)
    ensures r == k || r.None?
    ensures s.CourierChoice? ==> r.None?
    ensures !HasCourierChoice(s) ==> r == k
  {
    if HasCourierChoice(s) then None else k
  }

  // ---------------------------------------------------------------- diagnostics

  /** A receive: receiving inside a courier branch is an error, its target path is checked, and
      receiving into `csets` is an error. */
  function InputErrors(k: Option<OperationKind>, insideInit: bool, input: Option<VarPath>)
    : (es: multiset<SemanticError>)
    ensures NoCallErrors(es)
    ensures (input.Some? && input.value.IsCSet()) <==> ReceiveIntoCorrelationVariable in es
    ensures k.Some? <==> InputInsideCourier in es
  {
    CourierInputErrors(k) +
    (if input.Some? then PathErrors(insideInit, input.value) else multiset{}) +
    (if input.Some? && input.value.IsCSet() then multiset{ReceiveIntoCorrelationVariable} else multiset{})
  }

  /** Path diagnostics `base`, plus `e` when `p` reaches into `csets`. */
  function IfCSet(base: multiset<SemanticError>, p: VarPath, e: SemanticError): (es: multiset<SemanticError>)
    requires forall x :: x in base ==> IsPathError(x)
    requires NoCallErrors(base)
    requires !e.UndefinedProcedure? && !IsPathError(e)
    ensures NoCallErrors(es)
    ensures e in es <==> p.IsCSet()
  {
    assert e !in base;
    base + if p.IsCSet() then multiset{e} else multiset{}
  }

  /** One node reached by the walk together with the courier context it is visited in. */
  datatype Visit = Visit(courier: Option<OperationKind>, stmt: Stmt)

  /** The walk over `s` entered with courier context `k`: every node in visit order (a node
      before its sub-statements), each paired with the context the verifier holds when it
      reaches it. Siblings are visited left to right, each entered with the context the previous
      one left; the bodies of a courier choice are entered with their group's kind. */
  function Flatten(k: Option<OperationKind>, s: Stmt): seq<Visit>
    decreases s, 1
  {
    [Visit(k, s)] + FlattenBelow(k, s)
  }

  /** The walk below `s`: its sub-statements in visit order. */
  function FlattenBelow(k: Option<OperationKind>, s: Stmt): seq<Visit>
    decreases s, 0
  {
    match s
    case Sequence(cs) => FlattenAll(k, cs)
    case Parallel(cs) => FlattenAll(k, cs)
    case InputChoice(bs) => FlattenChoice(k, bs)
    case RequestResponseIn(_, _, p) => Flatten(k, p)
    case Install(hs) => FlattenHandlers(k, hs)
    case ScopeStmt(_, b) => Flatten(k, b)
    case Synchronized(b) => Flatten(k, b)
    case Spawn(b) => Flatten(k, b)
    case If(cs, e) => FlattenIf(k, cs) + FlattenElse(IfCourierAfter(k, cs), e)
    case While(_, b) => Flatten(k, b)
    case For(i, _, p, b) =>
      var k1 := CourierAfter(k, i);
      Flatten(k, i) + Flatten(k1, p) + Flatten(CourierAfter(k1, p), b)
    case ForEach(_, _, b) => Flatten(k, b)
    case CourierChoice(a, b, c, d) =>
      FlattenCourier(OneWayKind, a) + FlattenCourier(RequestResponseKind, b) +
      FlattenCourier(OneWayKind, c) + FlattenCourier(RequestResponseKind, d)
    case _ => []
  }

  function FlattenAll(k: Option<OperationKind>, cs: seq<Stmt>): seq<Visit>
    decreases cs
  {
    if cs == [] then [] else Flatten(k, cs[0]) + FlattenAll(CourierAfter(k, cs[0]), cs[1..])
  }

  function FlattenBranch(k: Option<OperationKind>, br: ChoiceBranch): seq<Visit>
    decreases br
  {
    Flatten(k, br.guard) + Flatten(CourierAfter(k, br.guard), br.body)
  }

  function FlattenChoice(k: Option<OperationKind>, bs: seq<ChoiceBranch>): seq<Visit>
    decreases bs
  {
    if bs == [] then [] else FlattenBranch(k, bs[0]) + FlattenChoice(BranchCourierAfter(k, bs[0]), bs[1..])
  }

  function FlattenIfBranch(k: Option<OperationKind>, b: IfBranch): seq<Visit>
    decreases b
  {
    Flatten(k, b.body)
  }

  function FlattenIf(k: Option<OperationKind>, bs: seq<IfBranch>): seq<Visit>
    decreases bs
  {
    if bs == [] then [] else FlattenIfBranch(k, bs[0]) + FlattenIf(CourierAfter(k, bs[0].body), bs[1..])
  }

  function FlattenElse(k: Option<OperationKind>, e: Option<Stmt>): seq<Visit>
    decreases e
  {
    if e.Some? then Flatten(k, e.value) else []
  }

  function FlattenHandler(k: Option<OperationKind>, h: Handler): seq<Visit>
    decreases h
  {
    Flatten(k, h.body)
  }

  function FlattenHandlers(k: Option<OperationKind>, hs: seq<Handler>): seq<Visit>
    decreases hs
  {
    if hs == [] then [] else FlattenHandler(k, hs[0]) + FlattenHandlers(CourierAfter(k, hs[0].body), hs[1..])
  }

  /** A group of courier branches: every body is entered with the group's kind as context. */
  function FlattenCourier(kind: OperationKind, bodies: seq<Stmt>): seq<Visit>
    decreases bodies
  {
    if bodies == [] then [] else Flatten(Some(kind), bodies[0]) + FlattenCourier(kind, bodies[1..])
  }

  function BranchCourierAfter(k: Option<OperationKind>, br: ChoiceBranch): Option<OperationKind>
  {
    CourierAfter(CourierAfter(k, br.guard), br.body)
  }

  function IfCourierAfter(k: Option<OperationKind>, bs: seq<IfBranch>): Option<OperationKind>
    decreases bs
  {
    if bs == [] then k else IfCourierAfter(CourierAfter(k, bs[0].body), bs[1..])
  }

  function Guards(bs: seq<ChoiceBranch>): (gs: seq<Stmt>)
    decreases bs
    ensures |gs| == |bs| && forall i :: 0 <= i < |bs| ==> gs[i] == bs[i].guard
  {
    if bs == [] then [] else [bs[0].guard] + Guards(bs[1..])
  }

  function Conditions(bs: seq<IfBranch>): (cs: seq<Expr>)
    decreases bs
    ensures |cs| == |bs| && forall i :: 0 <= i < |bs| ==> cs[i] == bs[i].condition
  {
    if bs == [] then [] else [bs[0].condition] + Conditions(bs[1..])
  }

  /** The diagnostics a statement raises about itself, not counting those of its sub-statements:
      an input choice checks its guards, a receive its courier context and target, a conditional
      or loop its expressions; the remaining statements have no sub-statements. */
  function NodeErrors(env: Env, v: Visit): (es: multiset<SemanticError>)
    ensures !(v.stmt.Basic? && v.stmt.action.Call?) ==> NoCallErrors(es)
  {
    match v.stmt
    case Basic(a) => ActionErrors(env, v.courier, a)
    case _ => ControlErrors(env.insideInit, v)
  }

  function ControlErrors(init: bool, v: Visit): (es: multiset<SemanticError>)
    ensures NoCallErrors(es)
  {
    match v.stmt
    case InputChoice(bs) => GuardErrors(Guards(bs), {})
    case RequestResponseIn(_, input, _) => InputErrors(v.courier, init, input)
    case If(cs, _) => PathsErrors(init, ExprsPaths(Conditions(cs)))
    case While(c, _) => ExprErrors(init, c)
    case For(_, c, _, _) => ExprErrors(init, c)
    case ForEach(key, target, _) => PathErrors(init, key) + PathErrors(init, target)
    case _ => multiset{}
  }

  /** The diagnostics of an action: a call checks its procedure, a communication its port and
      courier context, a data action its paths and expressions. */
  function ActionErrors(env: Env, k: Option<OperationKind>, a: Action): (es: multiset<SemanticError>)
    ensures !a.Call? ==> NoCallErrors(es)
  {
    if a.Call? then CallErrors(env.procedures, a.id)
    else if a.OneWayIn? || a.Notification? || a.SolicitResponse? || a.NotificationForward? || a.SolicitResponseForward?
    then CommunicationErrors(env, k, a)
    else DataErrors(env.insideInit, a)
  }

  function CommunicationErrors(env: Env, k: Option<OperationKind>, a: Action): (es: multiset<SemanticError>)
    ensures NoCallErrors(es)
  {
    match a
    case OneWayIn(_, input) => InputErrors(k, env.insideInit, input)
    case Notification(op, port) => OutputOperationErrors(env.outputPorts, port, op, OneWayKind)
    case SolicitResponse(op, port, _) => OutputOperationErrors(env.outputPorts, port, op, RequestResponseKind)
    case NotificationForward => ForwardErrors(k, OneWayKind)
    case SolicitResponseForward => ForwardErrors(k, RequestResponseKind)
    case _ => multiset{}
  }

  function DataErrors(init: bool, a: Action): (es: multiset<SemanticError>)
    ensures NoCallErrors(es)
    ensures !(a.Pointer? || a.DeepCopy? || a.Undef?) ==> forall e :: e in es ==> IsPathError(e)
  {
    if a.Pointer? || a.DeepCopy? || a.Undef? then AliasingErrors(init, a)
    else match a
      case Throw(_, v) => OptionalExprErrors(init, v)
      case Assign(p, e) => PathErrors(init, p) + ExprErrors(init, e)
      case CompoundAssign(p, e) => PathErrors(init, p) + ExprErrors(init, e)
      case Increment(p) => PathErrors(init, p)
      case _ => multiset{}
  }

  /** The actions that also refuse a correlation variable as their target or source. */
  function AliasingErrors(init: bool, a: Action): (es: multiset<SemanticError>)
    requires a.Pointer? || a.DeepCopy? || a.Undef?
    ensures NoCallErrors(es)
    ensures a.Pointer? ==> (AliasToCorrelationVariable in es <==> a.right.IsCSet())
    ensures a.DeepCopy? ==> (DeepCopyToCorrelationVariable in es <==> a.left.IsCSet())
    ensures a.Undef? ==> (UndefCorrelationVariable in es <==> a.path.IsCSet())
  {
    match a
    case Pointer(left, right) =>
      IfCSet(PathErrors(init, left) + PathErrors(init, right), right, AliasToCorrelationVariable)
    case DeepCopy(left, e) =>
      IfCSet(PathErrors(init, left) + ExprErrors(init, e), left, DeepCopyToCorrelationVariable)
    case Undef(p) => IfCSet(PathErrors(init, p), p, UndefCorrelationVariable)
  }

  function VisitsErrors(env: Env, vs: seq<Visit>): multiset<SemanticError>
    decreases vs
  {
    if vs == [] then multiset{} else NodeErrors(env, vs[0]) + VisitsErrors(env, vs[1..])
  }

  /** The diagnostics of visiting `s` with the registered declarations `env`, entered with
      courier context `k`: those of every node the walk reaches. */
  function StmtErrors(env: Env, k: Option<OperationKind>, s: Stmt): multiset<SemanticError>
  {
    VisitsErrors(env, Flatten(k, s))
  }

  // ---------------------------------------------------------------- constant tracking

  /** The name an assignment to `p` records: its first key. A computed first key, on which the
      source's cast fails, records nothing. */
  function Target(p: VarPath): seq<string>
  {
    if p.first.key.Named? then [p.first.key.name] else []
  }

  function OptionalTarget(p: Option<VarPath>): seq<string>
  {
    if p.Some? then Target(p.value) else []
  }

  /** The names `s` records as assigned, in the order the visit records them. */
  function Encounters(s: Stmt): seq<string>
    decreases s
  {
    match s
    case Sequence(cs) => EncountersOf(cs)
    case Parallel(cs) => EncountersOf(cs)
    case InputChoice(bs) => ChoiceEncounters(bs)
    case Basic(a) => ActionEncounters(a)
    case RequestResponseIn(_, input, process) => Encounters(process) + OptionalTarget(input)
    case Install(hs) => HandlersEncounters(hs)
    case ScopeStmt(_, b) => Encounters(b)
    case Synchronized(b) => Encounters(b)
    case Spawn(b) => Encounters(b)
    case If(cs, e) => IfEncounters(cs) + ElseEncounters(e)
    case While(_, b) => Encounters(b)
    case For(i, _, p, b) => Encounters(i) + Encounters(p) + Encounters(b)
    case ForEach(_, _, b) => Encounters(b)
    case CourierChoice(a, b, c, d) => EncountersOf(a) + EncountersOf(b) + EncountersOf(c) + EncountersOf(d)
  }

  function ActionEncounters(a: Action): seq<string>
  {
    match a
    case OneWayIn(_, input) => OptionalTarget(input)
    case SolicitResponse(_, _, input) => OptionalTarget(input)
    case Assign(p, _) => Target(p)
    case CompoundAssign(p, _) => Target(p)
    case Pointer(left, right) => Target(left) + Target(right)
    case DeepCopy(left, _) => Target(left)
    case Increment(p) => Target(p)
    case Undef(p) => Target(p)
    case _ => []
  }

  function EncountersOf(cs: seq<Stmt>): seq<string>
    decreases cs
  {
    if cs == [] then [] else Encounters(cs[0]) + EncountersOf(cs[1..])
  }

  function BranchEncounters(br: ChoiceBranch): seq<string>
    decreases br
  {
    Encounters(br.guard) + Encounters(br.body)
  }

  function ChoiceEncounters(bs: seq<ChoiceBranch>): seq<string>
    decreases bs
  {
    if bs == [] then [] else BranchEncounters(bs[0]) + ChoiceEncounters(bs[1..])
  }

  function IfBranchEncounters(b: IfBranch): seq<string>
    decreases b
  {
    Encounters(b.body)
  }

  function IfEncounters(bs: seq<IfBranch>): seq<string>
    decreases bs
  {
    if bs == [] then [] else IfBranchEncounters(bs[0]) + IfEncounters(bs[1..])
  }

  function ElseEncounters(e: Option<Stmt>): seq<string>
    decreases e
  {
    if e.Some? then Encounters(e.value) else []
  }

  function HandlerEncounters(h: Handler): seq<string>
    decreases h
  {
    Encounters(h.body)
  }

  function HandlersEncounters(hs: seq<Handler>): seq<string>
    decreases hs
  {
    if hs == [] then [] else HandlerEncounters(hs[0]) + HandlersEncounters(hs[1..])
  }

  // ---------------------------------------------------------------- the visit

  /** Visiting a statement: its diagnostics are added, its assignments recorded in order, one
      warning logged per `run`, and the courier context moved; declarations are untouched. */
  function VisitStmt(st: State, s: Stmt): (r: State)
    ensures r.env == st.env
    ensures r.errors == st.errors + StmtErrors(st.env, st.courier, s)
    ensures ConstantsGrow(st.constants, r.constants)
    ensures r.warnings[RunNotStable] == st.warnings[RunNotStable] + Statements(s)[Basic(Run)]
    ensures r.courier == st.courier || r.courier.None?
  {
    EncounterAllGrows(st.constants, Encounters(s));
    State(st.errors + StmtErrors(st.env, st.courier, s),
          st.warnings[RunNotStable := st.warnings[RunNotStable] + Statements(s)[Basic(Run)]],
          EncounterAll(st.constants, Encounters(s)),
          CourierAfter(st.courier, s),
          st.env)
  }

  // ---------------------------------------------------------------- calls

  /** The statements of a walk, counted with multiplicity. */
  function VisitedStmts(vs: seq<Visit>): multiset<Stmt>
    decreases vs
  {
    if vs == [] then multiset{} else multiset{vs[0].stmt} + VisitedStmts(vs[1..])
  }

  lemma {:induction false} VisitedStmtsConcat(a: seq<Visit>, b: seq<Visit>)
    ensures VisitedStmts(a + b) == VisitedStmts(a) + VisitedStmts(b)
    decreases a
  {
    if a == [] {
      assert a + b == b;
    } else {
      assert (a + b)[0] == a[0] && (a + b)[1..] == a[1..] + b;
      VisitedStmtsConcat(a[1..], b);
    }
  }

  lemma {:induction false} VisitsErrorsConcat(env: Env, a: seq<Visit>, b: seq<Visit>)
    ensures VisitsErrors(env, a + b) == VisitsErrors(env, a) + VisitsErrors(env, b)
    decreases a
  {
    if a == [] {
      assert a + b == b;
    } else {
      assert (a + b)[0] == a[0] && (a + b)[1..] == a[1..] + b;
      VisitsErrorsConcat(env, a[1..], b);
    }
  }

  // ---------------------------------------------------------------- the walk reaches every statement

  /** The walk over `s` reaches every statement of `s` exactly once. */
  lemma {:induction false} FlattenStatements(k: Option<OperationKind>, s: Stmt)
    ensures VisitedStmts(Flatten(k, s)) == Statements(s)
    decreases s, 3
  {
    VisitedStmtsConcat([Visit(k, s)], FlattenBelow(k, s));
    assert VisitedStmts([Visit(k, s)]) == multiset{s};
    BelowStatements(k, s);
  }

  lemma {:induction false} BelowStatements(k: Option<OperationKind>, s: Stmt)
    ensures VisitedStmts(FlattenBelow(k, s)) == SubStatements(s)
    decreases s, 2
  {
    match s
    case Basic(_) =>
    case If(cs, e) => IfBelowStatements(k, cs, e);
    case For(i, c, p, b) => ForBelowStatements(k, i, c, p, b);
    case CourierChoice(a, b, c, d) => CourierBelowStatements(k, a, b, c, d);
    case Sequence(_) => ListBelowStatements(k, s);
    case Parallel(_) => ListBelowStatements(k, s);
    case InputChoice(_) => ListBelowStatements(k, s);
    case Install(_) => ListBelowStatements(k, s);
    case RequestResponseIn(_, _, _) => BodyBelowStatements(k, s);
    case ScopeStmt(_, _) => BodyBelowStatements(k, s);
    case Synchronized(_) => BodyBelowStatements(k, s);
    case Spawn(_) => BodyBelowStatements(k, s);
    case While(_, _) => BodyBelowStatements(k, s);
    case ForEach(_, _, _) => BodyBelowStatements(k, s);
  }

  /** The statements holding a list of sub-statements or branches. */
  lemma {:induction false} ListBelowStatements(k: Option<OperationKind>, s: Stmt)
    requires s.Sequence? || s.Parallel? || s.InputChoice? || s.Install?
    ensures VisitedStmts(FlattenBelow(k, s)) == SubStatements(s)
    decreases s, 1
  {
    match s
    case Sequence(cs) => FlattenAllStatements(k, cs);
    case Parallel(cs) => FlattenAllStatements(k, cs);
    case InputChoice(bs) => FlattenChoiceStatements(k, bs);
    case Install(hs) => FlattenHandlersStatements(k, hs);
  }

  /** The statements with a single body. */
  lemma {:induction false} BodyBelowStatements(k: Option<OperationKind>, s: Stmt)
    requires s.RequestResponseIn? || s.ScopeStmt? || s.Synchronized? || s.Spawn? || s.While? || s.ForEach?
    ensures VisitedStmts(FlattenBelow(k, s)) == SubStatements(s)
    decreases s, 1
  {
    match s
    case RequestResponseIn(op, input, p) => ReceiveBelowStatements(k, op, input, p);
    case ScopeStmt(n, b) => ScopeBelowStatements(k, n, b);
    case Synchronized(b) => SynchronizedBelowStatements(k, b);
    case Spawn(b) => SpawnBelowStatements(k, b);
    case While(c, b) => WhileBelowStatements(k, c, b);
    case ForEach(key, target, b) => ForEachBelowStatements(k, key, target, b);
  }

  lemma {:induction false} ReceiveBelowStatements(k: Option<OperationKind>, op: string, input: Option<VarPath>, p: Stmt)
    ensures VisitedStmts(FlattenBelow(k, RequestResponseIn(op, input, p))) == SubStatements(RequestResponseIn(op, input, p))
    decreases RequestResponseIn(op, input, p), 0
  {
    assert FlattenBelow(k, RequestResponseIn(op, input, p)) == Flatten(k, p);
    assert SubStatements(RequestResponseIn(op, input, p)) == Statements(p);
    FlattenStatements(k, p);
  }

  lemma {:induction false} ScopeBelowStatements(k: Option<OperationKind>, n: string, b: Stmt)
    ensures VisitedStmts(FlattenBelow(k, ScopeStmt(n, b))) == SubStatements(ScopeStmt(n, b))
    decreases ScopeStmt(n, b), 0
  {
    assert FlattenBelow(k, ScopeStmt(n, b)) == Flatten(k, b);
    assert SubStatements(ScopeStmt(n, b)) == Statements(b);
    FlattenStatements(k, b);
  }

  lemma {:induction false} SynchronizedBelowStatements(k: Option<OperationKind>, b: Stmt)
    ensures VisitedStmts(FlattenBelow(k, Synchronized(b))) == SubStatements(Synchronized(b))
    decreases Synchronized(b), 0
  {
    assert FlattenBelow(k, Synchronized(b)) == Flatten(k, b);
    assert SubStatements(Synchronized(b)) == Statements(b);
    FlattenStatements(k, b);
  }

  lemma {:induction false} SpawnBelowStatements(k: Option<OperationKind>, b: Stmt)
    ensures VisitedStmts(FlattenBelow(k, Spawn(b))) == SubStatements(Spawn(b))
    decreases Spawn(b), 0
  {
    assert FlattenBelow(k, Spawn(b)) == Flatten(k, b);
    assert SubStatements(Spawn(b)) == Statements(b);
    FlattenStatements(k, b);
  }

  lemma {:induction false} WhileBelowStatements(k: Option<OperationKind>, c: Expr, b: Stmt)
    ensures VisitedStmts(FlattenBelow(k, While(c, b))) == SubStatements(While(c, b))
    decreases While(c, b), 0
  {
    assert FlattenBelow(k, While(c, b)) == Flatten(k, b);
    assert SubStatements(While(c, b)) == Statements(b);
    FlattenStatements(k, b);
  }

  lemma {:induction false} ForEachBelowStatements(k: Option<OperationKind>, key: VarPath, target: VarPath, b: Stmt)
    ensures VisitedStmts(FlattenBelow(k, ForEach(key, target, b))) == SubStatements(ForEach(key, target, b))
    decreases ForEach(key, target, b), 0
  {
    assert FlattenBelow(k, ForEach(key, target, b)) == Flatten(k, b);
    assert SubStatements(ForEach(key, target, b)) == Statements(b);
    FlattenStatements(k, b);
  }

  lemma VisitedStmts3(a: seq<Visit>, b: seq<Visit>, c: seq<Visit>)
    ensures VisitedStmts(a + b + c) == VisitedStmts(a) + VisitedStmts(b) + VisitedStmts(c)
  {
    VisitedStmtsConcat(a, b);
    VisitedStmtsConcat(a + b, c);
  }

  lemma VisitedStmts4(a: seq<Visit>, b: seq<Visit>, c: seq<Visit>, d: seq<Visit>)
    ensures VisitedStmts(a + b + c + d) == VisitedStmts(a) + VisitedStmts(b) + VisitedStmts(c) + VisitedStmts(d)
  {
    VisitedStmts3(a, b, c);
    VisitedStmtsConcat(a + b + c, d);
  }

  lemma {:induction false} IfBelowStatements(k: Option<OperationKind>, cs: seq<IfBranch>, e: Option<Stmt>)
    ensures VisitedStmts(FlattenBelow(k, If(cs, e))) == SubStatements(If(cs, e))
    decreases If(cs, e), 0
  {
    var k1 := IfCourierAfter(k, cs);
    var fi, fe := FlattenIf(k, cs), FlattenElse(k1, e);
    assert FlattenBelow(k, If(cs, e)) == fi + fe;
    assert SubStatements(If(cs, e)) == IfStatements(cs) + ElseStatements(e);
    FlattenIfStatements(k, cs);
    FlattenElseStatements(k1, e);
    VisitedStmtsConcat(fi, fe);
  }

  lemma {:induction false} FlattenElseStatements(k: Option<OperationKind>, e: Option<Stmt>)
    ensures VisitedStmts(FlattenElse(k, e)) == ElseStatements(e)
    decreases e
  {
    if e.Some? {
      FlattenStatements(k, e.value);
    }
  }

  lemma {:induction false} ForBelowStatements(k: Option<OperationKind>, i: Stmt, c: Expr, p: Stmt, b: Stmt)
    ensures VisitedStmts(FlattenBelow(k, For(i, c, p, b))) == SubStatements(For(i, c, p, b))
    decreases For(i, c, p, b), 1
  {
    ForPartsStatements(k, i, c, p, b);
    ForWalk(k, i, c, p, b);
    ForParts(i, c, p, b);
  }

  /** The walk below a `for` statement: its initialisation, its post-step, then its body. */
  lemma ForWalk(k: Option<OperationKind>, i: Stmt, c: Expr, p: Stmt, b: Stmt)
    ensures FlattenBelow(k, For(i, c, p, b)) ==
      Flatten(k, i) + Flatten(CourierAfter(k, i), p) + Flatten(CourierAfter(CourierAfter(k, i), p), b)
  {
  }

  /** The statements strictly inside a `for` statement. */
  lemma ForParts(i: Stmt, c: Expr, p: Stmt, b: Stmt)
    ensures SubStatements(For(i, c, p, b)) == Statements(i) + Statements(p) + Statements(b)
  {
  }

  /** The three walks of a `for` statement reach its three sub-statements. */
  lemma {:induction false} ForPartsStatements(k: Option<OperationKind>, i: Stmt, c: Expr, p: Stmt, b: Stmt)
    ensures VisitedStmts(Flatten(k, i) + Flatten(CourierAfter(k, i), p) + Flatten(CourierAfter(CourierAfter(k, i), p), b))
      == Statements(i) + Statements(p) + Statements(b)
    decreases For(i, c, p, b), 0
  {
    var k1 := CourierAfter(k, i);
    var fi, fp, fb := Flatten(k, i), Flatten(k1, p), Flatten(CourierAfter(k1, p), b);
    FlattenStatements(k, i);
    FlattenStatements(k1, p);
    FlattenStatements(CourierAfter(k1, p), b);
    VisitedStmts3(fi, fp, fb);
  }

  lemma {:induction false} CourierBelowStatements(k: Option<OperationKind>, a: seq<Stmt>, b: seq<Stmt>,
                                                  c: seq<Stmt>, d: seq<Stmt>)
    ensures VisitedStmts(FlattenBelow(k, CourierChoice(a, b, c, d))) == SubStatements(CourierChoice(a, b, c, d))
    decreases CourierChoice(a, b, c, d), 0
  {
    var fa, fb := FlattenCourier(OneWayKind, a), FlattenCourier(RequestResponseKind, b);
    var fc, fd := FlattenCourier(OneWayKind, c), FlattenCourier(RequestResponseKind, d);
    assert FlattenBelow(k, CourierChoice(a, b, c, d)) == fa + fb + fc + fd;
    assert SubStatements(CourierChoice(a, b, c, d)) == StatementsOf(a) + StatementsOf(b) + StatementsOf(c) + StatementsOf(d);
    FlattenCourierStatements(OneWayKind, a);
    FlattenCourierStatements(RequestResponseKind, b);
    FlattenCourierStatements(OneWayKind, c);
    FlattenCourierStatements(RequestResponseKind, d);
    VisitedStmts4(fa, fb, fc, fd);
  }

  lemma {:induction false} FlattenAllStatements(k: Option<OperationKind>, cs: seq<Stmt>)
    ensures VisitedStmts(FlattenAll(k, cs)) == StatementsOf(cs)
    decreases cs
  {
    if cs != [] {
      FlattenStatements(k, cs[0]);
      FlattenAllStatements(CourierAfter(k, cs[0]), cs[1..]);
      VisitedStmtsConcat(Flatten(k, cs[0]), FlattenAll(CourierAfter(k, cs[0]), cs[1..]));
    }
  }

  lemma {:induction false} FlattenBranchStatements(k: Option<OperationKind>, br: ChoiceBranch)
    ensures VisitedStmts(FlattenBranch(k, br)) == BranchStatements(br)
    decreases br
  {
    FlattenStatements(k, br.guard);
    FlattenStatements(CourierAfter(k, br.guard), br.body);
    VisitedStmtsConcat(Flatten(k, br.guard), Flatten(CourierAfter(k, br.guard), br.body));
  }

  lemma {:induction false} FlattenChoiceStatements(k: Option<OperationKind>, bs: seq<ChoiceBranch>)
    ensures VisitedStmts(FlattenChoice(k, bs)) == ChoiceStatements(bs)
    decreases bs
  {
    if bs != [] {
      FlattenBranchStatements(k, bs[0]);
      FlattenChoiceStatements(BranchCourierAfter(k, bs[0]), bs[1..]);
      VisitedStmtsConcat(FlattenBranch(k, bs[0]), FlattenChoice(BranchCourierAfter(k, bs[0]), bs[1..]));
    }
  }

  lemma {:induction false} FlattenIfBranchStatements(k: Option<OperationKind>, b: IfBranch)
    ensures VisitedStmts(FlattenIfBranch(k, b)) == IfBranchStatements(b)
    decreases b
  {
    FlattenStatements(k, b.body);
  }

  lemma {:induction false} FlattenIfStatements(k: Option<OperationKind>, bs: seq<IfBranch>)
    ensures VisitedStmts(FlattenIf(k, bs)) == IfStatements(bs)
    decreases bs
  {
    if bs != [] {
      FlattenIfBranchStatements(k, bs[0]);
      FlattenIfStatements(CourierAfter(k, bs[0].body), bs[1..]);
      VisitedStmtsConcat(FlattenIfBranch(k, bs[0]), FlattenIf(CourierAfter(k, bs[0].body), bs[1..]));
    }
  }

  lemma {:induction false} FlattenHandlerStatements(k: Option<OperationKind>, h: Handler)
    ensures VisitedStmts(FlattenHandler(k, h)) == HandlerStatements(h)
    decreases h
  {
    FlattenStatements(k, h.body);
  }

  lemma {:induction false} FlattenHandlersStatements(k: Option<OperationKind>, hs: seq<Handler>)
    ensures VisitedStmts(FlattenHandlers(k, hs)) == HandlersStatements(hs)
    decreases hs
  {
    if hs != [] {
      FlattenHandlerStatements(k, hs[0]);
      FlattenHandlersStatements(CourierAfter(k, hs[0].body), hs[1..]);
      VisitedStmtsConcat(FlattenHandler(k, hs[0]), FlattenHandlers(CourierAfter(k, hs[0].body), hs[1..]));
    }
  }

  lemma {:induction false} FlattenCourierStatements(kind: OperationKind, bodies: seq<Stmt>)
    ensures VisitedStmts(FlattenCourier(kind, bodies)) == StatementsOf(bodies)
    decreases bodies
  {
    if bodies != [] {
      FlattenStatements(Some(kind), bodies[0]);
      FlattenCourierStatements(kind, bodies[1..]);
      VisitedStmtsConcat(Flatten(Some(kind), bodies[0]), FlattenCourier(kind, bodies[1..]));
    }
  }

  // ---------------------------------------------------------------- calls

  /** A node reports a call exactly when it is a call naming a procedure not registered so far. */
  lemma NodeCallErrors(env: Env, v: Visit, x: string)
    ensures NodeErrors(env, v)[UndefinedProcedure(x)] ==
      if v.stmt == Basic(Call(x)) && x !in env.procedures then 1 else 0
  {
    if v.stmt.Basic? && v.stmt.action.Call? {
      var id := v.stmt.action.id;
      var es := CallErrors(env.procedures, id);
      assert NodeErrors(env, v) == es;
      assert es[UndefinedProcedure(x)] <= multiset{UndefinedProcedure(id)}[UndefinedProcedure(x)];
    }
  }

  lemma {:induction false} VisitsCallErrorsCount(env: Env, vs: seq<Visit>, x: string)
    ensures VisitsErrors(env, vs)[UndefinedProcedure(x)] ==
      if x in env.procedures then 0 else VisitedStmts(vs)[Basic(Call(x))]
    decreases vs
  {
    if vs != [] {
      NodeCallErrors(env, vs[0], x);
      VisitsCallErrorsCount(env, vs[1..], x);
    }
  }

  /** A call is reported once for every call statement naming a procedure not registered so
      far, and nothing else reports it. */
  lemma CallErrorsCount(env: Env, k: Option<OperationKind>, s: Stmt, x: string)
    ensures StmtErrors(env, k, s)[UndefinedProcedure(x)] ==
      if x in env.procedures then 0 else Statements(s)[Basic(Call(x))]
  {
    VisitsCallErrorsCount(env, Flatten(k, s), x);
    FlattenStatements(k, s);
  }
}
