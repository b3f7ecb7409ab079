/**
  The fault-flow verifier: an advisory pass that follows which faults may escape each entry point
  of `main` and compares them with the faults the served operation declares. It builds one scope
  tree per entry point while walking the program, resolves the trees bottom-up and logs warnings;
  it never rejects a program.
*/
module FaultFlow {
  import opened Util
  import opened Ast
  import opened Scopes

  /** The declarations the walk consults: procedure bodies by id, the first definition of an id
      kept; output ports by id, a later declaration replacing an earlier one. Only declarations
      that precede `main` in the document are known when `main` is walked. */
  datatype FlowEnv = FlowEnv(defines: map<string, Stmt>, outputPorts: map<string, OutputPort>)

  /** The scope currently being built: its thrown faults, caught names and children so far, and the
      handler scopes it has attached to its parent (`lifted`). The source appends those to the
      parent's children as soon as it meets the handler, so they follow this scope there. */
  datatype Frame = Frame(thrown: Thrown, caught: seq<string>, children: seq<ScopeTree>, lifted: seq<ScopeTree>)

  const EmptyFrame := Frame(map[], [], [], [])

  /** The scope a finished frame stands for. */
  function Close(f: Frame, promotes: bool): ScopeTree
  {
    ScopeTree(promotes, f.thrown, f.caught, f.children)
  }

  // ---------------------------------------------------------------- solicit-response faults

  /** The declaration of `op` in the first of `interfaces` that declares it. */
  function InterfaceOperation(interfaces: seq<Interface>, op: string): (r: Option<OperationDecl>)
    decreases interfaces
    ensures r.None? <==> forall i :: 0 <= i < |interfaces| ==> op !in interfaces[i].operations
    ensures r.Some? ==> exists i :: (0 <= i < |interfaces| && op in interfaces[i].operations &&
                                     r.value == interfaces[i].operations[op] &&
                                     forall j :: 0 <= j < i ==> op !in interfaces[j].operations)
  {
    if interfaces == [] then None
    else if op in interfaces[0].operations then Some(interfaces[0].operations[op])
    else
      var r := InterfaceOperation(interfaces[1..], op);
      assert forall i :: 1 <= i < |interfaces| ==> interfaces[i] == interfaces[1..][i - 1];
      r
  }

  /** The faults a solicit-response on `op` at `port` may raise: those declared on the operation
      when the port's interfaces declare it request-response, none otherwise. The port's own
      operation list is not consulted. */
  function CalleeFaults(env: FlowEnv, op: string, port: string): (fs: set<string>)
    ensures port !in env.outputPorts ==> fs == {}
    ensures port in env.outputPorts ==>
      var d := InterfaceOperation(env.outputPorts[port].interfaces, op);
      fs == if d.Some? && d.value.RequestResponseDecl? then d.value.faults.Keys else {}
  {
    if port !in env.outputPorts then {}
    else
      var d := InterfaceOperation(env.outputPorts[port].interfaces, op);
      if d.Some? && d.value.RequestResponseDecl? then d.value.faults.Keys else {}
  }

  /** The origin recorded for faults raised by a solicit-response. */
  function CallOrigin(op: string, port: string): Origin
  {
    Some(op + "@" + port)
  }

  /** Records the faults `names`, all from `origin`, one at a time: names already recorded keep
      their first origin. */
  function AddFaults(m: Thrown, names: set<string>, origin: Origin): (r: Thrown)
    ensures r.Keys == m.Keys + names
    ensures forall x :: x in m ==> r[x] == m[x]
    ensures forall x :: x in names && x !in m ==> r[x] == origin
  {
    Merge(m, map x | x in names :: origin)
  }

  // ---------------------------------------------------------------- building the scopes

  /** The effect of an action other than a call: a throw records its fault, a solicit-response
      the faults of its callee; the other actions record nothing. */
  function ActionFlow(env: FlowEnv, a: Action, f: Frame): (r: Frame)
    ensures r.caught == f.caught && r.children == f.children && r.lifted == f.lifted
    ensures ThrownKept(f.thrown, r.thrown)
    ensures a.Throw? ==> r.thrown.Keys == f.thrown.Keys + {a.fault}
    ensures a.Throw? && a.fault !in f.thrown ==> r.thrown[a.fault] == None
    ensures a.SolicitResponse? ==> r.thrown.Keys == f.thrown.Keys + CalleeFaults(env, a.op, a.port)
    ensures a.SolicitResponse? ==>
      forall x :: x in CalleeFaults(env, a.op, a.port) && x !in f.thrown ==> r.thrown[x] == CallOrigin(a.op, a.port)
    ensures !a.Throw? && !a.SolicitResponse? ==> r == f
  {
    match a
    case Throw(name, _) => f.(thrown := AddThrown(f.thrown, name, None))
    case SolicitResponse(op, port, _) => f.(thrown := AddFaults(f.thrown, CalleeFaults(env, op, port), CallOrigin(op, port)))
    case _ => f
  }

  /** Every fault recorded before a walk is still recorded afterwards, with the same handler. */
  predicate ThrownKept(before: Thrown, after: Thrown)
  {
    forall x :: x in before ==> x in after && after[x] == before[x]
  }

  /** The handler scopes a walk lifts keep the earlier ones in place and all have a parent to
      promote to. */
  predicate LiftsPromoting(before: seq<ScopeTree>, after: seq<ScopeTree>)
  {
    |before| <= |after| && (forall i :: 0 <= i < |before| ==> after[i] == before[i]) &&
    forall i :: |before| <= i < |after| ==> after[i].promotes
  }

  // ---------------------------------------------------------------- reference traversal

  /** What the reference traversal collects from a statement: the faults it records in the scope
      it runs in, the fault names its handlers catch there, or every fault thrown anywhere inside
      it, nested scopes and handler bodies included. */
  datatype Gather = OwnThrown | OwnCaught | AllThrown

  /** Reference: the fault names of kind `g` in `s`. Throws and solicit-responses are thrown
      faults, installs are caught names; a request-response body, a `scope` block and a handler
      body belong to other scopes; a call is followed into the procedure body, at most `fuel`
      calls deep, and the bodies of a courier choice are never entered. */
  function Gathered(env: FlowEnv, s: Stmt, g: Gather, fuel: nat): set<string>
    decreases fuel, s
  {
    match s
    case Basic(a) => GatheredAction(env, a, g, fuel)
    case Sequence(cs) => GatheredAll(env, cs, g, fuel)
    case Parallel(cs) => GatheredAll(env, cs, g, fuel)
    case InputChoice(bs) => GatheredBranches(env, bs, g, fuel)
    case RequestResponseIn(_, _, process) => if g == AllThrown then Gathered(env, process, g, fuel) else {}
    case ScopeStmt(_, body) => if g == AllThrown then Gathered(env, body, g, fuel) else {}
    case Install(hs) =>
      if g == OwnCaught then HandlerFaults(hs) else if g == AllThrown then GatheredHandlers(env, hs, g, fuel) else {}
    case If(cs, e) => GatheredConditionals(env, cs, g, fuel) + (if e.Some? then Gathered(env, e.value, g, fuel) else {})
    case Synchronized(_) | Spawn(_) | While(_, _) | For(_, _, _, _) | ForEach(_, _, _) => Gathered(env, s.body, g, fuel)
    case CourierChoice(_, _, _, _) => {}
  }

  function GatheredAction(env: FlowEnv, a: Action, g: Gather, fuel: nat): set<string>
    decreases fuel, a
  {
    match a
    case Call(id) => if fuel > 0 && id in env.defines then Gathered(env, env.defines[id], g, fuel - 1) else {}
    case Throw(name, _) => if g == OwnCaught then {} else {name}
    case SolicitResponse(op, port, _) => if g == OwnCaught then {} else CalleeFaults(env, op, port)
    case _ => {}
  }

  function GatheredAll(env: FlowEnv, cs: seq<Stmt>, g: Gather, fuel: nat): set<string>
    decreases fuel, cs
  {
    if cs == [] then {} else Gathered(env, cs[0], g, fuel) + GatheredAll(env, cs[1..], g, fuel)
  }

  function GatheredBranches(env: FlowEnv, bs: seq<ChoiceBranch>, g: Gather, fuel: nat): set<string>
    decreases fuel, bs
  {
    if bs == [] then {} else GatheredBranch(env, bs[0], g, fuel) + GatheredBranches(env, bs[1..], g, fuel)
  }

  function GatheredBranch(env: FlowEnv, b: ChoiceBranch, g: Gather, fuel: nat): set<string>
    decreases fuel, b
  {
    Gathered(env, b.guard, g, fuel) + Gathered(env, b.body, g, fuel)
  }

  function GatheredConditionals(env: FlowEnv, cs: seq<IfBranch>, g: Gather, fuel: nat): set<string>
    decreases fuel, cs
  {
    if cs == [] then {} else GatheredConditional(env, cs[0], g, fuel) + GatheredConditionals(env, cs[1..], g, fuel)
  }

  function GatheredConditional(env: FlowEnv, c: IfBranch, g: Gather, fuel: nat): set<string>
    decreases fuel, c
  {
    Gathered(env, c.body, g, fuel)
  }

  function GatheredHandlers(env: FlowEnv, hs: seq<Handler>, g: Gather, fuel: nat): set<string>
    decreases fuel, hs
  {
    if hs == [] then {} else GatheredHandler(env, hs[0], g, fuel) + GatheredHandlers(env, hs[1..], g, fuel)
  }

  function GatheredHandler(env: FlowEnv, h: Handler, g: Gather, fuel: nat): set<string>
    decreases fuel, h
  {
    Gathered(env, h.body, g, fuel)
  }

  /** Reference: the fault names the handlers `hs` are installed for. */
  function HandlerFaults(hs: seq<Handler>): set<string>
  {
    if hs == [] then {} else {hs[0].fault} + HandlerFaults(hs[1..])
  }

  // ---------------------------------------------------------------- building the scopes

  /** The walk of `s` in the current scope `f`; `rootLevel` tells whether the current scope has no
      parent. A call is replaced by the body of the procedure, at most `fuel` calls deep. */
  function Walk(env: FlowEnv, s: Stmt, f: Frame, rootLevel: bool, fuel: nat): (r: Frame)
    decreases fuel, s, 1
    ensures rootLevel ==> r.lifted == f.lifted
    ensures ThrownKept(f.thrown, r.thrown)
    ensures LiftsPromoting(f.lifted, r.lifted)
    ensures r.thrown.Keys == f.thrown.Keys + Gathered(env, s, OwnThrown, fuel)
    ensures Names(r.caught) == Names(f.caught) + Gathered(env, s, OwnCaught, fuel)
  {
    if s.Basic? then WalkAction(env, s.action, f, rootLevel, fuel)
    else if IsComposite(s) then WalkComposite(env, s, f, rootLevel, fuel)
    else if HasBody(s) then WalkBody(env, s, f, rootLevel, fuel)
    else WalkScoping(env, s, f, rootLevel, fuel)
  }

  /** The statements made of several parts walked in the current scope. */
  predicate IsComposite(s: Stmt)
  {
    s.Sequence? || s.Parallel? || s.InputChoice? || s.If?
  }

  /** The statements with a single body walked in the current scope. */
  predicate HasBody(s: Stmt)
  {
    s.Synchronized? || s.Spawn? || s.While? || s.For? || s.ForEach?
  }

  /** The statements that open or set up other scopes, or are not walked at all. */
  predicate IsScoping(s: Stmt)
  {
    s.RequestResponseIn? || s.Install? || s.ScopeStmt? || s.CourierChoice?
  }

  /** A `synchronized` block, a `spawn`, or a loop: its body is walked in the current scope. */
  function WalkBody(env: FlowEnv, s: Stmt, f: Frame, rootLevel: bool, fuel: nat): (r: Frame)
    requires HasBody(s)
    decreases fuel, s, 0
    ensures rootLevel ==> r.lifted == f.lifted
    ensures ThrownKept(f.thrown, r.thrown)
    ensures LiftsPromoting(f.lifted, r.lifted)
    ensures r.thrown.Keys == f.thrown.Keys + Gathered(env, s, OwnThrown, fuel)
    ensures Names(r.caught) == Names(f.caught) + Gathered(env, s, OwnCaught, fuel)
  {
    Walk(env, s.body, f, rootLevel, fuel)
  }

  /** A sequence or parallel composition, an input choice below the entry level, or an `if`: the
      parts are walked in order in the current scope. */
  function WalkComposite(env: FlowEnv, s: Stmt, f: Frame, rootLevel: bool, fuel: nat): (r: Frame)
    requires IsComposite(s)
    decreases fuel, s, 0
    ensures rootLevel ==> r.lifted == f.lifted
    ensures ThrownKept(f.thrown, r.thrown)
    ensures LiftsPromoting(f.lifted, r.lifted)
    ensures r.thrown.Keys == f.thrown.Keys + Gathered(env, s, OwnThrown, fuel)
    ensures Names(r.caught) == Names(f.caught) + Gathered(env, s, OwnCaught, fuel)
  {
    match s
    case Sequence(cs) => WalkAll(env, cs, f, rootLevel, fuel)
    case Parallel(cs) => WalkAll(env, cs, f, rootLevel, fuel)
    case InputChoice(bs) => WalkBranches(env, bs, f, rootLevel, fuel)
    case If(cs, e) => WalkElse(env, e, WalkConditionals(env, cs, f, rootLevel, fuel), rootLevel, fuel)
  }

  /** The statements that record no fault in the current scope: a request-response body and a
      `scope` block open a nested scope, an install adds handlers, and the bodies of a courier
      choice are not walked. */
  function WalkScoping(env: FlowEnv, s: Stmt, f: Frame, rootLevel: bool, fuel: nat): (r: Frame)
    requires IsScoping(s)
    decreases fuel, s, 0
    ensures rootLevel ==> r.lifted == f.lifted
    ensures LiftsPromoting(f.lifted, r.lifted)
    ensures r.thrown == f.thrown
    ensures r.thrown.Keys == f.thrown.Keys + Gathered(env, s, OwnThrown, fuel)
    ensures Names(r.caught) == Names(f.caught) + Gathered(env, s, OwnCaught, fuel)
  {
    match s
    case RequestResponseIn(_, _, process) => WalkNested(env, process, f, fuel)
    case Install(hs) => WalkHandlers(env, hs, f, rootLevel, fuel)
    case ScopeStmt(_, body) => WalkNested(env, body, f, fuel)
    case CourierChoice(_, _, _, _) => f
  }

  /** A simple statement; a call is replaced by the body of the procedure while fuel lasts. */
  function WalkAction(env: FlowEnv, a: Action, f: Frame, rootLevel: bool, fuel: nat): (r: Frame)
    decreases fuel, a
    ensures rootLevel ==> r.lifted == f.lifted
    ensures ThrownKept(f.thrown, r.thrown)
    ensures LiftsPromoting(f.lifted, r.lifted)
    ensures r.thrown.Keys == f.thrown.Keys + GatheredAction(env, a, OwnThrown, fuel)
    ensures Names(r.caught) == Names(f.caught) + GatheredAction(env, a, OwnCaught, fuel)
  {
    if a.Call? then
      if fuel > 0 && a.id in env.defines then Walk(env, env.defines[a.id], f, rootLevel, fuel - 1) else f
    else ActionFlow(env, a, f)
  }

  /** A `scope` block or request-response body: walked in a fresh scope nested in the current one,
      listed after the current scope's earlier children and followed by the handler scopes it
      lifted to the current scope. */
  function WalkNested(env: FlowEnv, body: Stmt, f: Frame, fuel: nat): (r: Frame)
    decreases fuel, body, 2
    ensures r.thrown == f.thrown && r.caught == f.caught && r.lifted == f.lifted
  {
    var inner := Walk(env, body, EmptyFrame, false, fuel);
    f.(children := f.children + [Close(inner, true)] + inner.lifted)
  }

  function WalkAll(env: FlowEnv, cs: seq<Stmt>, f: Frame, rootLevel: bool, fuel: nat): (r: Frame)
    decreases fuel, cs
    ensures rootLevel ==> r.lifted == f.lifted
    ensures ThrownKept(f.thrown, r.thrown)
    ensures LiftsPromoting(f.lifted, r.lifted)
    ensures r.thrown.Keys == f.thrown.Keys + GatheredAll(env, cs, OwnThrown, fuel)
    ensures Names(r.caught) == Names(f.caught) + GatheredAll(env, cs, OwnCaught, fuel)
  {
    if cs == [] then f else WalkAll(env, cs[1..], Walk(env, cs[0], f, rootLevel, fuel), rootLevel, fuel)
  }

  /** An input choice below the entry level: each guard, then its body, in the current scope. */
  function WalkBranches(env: FlowEnv, bs: seq<ChoiceBranch>, f: Frame, rootLevel: bool, fuel: nat): (r: Frame)
    decreases fuel, bs
    ensures rootLevel ==> r.lifted == f.lifted
    ensures ThrownKept(f.thrown, r.thrown)
    ensures LiftsPromoting(f.lifted, r.lifted)
    ensures r.thrown.Keys == f.thrown.Keys + GatheredBranches(env, bs, OwnThrown, fuel)
    ensures Names(r.caught) == Names(f.caught) + GatheredBranches(env, bs, OwnCaught, fuel)
  {
    if bs == [] then f
    else WalkBranches(env, bs[1..], WalkBranch(env, bs[0], f, rootLevel, fuel), rootLevel, fuel)
  }

  function WalkBranch(env: FlowEnv, b: ChoiceBranch, f: Frame, rootLevel: bool, fuel: nat): (r: Frame)
    decreases fuel, b
    ensures rootLevel ==> r.lifted == f.lifted
    ensures ThrownKept(f.thrown, r.thrown)
    ensures LiftsPromoting(f.lifted, r.lifted)
    ensures r.thrown.Keys == f.thrown.Keys + GatheredBranch(env, b, OwnThrown, fuel)
    ensures Names(r.caught) == Names(f.caught) + GatheredBranch(env, b, OwnCaught, fuel)
  {
    Walk(env, b.body, Walk(env, b.guard, f, rootLevel, fuel), rootLevel, fuel)
  }

  function WalkConditionals(env: FlowEnv, cs: seq<IfBranch>, f: Frame, rootLevel: bool, fuel: nat): (r: Frame)
    decreases fuel, cs
    ensures rootLevel ==> r.lifted == f.lifted
    ensures ThrownKept(f.thrown, r.thrown)
    ensures LiftsPromoting(f.lifted, r.lifted)
    ensures r.thrown.Keys == f.thrown.Keys + GatheredConditionals(env, cs, OwnThrown, fuel)
    ensures Names(r.caught) == Names(f.caught) + GatheredConditionals(env, cs, OwnCaught, fuel)
  {
    if cs == [] then f
    else WalkConditionals(env, cs[1..], WalkConditional(env, cs[0], f, rootLevel, fuel), rootLevel, fuel)
  }

  function WalkConditional(env: FlowEnv, c: IfBranch, f: Frame, rootLevel: bool, fuel: nat): (r: Frame)
    decreases fuel, c
    ensures rootLevel ==> r.lifted == f.lifted
    ensures ThrownKept(f.thrown, r.thrown)
    ensures LiftsPromoting(f.lifted, r.lifted)
    ensures r.thrown.Keys == f.thrown.Keys + GatheredConditional(env, c, OwnThrown, fuel)
    ensures Names(r.caught) == Names(f.caught) + GatheredConditional(env, c, OwnCaught, fuel)
  {
    Walk(env, c.body, f, rootLevel, fuel)
  }

  function WalkElse(env: FlowEnv, e: Option<Stmt>, f: Frame, rootLevel: bool, fuel: nat): (r: Frame)
    decreases fuel, e
    ensures rootLevel ==> r.lifted == f.lifted
    ensures ThrownKept(f.thrown, r.thrown)
    ensures LiftsPromoting(f.lifted, r.lifted)
    ensures r.thrown.Keys == f.thrown.Keys + (if e.Some? then Gathered(env, e.value, OwnThrown, fuel) else {})
    ensures Names(r.caught) == Names(f.caught) + (if e.Some? then Gathered(env, e.value, OwnCaught, fuel) else {})
  {
    if e.Some? then Walk(env, e.value, f, rootLevel, fuel) else f
  }

  /** An install statement: each handler's name is caught in the current scope, and its body is
      walked in a fresh scope whose parent is the current scope's parent. Below the entry level
      that scope is lifted to the parent; at the entry level, where there is no parent, it is
      listed under the current scope instead but has no parent to promote to. */
  function WalkHandlers(env: FlowEnv, hs: seq<Handler>, f: Frame, rootLevel: bool, fuel: nat): (r: Frame)
    decreases fuel, hs
    ensures rootLevel ==> r.lifted == f.lifted
    ensures LiftsPromoting(f.lifted, r.lifted)
    ensures r.thrown == f.thrown
    ensures Names(r.caught) == Names(f.caught) + HandlerFaults(hs)
  {
    if hs == [] then f
    else WalkHandlers(env, hs[1..], WalkHandler(env, hs[0], f, rootLevel, fuel), rootLevel, fuel)
  }

  function WalkHandler(env: FlowEnv, h: Handler, f: Frame, rootLevel: bool, fuel: nat): (r: Frame)
    decreases fuel, h
    ensures rootLevel ==> r.lifted == f.lifted
    ensures LiftsPromoting(f.lifted, r.lifted)
    ensures r.thrown == f.thrown
    ensures Names(r.caught) == Names(f.caught) + {h.fault}
  {
    var handler := Walk(env, h.body, EmptyFrame, rootLevel, fuel);
    var f1 := f.(caught := AddCaught(f.caught, h.fault));
    if rootLevel then f1.(children := f1.children + [Close(handler, false)] + handler.lifted)
    else f1.(lifted := f1.lifted + [Close(handler, true)] + handler.lifted)
  }

  // ---------------------------------------------------------------- entry points of main

  /** The scope of one entry point: a scope without parent in which `first` and then `rest` are
      walked. */
  function RootScope(env: FlowEnv, first: Stmt, rest: Stmt, fuel: nat): (t: ScopeTree)
    ensures !t.promotes
  {
    Close(Walk(env, rest, Walk(env, first, EmptyFrame, true, fuel), true, fuel), false)
  }

  /** The entry points of `main`: one per branch of an input choice, keyed by the operation its
      guard receives; a request-response body is one entry keyed by its operation; any other body
      is one entry without operation. A later entry with the same key replaces an earlier one. */
  function MainRoots(env: FlowEnv, body: Stmt, roots: map<Option<string>, ScopeTree>, fuel: nat)
    : (r: map<Option<string>, ScopeTree>)
    ensures body.InputChoice? ==> r.Keys == roots.Keys + GuardKeys(body.branches)
    ensures body.RequestResponseIn? ==> r.Keys == roots.Keys + {Some(body.op)}
    ensures !body.InputChoice? && !body.RequestResponseIn? ==> r.Keys == roots.Keys + {None}
  {
    match body
    case InputChoice(bs) => ChoiceRoots(env, bs, roots, fuel)
    case RequestResponseIn(op, _, _) => roots[Some(op) := RootScope(env, body, Basic(NullProcess), fuel)]
    case _ => roots[None := RootScope(env, body, Basic(NullProcess), fuel)]
  }

  /** Reference: the operations the guards of `bs` receive. */
  function GuardKeys(bs: seq<ChoiceBranch>): set<Option<string>>
  {
    set i | 0 <= i < |bs| :: ReceivedOperation(bs[i].guard)
  }

  function ChoiceRoots(env: FlowEnv, bs: seq<ChoiceBranch>, roots: map<Option<string>, ScopeTree>, fuel: nat)
    : (r: map<Option<string>, ScopeTree>)
    decreases bs
    ensures r.Keys == roots.Keys + GuardKeys(bs)
  {
    if bs == [] then roots
    else
      var rest := bs[1..];
      assert GuardKeys(bs) == {ReceivedOperation(bs[0].guard)} + GuardKeys(rest) by {
        assert forall i :: 1 <= i < |bs| ==> bs[i] == rest[i - 1];
        assert forall i :: 0 <= i < |rest| ==> rest[i] == bs[i + 1];
      }
      ChoiceRoots(env, rest, roots[ReceivedOperation(bs[0].guard) := RootScope(env, bs[0].guard, bs[0].body, fuel)], fuel)
  }

  // ---------------------------------------------------------------- the program

  datatype FlowState = FlowState(env: FlowEnv, inputPorts: map<string, InputPort>, roots: map<Option<string>, ScopeTree>)

  /** One top-level declaration: ports are registered, the first definition of a procedure is
      kept, and `main` is walked at once with what is registered so far. */
  function VisitFlowDecl(st: FlowState, d: Decl, fuel: nat): (r: FlowState)
    ensures d.Definition? && d.id != "main" ==>
      r.env.defines == if d.id in st.env.defines then st.env.defines else st.env.defines[d.id := d.body]
    ensures !(d.Definition? && d.id != "main") ==> r.env.defines == st.env.defines
    ensures !(d.Definition? && d.id == "main") ==> r.roots == st.roots
  {
    match d
    case InputPortDecl(p) => st.(inputPorts := st.inputPorts[p.id := p])
    case OutputPortDecl(p) => st.(env := st.env.(outputPorts := st.env.outputPorts[p.id := p]))
    case Definition(id, body) =>
      if id == "main" then st.(roots := MainRoots(st.env, body, st.roots, fuel))
      else if id in st.env.defines then st
      else st.(env := st.env.(defines := st.env.defines[id := body]))
    case _ => st
  }

  function VisitFlowProgram(st: FlowState, prog: Program, fuel: nat): FlowState
    decreases prog
  {
    if prog == [] then st else VisitFlowProgram(VisitFlowDecl(st, prog[0], fuel), prog[1..], fuel)
  }

  // ---------------------------------------------------------------- warnings

  /** The advisory messages: a declared fault no path throws, and a fault that may escape an
      operation without being declared, with the solicit-response that raises it if any. */
  datatype Warning =
    | NeverThrown(fault: string, operation: string)
    | NotDeclared(fault: string, operation: string, raisedBy: Origin)

  /** The declaration of `op` in the last of `interfaces` that declares it. */
  function LastInterfaceOperation(interfaces: seq<Interface>, op: string): (r: Option<OperationDecl>)
    decreases interfaces
    ensures r.None? <==> forall i :: 0 <= i < |interfaces| ==> op !in interfaces[i].operations
    ensures r.Some? ==> exists i :: (0 <= i < |interfaces| && op in interfaces[i].operations &&
                                     r.value == interfaces[i].operations[op] &&
                                     forall j :: i < j < |interfaces| ==> op !in interfaces[j].operations)
  {
    if interfaces == [] then None
    else
      var rest := LastInterfaceOperation(interfaces[1..], op);
      assert forall i :: 1 <= i < |interfaces| ==> interfaces[i] == interfaces[1..][i - 1];
      if rest.Some? then rest
      else if op in interfaces[0].operations then Some(interfaces[0].operations[op])
      else None
  }

  /** Adds the operations of `interfaces`, in order, to `ops`; a later declaration replaces an
      earlier one. */
  function InterfacesOperations(ops: map<string, OperationDecl>, interfaces: seq<Interface>): map<string, OperationDecl>
    decreases interfaces
  {
    if interfaces == [] then ops else InterfacesOperations(ops + interfaces[0].operations, interfaces[1..])
  }

  /** An operation is known after the interfaces are added when it was before or one of them
      declares it, and the last interface that declares it decides its declaration. */
  lemma {:induction false} InterfacesOperationsValue(ops: map<string, OperationDecl>, interfaces: seq<Interface>, op: string)
    ensures var r := InterfacesOperations(ops, interfaces);
      var d := LastInterfaceOperation(interfaces, op);
      (op in r <==> op in ops || d.Some?) && (op in r ==> r[op] == if d.Some? then d.value else ops[op])
    decreases interfaces
  {
    if interfaces != [] {
      InterfacesOperationsValue(ops + interfaces[0].operations, interfaces[1..], op);
    }
  }

  /** The operations of the input ports taken in the order `portOrder` lists them. */
  function PortsOperations(inputPorts: map<string, InputPort>, portOrder: seq<string>): map<string, OperationDecl>
    decreases portOrder
  {
    if portOrder == [] then map[]
    else
      var earlier := PortsOperations(inputPorts, portOrder[..|portOrder| - 1]);
      var last := portOrder[|portOrder| - 1];
      if last in inputPorts then InterfacesOperations(earlier, inputPorts[last].interfaces) else earlier
  }

  /** Reference: the declaration of `op` given by the last port of `portOrder` whose interfaces
      declare it. */
  function LastServing(inputPorts: map<string, InputPort>, portOrder: seq<string>, op: string): Option<OperationDecl>
    decreases portOrder
  {
    if portOrder == [] then None
    else
      var last := portOrder[|portOrder| - 1];
      if Serves(inputPorts, last, op) then LastInterfaceOperation(inputPorts[last].interfaces, op)
      else LastServing(inputPorts, portOrder[..|portOrder| - 1], op)
  }

  /** The search finds nothing exactly when no port declares `op`. */
  lemma {:induction false} LastServingNone(inputPorts: map<string, InputPort>, portOrder: seq<string>, op: string)
    ensures LastServing(inputPorts, portOrder, op).None? <==>
      forall i :: 0 <= i < |portOrder| ==> !Serves(inputPorts, portOrder[i], op)
    decreases portOrder
  {
    if portOrder != [] {
      var prefix := portOrder[..|portOrder| - 1];
      assert forall i :: 0 <= i < |prefix| ==> prefix[i] == portOrder[i];
      LastServingNone(inputPorts, prefix, op);
    }
  }

  /** A declaration the search finds comes from a port after which no port declares `op`. */
  lemma {:induction false} LastServingSome(inputPorts: map<string, InputPort>, portOrder: seq<string>, op: string)
    requires LastServing(inputPorts, portOrder, op).Some?
    ensures exists i :: 0 <= i < |portOrder| && LastServer(inputPorts, portOrder, op, i) &&
                        LastServing(inputPorts, portOrder, op) == LastInterfaceOperation(inputPorts[portOrder[i]].interfaces, op)
    decreases portOrder
  {
    var prefix := portOrder[..|portOrder| - 1];
    var last := portOrder[|portOrder| - 1];
    if Serves(inputPorts, last, op) {
      assert LastServer(inputPorts, portOrder, op, |portOrder| - 1);
    } else {
      LastServingSome(inputPorts, prefix, op);
      var i :| 0 <= i < |prefix| && LastServer(inputPorts, prefix, op, i) &&
               LastServing(inputPorts, prefix, op) == LastInterfaceOperation(inputPorts[prefix[i]].interfaces, op);
      assert forall j :: 0 <= j < |prefix| ==> prefix[j] == portOrder[j];
      assert LastServer(inputPorts, portOrder, op, i);
    }
  }

  /** The interfaces of port `id` declare `op`. */
  predicate Serves(inputPorts: map<string, InputPort>, id: string, op: string)
  {
    id in inputPorts && LastInterfaceOperation(inputPorts[id].interfaces, op).Some?
  }

  /** The port at position `i` of `portOrder` is the last one whose interfaces declare `op`. */
  predicate LastServer(inputPorts: map<string, InputPort>, portOrder: seq<string>, op: string, i: int)
    requires 0 <= i < |portOrder|
  {
    Serves(inputPorts, portOrder[i], op) && forall j :: i < j < |portOrder| ==> !Serves(inputPorts, portOrder[j], op)
  }

  lemma {:induction false} PortsOperationsValue(inputPorts: map<string, InputPort>, portOrder: seq<string>, op: string)
    ensures var r := PortsOperations(inputPorts, portOrder);
      (op in r <==> LastServing(inputPorts, portOrder, op).Some?) &&
      (op in r ==> r[op] == LastServing(inputPorts, portOrder, op).value)
    decreases portOrder
  {
    if portOrder != [] {
      var prefix := portOrder[..|portOrder| - 1];
      var last := portOrder[|portOrder| - 1];
      PortsOperationsValue(inputPorts, prefix, op);
      if last in inputPorts {
        InterfacesOperationsValue(PortsOperations(inputPorts, prefix), inputPorts[last].interfaces, op);
      }
    }
  }

  /** `order` lists every id of `ids` exactly once, as the enumeration of a hash map's keys does. */
  predicate Enumerates(order: seq<string>, ids: set<string>)
  {
    NoDuplicates(order) && (forall i :: 0 <= i < |order| ==> order[i] in ids) && forall x :: x in ids ==> x in order
  }

  /** The operations served by the input ports, through their interfaces, taking the ports in the
      order `portOrder` enumerates them: an operation is served when some port's interfaces declare
      it, and the last port of the enumeration that declares it decides its declaration. */
  function InputOperations(inputPorts: map<string, InputPort>, portOrder: seq<string>): (ops: map<string, OperationDecl>)
    requires Enumerates(portOrder, inputPorts.Keys)
    ensures forall op :: op in ops <==> exists id :: Serves(inputPorts, id, op)
    ensures forall op :: op in ops ==> LastServing(inputPorts, portOrder, op) == Some(ops[op])
  {
    var ops := PortsOperations(inputPorts, portOrder);
    forall op
      ensures (op in ops <==> exists id :: Serves(inputPorts, id, op))
      ensures op in ops ==> LastServing(inputPorts, portOrder, op) == Some(ops[op])
    {
      PortsOperationsValue(inputPorts, portOrder, op);
      LastServingNone(inputPorts, portOrder, op);
      if id :| Serves(inputPorts, id, op) {
        assert id in portOrder;
        var i :| 0 <= i < |portOrder| && portOrder[i] == id;
      }
    }
    ops
  }

  /** The warnings of one entry point, given its residual faults, when it serves a request-response
      operation: declared faults that never escape (only reported when something escapes), and
      escaping faults that are not declared. */
  function OperationWarnings(decl: OperationDecl, residual: Thrown): (ws: set<Warning>)
    requires decl.RequestResponseDecl?
    ensures forall w :: w in ws ==> w.operation == decl.id
    ensures forall x :: NeverThrown(x, decl.id) in ws <==> x in decl.faults && x !in residual && residual != map[]
    ensures forall x, o :: NotDeclared(x, decl.id, o) in ws <==> x in residual && x !in decl.faults && o == residual[x]
  {
    var never := set x | x in decl.faults && x !in residual && residual != map[] :: NeverThrown(x, decl.id);
    var undeclared := set x | x in residual && x !in decl.faults :: NotDeclared(x, decl.id, residual[x]);
    assert forall x :: x in decl.faults && x !in residual && residual != map[] ==> NeverThrown(x, decl.id) in never;
    assert forall x :: x in residual && x !in decl.faults ==> NotDeclared(x, decl.id, residual[x]) in undeclared;
    never + undeclared
  }

  /** The warnings of the entry point keyed `key`: none unless it receives a request-response
      operation of the input ports. */
  function EntryWarnings(ops: map<string, OperationDecl>, key: Option<string>, root: ScopeTree): (ws: set<Warning>)
    ensures (key.None? || key.value !in ops || !ops[key.value].RequestResponseDecl?) ==> ws == {}
  {
    if key.Some? && key.value in ops && ops[key.value].RequestResponseDecl? then OperationWarnings(ops[key.value], Resolve(root))
    else {}
  }

  /** The fault-flow pass: walk the program, resolve every entry point and collect the warnings.
      `portOrder` is the order in which the input ports are enumerated. */
  function Validate(prog: Program, fuel: nat, portOrder: seq<string>): (ws: set<Warning>)
    requires Enumerates(portOrder, InputPortIds(prog))
    ensures InputPortIds(prog) == {} ==> ws == {}
    ensures !DefinesMain(prog) ==> ws == {}
  {
    var st0 := FlowState(FlowEnv(map[], map[]), map[], map[]);
    var st := VisitFlowProgram(st0, prog, fuel);
    VisitFlowInputPorts(st0, prog, fuel);
    assert !DefinesMain(prog) ==> st.roots == map[] by {
      if !DefinesMain(prog) {
        VisitFlowRoots(st0, prog, fuel);
      }
    }
    var ops := InputOperations(st.inputPorts, portOrder);
    assert InputPortIds(prog) == {} ==> ops == map[];
    AllWarnings(ops, st.roots)
  }

  /** Reference: the ids of the input ports `prog` declares. */
  function InputPortIds(prog: Program): set<string>
  {
    set i | 0 <= i < |prog| && prog[i].InputPortDecl? :: prog[i].inputPort.id
  }

  /** Reference: `prog` defines `main`. */
  predicate DefinesMain(prog: Program)
  {
    exists i :: 0 <= i < |prog| && prog[i].Definition? && prog[i].id == "main"
  }

  /** Walking the program registers exactly the input ports it declares... */
  lemma {:induction false} VisitFlowInputPorts(st: FlowState, prog: Program, fuel: nat)
    ensures VisitFlowProgram(st, prog, fuel).inputPorts.Keys == st.inputPorts.Keys + InputPortIds(prog)
    decreases prog
  {
    if prog != [] {
      var rest := prog[1..];
      VisitFlowInputPorts(VisitFlowDecl(st, prog[0], fuel), rest, fuel);
      assert forall i :: 0 <= i < |rest| ==> rest[i] == prog[i + 1];
      assert forall i :: 1 <= i < |prog| ==> prog[i] == rest[i - 1];
      assert InputPortIds(prog) == InputPortIds(rest) + if prog[0].InputPortDecl? then {prog[0].inputPort.id} else {};
    }
  }

  /** ...and adds no entry point unless it defines `main`. */
  lemma {:induction false} VisitFlowRoots(st: FlowState, prog: Program, fuel: nat)
    requires !DefinesMain(prog)
    ensures VisitFlowProgram(st, prog, fuel).roots == st.roots
    decreases prog
  {
    if prog != [] {
      var rest := prog[1..];
      assert forall i :: 0 <= i < |rest| ==> rest[i] == prog[i + 1];
      assert !DefinesMain(rest);
      VisitFlowRoots(VisitFlowDecl(st, prog[0], fuel), rest, fuel);
    }
  }

  /** The warnings of all entry points. */
  function AllWarnings(ops: map<string, OperationDecl>, roots: map<Option<string>, ScopeTree>): (ws: set<Warning>)
    ensures forall w :: w in ws <==> exists key :: key in roots && w in EntryWarnings(ops, key, roots[key])
  {
    set key, w | key in roots && w in EntryWarnings(ops, key, roots[key]) :: w
  }
}
