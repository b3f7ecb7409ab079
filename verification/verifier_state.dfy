/**
  The structural verifier's accumulated state and the checks that look at one node without
  descending into statements. The verifier records every failed check and carries on; its
  diagnostics are kept as a multiset, since several of them are produced while iterating hash
  maps whose order is unspecified.
*/
module VerifierState {
  import opened Util
  import opened Ast
  import opened Diagnostics
  import opened TypeRules

  /** A type link waiting to be resolved after the traversal. */
  datatype TypeLink = TypeLink(id: string, target: string)

  /** Everything the declarations register: statements read it but never change it. */
  datatype Env = Env(
    mode: ExecutionMode,
    inputPorts: map<string, InputPort>,
    outputPorts: map<string, OutputPort>,
    procedures: set<string>,
    oneWayOperations: map<string, OperationDecl>,
    requestResponseOperations: map<string, OperationDecl>,
    typeChecks: seq<(TypeDef, TypeDef)>,                          // (canonical, redeclaration)
    oneWayChecks: seq<(OperationDecl, OperationDecl)>,            // (redeclaration, canonical)
    requestResponseChecks: seq<(OperationDecl, OperationDecl)>,   // (redeclaration, canonical)
    correlationSets: seq<CorrelationSet>,
    insideInputPort: bool,
    insideInit: bool,
    mainDefined: bool,
    inputTypeOperations: map<string, seq<string>>,                // request type -> input operations
    definedTypes: map<string, TypeDef>,
    typeLinks: seq<TypeLink>)

  /** The verifier's state: what statements may change, and the registered declarations. */
  datatype State = State(
    errors: multiset<SemanticError>,
    warnings: multiset<SemanticWarning>,
    constants: map<string, bool>,
    courier: Option<OperationKind>,
    env: Env)

  /** A fresh verifier; `declaredTypes` is the type map the parser hands over. */
  function Initial(declaredTypes: map<string, TypeDef>): State
  {
    State(multiset{}, multiset{}, map[], None,
          Env(Single, map[], map[], {}, map[], map[], [], [], [], [], false, false, false, map[], declaredTypes, []))
  }

  function Report(st: State, e: SemanticError): State
  {
    st.(errors := st.errors + multiset{e})
  }

  // ---------------------------------------------------------------- constant tracking

  /** Records an assignment to a top-level name: the first encounter marks it constant, every
      later one non-constant. */
  function Encounter(constants: map<string, bool>, name: string): (r: map<string, bool>)
    ensures r.Keys == constants.Keys + {name}
    ensures r[name] <==> name !in constants
    ensures forall x :: x in constants && x != name ==> r[x] == constants[x]
  {
    constants[name := name !in constants]
  }

  function EncounterAll(constants: map<string, bool>, names: seq<string>): map<string, bool>
    decreases names
  {
    if names == [] then constants else EncounterAll(Encounter(constants, names[0]), names[1..])
  }

  /** After any run of encounters a name is recorded iff it was known or encountered, and it is
      constant iff it was constant and not encountered again, or new and encountered exactly once. */
  lemma {:induction false} ConstantIffAssignedOnce(constants: map<string, bool>, names: seq<string>, x: string)
    ensures x in EncounterAll(constants, names) <==> x in constants || x in names
    ensures x in EncounterAll(constants, names) ==>
      (EncounterAll(constants, names)[x] <==>
        (x in constants && constants[x] && Count(names, x) == 0) || (x !in constants && Count(names, x) == 1))
    decreases names
  {
    if names != [] {
      var c1 := Encounter(constants, names[0]);
      ConstantIffAssignedOnce(c1, names[1..], x);
      assert names == [names[0]] + names[1..];
      CountPositiveIffIn(names[1..], x);
    }
  }

  /** Once a name is non-constant it stays non-constant. */
  lemma {:induction false} NonConstantStaysNonConstant(constants: map<string, bool>, names: seq<string>, x: string)
    requires x in constants && !constants[x]
    ensures x in EncounterAll(constants, names) && !EncounterAll(constants, names)[x]
    decreases names
  {
    if names != [] {
      NonConstantStaysNonConstant(Encounter(constants, names[0]), names[1..], x);
    }
  }

  /** Constant tracking only ever adds names and only ever turns them non-constant. */
  predicate ConstantsGrow(before: map<string, bool>, after: map<string, bool>)
  {
    forall x :: x in before ==> x in after && (!before[x] ==> !after[x])
  }

  lemma {:induction false} EncounterAllGrows(constants: map<string, bool>, names: seq<string>)
    ensures ConstantsGrow(constants, EncounterAll(constants, names))
    decreases names
  {
    if names != [] {
      EncounterAllGrows(Encounter(constants, names[0]), names[1..]);
    }
  }

  // ---------------------------------------------------------------- single-node checks
  // Each check returns the errors it records; the traversal adds them to the state.

  /** No diagnostic in `es` is about a call. */
  ghost predicate NoCallErrors(es: multiset<SemanticError>)
  {
    forall x :: es[UndefinedProcedure(x)] == 0
  }

  function AddErrors(st: State, es: multiset<SemanticError>): (r: State)
  {
    st.(errors := st.errors + es)
  }

  /** Each bound of a type's cardinality is checked on its own. */
  function CardinalityErrors(t: TypeDef): (es: multiset<SemanticError>)
    ensures InvalidMinimum(t.id) in es <==> t.card.min < 0
    ensures InvalidMaximum(t.id) in es <==> t.card.max < 0
    ensures |es| == (if t.card.min < 0 then 1 else 0) + (if t.card.max < 0 then 1 else 0)
  {
    (if t.card.min < 0 then multiset{InvalidMinimum(t.id)} else multiset{}) +
    (if t.card.max < 0 then multiset{InvalidMaximum(t.id)} else multiset{})
  }

  /** A path is accepted when it starts with an identifier and, if it reaches into `csets`, it is
      static and not used inside `init`. */
  predicate PathAccepted(insideInit: bool, p: VarPath)
  {
    p.first.key.Named? && (p.IsCSet() ==> !insideInit && p.IsStatic())
  }

  /** The error for a path whose first key is not an identifier names the path's prefix keyword. */
  function IdentifierError(scope: PathScope): SemanticError
  {
    match scope
    case GlobalPath => GlobalNeedsIdentifier
    case CSetPath => CSetNeedsIdentifier
    case LocalPath => PathNeedsIdentifier
  }

  function PathErrors(insideInit: bool, p: VarPath): (es: multiset<SemanticError>)
    ensures |es| == 0 <==> PathAccepted(insideInit, p)
    ensures forall e :: e in es ==> IsPathError(e)
    ensures NoCallErrors(es)
    ensures !p.first.key.Named? ==> es[IdentifierError(p.scope)] == 1
  {
    (if insideInit && p.IsCSet() then multiset{CorrelationAccessInInit} else multiset{}) +
    (if p.IsCSet() && !p.IsStatic() then multiset{DynamicCorrelationPath} else multiset{}) +
    (if !p.first.key.Named? then
       (if p.IsGlobal() then multiset{GlobalNeedsIdentifier}
        else if p.IsCSet() then multiset{CSetNeedsIdentifier}
        else multiset{PathNeedsIdentifier})
     else multiset{})
  }

  /** A call is checked against the procedures visited so far, so a call to a procedure declared
      later in the document is an error. */
  function CallErrors(procedures: set<string>, id: string): (es: multiset<SemanticError>)
    ensures |es| == 0 <==> id in procedures
    ensures es <= multiset{UndefinedProcedure(id)}
  {
    if id !in procedures then multiset{UndefinedProcedure(id)} else multiset{}
  }

  /** A procedure id is registered once; redefining it is an error and keeps the registration. */
  function RegisterProcedure(st: State, id: string): (r: State)
    ensures r == st.(errors := r.errors, env := r.env)
    ensures r.env == st.env.(procedures := st.env.procedures + {id})
    ensures |r.errors| == |st.errors| <==> id !in st.env.procedures
    ensures r.errors == st.errors + (if id in st.env.procedures then multiset{DuplicateProcedure(id)} else multiset{})
  {
    if id in st.env.procedures then Report(st, DuplicateProcedure(id))
    else st.(env := st.env.(procedures := st.env.procedures + {id}))
  }

  /** Reference shape of an acceptable `main` body when the execution mode is not single: an input
      choice, a receive, or a sequence whose first statement is a receive. */
  predicate StartsWithInput(body: Stmt)
  {
    match body
    case InputChoice(_) => true
    case Basic(OneWayIn(_, _)) => true
    case RequestResponseIn(_, _, _) => true
    case Sequence(cs) => |cs| > 0 && (cs[0].RequestResponseIn? || (cs[0].Basic? && cs[0].action.OneWayIn?))
    case _ => false
  }

  /** The main-shape rule, written as the source nests it. A sequence without statements, which
      the source would index out of bounds, is rejected. */
  function MainShapeErrors(mode: ExecutionMode, body: Stmt): (es: multiset<SemanticError>)
    ensures |es| == 0 <==> mode == Single || StartsWithInput(body)
    ensures es <= multiset{MainNotInput}
  {
    if mode != Single then
      if !(body.InputChoice? || IsInput(body)) then
        if body.Sequence? then
          if |body.children| == 0 then multiset{MainNotInput}
          else if !IsInput(body.children[0]) then multiset{MainNotInput}
          else multiset{}
        else multiset{MainNotInput}
      else multiset{}
    else multiset{}
  }

  /** Forward statements: a notification forward needs a one-way courier context, a
      solicit-response forward a request-response one. */
  function ForwardErrors(courier: Option<OperationKind>, kind: OperationKind): (es: multiset<SemanticError>)
    ensures |es| == 0 <==> courier == Some(kind)
    ensures courier == None ==> es == multiset{ForwardOutsideCourier}
    ensures courier.Some? && courier != Some(kind) ==>
      es == multiset{if kind == OneWayKind then NotificationForwardInRequestResponse else SolicitForwardInOneWay}
    ensures NoCallErrors(es)
  {
    if courier.None? then multiset{ForwardOutsideCourier}
    else if courier.value != kind then
      multiset{if kind == OneWayKind then NotificationForwardInRequestResponse else SolicitForwardInOneWay}
    else multiset{}
  }

  /** An ordinary receive is forbidden inside a courier body. */
  function CourierInputErrors(courier: Option<OperationKind>): (es: multiset<SemanticError>)
    ensures |es| == 0 <==> courier.None?
    ensures es <= multiset{InputInsideCourier}
    ensures NoCallErrors(es)
  {
    if courier.Some? then multiset{InputInsideCourier} else multiset{}
  }

  function KindOf(d: OperationDecl): OperationKind
  {
    if d.OneWayDecl? then OneWayKind else RequestResponseKind
  }

  /** An outbound notification or solicit-response must name an output port registered so far
      that declares the operation with the matching kind. */
  function OutputOperationErrors(outputPorts: map<string, OutputPort>, port: string, op: string, kind: OperationKind)
    : (es: multiset<SemanticError>)
    ensures |es| == 0 <==>
      port in outputPorts && FindOperation(outputPorts[port].operations, op).Some? &&
      KindOf(FindOperation(outputPorts[port].operations, op).value) == kind
    ensures |es| <= 1
    ensures NoCallErrors(es)
  {
    if port !in outputPorts then multiset{InvalidOutputPort(port)}
    else
      var found := FindOperation(outputPorts[port].operations, op);
      if found.None? then multiset{UndeclaredOperation(op, port)}
      else if kind == OneWayKind && !found.value.OneWayDecl? then multiset{NotOneWay(op, port)}
      else if kind == RequestResponseKind && !found.value.RequestResponseDecl? then multiset{NotRequestResponse(op, port)}
      else assert KindOf(found.value) == kind; multiset{}
  }

  // ---------------------------------------------------------------- input-choice guards

  /** One guard of an input choice: a guard that is not a receive is an error, and a receive on an
      operation already guarding an earlier branch is an error. Returns the errors and the updated
      set of guard operations. */
  function CheckGuard(seen: set<string>, g: Stmt): (res: (multiset<SemanticError>, set<string>))
    ensures NoCallErrors(res.0)
    ensures |res.0| <= 1
    ensures GuardNotInput in res.0 <==> !IsInput(g)
    ensures forall x :: DuplicateGuard(Some(x)) in res.0 <==> ReceivedOperation(g) == Some(x) && x in seen
    ensures res.1 == if IsInput(g) then seen + {ReceivedOperation(g).value} else seen
  {
    match ReceivedOperation(g)
    case None => (multiset{GuardNotInput}, seen)
    case Some(op) => if op in seen then (multiset{DuplicateGuard(Some(op))}, seen) else (multiset{}, seen + {op})
  }

  function GuardErrors(guards: seq<Stmt>, seen: set<string>): (es: multiset<SemanticError>)
    ensures NoCallErrors(es)
    ensures forall e :: e in es ==> e.GuardNotInput? || (e.DuplicateGuard? && e.guardOp.Some?)
    ensures es[GuardNotInput] == NonInputGuards(guards)
  {
    if guards == [] then multiset{}
    else CheckGuard(seen, guards[0]).0 + GuardErrors(guards[1..], CheckGuard(seen, guards[0]).1)
  }

  /** Reference: the number of guards that are not receives. */
  function NonInputGuards(guards: seq<Stmt>): nat
  {
    if guards == [] then 0 else (if IsInput(guards[0]) then 0 else 1) + NonInputGuards(guards[1..])
  }

  /** Number of guards that receive on operation x. */
  function InputGuards(guards: seq<Stmt>, x: string): nat
  {
    if guards == [] then 0 else (if ReceivedOperation(guards[0]) == Some(x) then 1 else 0) + InputGuards(guards[1..], x)
  }

  /** A guard operation is reported once for every repetition after its first occurrence, every
      non-receive guard once, and nothing else. */
  lemma {:induction false} GuardErrorsCount(guards: seq<Stmt>, seen: set<string>, x: string)
    ensures GuardErrors(guards, seen)[DuplicateGuard(Some(x))] ==
      if x in seen then InputGuards(guards, x) else if InputGuards(guards, x) == 0 then 0 else InputGuards(guards, x) - 1
    decreases guards
  {
    if guards != [] {
      var step := CheckGuard(seen, guards[0]);
      GuardErrorsCount(guards[1..], step.1, x);
      assert GuardErrors(guards, seen) == step.0 + GuardErrors(guards[1..], step.1);
    }
  }

  // ---------------------------------------------------------------- correlation declarations

  /** Scope errors of a correlation variable's own path. */
  function VariableScopeError(p: VarPath): (r: Option<SemanticError>)
    ensures r.None? <==> p.scope == LocalPath && p.IsStatic()
  {
    if p.IsGlobal() then Some(GlobalCorrelationVariable)
    else if p.IsCSet() then Some(CSetCorrelationVariable)
    else if !p.IsStatic() then Some(DynamicCorrelationVariable)
    else None
  }

  /** Scope errors of an alias path, judged on the alias path itself. */
  function AliasScopeError(a: Alias): (r: Option<SemanticError>)
    ensures r.None? <==> a.path.scope == LocalPath && a.path.IsStatic()
    ensures a.path.IsCSet() ==> r == Some(CSetCorrelationVariable)
  {
    if a.path.IsGlobal() then Some(GlobalCorrelationVariable)
    else if a.path.IsCSet() then Some(CSetCorrelationVariable)
    else if !a.path.IsStatic() then Some(DynamicAlias)
    else None
  }

  function OptionalError(e: Option<SemanticError>): multiset<SemanticError>
  {
    if e.Some? then multiset{e.value} else multiset{}
  }
}
