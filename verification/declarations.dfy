/**
  The top-level declarations of the structural verifier: execution mode, ports and their
  operation declarations, types, procedures, correlation sets and courier definitions. Each kind
  of declaration is one function from state to state, and a program is visited declaration by
  declaration in document order.
*/
module Declarations {
  import opened Util
  import opened Ast
  import opened Diagnostics
  import opened VerifierState
  import opened Traversal

  // ---------------------------------------------------------------- types

  /** Cardinality diagnostics of a type and of every sub-definition its visit descends into: the
      fields of an inline type, at any depth. The alternatives of a choice are not descended into. */
  function TypeTreeErrors(t: TypeDef): (es: multiset<SemanticError>)
    decreases t, 1
    ensures NoCallErrors(es)
  {
    CardinalityErrors(t) + (if t.InlineType? then FieldsErrors(t.fields) else multiset{})
  }

  function FieldsErrors(fs: seq<Field>): (es: multiset<SemanticError>)
    decreases fs, 0
    ensures NoCallErrors(es)
  {
    if fs == [] then multiset{} else TypeTreeErrors(fs[0].def) + FieldsErrors(fs[1..])
  }

  /** Reference: every definition the visit reaches has non-negative bounds. */
  predicate BoundsValid(t: TypeDef)
    decreases t
  {
    t.card.min >= 0 && t.card.max >= 0 &&
    (t.InlineType? ==> forall i :: 0 <= i < |t.fields| ==> BoundsValid(t.fields[i].def))
  }

  /** A type tree raises no cardinality diagnostic exactly when all its reachable bounds are valid. */
  lemma {:induction false} TypeTreeErrorsEmptyIff(t: TypeDef)
    ensures |TypeTreeErrors(t)| == 0 <==> BoundsValid(t)
    decreases t, 1
  {
    if t.InlineType? {
      FieldsErrorsEmptyIff(t.fields);
    }
  }

  lemma {:induction false} FieldsErrorsEmptyIff(fs: seq<Field>)
    ensures |FieldsErrors(fs)| == 0 <==> forall i :: 0 <= i < |fs| ==> BoundsValid(fs[i].def)
    decreases fs, 0
  {
    if fs != [] {
      var rest := fs[1..];
      TypeTreeErrorsEmptyIff(fs[0].def);
      FieldsErrorsEmptyIff(rest);
      assert |FieldsErrors(fs)| == |TypeTreeErrors(fs[0].def)| + |FieldsErrors(rest)|;
      assert forall i :: 1 <= i < |fs| ==> fs[i] == rest[i - 1];
    }
  }

  /** The type links a visit collects, in visit order: every link definition it reaches, and the
      alternatives of a choice that are links. */
  function TypeLinks(t: TypeDef): seq<TypeLink>
    decreases t, 1
  {
    match t
    case InlineType(_, _, _, fs) => FieldsLinks(fs)
    case LinkType(id, _, target) => [TypeLink(id, target)]
    case ChoiceType(_, _, left, right) => AlternativeLink(left) + AlternativeLink(right)
  }

  function FieldsLinks(fs: seq<Field>): seq<TypeLink>
    decreases fs, 0
  {
    if fs == [] then [] else TypeLinks(fs[0].def) + FieldsLinks(fs[1..])
  }

  function AlternativeLink(t: TypeDef): seq<TypeLink>
  {
    if t.LinkType? then [TypeLink(t.id, t.linkedName)] else []
  }

  /** A top-level type. A type whose id is already defined queues an equivalence check between the
      definition it replaces and itself; either way the id is bound to the new definition, so the
      last definition is the one later declarations see. */
  function DeclareType(st: State, t: TypeDef): (r: State)
    ensures r.errors == st.errors + TypeTreeErrors(t)
    ensures r.courier == st.courier
    ensures r.env.procedures == st.env.procedures && r.env.mainDefined == st.env.mainDefined
    ensures r.env.definedTypes == st.env.definedTypes[t.id := t]
    ensures r.env.typeLinks == st.env.typeLinks + TypeLinks(t)
    ensures r.env.typeChecks ==
      st.env.typeChecks + (if t.id in st.env.definedTypes then [(st.env.definedTypes[t.id], t)] else [])
  {
    var checks := if t.id in st.env.definedTypes then [(st.env.definedTypes[t.id], t)] else [];
    st.(errors := st.errors + TypeTreeErrors(t),
        env := st.env.(definedTypes := st.env.definedTypes[t.id := t],
                       typeChecks := st.env.typeChecks + checks,
                       typeLinks := st.env.typeLinks + TypeLinks(t)))
  }

  // ---------------------------------------------------------------- operation declarations

  /** Reference: every type an operation declaration names is defined. */
  predicate OperationTypesKnown(types: map<string, TypeDef>, d: OperationDecl)
  {
    d.request.id in types &&
    (d.RequestResponseDecl? ==> d.response.id in types && forall f :: f in d.faults ==> d.faults[f].id in types)
  }

  /** One diagnostic per fault whose type is not defined. */
  function UnknownFaultErrors(types: map<string, TypeDef>, faults: map<string, TypeDef>): (es: multiset<SemanticError>)
    ensures forall f :: es[UnknownFaultType(f)] == (if f in faults && faults[f].id !in types then 1 else 0)
    ensures forall e :: e in es ==> e.UnknownFaultType?
    ensures |es| == 0 <==> forall f :: f in faults ==> faults[f].id in types
  {
    var unknown := set f | f in faults && faults[f].id !in types;
    var es := multiset(set f | f in unknown :: UnknownFaultType(f));
    assert forall f :: f in unknown ==> UnknownFaultType(f) in es;
    es
  }

  /** The type checks of an operation declaration, which are made wherever it is declared. */
  function OperationTypeErrors(types: map<string, TypeDef>, d: OperationDecl): (es: multiset<SemanticError>)
    ensures |es| == 0 <==> OperationTypesKnown(types, d)
    ensures forall e :: e in es ==> e.UnknownOperationType? || e.UnknownFaultType?
    ensures NoCallErrors(es)
  {
    (if d.request.id !in types then multiset{UnknownOperationType(d.request.id, d.id)} else multiset{}) +
    (if d.RequestResponseDecl? then
       (if d.response.id !in types then multiset{UnknownOperationType(d.response.id, d.id)} else multiset{}) +
       UnknownFaultErrors(types, d.faults)
     else multiset{})
  }

  function OperationsTypeErrors(types: map<string, TypeDef>, ops: seq<OperationDecl>): (es: multiset<SemanticError>)
    decreases ops
    ensures forall e :: e in es ==> e.UnknownOperationType? || e.UnknownFaultType?
    ensures NoCallErrors(es)
    ensures |es| == 0 <==> forall i :: 0 <= i < |ops| ==> OperationTypesKnown(types, ops[i])
  {
    if ops == [] then multiset{}
    else
      assert forall i :: 1 <= i < |ops| ==> ops[i] == ops[1..][i - 1];
      OperationTypeErrors(types, ops[0]) + OperationsTypeErrors(types, ops[1..])
  }

  /** Appends an input operation to the operations whose request type is `typeName`. */
  function AddInputType(m: map<string, seq<string>>, typeName: string, op: string): (r: map<string, seq<string>>)
    ensures r.Keys == m.Keys + {typeName}
    ensures r[typeName] == (if typeName in m then m[typeName] else []) + [op]
    ensures forall t :: t in m && t != typeName ==> r[t] == m[t]
  {
    m[typeName := (if typeName in m then m[typeName] else []) + [op]]
  }

  /** The registry of input operations of the kind of `d`. */
  function Registry(env: Env, d: OperationDecl): map<string, OperationDecl>
  {
    if d.OneWayDecl? then env.oneWayOperations else env.requestResponseOperations
  }

  /** Registers an input operation. The first declaration of an id (per kind) is canonical and is
      never replaced; each later one is queued for an equivalence check against it and otherwise
      ignored. Only a canonical declaration is listed under its request type. */
  function RegisterInputOperation(env: Env, d: OperationDecl): (r: Env)
    ensures r == env.(oneWayOperations := r.oneWayOperations, requestResponseOperations := r.requestResponseOperations,
                      oneWayChecks := r.oneWayChecks, requestResponseChecks := r.requestResponseChecks,
                      inputTypeOperations := r.inputTypeOperations)
    ensures Registry(r, d) == Registry(env, d)[d.id := if d.id in Registry(env, d) then Registry(env, d)[d.id] else d]
    ensures d.OneWayDecl? ==> r.requestResponseOperations == env.requestResponseOperations &&
                              r.requestResponseChecks == env.requestResponseChecks
    ensures d.RequestResponseDecl? ==> r.oneWayOperations == env.oneWayOperations && r.oneWayChecks == env.oneWayChecks
    ensures d.id in Registry(env, d) ==> r.inputTypeOperations == env.inputTypeOperations
    ensures d.OneWayDecl? && d.id in env.oneWayOperations ==>
      r.oneWayChecks == env.oneWayChecks + [(d, env.oneWayOperations[d.id])]
    ensures d.RequestResponseDecl? && d.id in env.requestResponseOperations ==>
      r.requestResponseChecks == env.requestResponseChecks + [(d, env.requestResponseOperations[d.id])]
    ensures d.id !in Registry(env, d) ==>
      r.oneWayChecks == env.oneWayChecks && r.requestResponseChecks == env.requestResponseChecks &&
      r.inputTypeOperations == AddInputType(env.inputTypeOperations, d.request.id, d.id)
  {
    match d
    case OneWayDecl(id, request) =>
      if id in env.oneWayOperations then
        env.(oneWayChecks := env.oneWayChecks + [(d, env.oneWayOperations[id])])
      else
        env.(oneWayOperations := env.oneWayOperations[id := d],
             inputTypeOperations := AddInputType(env.inputTypeOperations, request.id, id))
    case RequestResponseDecl(id, request, _, _) =>
      if id in env.requestResponseOperations then
        env.(requestResponseChecks := env.requestResponseChecks + [(d, env.requestResponseOperations[id])])
      else
        env.(requestResponseOperations := env.requestResponseOperations[id := d],
             inputTypeOperations := AddInputType(env.inputTypeOperations, request.id, id))
  }

  function RegisterInputOperations(env: Env, ops: seq<OperationDecl>): (r: Env)
    decreases ops
    ensures r == env.(oneWayOperations := r.oneWayOperations, requestResponseOperations := r.requestResponseOperations,
                      oneWayChecks := r.oneWayChecks, requestResponseChecks := r.requestResponseChecks,
                      inputTypeOperations := r.inputTypeOperations)
    ensures forall x :: x in env.oneWayOperations ==>
      x in r.oneWayOperations && r.oneWayOperations[x] == env.oneWayOperations[x]
    ensures forall x :: x in env.requestResponseOperations ==>
      x in r.requestResponseOperations && r.requestResponseOperations[x] == env.requestResponseOperations[x]
  {
    if ops == [] then env else RegisterInputOperations(RegisterInputOperation(env, ops[0]), ops[1..])
  }

  /** An id is registered, per kind, exactly when it was before or some declaration of that kind
      names it. */
  lemma {:induction false} RegisteredIff(env: Env, ops: seq<OperationDecl>, d: OperationDecl)
    ensures d.id in Registry(RegisterInputOperations(env, ops), d) <==>
      d.id in Registry(env, d) || exists i :: 0 <= i < |ops| && SameDeclaration(ops[i], d)
    decreases ops
  {
    if ops != [] {
      var env1 := RegisterInputOperation(env, ops[0]);
      RegisteredStep(env, ops[0], d);
      RegisteredIff(env1, ops[1..], d);
      if exists i :: 0 <= i < |ops| && SameDeclaration(ops[i], d) {
        var i :| 0 <= i < |ops| && SameDeclaration(ops[i], d);
        if i > 0 {
          assert ops[1..][i - 1] == ops[i];
        }
      }
      if exists i :: 0 <= i < |ops[1..]| && SameDeclaration(ops[1..][i], d) {
        var i :| 0 <= i < |ops[1..]| && SameDeclaration(ops[1..][i], d);
        assert ops[i + 1] == ops[1..][i];
      }
    }
  }

  lemma RegisteredStep(env: Env, e: OperationDecl, d: OperationDecl)
    ensures d.id in Registry(RegisterInputOperation(env, e), d) <==> d.id in Registry(env, d) || SameDeclaration(e, d)
  {
  }

  /** The first declaration of an id and kind that was not registered before becomes canonical. */
  lemma {:induction false} FirstIsCanonical(env: Env, ops: seq<OperationDecl>, i: nat)
    requires i < |ops| && FirstOfKind(ops, i) && ops[i].id !in Registry(env, ops[i])
    ensures ops[i].id in Registry(RegisterInputOperations(env, ops), ops[i])
    ensures Registry(RegisterInputOperations(env, ops), ops[i])[ops[i].id] == ops[i]
    decreases ops
  {
    var env1 := RegisterInputOperation(env, ops[0]);
    if i == 0 {
      assert Registry(env1, ops[0])[ops[0].id] == ops[0];
    } else {
      assert !SameDeclaration(ops[0], ops[i]);
      assert ops[i].id !in Registry(env1, ops[i]);
      assert ops[1..][i - 1] == ops[i];
      assert FirstOfKind(ops[1..], i - 1) by {
        forall j | 0 <= j < i - 1 ensures !SameDeclaration(ops[1..][j], ops[1..][i - 1]) {
          assert ops[1..][j] == ops[j + 1];
        }
      }
      FirstIsCanonical(env1, ops[1..], i - 1);
    }
  }

  /** The kind and id of two declarations agree. */
  predicate SameDeclaration(d: OperationDecl, e: OperationDecl)
  {
    d.id == e.id && d.OneWayDecl? == e.OneWayDecl?
  }

  /** Reference: `ops[i]` is the first declaration of its id and kind in `ops`. */
  predicate FirstOfKind(ops: seq<OperationDecl>, i: nat)
    requires i < |ops|
  {
    forall j :: 0 <= j < i ==> !SameDeclaration(ops[j], ops[i])
  }

  /** The five registries an input port fills in. */
  function Registries(env: Env): (map<string, OperationDecl>, map<string, OperationDecl>,
                                  seq<(OperationDecl, OperationDecl)>, seq<(OperationDecl, OperationDecl)>,
                                  map<string, seq<string>>)
  {
    (env.oneWayOperations, env.requestResponseOperations, env.oneWayChecks, env.requestResponseChecks,
     env.inputTypeOperations)
  }

  /** Registration reads and writes only the registries. */
  lemma {:induction false} RegistriesFrame(e1: Env, e2: Env, ops: seq<OperationDecl>)
    requires Registries(e1) == Registries(e2)
    ensures Registries(RegisterInputOperations(e1, ops)) == Registries(RegisterInputOperations(e2, ops))
    decreases ops
  {
    if ops != [] {
      RegistryStepFrame(e1, e2, ops[0]);
      RegistriesFrame(RegisterInputOperation(e1, ops[0]), RegisterInputOperation(e2, ops[0]), ops[1..]);
    }
  }

  lemma RegistryStepFrame(e1: Env, e2: Env, d: OperationDecl)
    requires Registries(e1) == Registries(e2)
    ensures Registries(RegisterInputOperation(e1, d)) == Registries(RegisterInputOperation(e2, d))
  {
    var r1 := RegisterInputOperation(e1, d);
    var r2 := RegisterInputOperation(e2, d);
    assert Registry(e1, d) == Registry(e2, d);
    if d.id in Registry(e1, d) {
      assert r1.inputTypeOperations == r2.inputTypeOperations;
    } else {
      assert r1.oneWayChecks == r2.oneWayChecks && r1.requestResponseChecks == r2.requestResponseChecks;
      assert r1.inputTypeOperations == r2.inputTypeOperations;
    }
    assert Registry(r1, d) == Registry(r2, d);
    if d.OneWayDecl? {
      assert r1.requestResponseOperations == r2.requestResponseOperations;
    } else {
      assert r1.oneWayOperations == r2.oneWayOperations;
    }
  }

  /** Visits operation declarations: their types are always checked, and inside an input port they
      are registered as input operations. */
  function DeclareOperations(st: State, ops: seq<OperationDecl>): (r: State)
    ensures r == st.(errors := st.errors + OperationsTypeErrors(st.env.definedTypes, ops), env := r.env)
    ensures r.env == (if st.env.insideInputPort then RegisterInputOperations(st.env, ops) else st.env)
    ensures |r.errors| == |st.errors| <==> forall i :: 0 <= i < |ops| ==> OperationTypesKnown(st.env.definedTypes, ops[i])
  {
    st.(errors := st.errors + OperationsTypeErrors(st.env.definedTypes, ops),
        env := if st.env.insideInputPort then RegisterInputOperations(st.env, ops) else st.env)
  }

  // ---------------------------------------------------------------- ports

  function OperationIds(ops: seq<OperationDecl>): seq<string>
    decreases ops
  {
    if ops == [] then [] else [ops[0].id] + OperationIds(ops[1..])
  }

  /** The declarations an input port visits: each one whose id neither occurs earlier in the port
      nor is in `seen`. */
  function FirstDeclarations(ops: seq<OperationDecl>, seen: set<string>): (r: seq<OperationDecl>)
    decreases ops
    ensures forall d :: d in r ==> d in ops && d.id !in seen
  {
    if ops == [] then []
    else if ops[0].id in seen then FirstDeclarations(ops[1..], seen)
    else [ops[0]] + FirstDeclarations(ops[1..], seen + {ops[0].id})
  }

  /** The ids of the visited declarations are those of the port that are not in `seen`. */
  lemma {:induction false} FirstDeclarationsIds(ops: seq<OperationDecl>, seen: set<string>)
    ensures forall x :: x in OperationIds(FirstDeclarations(ops, seen)) <==> x in OperationIds(ops) && x !in seen
    decreases ops
  {
    if ops != [] {
      var rest := FirstDeclarations(ops[1..], seen + {ops[0].id});
      if ops[0].id in seen {
        FirstDeclarationsIds(ops[1..], seen);
      } else {
        FirstDeclarationsIds(ops[1..], seen + {ops[0].id});
        assert ([ops[0]] + rest)[1..] == rest;
      }
    }
  }

  /** Each visited declaration has an id of its own. */
  lemma {:induction false} FirstDeclarationsDistinct(ops: seq<OperationDecl>, seen: set<string>)
    ensures NoDuplicates(OperationIds(FirstDeclarations(ops, seen)))
    decreases ops
  {
    if ops != [] {
      if ops[0].id in seen {
        FirstDeclarationsDistinct(ops[1..], seen);
      } else {
        var rest := FirstDeclarations(ops[1..], seen + {ops[0].id});
        FirstDeclarationsDistinct(ops[1..], seen + {ops[0].id});
        FirstDeclarationsIds(ops[1..], seen + {ops[0].id});
        assert ([ops[0]] + rest)[1..] == rest;
        assert ops[0].id !in OperationIds(rest);
        NoDuplicatesCons(ops[0].id, OperationIds(rest));
      }
    }
  }

  /** One diagnostic for every declaration of an input port whose id occurs earlier in the port
      (or is in `seen`). */
  function DuplicateOperationErrors(port: string, ops: seq<OperationDecl>, seen: set<string>): (es: multiset<SemanticError>)
    decreases ops
    ensures forall e :: e in es ==> e.DuplicateOperationInPort? && e.port == port
  {
    if ops == [] then multiset{}
    else if ops[0].id in seen then
      multiset{DuplicateOperationInPort(port, ops[0].id)} + DuplicateOperationErrors(port, ops[1..], seen)
    else DuplicateOperationErrors(port, ops[1..], seen + {ops[0].id})
  }

  /** Every occurrence of an operation id after its first is reported once. */
  lemma {:induction false} DuplicateOperationCount(port: string, ops: seq<OperationDecl>, seen: set<string>, x: string)
    ensures DuplicateOperationErrors(port, ops, seen)[DuplicateOperationInPort(port, x)] ==
      if x in seen then Count(OperationIds(ops), x)
      else if Count(OperationIds(ops), x) == 0 then 0 else Count(OperationIds(ops), x) - 1
    decreases ops
  {
    if ops != [] {
      if ops[0].id in seen {
        DuplicateOperationCount(port, ops[1..], seen, x);
      } else {
        DuplicateOperationCount(port, ops[1..], seen + {ops[0].id}, x);
      }
    }
  }

  lemma DuplicateOperationCounts(port: string, ops: seq<OperationDecl>)
    ensures forall x :: (DuplicateOperationErrors(port, ops, {})[DuplicateOperationInPort(port, x)] ==
      if Count(OperationIds(ops), x) == 0 then 0 else Count(OperationIds(ops), x) - 1)
  {
    forall x
      ensures DuplicateOperationErrors(port, ops, {})[DuplicateOperationInPort(port, x)] ==
        if Count(OperationIds(ops), x) == 0 then 0 else Count(OperationIds(ops), x) - 1
    {
      DuplicateOperationCount(port, ops, {}, x);
    }
  }

  /** One diagnostic for every aggregated name that is not a registered output port. */
  function AggregateErrors(outputPorts: map<string, OutputPort>, port: string, names: seq<string>)
    : (es: multiset<SemanticError>)
    decreases names
    ensures forall e :: e in es ==> e.UndefinedAggregatedPort? && e.port == port
  {
    if names == [] then multiset{}
    else (if names[0] in outputPorts then multiset{} else multiset{UndefinedAggregatedPort(port, names[0])}) +
         AggregateErrors(outputPorts, port, names[1..])
  }

  /** An aggregated name is reported once per occurrence when it is not an output port, else never. */
  lemma {:induction false} AggregateErrorsCount(outputPorts: map<string, OutputPort>, port: string, names: seq<string>, x: string)
    ensures AggregateErrors(outputPorts, port, names)[UndefinedAggregatedPort(port, x)] ==
      if x in outputPorts then 0 else Count(names, x)
    decreases names
  {
    if names != [] {
      AggregateErrorsCount(outputPorts, port, names[1..], x);
    }
  }

  lemma AggregateErrorsCounts(outputPorts: map<string, OutputPort>, port: string, names: seq<string>)
    ensures forall x :: (AggregateErrors(outputPorts, port, names)[UndefinedAggregatedPort(port, x)] ==
      if x in outputPorts then 0 else Count(names, x))
  {
    forall x
      ensures AggregateErrors(outputPorts, port, names)[UndefinedAggregatedPort(port, x)] ==
        if x in outputPorts then 0 else Count(names, x)
    {
      AggregateErrorsCount(outputPorts, port, names, x);
    }
  }

  function DuplicatePortError(known: bool, e: SemanticError): multiset<SemanticError>
  {
    if known then multiset{e} else multiset{}
  }

  /** The diagnostics of an input port: the port itself when its id is taken, each repeated
      operation, the unknown types of the operations it visits, and each aggregated name that is
      not an output port. */
  function InputPortErrors(st: State, p: InputPort): multiset<SemanticError>
  {
    DuplicatePortError(p.id in st.env.inputPorts, DuplicateInputPort(p.id)) +
    DuplicateOperationErrors(p.id, p.operations, {}) +
    OperationsTypeErrors(st.env.definedTypes, FirstDeclarations(p.operations, {})) +
    AggregateErrors(st.env.outputPorts, p.id, p.aggregates)
  }

  /** A taken port id is reported once, every repeat of an operation id after its first once, and
      every occurrence of an aggregated name that is not an output port once. */
  lemma InputPortErrorsCount(st: State, p: InputPort, x: string)
    ensures InputPortErrors(st, p)[DuplicateInputPort(p.id)] == if p.id in st.env.inputPorts then 1 else 0
    ensures InputPortErrors(st, p)[DuplicateOperationInPort(p.id, x)] ==
      if Count(OperationIds(p.operations), x) == 0 then 0 else Count(OperationIds(p.operations), x) - 1
    ensures InputPortErrors(st, p)[UndefinedAggregatedPort(p.id, x)] ==
      if x in st.env.outputPorts then 0 else Count(p.aggregates, x)
  {
    DuplicateOperationCount(p.id, p.operations, {}, x);
    AggregateErrorsCount(st.env.outputPorts, p.id, p.aggregates, x);
  }

  /** An input port: a second port with the same id is an error and replaces the first. Its
      operations are visited as input operations, a repeated operation id being reported instead of
      visited, and every aggregated name must be an output port declared before. */
  function DeclareInputPort(st: State, p: InputPort): (r: State)
    ensures r.env.inputPorts == st.env.inputPorts[p.id := p]
    ensures !r.env.insideInputPort
    ensures r.env.outputPorts == st.env.outputPorts && r.env.procedures == st.env.procedures &&
            r.env.mainDefined == st.env.mainDefined
    ensures Registries(r.env) == Registries(RegisterInputOperations(st.env, FirstDeclarations(p.operations, {})))
    ensures r.errors == st.errors + InputPortErrors(st, p)
  {
    var dups := DuplicatePortError(p.id in st.env.inputPorts, DuplicateInputPort(p.id)) +
                DuplicateOperationErrors(p.id, p.operations, {});
    var st1 := st.(errors := st.errors + dups,
                   env := st.env.(inputPorts := st.env.inputPorts[p.id := p], insideInputPort := true));
    var st2 := DeclareOperations(st1, FirstDeclarations(p.operations, {}));
    RegistriesFrame(st1.env, st.env, FirstDeclarations(p.operations, {}));
    st2.(errors := st2.errors + AggregateErrors(st2.env.outputPorts, p.id, p.aggregates),
         env := st2.env.(insideInputPort := false))
  }

  /** An output port: a second port with the same id is an error and replaces the first; its name
      is recorded for constant tracking and its operations' types are checked. */
  function DeclareOutputPort(st: State, p: OutputPort): (r: State)
    ensures r.env.outputPorts == st.env.outputPorts[p.id := p]
    ensures r.constants == Encounter(st.constants, p.id)
    ensures r.errors[DuplicateOutputPort(p.id)] ==
      st.errors[DuplicateOutputPort(p.id)] + (if p.id in st.env.outputPorts then 1 else 0)
    ensures r.env.inputPorts == st.env.inputPorts && r.env.procedures == st.env.procedures &&
            r.env.mainDefined == st.env.mainDefined
    ensures r.errors == st.errors + DuplicatePortError(p.id in st.env.outputPorts, DuplicateOutputPort(p.id)) +
      OperationsTypeErrors(st.env.definedTypes, p.operations)
    ensures |r.errors| == |st.errors| + (if p.id in st.env.outputPorts then 1 else 0) <==>
      forall i :: 0 <= i < |p.operations| ==> OperationTypesKnown(st.env.definedTypes, p.operations[i])
  {
    var st1 := st.(errors := st.errors + DuplicatePortError(p.id in st.env.outputPorts, DuplicateOutputPort(p.id)),
                   env := st.env.(outputPorts := st.env.outputPorts[p.id := p]),
                   constants := Encounter(st.constants, p.id));
    DeclareOperations(st1, p.operations)
  }

  // ---------------------------------------------------------------- procedures

  /** The declarations a procedure body is visited under. */
  function BodyEnv(env: Env, id: string): Env
  {
    env.(procedures := env.procedures + {id}, mainDefined := env.mainDefined || id == "main", insideInit := id == "init")
  }

  /** A procedure definition: the id is registered before the body is visited, so a procedure may
      call itself. `main` is marked defined and its shape is checked; the body of `init` is visited
      with correlation access forbidden. */
  function DeclareProcedure(st: State, id: string, body: Stmt): (r: State)
    ensures r.env.procedures == st.env.procedures + {id}
    ensures r.env.mainDefined == (st.env.mainDefined || id == "main")
    ensures !r.env.insideInit
    ensures r.env == st.env.(procedures := r.env.procedures, mainDefined := r.env.mainDefined, insideInit := false)
    ensures r.errors == st.errors +
      (if id in st.env.procedures then multiset{DuplicateProcedure(id)} else multiset{}) +
      (if id == "main" then MainShapeErrors(st.env.mode, body) else multiset{}) +
      StmtErrors(BodyEnv(st.env, id), st.courier, body)
    ensures r.courier == st.courier || r.courier.None?
  {
    var st1 := RegisterProcedure(st, id);
    var st2 := if id == "main" then st1.(errors := st1.errors + MainShapeErrors(st1.env.mode, body),
                                         env := st1.env.(mainDefined := true))
               else st1;
    var st3 := VisitStmt(st2.(env := st2.env.(insideInit := id == "init")), body);
    st3.(env := st3.env.(insideInit := false))
  }

  /** A courier definition must name a registered input port; its body is visited as a statement. */
  function DeclareCourier(st: State, port: string, body: Stmt): (r: State)
    ensures r.env == st.env
    ensures r.errors == st.errors +
      (if port in st.env.inputPorts then multiset{} else multiset{UndefinedCourierPort(port)}) +
      StmtErrors(st.env, st.courier, body)
    ensures r.courier == st.courier || r.courier.None?
  {
    VisitStmt(st.(errors := st.errors + (if port in st.env.inputPorts then multiset{} else multiset{UndefinedCourierPort(port)})),
              body)
  }

  // ---------------------------------------------------------------- correlation sets

  predicate LocalStatic(p: VarPath)
  {
    p.scope == LocalPath && p.IsStatic()
  }

  function AliasesErrors(aliases: seq<Alias>): (es: multiset<SemanticError>)
    decreases aliases
    ensures |es| == 0 <==> forall i :: 0 <= i < |aliases| ==> LocalStatic(aliases[i].path)
    ensures NoCallErrors(es)
  {
    if aliases == [] then multiset{}
    else
      assert forall i :: 1 <= i < |aliases| ==> aliases[i] == aliases[1..][i - 1];
      OptionalError(AliasScopeError(aliases[0])) + AliasesErrors(aliases[1..])
  }

  /** The diagnostics of one correlation variable, given the variable paths seen before it. */
  function VariableErrors(v: CorrelationVariable, seen: set<VarPath>): (es: multiset<SemanticError>)
    ensures NoCallErrors(es)
    ensures |es| == 0 <==>
      v.path !in seen && LocalStatic(v.path) && forall j :: 0 <= j < |v.aliases| ==> LocalStatic(v.aliases[j].path)
  {
    OptionalError(VariableScopeError(v.path)) +
    (if v.path in seen then multiset{DuplicateCorrelationVariable} else multiset{}) +
    AliasesErrors(v.aliases)
  }

  function VariablesErrors(vs: seq<CorrelationVariable>, seen: set<VarPath>): (es: multiset<SemanticError>)
    decreases vs
    ensures NoCallErrors(es)
  {
    if vs == [] then multiset{} else VariableErrors(vs[0], seen) + VariablesErrors(vs[1..], seen + {vs[0].path})
  }

  function VariablePaths(vs: seq<CorrelationVariable>): (ps: seq<VarPath>)
    decreases vs
    ensures |ps| == |vs| && forall i :: 0 <= i < |vs| ==> ps[i] == vs[i].path
  {
    if vs == [] then [] else [vs[0].path] + VariablePaths(vs[1..])
  }

  /** Reference: a well-formed list of correlation variables has local static paths, all distinct
      and none in `seen`, and local static alias paths. */
  predicate WellFormedVariables(vs: seq<CorrelationVariable>, seen: set<VarPath>)
  {
    NoDuplicates(VariablePaths(vs)) &&
    forall i :: 0 <= i < |vs| ==>
      vs[i].path !in seen && LocalStatic(vs[i].path) &&
      forall j :: 0 <= j < |vs[i].aliases| ==> LocalStatic(vs[i].aliases[j].path)
  }

  lemma WellFormedVariablesStep(vs: seq<CorrelationVariable>, seen: set<VarPath>)
    requires vs != []
    ensures WellFormedVariables(vs, seen) <==>
      vs[0].path !in seen && LocalStatic(vs[0].path) &&
      (forall j :: 0 <= j < |vs[0].aliases| ==> LocalStatic(vs[0].aliases[j].path)) &&
      WellFormedVariables(vs[1..], seen + {vs[0].path})
  {
    var ps := VariablePaths(vs);
    assert VariablePaths(vs[1..]) == ps[1..];
    if WellFormedVariables(vs, seen) {
      forall i | 0 <= i < |vs[1..]|
        ensures vs[1..][i].path != vs[0].path
      {
        assert ps[0] != ps[i + 1];
      }
    }
    if vs[0].path !in seen && WellFormedVariables(vs[1..], seen + {vs[0].path}) {
      forall i, j | 0 <= i < j < |ps|
        ensures ps[i] != ps[j]
      {
        if i > 0 {
          assert ps[i] == ps[1..][i - 1] && ps[j] == ps[1..][j - 1];
        } else {
          assert ps[j] == vs[1..][j - 1].path;
        }
      }
      assert forall i :: 1 <= i < |vs| ==> vs[i] == vs[1..][i - 1];
    }
  }

  /** A correlation set raises no diagnostic exactly when its variables are well formed. */
  lemma {:induction false} VariablesErrorsEmptyIff(vs: seq<CorrelationVariable>, seen: set<VarPath>)
    ensures |VariablesErrors(vs, seen)| == 0 <==> WellFormedVariables(vs, seen)
    decreases vs
  {
    if vs != [] {
      VariablesErrorsEmptyIff(vs[1..], seen + {vs[0].path});
      WellFormedVariablesStep(vs, seen);
      assert |VariablesErrors(vs, seen)| ==
        |VariableErrors(vs[0], seen)| + |VariablesErrors(vs[1..], seen + {vs[0].path})|;
    }
  }

  /** A correlation set is checked and queued for the correlation checks after the walk. */
  function DeclareCorrelationSet(st: State, cs: CorrelationSet): (r: State)
    ensures r.env == st.env.(correlationSets := st.env.correlationSets + [cs])
    ensures r.errors == st.errors + VariablesErrors(cs.variables, {})
    ensures r == st.(errors := r.errors, env := r.env)
  {
    st.(errors := st.errors + VariablesErrors(cs.variables, {}),
        env := st.env.(correlationSets := st.env.correlationSets + [cs]))
  }

  // ---------------------------------------------------------------- programs

  /** The procedure a declaration defines, if any. */
  function DefinedProcedure(d: Decl): set<string>
  {
    if d.Definition? then {d.id} else {}
  }

  /** Calls to `x` in the statement body of a declaration. */
  function BodyCalls(d: Decl, x: string): nat
  {
    match d
    case Definition(_, body) => Statements(body)[Basic(Call(x))]
    case CourierDefinition(_, body) => Statements(body)[Basic(Call(x))]
    case _ => 0
  }

  function VisitDecl(st: State, d: Decl): State
  {
    match d
    case Execution(m) => st.(env := st.env.(mode := m))
    case InputPortDecl(p) => DeclareInputPort(st, p)
    case OutputPortDecl(p) => DeclareOutputPort(st, p)
    case TypeDecl(t) => DeclareType(st, t)
    case Definition(id, body) => DeclareProcedure(st, id, body)
    case CorrelationSetDecl(cs) => DeclareCorrelationSet(st, cs)
    case CourierDefinition(port, body) => DeclareCourier(st, port, body)
    case _ => st
  }

  /** What a declaration changes of the registrations the program-level properties follow: only a
      definition registers a procedure, only `main` marks main defined, and a declaration leaves no
      courier context behind. */
  predicate DeclStep(st: State, d: Decl, r: State)
  {
    r.env.procedures == st.env.procedures + DefinedProcedure(d) &&
    r.env.mainDefined == (st.env.mainDefined || (d.Definition? && d.id == "main")) &&
    (st.courier.None? ==> r.courier.None?)
  }

  lemma DeclSteps(st: State, d: Decl)
    ensures DeclStep(st, d, VisitDecl(st, d))
  {
    match d
    case InputPortDecl(p) => InputPortStep(st, p);
    case OutputPortDecl(p) => OutputPortStep(st, p);
    case Definition(id, body) => DefinitionStep(st, id, body);
    case CourierDefinition(port, body) => CourierStep(st, port, body);
    case _ =>
  }

  lemma InputPortStep(st: State, p: InputPort)
    ensures DeclStep(st, InputPortDecl(p), VisitDecl(st, InputPortDecl(p)))
  {
  }

  lemma OutputPortStep(st: State, p: OutputPort)
    ensures DeclStep(st, OutputPortDecl(p), VisitDecl(st, OutputPortDecl(p)))
  {
  }

  lemma DefinitionStep(st: State, id: string, body: Stmt)
    ensures DeclStep(st, Definition(id, body), VisitDecl(st, Definition(id, body)))
  {
  }

  lemma CourierStep(st: State, port: string, body: Stmt)
    ensures DeclStep(st, CourierDefinition(port, body), VisitDecl(st, CourierDefinition(port, body)))
  {
  }

  /** The walk over a program: its declarations in document order. */
  function VisitProgram(st: State, prog: Program): State
    decreases prog
  {
    if prog == [] then st else VisitProgram(VisitDecl(st, prog[0]), prog[1..])
  }

  /** Reference: calls to `x` in the declarations before the first definition of `x`. A
      definition's own body may call it. */
  function CallsBeforeDefinition(prog: Program, x: string): nat
    decreases prog
  {
    if prog == [] then 0
    else if prog[0].Definition? && prog[0].id == x then 0
    else BodyCalls(prog[0], x) + CallsBeforeDefinition(prog[1..], x)
  }

  /** Reference: the program defines a procedure named `x`. */
  predicate Defines(prog: Program, x: string)
  {
    exists i :: 0 <= i < |prog| && prog[i].Definition? && prog[i].id == x
  }

  /** A procedure body reports its calls to procedures registered neither before it nor by it. */
  lemma ProcedureCallErrors(st: State, id: string, body: Stmt, x: string)
    ensures DeclareProcedure(st, id, body).errors[UndefinedProcedure(x)] ==
      st.errors[UndefinedProcedure(x)] + (if x in st.env.procedures + {id} then 0 else Statements(body)[Basic(Call(x))])
  {
    CallErrorsCount(BodyEnv(st.env, id), st.courier, body, x);
    var main := if id == "main" then MainShapeErrors(st.env.mode, body) else multiset{};
    assert main[UndefinedProcedure(x)] == 0;
  }

  /** A courier body reports its calls to procedures not registered before it. */
  lemma CourierBodyCallErrors(st: State, port: string, body: Stmt, x: string)
    ensures DeclareCourier(st, port, body).errors[UndefinedProcedure(x)] ==
      st.errors[UndefinedProcedure(x)] + (if x in st.env.procedures then 0 else Statements(body)[Basic(Call(x))])
  {
    CallErrorsCount(st.env, st.courier, body, x);
  }

  lemma InputPortCallErrors(st: State, p: InputPort, x: string)
    ensures VisitDecl(st, InputPortDecl(p)).errors[UndefinedProcedure(x)] == st.errors[UndefinedProcedure(x)]
  {
  }

  lemma OutputPortCallErrors(st: State, p: OutputPort, x: string)
    ensures VisitDecl(st, OutputPortDecl(p)).errors[UndefinedProcedure(x)] == st.errors[UndefinedProcedure(x)]
  {
  }

  lemma TypeCallErrors(st: State, t: TypeDef, x: string)
    ensures VisitDecl(st, TypeDecl(t)).errors[UndefinedProcedure(x)] == st.errors[UndefinedProcedure(x)]
  {
  }

  lemma CorrelationSetCallErrors(st: State, cs: CorrelationSet, x: string)
    ensures VisitDecl(st, CorrelationSetDecl(cs)).errors[UndefinedProcedure(x)] == st.errors[UndefinedProcedure(x)]
  {
  }

  /** A declaration reports each call to `x` in its body once when `x` is not registered once the
      declaration itself is, and reports no other call. */
  lemma DeclCallErrors(st: State, d: Decl, x: string)
    ensures VisitDecl(st, d).errors[UndefinedProcedure(x)] ==
      st.errors[UndefinedProcedure(x)] + (if x in st.env.procedures + DefinedProcedure(d) then 0 else BodyCalls(d, x))
  {
    match d
    case Definition(id, body) => ProcedureCallErrors(st, id, body, x);
    case CourierDefinition(port, body) => CourierBodyCallErrors(st, port, body, x);
    case InputPortDecl(p) => InputPortCallErrors(st, p, x);
    case OutputPortDecl(p) => OutputPortCallErrors(st, p, x);
    case TypeDecl(t) => TypeCallErrors(st, t, x);
    case CorrelationSetDecl(cs) => CorrelationSetCallErrors(st, cs, x);
    case _ =>
  }

  /** The single pass rejects forward calls: a call to `x` is reported exactly when it occurs before
      the first definition of `x`, unless `x` was registered before the program. */
  lemma {:induction false} ProgramCallErrors(st: State, prog: Program, x: string)
    ensures VisitProgram(st, prog).errors[UndefinedProcedure(x)] ==
      st.errors[UndefinedProcedure(x)] + (if x in st.env.procedures then 0 else CallsBeforeDefinition(prog, x))
    decreases prog
  {
    if prog != [] {
      DeclCallErrors(st, prog[0], x);
      DeclSteps(st, prog[0]);
      ProgramCallErrors(VisitDecl(st, prog[0]), prog[1..], x);
      if prog[0].Definition? && prog[0].id == x {
        ProceduresKept(VisitDecl(st, prog[0]), prog[1..], x);
      }
    }
  }

  /** A registered procedure stays registered. */
  lemma {:induction false} ProceduresKept(st: State, prog: Program, x: string)
    requires x in st.env.procedures
    ensures x in VisitProgram(st, prog).env.procedures
    decreases prog
  {
    if prog != [] {
      DeclSteps(st, prog[0]);
      ProceduresKept(VisitDecl(st, prog[0]), prog[1..], x);
    }
  }

  /** After the walk, `main` is marked defined exactly when the program defines it. */
  lemma {:induction false} MainDefinedIff(st: State, prog: Program)
    ensures VisitProgram(st, prog).env.mainDefined <==> st.env.mainDefined || Defines(prog, "main")
    decreases prog
  {
    if prog != [] {
      DeclSteps(st, prog[0]);
      MainDefinedIff(VisitDecl(st, prog[0]), prog[1..]);
      assert Defines(prog, "main") <==>
        (prog[0].Definition? && prog[0].id == "main") || Defines(prog[1..], "main") by {
        if Defines(prog[1..], "main") {
          var i :| 0 <= i < |prog[1..]| && prog[1..][i].Definition? && prog[1..][i].id == "main";
          assert prog[i + 1] == prog[1..][i];
        }
        if Defines(prog, "main") && !(prog[0].Definition? && prog[0].id == "main") {
          var i :| 0 <= i < |prog| && prog[i].Definition? && prog[i].id == "main";
          assert prog[1..][i - 1] == prog[i];
        }
      }
    }
  }

  /** The courier context is none before and after every top-level declaration. */
  lemma {:induction false} ProgramCourierNone(st: State, prog: Program)
    requires st.courier.None?
    ensures VisitProgram(st, prog).courier.None?
    decreases prog
  {
    if prog != [] {
      DeclSteps(st, prog[0]);
      ProgramCourierNone(VisitDecl(st, prog[0]), prog[1..]);
    }
  }
}
