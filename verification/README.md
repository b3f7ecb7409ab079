# Jolie program verifiers, modelled in Dafny

Jolie checks a parsed program in two passes before running it. This project models both passes
as pure functions over an abstract syntax tree and proves what their diagnostics mean.

- **The structural verifier** (`SemanticVerifier`) walks the program once, in document order.
  - It registers ports, operations, types, procedures and correlation sets as it meets them.
  - It checks every statement against what has been registered so far.
  - After the walk it resolves type links, runs the queued equivalence checks for redeclared
    types and operations, and checks the correlation sets, building the correlation function.
  - Last, it checks that `main` is defined.
  - It records every failed check and carries on. Validation fails exactly when some diagnostic
    was recorded, and the failure carries all of them.
- **The fault-flow verifier** (`QualityVerifier`) is advisory.
  - It builds one scope tree per entry point of `main`.
  - Each scope records the faults thrown in it and the names its handlers catch.
  - Procedure calls are inlined.
  - The trees are resolved bottom-up.
  - What escapes an entry point is compared with the faults the served request-response
    operation declares, which gives warnings about undeclared and never-thrown faults.

Modules:

| module | file | contents |
|---|---|---|
| `Util` | util.dfy | `Option`, `Result`, `NoDuplicates`, `Count` |
| `Ast` | ast.dfy | program, declarations, statements, expressions, variable paths, types |
| `Diagnostics` | diagnostics.dfy | one constructor per error and warning message |
| `TypeRules` | type_rules.dfy | type equivalence and path containment |
| `VerifierState` | verifier_state.dfy | the verifier's state; single-node checks; constant tracking |
| `Expressions` | expressions.dfy | the paths an expression mentions and their diagnostics |
| `Traversal` | traversal.dfy | the statement walk |
| `Declarations` | declarations.dfy | top-level declarations and the program walk |
| `Finalization` | finalization.dfy | link resolution, equivalence checks, correlation sets, `Validate` |
| `Scopes` | scope_tree.dfy | the scope tree and its resolution |
| `FaultFlow` | fault_flow.dfy | the fault-flow walk and its warnings |
| `FaultFlowProperties` | fault_flow_properties.dfy | properties of install statements, calls and warnings |
| `FaultFlowBounds` | fault_flow_bounds.dfy | which faults can escape an entry point: an upper bound and direct escapes |
| `AsWritten` | as_written.dfy | two checks exactly as the source writes them (see Findings) |

Design choices:

- **Diagnostics as a multiset.** Several diagnostics come from iterating Java hash maps, whose
  order is unspecified, so structural diagnostics are a multiset. Contracts state which
  diagnostics occur and how many times.
- **Statement visits as a flat walk.** A statement visit is modelled as the sequence of nodes the
  walk reaches, each with its courier context. The diagnostics of a statement are those of its
  nodes.
- **Scope trees as values.** Scope trees are immutable values. A scope is linked to the tree
  twice in the source: through a parent's child list, and through its own parent reference.
  These can disagree, and the flag `promotes` records which case applies.
- **Lifted handler scopes.** Below the entry level, a handler scope joins its parent's child list
  as soon as the handler is met. It travels up the walk in the field `lifted`.

## Model

Sources are cited by path and line range; the structural verifier is `SemanticVerifier.java`,
the fault-flow verifier `QualityVerifier.java`.

| member | source | states |
|---|---|---|
| Ast.FindOperation | libjolie/src/jolie/lang/parse/SemanticVerifier.java:663-697 | A lookup in a port's operations finds nothing exactly when no declaration of the port has the requested id; otherwise it finds a declaration with that id after which the port declares no other one with it, so the last declaration wins |
| TypeRules.EquivalentReflexive | libjolie/src/jolie/lang/parse/SemanticVerifier.java:221-229 | Redeclaring a type with an identical definition never raises "already defined with a different structure" |
| TypeRules.EquivalentSymmetric | libjolie/src/jolie/lang/parse/SemanticVerifier.java:221-229 | The equivalence check of a redeclared type gives the same verdict whichever definition is taken as the earlier one |
| VerifierState.Encounter | libjolie/src/jolie/lang/parse/SemanticVerifier.java:137-144 | After an assignment, the name is recorded. It is constant exactly when it was not recorded before. Every other name is unchanged |
| VerifierState.ConstantIffAssignedOnce | libjolie/src/jolie/lang/parse/SemanticVerifier.java:137-144 | After any run of assignments, a name is recorded iff it was known or assigned. It is constant iff it was constant and never reassigned, or new and assigned exactly once |
| VerifierState.NonConstantStaysNonConstant | libjolie/src/jolie/lang/parse/SemanticVerifier.java:137-144 | A name that is not constant never becomes constant again |
| VerifierState.EncounterAllGrows | libjolie/src/jolie/lang/parse/SemanticVerifier.java:137-144 | Constant tracking only ever adds names and only ever turns names non-constant |
| VerifierState.CardinalityErrors | libjolie/src/jolie/lang/parse/SemanticVerifier.java:413-421 | A negative minimum and a negative maximum are each reported exactly when they occur, once each, and nothing else is reported |
| VerifierState.PathErrors | libjolie/src/jolie/lang/parse/SemanticVerifier.java:438-457 | A path raises no diagnostic exactly when it starts with an identifier and, if it reaches into `csets`, it is static and not inside `init`. A path whose first key is not an identifier gets the message naming its prefix (`global`, `csets` or none) |
| VerifierState.CallErrors | libjolie/src/jolie/lang/parse/SemanticVerifier.java:833-838 | A call is accepted exactly when its procedure is registered so far; otherwise it gets the single "undefined definition" diagnostic |
| VerifierState.RegisterProcedure | libjolie/src/jolie/lang/parse/SemanticVerifier.java:586-590 | A procedure id is added to the registered names. An id that was already registered gets exactly one "already defined identifier" diagnostic; nothing else changes |
| VerifierState.MainShapeErrors | libjolie/src/jolie/lang/parse/SemanticVerifier.java:592-618 | Outside single execution mode, `main` is accepted exactly when its body is an input choice, a receive, or a sequence starting with a receive. Otherwise it gets only the "first statement must be an input" diagnostic |
| VerifierState.ForwardErrors | libjolie/src/jolie/lang/parse/SemanticVerifier.java:1083-1105 | A forward is accepted exactly inside a courier branch of its own kind. Outside any courier it gets the "only inside a courier" diagnostic; in a branch of the other kind it gets the kind-mismatch diagnostic |
| VerifierState.CourierInputErrors | libjolie/src/jolie/lang/parse/SemanticVerifier.java:718-745 | An input statement is reported exactly when it is inside a courier branch |
| VerifierState.OutputOperationErrors | libjolie/src/jolie/lang/parse/SemanticVerifier.java:663-697 | A notification or solicit-response is accepted exactly when its port is registered and declares the operation with the matching kind; otherwise exactly one diagnostic is given |
| VerifierState.CheckGuard | libjolie/src/jolie/lang/parse/SemanticVerifier.java:641-661 | (corrected) One guard gives at most one diagnostic: "not an input" exactly when it is not a receive, and a duplicate naming the operation exactly when it receives an operation seen before. Only a receive adds its operation to those seen |
| VerifierState.GuardErrors | libjolie/src/jolie/lang/parse/SemanticVerifier.java:641-661 | (corrected) An input choice's guard check reports only non-receive guards and repeated receive operations, always naming a real operation, and reports "not an input" once per guard that is not a receive |
| VerifierState.GuardErrorsCount | libjolie/src/jolie/lang/parse/SemanticVerifier.java:641-661 | (corrected) Each receive operation is reported as a duplicate once for every guard on it after the first, or for every guard if it was seen before |
| VerifierState.VariableScopeError | libjolie/src/jolie/lang/parse/SemanticVerifier.java:911-932 | A correlation variable is accepted exactly when its path is neither `global` nor `csets` and is static |
| VerifierState.AliasScopeError | libjolie/src/jolie/lang/parse/SemanticVerifier.java:933-943 | (corrected) An alias is accepted exactly when its own path is neither `global` nor `csets` and is static, so an alias into `csets` is always rejected |
| Expressions.PathsErrorsEmptyIff | libjolie/src/jolie/lang/parse/SemanticVerifier.java:846-899 | The paths of an expression raise no diagnostic exactly when every one of them is accepted |
| Expressions.PathsErrorsConcat | libjolie/src/jolie/lang/parse/SemanticVerifier.java:846-899 | The diagnostics of consecutive sub-expressions add up: no path is checked in context |
| Expressions.ExprErrorsEmptyIff | libjolie/src/jolie/lang/parse/SemanticVerifier.java:846-899 | An expression is accepted exactly when every variable path it mentions is accepted |
| Traversal.CourierAfter | libjolie/src/jolie/lang/parse/SemanticVerifier.java:1055-1081 | A statement either leaves the courier context unchanged or clears it. A courier choice always clears it; a statement containing none leaves it unchanged |
| Traversal.InputErrors | libjolie/src/jolie/lang/parse/SemanticVerifier.java:718-745 | A receive is reported for writing into `csets` exactly when its input path reaches into `csets`, and for being inside a courier exactly when it is |
| Traversal.ActionErrors | libjolie/src/jolie/lang/parse/SemanticVerifier.java:663-1016 | No simple statement except a call raises the "undefined definition" diagnostic |
| Traversal.AliasingErrors | libjolie/src/jolie/lang/parse/SemanticVerifier.java:802-823 | An alias statement is reported for aliasing a correlation variable exactly when its source path reaches into `csets`. A deep copy is reported exactly when its target does, and an undef exactly when its path does. None of them raises a call diagnostic |
| Traversal.DataErrors | libjolie/src/jolie/lang/parse/SemanticVerifier.java:755-799 | Throws, assignments, compound assignments and increments raise only variable-path diagnostics |
| Traversal.VisitStmt | libjolie/src/jolie/lang/parse/SemanticVerifier.java:627-1105 | Visiting a statement leaves the registered declarations unchanged and adds exactly the diagnostics of the nodes it reaches. Constant tracking only adds names or turns them non-constant. It logs one "run" warning per `run` statement it contains. The courier context is kept or cleared |
| Traversal.FlattenStatements | libjolie/src/jolie/lang/parse/SemanticVerifier.java:627-845 | The walk reaches every statement inside a statement exactly once, including guards, handler bodies, branches and loop parts |
| Traversal.VisitsCallErrorsCount | libjolie/src/jolie/lang/parse/SemanticVerifier.java:833-838 | Over a walk, a procedure is reported once per call node naming it when it is not registered, else never |
| Traversal.NodeCallErrors | libjolie/src/jolie/lang/parse/SemanticVerifier.java:833-838 | A node reports a procedure exactly when it is a call naming that procedure and the procedure is not registered |
| Traversal.CallErrorsCount | libjolie/src/jolie/lang/parse/SemanticVerifier.java:833-838 | A statement reports an unregistered procedure once for every call to it that the statement contains, and never reports a registered one |
| Declarations.TypeTreeErrorsEmptyIff | libjolie/src/jolie/lang/parse/SemanticVerifier.java:326-351 | A type raises no cardinality diagnostic exactly when every definition its visit reaches has non-negative bounds |
| Declarations.FieldsErrorsEmptyIff | libjolie/src/jolie/lang/parse/SemanticVerifier.java:339-343 | The sub-types of an inline type raise no cardinality diagnostic exactly when all of them have valid bounds |
| Declarations.DeclareType | libjolie/src/jolie/lang/parse/SemanticVerifier.java:326-365 | A top-level type binds its id to the new definition. If the id was defined, it queues one equivalence check against the replaced definition. It collects its links, adds its cardinality diagnostics, and leaves procedures and the courier context alone |
| Declarations.UnknownFaultErrors | libjolie/src/jolie/lang/parse/SemanticVerifier.java:529-552 | Every fault whose type is undefined is reported exactly once, and nothing else |
| Declarations.OperationTypeErrors | libjolie/src/jolie/lang/parse/SemanticVerifier.java:513-552 | An operation declaration raises no diagnostic exactly when its request type, and for a request-response its response and fault types, are defined |
| Declarations.OperationsTypeErrors | libjolie/src/jolie/lang/parse/SemanticVerifier.java:513-552 | A list of operation declarations raises only unknown-type diagnostics, and none exactly when every declaration in it has its types defined |
| Declarations.AddInputType | libjolie/src/jolie/lang/parse/SemanticVerifier.java:513-552 | Registering an input operation appends it to the operations listed under its request type and leaves the other types' lists unchanged |
| Declarations.RegisterInputOperation | libjolie/src/jolie/lang/parse/SemanticVerifier.java:513-552 | The first input declaration of an id, per kind, becomes canonical and is listed under its request type. A later one leaves the registry unchanged and queues one equivalence check against the canonical one. The other kind is untouched |
| Declarations.RegisterInputOperations | libjolie/src/jolie/lang/parse/SemanticVerifier.java:513-552 | A canonical input operation is never replaced by a later declaration |
| Declarations.RegisteredIff | libjolie/src/jolie/lang/parse/SemanticVerifier.java:513-552 | After a list of input operations is registered, an id is registered for a kind exactly when it was before or the list declares it with that kind |
| Declarations.FirstIsCanonical | libjolie/src/jolie/lang/parse/SemanticVerifier.java:513-552 | The first declaration of an id and kind in the list becomes the canonical one, unless one was registered before |
| Declarations.RegistriesFrame | libjolie/src/jolie/lang/parse/SemanticVerifier.java:513-552 | Registering input operations depends only on the operation registries, not on the rest of the state |
| Declarations.FirstDeclarations | libjolie/src/jolie/lang/parse/SemanticVerifier.java:468-477 | An input port visits only declarations of its own whose id it has not visited before |
| Declarations.DeclareOperations | libjolie/src/jolie/lang/parse/SemanticVerifier.java:459-552 | Operation declarations add only their unknown-type diagnostics, none exactly when all their types are defined. They are registered as input operations exactly when visited inside an input port, and nothing else changes |
| Declarations.FirstDeclarationsIds | libjolie/src/jolie/lang/parse/SemanticVerifier.java:468-477 | The declarations an input port visits carry exactly the port's operation ids |
| Declarations.FirstDeclarationsDistinct | libjolie/src/jolie/lang/parse/SemanticVerifier.java:468-477 | An input port visits at most one declaration per operation id |
| Declarations.DuplicateOperationErrors | libjolie/src/jolie/lang/parse/SemanticVerifier.java:468-477 | Repeated operations of an input port raise only duplicate-operation diagnostics naming that port |
| Declarations.AggregateErrors | libjolie/src/jolie/lang/parse/SemanticVerifier.java:479-495 | Aggregation raises only undefined-aggregated-port diagnostics naming the aggregating port |
| Declarations.DuplicateOperationCount | libjolie/src/jolie/lang/parse/SemanticVerifier.java:468-477 | Every occurrence of an operation id in an input port after its first is reported once |
| Declarations.DuplicateOperationCounts | libjolie/src/jolie/lang/parse/SemanticVerifier.java:468-477 | For every id, the duplicate-operation diagnostics of a port number the id's occurrences minus one |
| Declarations.AggregateErrorsCount | libjolie/src/jolie/lang/parse/SemanticVerifier.java:479-495 | An aggregated name is reported once per occurrence when it is not a registered output port, and never otherwise |
| Declarations.AggregateErrorsCounts | libjolie/src/jolie/lang/parse/SemanticVerifier.java:479-495 | For every name, the undefined-aggregated-port diagnostics of a port number its occurrences when it is not a registered output port, and zero otherwise |
| Declarations.InputPortErrorsCount | libjolie/src/jolie/lang/parse/SemanticVerifier.java:459-498 | An input port is reported as a duplicate once exactly when its id is already registered. Each operation id is reported once per repeat, and each aggregated name once per occurrence when it is not an output port |
| Declarations.DeclareInputPort | libjolie/src/jolie/lang/parse/SemanticVerifier.java:459-498 | A second input port with the same id replaces the first. The diagnostics added are the duplicate-port, duplicate-operation, unknown-type and aggregation diagnostics, the type ones only for the first declaration of each operation. The operation registries end as if only those first declarations were registered. The input-port flag is cleared; output ports, procedures and the main flag are untouched |
| Declarations.DeclareOutputPort | libjolie/src/jolie/lang/parse/SemanticVerifier.java:500-511 | A second output port with the same id replaces the first. The diagnostics added are one duplicate report when the id was registered, plus the unknown-type diagnostics of its operations, none exactly when all their types are defined. The port's name is recorded as an assignment. Input ports, procedures and the main flag are untouched |
| Declarations.DeclareProcedure | libjolie/src/jolie/lang/parse/SemanticVerifier.java:584-625 | A definition registers its id before its body is visited, so it may call itself. `main` marks main defined and has its shape checked. The body of `init` is visited with correlation access forbidden. The diagnostics are exactly those of these steps |
| Declarations.DeclareCourier | libjolie/src/jolie/lang/parse/SemanticVerifier.java:1047-1053 | A courier definition is reported exactly when its input port is not registered. Its diagnostics are that and its body's, and it changes no declaration |
| Declarations.AliasesErrors | libjolie/src/jolie/lang/parse/SemanticVerifier.java:933-943 | (corrected) The aliases of a variable are accepted exactly when every alias path is local and static |
| Declarations.VariableErrors | libjolie/src/jolie/lang/parse/SemanticVerifier.java:911-946 | (corrected) A correlation variable raises no diagnostic exactly when its path is new in the set, local and static, and every alias path is local and static |
| Declarations.VariablesErrorsEmptyIff | libjolie/src/jolie/lang/parse/SemanticVerifier.java:911-946 | (corrected) A correlation set raises no diagnostic exactly when its variables are well formed, repeat no path, and have well-formed aliases |
| Declarations.DeclareCorrelationSet | libjolie/src/jolie/lang/parse/SemanticVerifier.java:911-946 | A correlation set is appended to the sets to check later, and adds exactly its variables' diagnostics; nothing else changes |
| Declarations.DeclSteps | libjolie/src/jolie/lang/parse/SemanticVerifier.java:584-625 | Only a definition registers a procedure, only `main` sets the main flag, and no declaration leaves a courier context behind |
| Declarations.ProcedureCallErrors | libjolie/src/jolie/lang/parse/SemanticVerifier.java:584-625 | A procedure body reports every call to a procedure registered neither before it nor by it, once per call, and no other call |
| Declarations.CourierBodyCallErrors | libjolie/src/jolie/lang/parse/SemanticVerifier.java:1047-1053 | A courier body reports every call to an unregistered procedure, once per call, and no other call |
| Declarations.DeclCallErrors | libjolie/src/jolie/lang/parse/SemanticVerifier.java:833-838 | Any declaration reports each call in its body to a procedure that is not registered once the declaration itself is, and no other call |
| Declarations.ProgramCallErrors | libjolie/src/jolie/lang/parse/SemanticVerifier.java:833-838 | The single pass rejects forward calls: a call is reported exactly when it occurs before the first definition of its procedure, unless that was registered before the program |
| Declarations.ProceduresKept | libjolie/src/jolie/lang/parse/SemanticVerifier.java:586-590 | A registered procedure stays registered for the rest of the program |
| Declarations.MainDefinedIff | libjolie/src/jolie/lang/parse/SemanticVerifier.java:592-593 | After the walk, main is marked defined exactly when the program defines `main` |
| Declarations.ProgramCourierNone | libjolie/src/jolie/lang/parse/SemanticVerifier.java:1055-1081 | Between top-level declarations there is never a courier context |
| Finalization.LinkErrorsCount | libjolie/src/jolie/lang/parse/SemanticVerifier.java:201-209 | A collected link is reported once per collection when its target is undefined after the whole walk, and never otherwise; a link to a type defined later in the document resolves |
| Finalization.LinkErrors | libjolie/src/jolie/lang/parse/SemanticVerifier.java:201-209 | Link resolution raises only undefined-linked-type diagnostics |
| Finalization.TypeCheckErrors | libjolie/src/jolie/lang/parse/SemanticVerifier.java:221-229 | Only type-redefinition diagnostics arise, and none arises exactly when every queued redeclaration is equivalent to the definition it replaced |
| Finalization.OneWayCheckErrors | libjolie/src/jolie/lang/parse/SemanticVerifier.java:554-559 | A redeclared one-way operation is accepted exactly when its request type is equivalent to the canonical one |
| Finalization.FaultChecksIff | libjolie/src/jolie/lang/parse/SemanticVerifier.java:561-582 | Two fault maps pass the per-fault check and have the same size exactly when they declare the same faults with equivalent types |
| Finalization.RequestResponseMismatch | libjolie/src/jolie/lang/parse/SemanticVerifier.java:561-582 | A redeclared request-response operation is accepted exactly when its request, response and faults match the canonical one. Each mismatching fault is reported once, and a different number of faults once more |
| Finalization.RequestResponseCheckErrors | libjolie/src/jolie/lang/parse/SemanticVerifier.java:237-241 | The request-response checks raise only request, response and fault mismatch diagnostics |
| Finalization.AliasCheck | libjolie/src/jolie/lang/parse/SemanticVerifier.java:293-301 | An alias is accepted exactly when its guard is a defined type that contains the alias path |
| Finalization.AliasesCheckErrorsEmptyIff | libjolie/src/jolie/lang/parse/SemanticVerifier.java:293-301 | The aliases of the correlation sets raise no diagnostic exactly when every guard is defined and contains its path |
| Finalization.SetsAliasErrors | libjolie/src/jolie/lang/parse/SemanticVerifier.java:249-254 | The alias checks of all correlation sets raise only undefined-guard and missing-path diagnostics |
| Finalization.Claim | libjolie/src/jolie/lang/parse/SemanticVerifier.java:269-279 | A set's claim gives an owner to exactly the operations already owned or claimed now, and raises only "more than one correlation set" diagnostics |
| Finalization.ClaimOwner | libjolie/src/jolie/lang/parse/SemanticVerifier.java:269-279 | An operation owned before keeps its owner; a newly claimed one belongs to the claiming set |
| Finalization.ClaimErrors | libjolie/src/jolie/lang/parse/SemanticVerifier.java:269-279 | An operation is reported exactly when the set claims it and an earlier set already owns it |
| Finalization.OwnersKeep | libjolie/src/jolie/lang/parse/SemanticVerifier.java:269-279 | Later correlation sets never take an operation away from its owner |
| Finalization.Owners | libjolie/src/jolie/lang/parse/SemanticVerifier.java:244-279 | Every owner is the index of a correlation set, and the claims raise only "more than one correlation set" diagnostics |
| Finalization.OwnerIsFirstClaim | libjolie/src/jolie/lang/parse/SemanticVerifier.java:244-279 | An operation gets an owner exactly when some set correlates it, and the owner is the first such set |
| Finalization.RepeatedClaims | libjolie/src/jolie/lang/parse/SemanticVerifier.java:244-279 | An operation is reported once for every set after the first that correlates it |
| Finalization.AddPairsCount | libjolie/src/jolie/lang/parse/SemanticVerifier.java:256-266 | Recording a pair for a list of operations gives each operation one more pair per listing |
| Finalization.AliasesPairsCount | libjolie/src/jolie/lang/parse/SemanticVerifier.java:252-267 | An operation receives one correlation pair for every alias whose guard type lists it, whether or not its set keeps the claim |
| Finalization.SetsPairsCount | libjolie/src/jolie/lang/parse/SemanticVerifier.java:249-267 | Over all correlation sets, an operation receives one pair for every listing of it under the guard type of an alias |
| Finalization.IncompleteErrors | libjolie/src/jolie/lang/parse/SemanticVerifier.java:282-290 | An owned operation is reported once exactly when its number of correlation pairs differs from the number of variables of its set, and nothing else is reported |
| Finalization.CheckCorrelationSets | libjolie/src/jolie/lang/parse/SemanticVerifier.java:244-291 | The correlation function lists the declared sets in order, and every owner index denotes one of them |
| Finalization.CorrelationOwner | libjolie/src/jolie/lang/parse/SemanticVerifier.java:244-279 | In the correlation function, an operation has an owner exactly when some set correlates it, and the owner is the first such set |
| Finalization.CorrelationPairs | libjolie/src/jolie/lang/parse/SemanticVerifier.java:249-267 | In the correlation function, an operation has one pair for every listing of it under an alias's guard type, over all sets |
| Finalization.CorrelationRepeats | libjolie/src/jolie/lang/parse/SemanticVerifier.java:244-279 | The correlation check reports an operation once for every set after the first that correlates it |
| Finalization.CorrelationIncomplete | libjolie/src/jolie/lang/parse/SemanticVerifier.java:282-290 | The correlation check reports an operation once exactly when it has an owner whose number of variables differs from the operation's number of pairs |
| Finalization.Validate | libjolie/src/jolie/lang/parse/SemanticVerifier.java:303-322 | Validation fails exactly when the walk or the final checks recorded a diagnostic, and the failure carries all of them. On success the correlation function lists the declared sets. The walk uses the corrected guard and alias checks |
| Finalization.FinalChecksClean | libjolie/src/jolie/lang/parse/SemanticVerifier.java:201-322 | When the final checks report nothing, every type link resolves, every queued type and one-way redeclaration is equivalent, no operation is correlated by two sets, and `main` is defined when required |
| Finalization.ValidationSucceeds | libjolie/src/jolie/lang/parse/SemanticVerifier.java:201-322 | A program that validates has no call before the definition of its procedure, defines `main` when required, and has resolved links, equivalent redeclared types and at most one correlation set per operation |
| Finalization.MainMissingFails | libjolie/src/jolie/lang/parse/SemanticVerifier.java:303-322 | When main is required and the program does not define it, validation fails and reports the missing main |
| Finalization.MainDefinedNotReported | libjolie/src/jolie/lang/parse/SemanticVerifier.java:303-322 | A program that defines `main` is never reported for a missing main |
| Finalization.ForwardCallFails | libjolie/src/jolie/lang/parse/SemanticVerifier.java:303-322 | A call before the definition of its procedure makes validation fail, with at least one diagnostic per such call |
| Scopes.AddThrown | libjolie/src/main/java/jolie/lang/parse/QualityVerifier.java:52-56 | Recording a thrown fault adds its name. A name already recorded keeps its first origin; a new one gets the given origin |
| Scopes.AddCaught | libjolie/src/main/java/jolie/lang/parse/QualityVerifier.java:58-62 | Recording a caught name adds it to the listed names, keeps the earlier list as a prefix and never lists a name twice |
| Scopes.Merge | libjolie/src/main/java/jolie/lang/parse/QualityVerifier.java:88-93 | Promoting faults to a scope adds their names and never changes an origin the scope already records |
| Scopes.Catch | libjolie/src/main/java/jolie/lang/parse/QualityVerifier.java:77-86 | A catch-all handler removes every fault. Otherwise exactly the caught names are removed; the remaining origins are unchanged |
| Scopes.Resolve | libjolie/src/main/java/jolie/lang/parse/QualityVerifier.java:72-95 | A resolved scope never lets a fault escape that it catches, and lets nothing escape when it catches `default` |
| Scopes.PromoteKeeps | libjolie/src/main/java/jolie/lang/parse/QualityVerifier.java:72-95 | Resolving the children never changes the origin of a fault the scope already records |
| Scopes.PromoteNames | libjolie/src/main/java/jolie/lang/parse/QualityVerifier.java:72-95 | After its children are resolved, a scope records exactly its own faults and those escaping a child that has a parent |
| Scopes.PromoteFirstOrigin | libjolie/src/main/java/jolie/lang/parse/QualityVerifier.java:72-95 | A fault the scope does not record itself takes its origin from the first child, in creation order, that hands it up |
| Scopes.ResolveNames | libjolie/src/main/java/jolie/lang/parse/QualityVerifier.java:72-95 | A fault escapes a scope iff no catch-all is installed, its name is not caught, and it is thrown in the scope or escapes a child with a parent |
| Scopes.ResolveKeepsOwn | libjolie/src/main/java/jolie/lang/parse/QualityVerifier.java:72-95 | A fault thrown directly in a scope and not caught there escapes with its first origin |
| Scopes.OrphanIgnored | libjolie/src/main/java/jolie/lang/parse/QualityVerifier.java:88-93 | A child scope without a parent contributes nothing to the scope that lists it |
| FaultFlow.InterfaceOperation | libjolie/src/main/java/jolie/lang/parse/QualityVerifier.java:622-631 | The declaration found is the one in the first interface declaring the operation; nothing is found exactly when no interface declares it |
| FaultFlow.AddFaults | libjolie/src/main/java/jolie/lang/parse/QualityVerifier.java:206-215 | The callee's faults are added with the call as origin, and faults already recorded keep their origin |
| FaultFlow.ActionFlow | libjolie/src/main/java/jolie/lang/parse/QualityVerifier.java:206-378 | A `throw` records its fault, with no origin when new. A solicit-response records exactly the callee's faults, with `op@port` as origin for the new ones. Every other simple statement changes nothing |
| FaultFlow.Walk | libjolie/src/main/java/jolie/lang/parse/QualityVerifier.java:165-488 | Walking a statement never changes an origin already recorded in the current scope. It adds exactly the fault names of the statement's throws and solicit-responses, including those in procedure bodies it inlines, and none from nested scopes or handlers. It adds to the caught names exactly the fault names of the installs it meets outside nested scopes. At the entry level it lifts no handler scope; below it, every scope it lifts has a parent to promote to |
| FaultFlow.WalkScoping | libjolie/src/main/java/jolie/lang/parse/QualityVerifier.java:192-368 | A request-response body, a `scope` block and a courier choice record no fault and catch nothing in the current scope; an install records no fault and catches exactly its handlers' fault names |
| FaultFlow.WalkHandler | libjolie/src/main/java/jolie/lang/parse/QualityVerifier.java:351-368 | Installing a handler adds its fault name to the caught names and never changes the current scope's recorded faults; at the entry level it lifts nothing |
| FaultFlow.WalkHandlers | libjolie/src/main/java/jolie/lang/parse/QualityVerifier.java:351-368 | An install catches exactly the fault names of its handlers, never changes the recorded faults of the current scope, and at the entry level lifts no handler scope |
| FaultFlow.RootScope | libjolie/src/main/java/jolie/lang/parse/QualityVerifier.java:126-162 | An entry point's scope has no parent |
| FaultFlow.MainRoots | libjolie/src/main/java/jolie/lang/parse/QualityVerifier.java:126-155 | `main` yields one entry point per operation an input-choice guard receives, one for a request-response body keyed by its operation, and otherwise one without operation |
| FaultFlow.ChoiceRoots | libjolie/src/main/java/jolie/lang/parse/QualityVerifier.java:129-143 | An input choice adds an entry point for exactly the operations its guards receive |
| FaultFlowProperties.ChoiceRootsLastWins | libjolie/src/main/java/jolie/lang/parse/QualityVerifier.java:129-143 | The entry point of a guard's operation is the scope of the last branch whose guard receives it |
| FaultFlowProperties.ChoiceRootsKept | libjolie/src/main/java/jolie/lang/parse/QualityVerifier.java:129-143 | An entry point whose key no guard receives keeps its earlier scope |
| FaultFlowProperties.MainRootsKept | libjolie/src/main/java/jolie/lang/parse/QualityVerifier.java:126-155 | Walking `main` keeps every earlier entry point whose key it does not add |
| FaultFlow.VisitFlowDecl | libjolie/src/main/java/jolie/lang/parse/QualityVerifier.java:126-162 | A procedure other than `main` is recorded only if no definition of its id was recorded before. No other declaration records a procedure, and only `main` creates entry points |
| FaultFlow.InputOperations | libjolie/src/main/java/jolie/lang/parse/QualityVerifier.java:586-593 | With the input ports enumerated once each, an operation is served exactly when some input port's interfaces declare it. Its declaration comes from the last port in the enumeration that declares it |
| FaultFlow.LastInterfaceOperation | libjolie/src/main/java/jolie/lang/parse/QualityVerifier.java:588-592 | The declaration found is the one in the last interface declaring the operation; nothing is found exactly when no interface declares it |
| FaultFlow.InterfacesOperationsValue | libjolie/src/main/java/jolie/lang/parse/QualityVerifier.java:588-592 | After a port's interfaces are added, an operation is known when it was before or some interface declares it, and the last declaring interface decides its declaration |
| FaultFlow.PortsOperationsValue | libjolie/src/main/java/jolie/lang/parse/QualityVerifier.java:586-593 | Taking the ports in order, an operation is served exactly when some port declares it, with the declaration of the last such port |
| FaultFlow.LastServingNone | libjolie/src/main/java/jolie/lang/parse/QualityVerifier.java:586-593 | The search over the ports finds nothing exactly when no port declares the operation |
| FaultFlow.LastServingSome | libjolie/src/main/java/jolie/lang/parse/QualityVerifier.java:586-593 | A declaration the search finds comes from a port after which no port declares the operation |
| FaultFlow.OperationWarnings | libjolie/src/main/java/jolie/lang/parse/QualityVerifier.java:599-614 | A declared fault is warned "never thrown" iff it does not escape while something else does. An escaping fault is warned "not declared", with its origin, iff the operation does not declare it. All warnings name the operation |
| FaultFlow.EntryWarnings | libjolie/src/main/java/jolie/lang/parse/QualityVerifier.java:596-615 | An entry point that does not receive a request-response operation of the input ports gets no warning |
| FaultFlow.AllWarnings | libjolie/src/main/java/jolie/lang/parse/QualityVerifier.java:596-617 | The warnings are exactly those of the individual entry points |
| FaultFlow.Validate | libjolie/src/main/java/jolie/lang/parse/QualityVerifier.java:583-617 | A program without input ports, or without `main`, gets no warning |
| FaultFlow.VisitFlowInputPorts | libjolie/src/main/java/jolie/lang/parse/QualityVerifier.java:396-398 | Walking the program registers exactly the input ports it declares |
| FaultFlow.VisitFlowRoots | libjolie/src/main/java/jolie/lang/parse/QualityVerifier.java:126-162 | A program that does not define `main` creates no entry point |
| FaultFlowProperties.InstallCatches | libjolie/src/main/java/jolie/lang/parse/QualityVerifier.java:351-368 | An install marks every handler's fault name as caught in the current scope, listing each name once, and records no fault there |
| FaultFlowProperties.RootInstallOrphans | libjolie/src/main/java/jolie/lang/parse/QualityVerifier.java:351-368 | At the entry level the current scope gains one child per handler, in order; the i-th is the scope of the i-th handler's body walked on its own, and none has a parent |
| FaultFlowProperties.NestedInstallLifts | libjolie/src/main/java/jolie/lang/parse/QualityVerifier.java:351-368 | Below the entry level the current scope gains no child. The parent is given, after the earlier lifted scopes, the scope of each handler's body walked on its own, the first handler's first; every scope given is one of those or one lifted out of a handler body, and each can promote to the parent |
| FaultFlowProperties.RootHandlersAttach | libjolie/src/main/java/jolie/lang/parse/QualityVerifier.java:351-368 | At the entry level an install appends to the current scope's children exactly the handler scopes, in handler order, and lifts nothing |
| FaultFlowProperties.NestedHandlersAttach | libjolie/src/main/java/jolie/lang/parse/QualityVerifier.java:351-368 | Below the entry level an install appends to the lifted scopes exactly the handler scopes, in handler order, and adds no child |
| FaultFlowProperties.RootHandlerScopes | libjolie/src/main/java/jolie/lang/parse/QualityVerifier.java:351-368 | At the entry level there is one handler scope per handler, the i-th being the i-th handler's body walked on its own, without parent |
| FaultFlowProperties.NestedHandlerScopesCover | libjolie/src/main/java/jolie/lang/parse/QualityVerifier.java:351-368 | Below the entry level every handler's own scope is among the handler scopes, the first handler's first |
| FaultFlowProperties.NestedHandlerScopesFrom | libjolie/src/main/java/jolie/lang/parse/QualityVerifier.java:351-368 | Below the entry level every handler scope can promote and is a handler's own scope or one lifted out of a handler body |
| Scopes.ResolveWithin | libjolie/src/main/java/jolie/lang/parse/QualityVerifier.java:72-95 | A scope lets escape only faults thrown in it or in some scope below it |
| FaultFlowBounds.WalkWithin | libjolie/src/main/java/jolie/lang/parse/QualityVerifier.java:165-488 | Every fault recorded in the frame after a walk, in the current scope, its children or the lifted scopes, was recorded before or is thrown somewhere in the statement, nested scopes and handlers included |
| FaultFlowBounds.EntryResidualWithin | libjolie/src/main/java/jolie/lang/parse/QualityVerifier.java:126-162 | An entry point lets escape only faults thrown somewhere in its statements |
| FaultFlowBounds.RootFaultEscapes | libjolie/src/main/java/jolie/lang/parse/QualityVerifier.java:126-162 | A fault thrown directly in an entry point's statements escapes it when those statements install no handler for it and no catch-all |
| FaultFlowBounds.RequestResponseFaultEscapes | libjolie/src/main/java/jolie/lang/parse/QualityVerifier.java:192-199 | A fault thrown directly in a request-response body escapes the entry point when the body installs no handler for it and no catch-all |
| FaultFlowProperties.RootHandlersContained | libjolie/src/main/java/jolie/lang/parse/QualityVerifier.java:351-368 | An entry point that only installs handlers lets nothing escape, whatever the handler bodies throw |
| FaultFlowProperties.RootHandlerFaultDropped | libjolie/src/main/java/jolie/lang/parse/QualityVerifier.java:351-368 | A fault thrown by a handler installed directly in an entry point escapes nothing |
| FaultFlowProperties.ScopedHandlerFaultEscapes | libjolie/src/main/java/jolie/lang/parse/QualityVerifier.java:341-368 | The same handler inside a `scope` block lets its fault escape the entry point |
| FaultFlowProperties.FirstDefinitionKept | libjolie/src/main/java/jolie/lang/parse/QualityVerifier.java:157-160 | A later definition of a procedure id never replaces the first |
| FaultFlowProperties.EntryWarningsIff | libjolie/src/main/java/jolie/lang/parse/QualityVerifier.java:596-615 | For an entry point serving a request-response operation, a fault gets "not declared" iff it escapes and is undeclared. A declared fault gets "never thrown" iff it does not escape while something else does |
| AsWritten.CheckGuardAsWritten | libjolie/src/jolie/lang/parse/SemanticVerifier.java:641-661 | As written: a guard that is not a receive keeps the previous guard's operation name, and the duplicate test runs on that name |
| AsWritten.StaleGuardNameReported | libjolie/src/jolie/lang/parse/SemanticVerifier.java:641-661 | A receive on `a` followed by a guard that is not a receive: as written, `a` is reported as a duplicate; the corrected check reports only the bad guard |
| AsWritten.GuardsAgreeOnReceives | libjolie/src/jolie/lang/parse/SemanticVerifier.java:641-661 | When every guard is a receive, the check as written and the corrected check give the same diagnostics |
| AsWritten.AliasScopeErrorAsWritten | libjolie/src/jolie/lang/parse/SemanticVerifier.java:933-943 | As written: the `csets` test on an alias looks at the variable's path instead of the alias path |
| AsWritten.CSetAliasAccepted | libjolie/src/jolie/lang/parse/SemanticVerifier.java:933-943 | An ordinary variable with an alias into `csets`: accepted as written, rejected by the corrected check |
| AsWritten.AliasRulesAgree | libjolie/src/jolie/lang/parse/SemanticVerifier.java:933-943 | When a variable and its alias are both in `csets` or both outside, the alias test as written and the corrected one agree |

## Left out

- Provide-until statements are not modelled in either verifier. The structural check requires
  both branches to be input choices and checks them as one input choice. The fault-flow pass visits
  both branches.
- Logging, the printed text of messages, and parsing contexts are left out. Diagnostics are
  constructors of `SemanticError`, `SemanticWarning` and `FaultFlow.Warning`.
- The type map the parser hands over is a parameter of `Finalization.Validate`.
  `OLParser.createTypeDeclarationMap` is not part of this model.
- Type equivalence and path containment (`isEquivalentTo`, `containsPath`) are defined outside
  the verifier source. `TypeRules` gives them a plain structural meaning:
  - equivalence compares kind, cardinality, native type and sub-types by name and position;
  - containment descends through the sub-types of inline definitions.
- `VariablePathNode.isStatic` and `isCSet` are defined outside the verifier source.
  - A path is static when every key is an identifier and no index is computed.
  - A path is in `csets` when its prefix says so.
- `VariablePathSet.contains`, used for duplicate correlation variables at
  SemanticVerifier.java:928, is defined outside the verifier source. The model reads it as
  structural equality of paths: a variable is a duplicate when an equal path was seen before in
  the same set.
- `TypeChoiceDefinition.hasSubTypes` and `subTypes`, which the choice-type visit at
  SemanticVerifier.java:386-390 iterates, are defined outside the verifier source. The model
  assumes a choice type has no sub-types of its own: `ChoiceType` holds only its two
  alternatives, and the visit checks its cardinality, registers it and collects the alternatives
  that are links.
- The inline-tree expression visit at SemanticVerifier.java:975-982 calls `assignments()`, but the
  node class exposes a list of tree operations. The model visits that list: each assignment,
  deep copy and points-to contributes its paths and its value's paths.
- Java hash-map iteration order is unspecified.
  - Structural diagnostics are a multiset.
  - The fault-flow verifier's input ports are taken in the order given by the parameter
    `portOrder` of `FaultFlow.Validate`, which lists each declared input port exactly once.
  - The correlation function keeps owners and pairs in maps, whose order does not matter.
- Where the source would throw an unchecked exception, the model continues:
  - a `main` whose body is an empty sequence is rejected (the source indexes an empty list);
  - an assignment path whose first key is computed records no name (the source casts it);
  - a fault-flow input-choice guard that is not a receive gets an entry point without operation
    (the source casts it);
  - a solicit-response on an unknown output port raises no fault (the source dereferences null);
  - a correlation alias whose guard type lists no input operation contributes no operation.
- FaultFlow.Walk: procedure calls are inlined up to a `fuel` bound, after which a call is skipped.
  The source inlines without bound and would not terminate on a recursive procedure.
- FaultFlow.VisitFlowDecl: only procedures defined before `main` are inlined in it. This is what
  the source does, since `main` is walked when it is met.
- The courier visits of the fault-flow verifier are empty in the source and are no-ops here.
- FaultFlow.Validate: its contract states only the two cases without warnings. The warnings in
  general are those of `AllWarnings` over the walked program, described by `EntryWarningsIff`.
- The constant map's values after validation and the `run` warnings are returned but not
  compared against a reference beyond `VisitStmt` and `ConstantIffAssignedOnce`.
- The two defects under Findings are corrected in the structural verifier's walk. The rows marked
  "(corrected)" and the members below follow the corrected rules; `AsWritten` models the rules as
  written, and `GuardsAgreeOnReceives` and `AliasRulesAgree` state where the two agree.
- VerifierState.CheckGuard: as written, a guard that is not a receive keeps the previous guard's
  operation name, so that name may be reported as a duplicate as well; the model does not.
- VerifierState.GuardErrors: as written, the stale operation name of a non-receive guard can add
  duplicate diagnostics; the model reports only the non-receive guard.
- VerifierState.GuardErrorsCount: counts the duplicates of the corrected guard check.
- Traversal.ControlErrors: checks input-choice guards with the corrected `GuardErrors`.
- VerifierState.AliasScopeError: as written, an alias into `csets` of a variable outside `csets`
  passes, and a `csets` variable is reported again for each of its aliases even when the alias is
  local; the model tests the alias path.
- Declarations.AliasesErrors: uses the corrected alias test, as above.
- Declarations.VariableErrors: uses the corrected alias test, as above.
- Declarations.VariablesErrorsEmptyIff: states the corrected alias test, as above.
- Finalization.Validate: its diagnostics are those of the walk with the corrected guard and alias
  tests; on the inputs named under Findings the source reports differently.

## Findings

| source | as written | input that shows it | evidently intended | confidence | as-written member | corrected member |
|---|---|---|---|---|---|---|
| libjolie/src/jolie/lang/parse/SemanticVerifier.java:641-661 | The operation name of an input-choice guard is one variable shared by all branches. A guard that is not a receive is reported but leaves the previous branch's name in place, and the duplicate test then runs on that stale name | an input-choice node whose first guard receives `a` and whose second guard is not a receive | only the non-receive guard is reported; `a` occurs once and is no duplicate | not executed | AsWritten.StaleGuardNameReported | VerifierState.GuardErrorsCount |
| libjolie/src/jolie/lang/parse/SemanticVerifier.java:933-943 | The alias check tests `path.isCSet()`, the correlation variable's own path, where every neighbouring test looks at the alias path; an alias into `csets` passes | a correlation variable `id` with alias `csets.id` | the alias into `csets` is rejected as the variable itself would be | not executed | AsWritten.CSetAliasAccepted | VerifierState.AliasScopeError |
