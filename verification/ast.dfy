/**
  The abstract syntax tree both semantic passes walk. It is produced by the parser, which is not
  part of this model, and is read-only to the verifiers. Node kinds the passes treat identically
  are merged into one constructor (for instance the four compound assignments `+=`, `-=`, `*=`,
  `/=`, or the five literal expressions); source positions are left out.
*/
module Ast {
  import opened Util

  /** Whether a program serves one session or spawns instances. */
  datatype ExecutionMode = Single | Sequential | Concurrent

  /** The two kinds of operation, also used for the courier context. */
  datatype OperationKind = OneWayKind | RequestResponseKind

  // ---------------------------------------------------------------- types

  /** Occurrence range `[min, max]` of a type; the parser may produce negative bounds. */
  datatype Cardinality = Range(min: int, max: int)

  datatype NativeType = VoidType | BoolType | IntType | LongType | DoubleType | StringType | RawType | AnyType

  /** A named sub-definition of an inline type. */
  datatype Field = Field(name: string, def: TypeDef)

  /** Type definitions: inline (with nested named sub-definitions), a link to another named type
      (resolved only after the whole program is known), or a choice between two alternatives. */
  datatype TypeDef =
    | InlineType(id: string, card: Cardinality, native: NativeType, fields: seq<Field>)
    | LinkType(id: string, card: Cardinality, linkedName: string)
    | ChoiceType(id: string, card: Cardinality, left: TypeDef, right: TypeDef)

  // ---------------------------------------------------------------- variable paths

  /** Where a path lives: an ordinary variable, under `global`, or under `csets`. */
  datatype PathScope = LocalPath | GlobalPath | CSetPath

  /** A path key is either a constant identifier or computed by an expression; neither verifier
      looks inside the expression, so it is not represented. */
  datatype PathKey = Named(name: string) | Computed

  datatype PathStep = Step(key: PathKey, computedIndex: bool)

  /** A variable path: never empty, hence the separate first step. */
  datatype VarPath = VarPath(first: PathStep, rest: seq<PathStep>, scope: PathScope)
  {
    function Steps(): seq<PathStep> { [first] + rest }

    predicate IsCSet() { scope == CSetPath }

    predicate IsGlobal() { scope == GlobalPath }

    /** Every key is a constant identifier and no index is computed. */
    predicate IsStatic()
    {
      forall s :: s in Steps() ==> s.key.Named? && !s.computedIndex
    }
  }

  // ---------------------------------------------------------------- expressions

  datatype TreeOperation =
    | TreeAssign(path: VarPath, value: Expr)
    | TreeDeepCopy(path: VarPath, value: Expr)
    | TreePointsTo(path: VarPath, target: VarPath)

  datatype Expr =
    | Constant                                  // integer, long, double, bool and string literals
    | Variable(path: VarPath)
    | Sum(operands: seq<Expr>)
    | Product(operands: seq<Expr>)
    | Or(operands: seq<Expr>)
    | And(operands: seq<Expr>)
    | Not(operand: Expr)
    | Compare(left: Expr, right: Expr)
    | InstanceOf(operand: Expr)
    | IsType(path: VarPath)
    | TypeCast(operand: Expr)
    | VectorSize(path: VarPath)
    | InstallFixedVariable(path: VarPath)
    | InlineTree(root: Expr, operations: seq<TreeOperation>)
    | FreshValue
    | VoidExpr

  // ---------------------------------------------------------------- statements

  datatype ChoiceBranch = ChoiceBranch(guard: Stmt, body: Stmt)
  datatype IfBranch = IfBranch(condition: Expr, body: Stmt)
  datatype Handler = Handler(fault: string, body: Stmt)

  /** The statements without sub-statements. */
  datatype Action =
    | NullProcess | Exit | Compensate | LinkIn | LinkOut | CurrentHandler
    | OneWayIn(op: string, input: Option<VarPath>)
    | Notification(op: string, port: string)
    | SolicitResponse(op: string, port: string, input: Option<VarPath>)
    | Throw(fault: string, faultValue: Option<Expr>)
    | Assign(path: VarPath, value: Expr)
    | CompoundAssign(path: VarPath, value: Expr)  // +=, -=, *=, /=
    | Pointer(left: VarPath, right: VarPath)
    | DeepCopy(left: VarPath, source: Expr)
    | Call(id: string)
    | Increment(path: VarPath)                   // pre/post increment and decrement
    | Undef(path: VarPath)
    | Run
    | NotificationForward
    | SolicitResponseForward

  /** Statements: an action, or a statement composed of sub-statements. */
  datatype Stmt =
    | Basic(action: Action)
    | Sequence(children: seq<Stmt>)
    | Parallel(children: seq<Stmt>)
    | InputChoice(branches: seq<ChoiceBranch>)
    | RequestResponseIn(op: string, input: Option<VarPath>, process: Stmt)
    | Install(handlers: seq<Handler>)
    | ScopeStmt(name: string, body: Stmt)
    | Synchronized(body: Stmt)
    | Spawn(body: Stmt)
    | If(conditionals: seq<IfBranch>, elseBranch: Option<Stmt>)
    | While(condition: Expr, body: Stmt)
    | For(init: Stmt, condition: Expr, post: Stmt, body: Stmt)
    | ForEach(keyPath: VarPath, targetPath: VarPath, body: Stmt)
    | CourierChoice(oneWayInterfaces: seq<Stmt>, requestResponseInterfaces: seq<Stmt>,
                    oneWayOperations: seq<Stmt>, requestResponseOperations: seq<Stmt>)

  /** The operation a message-receiving statement receives on, if it is one. */
  function ReceivedOperation(s: Stmt): Option<string>
  {
    match s
    case Basic(OneWayIn(op, _)) => Some(op)
    case RequestResponseIn(op, _, _) => Some(op)
    case _ => None
  }

  predicate IsInput(s: Stmt)
  {
    ReceivedOperation(s).Some?
  }

  // ---------------------------------------------------------------- declarations

  datatype OperationDecl =
    | OneWayDecl(id: string, request: TypeDef)
    | RequestResponseDecl(id: string, request: TypeDef, response: TypeDef, faults: map<string, TypeDef>)

  datatype Interface = Interface(name: string, operations: map<string, OperationDecl>)

  /** An input port: its own operation declarations in document order, its interfaces, and the
      names of the output ports it aggregates. */
  datatype InputPort = InputPort(id: string, operations: seq<OperationDecl>, interfaces: seq<Interface>,
                                 aggregates: seq<string>)

  datatype OutputPort = OutputPort(id: string, operations: seq<OperationDecl>, interfaces: seq<Interface>)

  datatype Alias = Alias(guard: string, path: VarPath)
  datatype CorrelationVariable = CorrelationVariable(path: VarPath, aliases: seq<Alias>)
  datatype CorrelationSet = CorrelationSet(variables: seq<CorrelationVariable>)

  datatype Decl =
    | Execution(mode: ExecutionMode)
    | InputPortDecl(inputPort: InputPort)
    | OutputPortDecl(outputPort: OutputPort)
    | TypeDecl(typeDef: TypeDef)
    | Definition(id: string, body: Stmt)
    | CorrelationSetDecl(correlationSet: CorrelationSet)
    | CourierDefinition(inputPortName: string, body: Stmt)
    | InterfaceDecl(iface: Interface)
    | Embedded | InterfaceExtender | Documentation

  /** A program is its top-level declarations in document order. */
  type Program = seq<Decl>

  /** The declaration registered under `id` by a port's operation map: a later declaration with the
      same id replaces an earlier one. */
  function FindOperation(ops: seq<OperationDecl>, id: string): (r: Option<OperationDecl>)
    ensures r.Some? ==> r.value in ops && r.value.id == id
    ensures r.None? <==> forall d :: d in ops ==> d.id != id
    ensures r.Some? ==> exists i :: 0 <= i < |ops| && ops[i] == r.value && forall j :: i < j < |ops| ==> ops[j].id != id
  {
    if ops == [] then None
    else if ops[|ops| - 1].id == id then Some(ops[|ops| - 1])
    else
      var r := FindOperation(ops[..|ops| - 1], id);
      assert forall j :: 0 <= j < |ops| - 1 ==> ops[..|ops| - 1][j] == ops[j];
      r
  }
}
