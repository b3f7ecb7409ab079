/**
  Diagnostics of the structural verifier. Each constructor stands for one message the verifier
  can record, carrying the names the message mentions; the node position is left out.
*/
module Diagnostics {
  import opened Util

  datatype SemanticError =
    // ports
    | DuplicateInputPort(port: string)
    | DuplicateOperationInPort(port: string, op: string)
    | UndefinedAggregatedPort(port: string, outputPort: string)
    | DuplicateOutputPort(port: string)
    | UndefinedCourierPort(port: string)
    // operation declarations and types
    | UnknownOperationType(typeName: string, op: string)
    | UnknownFaultType(fault: string)
    | InvalidMinimum(typeId: string)
    | InvalidMaximum(typeId: string)
    | UndefinedLinkedType(typeId: string, linkedName: string)
    | TypeRedefined(typeId: string)
    | OneWayRequestMismatch(op: string)
    | RequestMismatch(op: string)
    | ResponseMismatch(op: string)
    | FaultsMismatch(op: string)
    // procedures
    | DuplicateProcedure(id: string)
    | UndefinedProcedure(id: string)
    | MainNotInput
    | MainNotDefined
    // variable paths
    | CorrelationAccessInInit
    | DynamicCorrelationPath
    | GlobalNeedsIdentifier
    | CSetNeedsIdentifier
    | PathNeedsIdentifier
    // statements
    | GuardNotInput
    | DuplicateGuard(guardOp: Option<string>)
    | InvalidOutputPort(port: string)
    | UndeclaredOperation(op: string, port: string)
    | NotOneWay(op: string, port: string)
    | NotRequestResponse(op: string, port: string)
    | InputInsideCourier
    | ReceiveIntoCorrelationVariable
    | AliasToCorrelationVariable
    | DeepCopyToCorrelationVariable
    | UndefCorrelationVariable
    | ForwardOutsideCourier
    | NotificationForwardInRequestResponse
    | SolicitForwardInOneWay
    // correlation sets
    | GlobalCorrelationVariable
    | CSetCorrelationVariable
    | DynamicCorrelationVariable
    | DuplicateCorrelationVariable
    | DynamicAlias
    | UndefinedGuardType(guard: string)
    | GuardLacksPath(guard: string)
    | MultipleCorrelationSets(op: string)
    | IncompleteAliases(op: string)

  /** The diagnostics a variable path can raise. */
  predicate IsPathError(e: SemanticError)
  {
    e.CorrelationAccessInInit? || e.DynamicCorrelationPath? || e.GlobalNeedsIdentifier? ||
    e.CSetNeedsIdentifier? || e.PathNeedsIdentifier?
  }

  /** The only warning the structural verifier logs (it does not make the program invalid). */
  datatype SemanticWarning = RunNotStable
}
