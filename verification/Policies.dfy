/** Operation classes and the observe policy. */
module Policies {

  datatype OperationClass = ReadOnly | Diagnostic | Configuration | Destructive

  /** The default policy: reads, and diagnostics allowed by name. */
  predicate Authorized(allowedDiagnostics: set<string>, tool: string, class_: OperationClass)
  {
    class_.ReadOnly? || (class_.Diagnostic? && tool in allowedDiagnostics)
  }
}
