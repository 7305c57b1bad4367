/** Enumerations that several components share. */
module Schemas {

  datatype Action = BUY | SELL | HOLD

  datatype Severity = INFO | WARNING | CRITICAL | ERROR
}
