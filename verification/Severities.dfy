/** Message counts per severity level: the map over the four fixed level names, absent names reading zero. */
module Severities {

  datatype Severity = Severity(notice: int, warning: int, error: int, critical: int)

  datatype Level = Notice | Warning | Error | Critical

  const NO_SEVERITY := Severity(0, 0, 0, 0)

  function PlusSeverity(a: Severity, b: Severity): Severity {
    Severity(a.notice + b.notice, a.warning + b.warning, a.error + b.error, a.critical + b.critical)
  }

  function AtLevel(s: Severity, level: Level): int {
    match level
    case Notice => s.notice
    case Warning => s.warning
    case Error => s.error
    case Critical => s.critical
  }
}
