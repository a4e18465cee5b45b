/** The optional values the model uses for JavaScript's `undefined`/`null`. */
module Wrappers {

  datatype Option<+T> = None | Some(value: T) {

    /** The value, or `default` when there is none. */
    function GetOr(default: T): T {
      match this
      case Some(v) => v
      case None => default
    }
  }
}

/** Host-editor notifications (`notify`, `showErrorMessage`, ...), recorded as values. */
module Notifications {

  datatype Severity = Info | Warning | Error

  datatype Notice = Notice(severity: Severity, message: string)
}
