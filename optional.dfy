/** A value that may be absent: a column that may hold `null`, a storage key
    that may be missing. */
module Optional {

  datatype Option<+T> = None | Some(value: T) {

    /** The value, or `default` when there is none. Wherever the calendar
        writes `x || default`, the default is itself the falsy value of the
        column's type ("" or 0), so an absent value and a falsy one agree. */
    function GetOr(default: T): T {
      match this
      case Some(v) => v
      case None => default
    }
  }
}
