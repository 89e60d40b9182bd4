/** Value conventions shared by the modules: optional values, the three states of a
    Python dict key as read with `d.get(key)`, and calls that may raise. */
module Common {

  datatype Option<+T> = None | Some(value: T)

  /** One key of a Python dict: missing, present with `None`, or present with a value. */
  datatype Field<+T> = Absent | Null | Val(value: T) {

    /** `d.get(key)`: `None` both for a missing key and for a `None` value. */
    function Get(): Option<T> {
      if Val? then Some(value) else None
    }

    /** `d.get(key, default)`: the default only when the key is missing. */
    function GetOr(default: T): Option<T> {
      match this
      case Absent => Some(default)
      case Null => None
      case Val(v) => Some(v)
    }
  }

  /** The dict value stored from an optional value: None is stored as `None`. */
  function FieldOf<T>(o: Option<T>): (f: Field<T>)
    ensures f != Absent && f.Get() == o
  {
    if o.Some? then Val(o.value) else Null
  }

  /** The result of a call that either returns or raises the named Python exception. */
  datatype Outcome<+T> = Ok(value: T) | Raised(exception: string)

  function Min(a: int, b: int): int { if a <= b then a else b }

  function Max(a: int, b: int): int { if a >= b then a else b }
}
