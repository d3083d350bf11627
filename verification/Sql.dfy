// SQL's three-valued logic, as far as the modelled WHERE clauses go.
module Sql {
  import opened Text

  datatype Truth = True | False | Unknown

  /** cell = v, which is unknown of NULL. */
  function Equal<T(==)>(cell: Option<T>, v: T): Truth {
    match cell
    case None => Unknown
    case Some(x) => if x == v then True else False
  }

  /** cell IS NULL, which never is. */
  function Null<T>(cell: Option<T>): Truth {
    if cell.None? then True else False
  }

  function Among<T(==)>(cell: Option<T>, vs: set<T>): Truth {
    match cell
    case None => Unknown
    case Some(x) => if x in vs then True else False
  }

  function Either(a: Truth, b: Truth): Truth {
    if a == True || b == True then True
    else if a == Unknown || b == Unknown then Unknown
    else False
  }
}
