/** Types and predicates that several models share. */
module Common {

  datatype Option<+V> = None | Some(value: V) {
    function GetOr(default_: V): V {
      match this
      case None => default_
      case Some(v) => v
    }
  }

  predicate NoDuplicates<T(==)>(s: seq<T>) { forall i, j | 0 <= i < j < |s| :: s[i] != s[j] }
}
