/** Optional values: a JavaScript property that may be `undefined`/`null`. */
module Common {

  datatype Option<+T> = None | Some(value: T) {
    /** The `x ?? fallback` operator. */
    function GetOr(fallback: T): T {
      match this
      case Some(v) => v
      case None => fallback
    }
  }

  /** A sequence without repeated elements. */
  predicate NoDuplicates<T(==)>(s: seq<T>) {
    forall i, j :: 0 <= i < j < |s| ==> s[i] != s[j]
  }

  /**
   * `set.add(x)` on an insertion-ordered JavaScript `Set` (and on an ORM
   * collection, which ignores an element it already holds).
   */
  function AddUnique<T(==)>(s: seq<T>, x: T): (r: seq<T>)
    ensures x in r
    ensures forall i :: |s| <= i < |r| ==> r[i] == x
    ensures NoDuplicates(s) ==> NoDuplicates(r)
    ensures |s| <= |r| <= |s| + 1 && r[..|s|] == s
    ensures x in s ==> |r| == |s|
  {
    if x in s then s else s + [x]
  }
}
