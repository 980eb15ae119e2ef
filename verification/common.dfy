/** Small helpers shared by every module: optional values, how a request
    field that may be absent is rendered by a JavaScript template literal,
    and the "first row of a scan" that better-sqlite3's `.get()` returns. */
module Common {

  datatype Option<+T> = None | Some(value: T)

  /** The text a template literal (or `RegExp.prototype.test`) produces for a
      request field: the field itself, or "undefined" when it is absent. */
  function Text(field: Option<string>): string
  {
    if field.Some? then field.value else "undefined"
  }

  /** SQL `column = ?` with a bound parameter: a NULL parameter matches nothing. */
  predicate SqlEq<T(==)>(column: T, param: Option<T>)
  {
    param == Some(column)
  }

  /** Index of the first element satisfying `p`: the row `.get()` yields when
      a query without ORDER BY scans a table in row order. */
  function FirstIndex<T>(s: seq<T>, p: T -> bool): (r: Option<nat>)
    ensures r.Some? ==> r.value < |s| && p(s[r.value])
    ensures r.Some? ==> forall j :: 0 <= j < r.value ==> !p(s[j])
    ensures r.None? <==> forall j :: 0 <= j < |s| ==> !p(s[j])
  {
    if |s| == 0 then None
    else if p(s[0]) then Some(0)
    else
      match FirstIndex(s[1..], p)
      case None => None
      case Some(k) => Some(k + 1)
  }
}
