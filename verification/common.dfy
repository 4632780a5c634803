/** Values shared by every part of the model: optional values, HTTP error
    replies, SQL's three-valued logic and the choice of fresh identifiers. */
module Common {

  /** An optional value; `None` stands for SQL NULL in a column and for an
      absent (or, where the handler tests truthiness, falsy) request field. */
  datatype Option<+T> = None | Some(value: T) {
    function GetOr(default: T): T {
      match this
      case Some(v) => v
      case None => default
    }
  }

  /** An error reply: the HTTP status code and the `message` of its JSON body. */
  datatype Failure = Failure(code: nat, message: string)

  /** The outcome of a handler: the success payload or an error reply. */
  datatype Result<+T> = Ok(value: T) | Err(failure: Failure)

  /** A request field as JavaScript's `if (x)` sees it: present and not the
      empty string. */
  predicate Truthy(field: Option<string>) {
    field.Some? && field.value != ""
  }

  /** SQL's three truth values. `WHERE` keeps a row, and `CASE WHEN` takes a
      branch, only when the condition is `STrue`. */
  datatype SqlBool = STrue | SFalse | SNull

  predicate Holds(b: SqlBool) {
    b == STrue
  }

  /** `col = TRUE` / `col = FALSE` on a nullable boolean column. */
  function EqBool(col: Option<bool>, v: bool): SqlBool {
    match col
    case None => SNull
    case Some(b) => if b == v then STrue else SFalse
  }

  /** `col = $k` where both the column and the bound parameter may be NULL. */
  function EqParam<X(==)>(col: Option<X>, param: Option<X>): SqlBool {
    if col.None? || param.None? then SNull
    else if col.value == param.value then STrue
    else SFalse
  }

  /** `col IS NULL` (two-valued). */
  function IsNull<X>(col: Option<X>): SqlBool {
    if col.None? then STrue else SFalse
  }

  /** `col IS NOT NULL` (two-valued). */
  function IsNotNull<X>(col: Option<X>): SqlBool {
    if col.Some? then STrue else SFalse
  }

  function And(a: SqlBool, b: SqlBool): SqlBool {
    if a == SFalse || b == SFalse then SFalse
    else if a == STrue && b == STrue then STrue
    else SNull
  }

  function Or(a: SqlBool, b: SqlBool): SqlBool {
    if a == STrue || b == STrue then STrue
    else if a == SFalse && b == SFalse then SFalse
    else SNull
  }

  /** The length of the longest identifier in `ids`. */
  function MaxLength(ids: seq<string>): (m: nat)
    ensures forall i :: 0 <= i < |ids| ==> |ids[i]| <= m
    ensures ids != [] ==> exists i :: 0 <= i < |ids| && |ids[i]| == m
  {
    if ids == [] then 0
    else
      var rest := MaxLength(ids[1..]);
      if |ids[0]| >= rest then |ids[0]| else rest
  }

  /** A non-empty identifier used by no entry of `ids`: it stands for the
      value of `uuidv4()` or of a database-generated key, which the system
      relies on never to collide. */
  function FreshId(ids: seq<string>): (r: string)
    ensures r !in ids && r != ""
  {
    seq(MaxLength(ids) + 1, _ => 'x')
  }
}
