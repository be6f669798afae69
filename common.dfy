/** Values shared by every part of the model: optional and failing results,
    the abstract clock, request-body strings, SQL parameter values and errors. */
module Common {

  datatype Option<+T> = None | Some(value: T)

  datatype Result<+T, +E> = Ok(value: T) | Err(error: E)

  /** An abstract instant: what CURRENT_TIMESTAMP or `new Date()` yields. */
  type Time = int

  /** A field of a request body or of a parameter object that holds a string
      when it is present: `undefined`, `null`, or a string. */
  datatype JsText = Undefined | Null | Str(s: string)

  /** JavaScript truthiness of such a field: only a non-empty string is truthy. */
  predicate Truthy(v: JsText) {
    v.Str? && v.s != ""
  }

  /** `v || null`: a falsy field is stored as SQL NULL. */
  function OrNull(v: JsText): (r: Option<string>)
    ensures r.Some? <==> Truthy(v)
    ensures r.Some? ==> v == Str(r.value) && r.value != ""
  {
    if Truthy(v) then Some(v.s) else None
  }

  /** A value bound to a `$n` placeholder of a parameterized statement. */
  datatype Value = SqlNull | Text(s: string) | Int(n: int) | IntArray(ns: seq<int>)

  /** The parameter value of a nullable text cell. */
  function CellValue(c: Option<string>): Value {
    match c
    case None => SqlNull
    case Some(s) => Text(s)
  }

  /** The text cell a bound value stands for: its text, or NULL. */
  function AsCell(v: Value): (c: Option<string>)
    ensures CellValue(c) == v || !(v.Text? || v.SqlNull?)
  {
    if v.Text? then Some(v.s) else None
  }

  /** Errors the relational store raises for a statement. */
  datatype DbError =
    | UndefinedColumn(column: string)
    | DuplicateColumn
    | NotNullViolation(column: string)
    | UnsupportedAssignment(column: string)
    | ForeignKeyViolation
    | UniqueViolation
    | BindMismatch
    | StringTooLong(column: string)
    | InvalidDatetime(column: string)
    | NumericOutOfRange

  /** A VARCHAR(n) column takes a string of at most n characters, and a
      longer one only when every character past the n-th is a space. */
  predicate FitsVarchar(n: nat, s: string) {
    |s| <= n || forall i :: n <= i < |s| ==> s[i] == ' '
  }

  /** What such a column stores: the string with the excess spaces cut off. */
  function StoredVarchar(n: nat, s: string): (r: string)
    ensures |r| <= n && r <= s
    ensures FitsVarchar(n, s) ==> forall i :: |r| <= i < |s| ==> s[i] == ' '
    ensures |s| <= n ==> r == s
  {
    if |s| <= n then s else s[..n]
  }

  /** The stored value of a nullable VARCHAR(n) cell. */
  function StoredCell(n: nat, c: Option<string>): (r: Option<string>)
    ensures r.Some? <==> c.Some?
    ensures c.Some? ==> r.value == StoredVarchar(n, c.value)
  {
    match c
    case None => None
    case Some(s) => Some(StoredVarchar(n, s))
  }

  /** A nullable VARCHAR(n) cell takes NULL or a string that fits. */
  predicate CellFits(n: nat, c: Option<string>) {
    c.None? || FitsVarchar(n, c.value)
  }

  const Int4Min: int := -0x8000_0000
  const Int4Max: int := 0x7fff_ffff

  /** The range of an INTEGER (int4) column or parameter. */
  predicate IsInt4(n: int) {
    Int4Min <= n <= Int4Max
  }

  /** What a model call throws. */
  datatype Failure =
    | Db(cause: DbError)
    | NoFieldsToUpdate
    | InvalidRecipientIds
    | TooFewApprovers

  /** No element occurs twice. */
  predicate Distinct<T(==)>(s: seq<T>) {
    forall i, j :: 0 <= i < j < |s| ==> s[i] != s[j]
  }

  /** Strings of pairwise different lengths are distinct. */
  lemma DistinctByLength(s: seq<string>)
    requires forall i, j :: 0 <= i < j < |s| ==> |s[i]| != |s[j]|
    ensures Distinct(s)
  {
  }
}
