/** Shared data of the view-management core: the optional/result wrappers that stand in
    for Python's `None` and exceptions, the SQL parameter type, the parameterised-SQL record
    and the fixed names (django_orm_views/constants.py). */
module Base {

  /** A value that may be absent: Python's `Optional[...]`. */
  datatype Option<+T> = None | Some(value: T)

  /** The outcome of an operation that either returns a value or raises. */
  datatype Result<+R, +E> = Success(value: R) | Failure(error: E)

  /** The schema every generated view lives in (`SUB_SCHEMA_NAME`). */
  const SchemaName: string := "views"

  /** The database a view targets when it does not say otherwise (`DEFAULT_DATABASE_LABEL`). */
  const DefaultDatabase: string := "default"

  /** A positional SQL parameter. The source allows any Python value and hands it to the
      database driver untouched; the model keeps a few representative kinds. */
  datatype SqlParam = IntParam(i: int) | TextParam(t: string) | BoolParam(b: bool) | NullParam

  /** SQL text together with the parameters the driver binds into it (`ParameterisedSQL`). */
  datatype ParameterisedSql = ParameterisedSql(sql: string, params: seq<SqlParam>)

  predicate StartsWith(s: string, prefix: string)
  {
    |prefix| <= |s| && s[..|prefix|] == prefix
  }

  predicate EndsWith(s: string, suffix: string)
  {
    |suffix| <= |s| && s[|s| - |suffix|..] == suffix
  }

  /** No element occurs twice. */
  predicate Distinct<T(==)>(s: seq<T>)
  {
    forall i, j :: 0 <= i < j < |s| ==> s[i] != s[j]
  }
}
