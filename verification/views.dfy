/** The view record and its SQL text builders (django_orm_views/views.py): naming,
    creation statements for plain and materialised views, the refresh statement with its
    concurrent-refresh precondition, and the database check run when a view class is defined. */
module Views {
  import opened Base
  import opened Names

  /** Where a view's SELECT comes from: a raw SQL string (`PostgresViewFromSQL`) or a
      queryset, whose compiled text and parameters are taken as given
      (`PostgresViewFromQueryset`). */
  datatype SqlSource = FromSql(text: string) | FromQueryset(query: ParameterisedSql)

  /** A plain view, or one with `PostgresMaterialisedViewMixin` and its optional `pk_field`. */
  datatype ViewKind = Plain | Materialised(pkField: Option<string>)

  /** One view class. `dependencies` are the view classes listed in `view_dependencies`;
      `hidden` is set by `HiddenViewMixin`; `database` is the connection it targets. */
  datatype View = View(
    className: string,
    prefix: Option<string>,
    source: SqlSource,
    kind: ViewKind,
    hidden: bool,
    database: string,
    dependencies: seq<View>)

  /** Raised when a view class lists dependencies on more than one database. */
  datatype DefinitionError = InvalidViewDependencies

  /** The `ValueError` of a concurrent refresh without a `pk_field`. */
  datatype RefreshError = RefreshWithoutPkField

  function Name(v: View): string
  {
    ViewName(v.className, v.prefix)
  }

  /** `name_with_schema`: the view name under the view schema. */
  function NameWithSchema(v: View): (r: string)
    ensures |r| == |SchemaName| + 1 + |Name(v)|
    ensures r[..|SchemaName|] == SchemaName && r[|SchemaName|] == '.'
    ensures r[|SchemaName| + 1..] == Name(v)
  {
    SchemaName + "." + Name(v)
  }

  /** `_parameterised_sql`: raw SQL carries no parameters; a queryset's compiled SQL keeps
      its own. */
  function Body(v: View): (r: ParameterisedSql)
    ensures v.source.FromSql? ==> r.sql == v.source.text && r.params == []
    ensures v.source.FromQueryset? ==> r == v.source.query
  {
    match v.source
    case FromSql(text) => ParameterisedSql(text, [])
    case FromQueryset(query) => query
  }

  /** Python truthiness of `pk_field`: set and non-empty. */
  predicate HasPkField(kind: ViewKind)
  {
    kind.Materialised? && kind.pkField.Some? && kind.pkField.value != ""
  }

  function UniqueIndexSql(v: View, pk: string): string
  {
    "CREATE UNIQUE INDEX " + Name(v) + "_" + pk + " ON " + NameWithSchema(v) + " (" + pk + ");"
  }

  /** `creation_sql`: the materialised variant overrides the plain one. */
  function CreationSql(v: View): (r: ParameterisedSql)
    ensures r.params == Body(v).params
    ensures v.source.FromSql? ==> r.params == []
    ensures StartsWith(r.sql, "CREATE ")
  {
    var body := Body(v);
    match v.kind
    case Plain =>
      ParameterisedSql("CREATE VIEW " + NameWithSchema(v) + " AS " + body.sql + ";", body.params)
    case Materialised(pk) =>
      var view := "CREATE MATERIALIZED VIEW " + NameWithSchema(v) + " AS " + body.sql + ";";
      var index := if HasPkField(v.kind) then UniqueIndexSql(v, pk.value) else "";
      ParameterisedSql(view + index, body.params)
  }

  /** The same view declared without the materialised mixin. */
  function AsPlain(v: View): View
  {
    v.(kind := Plain)
  }

  /** A materialised view is created by the plain view's statement with `MATERIALIZED`
      inserted, followed by a unique index exactly when `pk_field` is set and non-empty;
      both bind the same parameters. */
  lemma {:induction false} MaterialisedExtendsPlain(v: View)
    requires v.kind.Materialised?
    ensures var plain := CreationSql(AsPlain(v)).sql;
            && CreationSql(v).sql
               == "CREATE MATERIALIZED " + plain[|"CREATE "|..]
                  + (if HasPkField(v.kind) then UniqueIndexSql(v, v.kind.pkField.value) else "")
            && CreationSql(v).params == CreationSql(AsPlain(v)).params
            && (HasPkField(v.kind) <==> |CreationSql(v).sql| > |CreationSql(AsPlain(v)).sql| + |"MATERIALIZED "|)
  {
    var tail := "VIEW " + NameWithSchema(v) + " AS " + Body(v).sql + ";";
    PlainCreationSplits(v, tail);
    var index := if HasPkField(v.kind) then UniqueIndexSql(v, v.kind.pkField.value) else "";
    MaterialisedCreationSplits(v, tail, index);
  }

  lemma PlainCreationSplits(v: View, tail: string)
    requires tail == "VIEW " + NameWithSchema(v) + " AS " + Body(v).sql + ";"
    ensures CreationSql(AsPlain(v)).sql == "CREATE " + tail
    ensures CreationSql(AsPlain(v)).sql[|"CREATE "|..] == tail
  {
    assert NameWithSchema(AsPlain(v)) == NameWithSchema(v);
    assert Body(AsPlain(v)) == Body(v);
    assert "CREATE VIEW " + NameWithSchema(v) + " AS " + Body(v).sql + ";" == "CREATE " + tail;
  }

  lemma MaterialisedCreationSplits(v: View, tail: string, index: string)
    requires v.kind.Materialised?
    requires tail == "VIEW " + NameWithSchema(v) + " AS " + Body(v).sql + ";"
    requires index == if HasPkField(v.kind) then UniqueIndexSql(v, v.kind.pkField.value) else ""
    ensures CreationSql(v).sql == "CREATE MATERIALIZED " + tail + index
  {
    assert "CREATE MATERIALIZED VIEW " + NameWithSchema(v) + " AS " + Body(v).sql + ";"
        == "CREATE MATERIALIZED " + tail;
  }

  /** Reads the schema-qualified name and the body back from a plain creation statement. */
  function ParseCreateView(sql: string): Option<(string, string)>
  {
    var head := "CREATE VIEW ";
    if StartsWith(sql, head) && EndsWith(sql, ";") && |head| < |sql| then
      match SplitAt(sql[|head|..|sql| - 1], ' ')
      case Some((name, rest)) =>
        if StartsWith(rest, "AS ") then Some((name, rest[|"AS "|..])) else None
      case None => None
    else None
  }

  /** The plain creation statement names the view's schema-qualified name and carries its
      body unchanged: both can be read back when the name holds no space. */
  lemma CreateViewRoundTrip(v: View)
    requires v.kind.Plain? && ' ' !in Name(v)
    ensures ParseCreateView(CreationSql(v).sql) == Some((NameWithSchema(v), Body(v).sql))
  {
    var b := Body(v).sql;
    var sql := CreationSql(v).sql;
    var head := "CREATE VIEW ";
    assert sql == head + (NameWithSchema(v) + [' '] + ("AS " + b)) + ";";
    assert sql[|head|..|sql| - 1] == NameWithSchema(v) + [' '] + ("AS " + b);
    assert ' ' !in NameWithSchema(v);
    SplitJoined(NameWithSchema(v), ' ', "AS " + b);
    assert ("AS " + b)[|"AS "|..] == b;
  }

  /** The schema-qualified name is the schema, a dot, and the view name. */
  lemma NameWithSchemaSplits(v: View)
    ensures SplitAt(NameWithSchema(v), '.') == Some((SchemaName, Name(v)))
    ensures |NameWithSchema(v)| == |SchemaName| + 1 + |Name(v)|
  {
    SplitJoined(SchemaName, '.', Name(v));
  }

  /** `" ".join(parts)`. */
  function JoinWords(parts: seq<string>): string
  {
    if parts == [] then ""
    else if |parts| == 1 then parts[0]
    else parts[0] + " " + JoinWords(parts[1..])
  }

  /** `get_refresh_sql`: a concurrent refresh needs a `pk_field` and otherwise raises before
      any statement text exists; a plain refresh always succeeds. */
  function RefreshSql(v: View, concurrently: bool): (r: Result<string, RefreshError>)
    requires v.kind.Materialised?
    ensures r.Failure? <==> concurrently && !HasPkField(v.kind)
    ensures r.Success? ==>
              r.value == "REFRESH MATERIALIZED VIEW "
                         + (if concurrently then "CONCURRENTLY " else "")
                         + NameWithSchema(v) + ";"
  {
    if concurrently && !HasPkField(v.kind) then Failure(RefreshWithoutPkField)
    else
      var last := NameWithSchema(v) + ";";
      var parts := ["REFRESH MATERIALIZED VIEW"] + (if concurrently then ["CONCURRENTLY"] else []) + [last];
      assert JoinWords([last]) == last;
      assert concurrently ==> JoinWords(parts[1..]) == "CONCURRENTLY " + last by {
        if concurrently {
          assert parts[1..] == ["CONCURRENTLY", last];
          assert parts[1..][1..] == [last];
        }
      }
      assert !concurrently ==> parts[1..] == [last];
      Success(JoinWords(parts))
  }

  /** The databases of a list of dependencies, as `set(...)` collects them. */
  function Databases(deps: seq<View>): set<string>
  {
    set d | d in deps :: d.database
  }

  lemma CardinalityAboveOne<T>(s: set<T>)
    ensures |s| > 1 <==> exists x, y :: x in s && y in s && x != y
  {
    if |s| > 1 {
      var x :| x in s;
      assert |s - {x}| == |s| - 1;
      var y :| y in s - {x};
    }
    if exists x, y :: x in s && y in s && x != y {
      var x, y :| x in s && y in s && x != y;
      assert {x, y} <= s;
      assert |{x, y}| == 2;
      SubsetCardinality({x, y}, s);
    }
  }

  lemma SubsetCardinality<T>(a: set<T>, b: set<T>)
    requires a <= b
    ensures |a| <= |b|
  {
    assert b == a + (b - a);
  }

  /** The check of `__init_subclass__`: the dependencies must all target one database. The
      view's own database is not consulted. */
  function CheckDependencies(deps: seq<View>): (r: Result<(), DefinitionError>)
    ensures r.Failure? <==>
              exists i, j :: 0 <= i < |deps| && 0 <= j < |deps| && deps[i].database != deps[j].database
  {
    var dbs := Databases(deps);
    CardinalityAboveOne(dbs);
    assert (exists x, y :: x in dbs && y in dbs && x != y) <==>
           exists i, j :: 0 <= i < |deps| && 0 <= j < |deps| && deps[i].database != deps[j].database by {
      if exists x, y :: x in dbs && y in dbs && x != y {
        var x, y :| x in dbs && y in dbs && x != y;
        var dx :| dx in deps && dx.database == x;
        var dy :| dy in deps && dy.database == y;
        var i :| 0 <= i < |deps| && deps[i] == dx;
        var j :| 0 <= j < |deps| && deps[j] == dy;
      }
      if exists i, j :: 0 <= i < |deps| && 0 <= j < |deps| && deps[i].database != deps[j].database {
        var i, j :| 0 <= i < |deps| && 0 <= j < |deps| && deps[i].database != deps[j].database;
        assert deps[i] in deps && deps[j] in deps;
        assert deps[i].database in dbs && deps[j].database in dbs;
      }
    }
    if |dbs| > 1 then Failure(InvalidViewDependencies) else Success(())
  }

  /** Defining a view class: it exists only when its dependency check passes. */
  function DefineView(v: View): (r: Result<View, DefinitionError>)
    ensures r.Success? ==> r.value == v
    ensures r.Failure? <==> |Databases(v.dependencies)| > 1
  {
    match CheckDependencies(v.dependencies)
    case Failure(e) => Failure(e)
    case Success(_) => Success(v)
  }

  /** Whether a definition is accepted does not depend on the view's own database: a view
      whose dependencies all live on another database is still accepted. */
  lemma DefinitionIgnoresOwnDatabase(v: View, db: string)
    ensures DefineView(v).Success? <==> DefineView(v.(database := db)).Success?
    ensures (forall i :: 0 <= i < |v.dependencies| ==> v.dependencies[i].database == db)
            ==> DefineView(v).Success?
  {
    if forall i :: 0 <= i < |v.dependencies| ==> v.dependencies[i].database == db {
      assert Databases(v.dependencies) <= {db};
      SubsetCardinality(Databases(v.dependencies), {db});
    }
  }
}
