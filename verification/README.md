# django-orm-views: the view sort, the sync plan and the SQL builders, in Dafny

This project models the core of django-orm-views. That library keeps Postgres views,
declared as Python classes, in a dedicated `views` schema. It rebuilds them on demand:

- **The dependency sort** (`topological_sort_views`). This is a layered Kahn sort over the
  map from each view to its unresolved dependencies. A cyclic-dependency error carries the
  residual map when no view is ready but some remain. The sort is generic over the vertex
  type (`TopoSort`) and is used for views through `Sync.DependencyGraph`.
- **A sync pass** (`sync_views`, `refresh_materialized_view`). The database cursor is an
  append-only log of `(sql, params)` statements. A pass over one database is the list of
  statements the loop body is meant to execute:
  - the schema drop and create;
  - one creation statement per view in build order;
  - when a grantee is given, the schema-usage grant and one select grant per visible view.
  A sort failure issues nothing for that database and stops the loop over databases.
  As written, the loop body stops with an error at its first view: see "## Findings".
  `Sync.SyncViewsAsWritten` models that behaviour, and `Sync.SyncViews` models the intended
  one.
- **The SQL text builders and naming rules** (`views.py`):
  - name derivation from the class name, with an optional prefix;
  - `name_with_schema`;
  - plain and materialised `creation_sql`;
  - `get_refresh_sql` and its concurrent-refresh precondition;
  - the one-database check run when a view class is defined.
- **Shared data** (`constants.py`, `exceptions.py`):
  - the schema name `views`;
  - the default database label;
  - `ParameterisedSQL`;
  - the two exceptions, modelled as error values.

Files:

- `base.dfy`: `Option`/`Result`, the constants, SQL parameters, small sequence predicates.
- `names.dfy`: class name to view name.
- `views.dfy`: the view record and its SQL builders.
- `toposort.dfy`: the layered sort, its correctness, and when it fails.
- `sync.dfy`: the statement plan of a pass, the loop over databases, and the refresh.
- `fixtures.dfy`: concrete scenarios from the repository's test application.

Notes on how the model follows the code:

- **Views as values.** A view's `dependencies` hold the dependency view records themselves,
  as Python classes hold classes. Such values cannot form a cycle. So a sort over views
  fails exactly when a view depends on a view not registered for the same database
  (`Sync.ViewsSortIffClosed`). Cycles and self-dependencies are proved to fail on the
  generic graph.
- **Order inside a layer is not fixed.** Each layer is a Python `set` of classes, and the
  code has no tie-break inside a layer (sync.py:29). The model takes layer elements in an
  unspecified order (`:|`) and claims only the partial order: layer by layer, each view
  after its dependencies.
- **Code followed over the docstring.** The docstring of `name` gives
  `MyPostgreSQLView -> mypostgressqlview`. The code yields `mypostgresqlview`, and the model
  follows the code (`Fixtures.DocstringExamples`). The two `re.sub` calls replace each
  match by its own two groups. They are therefore identity rewrites
  (`Names.SubstituteGroupsIsIdentity`), and the name is the class name without `-`,
  lower-cased.
- **A rejected class is never registered.** The registering `__init_subclass__` calls the
  checking one first, so the database check runs before registration. A class the check
  rejects is never registered (`Views.DefineView`).

## Model

| member | source | states |
|---|---|---|
| `TopoSort.DependencyLayers` | django_orm_views/sync.py:21-41 | The generator yields non-empty, pairwise disjoint layers that together hold exactly the input views. Otherwise it stops with a non-empty residual map, drawn from the input, in which no view is ready. |
| `TopoSort.TopologicalSort` | django_orm_views/sync.py:13-44 | The sort succeeds exactly when the layers can all be produced. Empty input gives the empty list. On success the list holds every input view exactly once, each after all its dependencies, in layer order. On failure the error carries the generator's residual map. |
| `TopoSort.FlattenLayers` | django_orm_views/sync.py:43-44 | Chaining the layers gives a build order in which no view precedes a view of an earlier layer. |
| `TopoSort.Enumerate` | django_orm_views/sync.py:29 | Iterating a set visits each of its members exactly once and nothing else. |
| `TopoSort.LayerDependenciesPlaced` | django_orm_views/sync.py:29-38 | A view enters a layer only once all of its declared dependencies are in earlier layers (or were placed before). |
| `TopoSort.ResidualIsUnplaced` | django_orm_views/sync.py:34-38 | After any number of rounds, the residual map holds only unplaced views. Each keeps its declared dependencies minus the views already placed. |
| `TopoSort.SortErrorPayload` | django_orm_views/sync.py:34-41 | The cyclic-dependency error's map is non-empty and drawn from the input. Each view in it keeps its declared dependencies minus the placed views, and each still has one. The views outside the map sort on their own, so the map holds exactly the views that could not be placed. |
| `TopoSort.PlacedPartRanked` | django_orm_views/sync.py:28-41 | The views placed before the sort gets stuck depend only on each other and can be ranked. |
| `TopoSort.RankedSortsFrom` | django_orm_views/sync.py:28-38 | If every dependency is a view of the input with a smaller rank, then the rounds never get stuck, whatever has been placed. |
| `TopoSort.SortedIsRanked` | django_orm_views/sync.py:26-41 | A successful sort ranks the input: every dependency is an input view placed in a strictly earlier layer. |
| `TopoSort.SortSucceedsIffRanked` | django_orm_views/sync.py:26-44 | The sort succeeds if and only if the dependencies admit a rank, i.e. they are closed and acyclic. |
| `TopoSort.RankedHasNoCycle` | django_orm_views/sync.py:40-41 | A ranked graph has no dependency path leading back to its start. |
| `TopoSort.CycleFailsSort` | django_orm_views/sync.py:40-41 | A dependency cycle raises the cyclic-dependency error. |
| `TopoSort.SelfDependencyFailsSort` | django_orm_views/sync.py:40-41 | A view that depends on itself raises the cyclic-dependency error. |
| `TopoSort.UnknownDependencyFailsSort` | django_orm_views/sync.py:26-41 | A dependency on a view outside the input raises the cyclic-dependency error. |
| `TopoSort.BuildOrderLength` | django_orm_views/sync.py:26-44 | A build order lists exactly as many views as the input holds. |
| `Names.SubstituteGroupsIsIdentity` | django_orm_views/views.py:119-120 | Replacing every match by its own first group followed by its second leaves the class name unchanged. |
| `Names.Word` | django_orm_views/views.py:118-122 | The derived word has no hyphen and no upper-case ASCII letter. |
| `Names.WordLength` | django_orm_views/views.py:118-122 | The derived word is as long as the class name minus its hyphens: nothing else is dropped or added. |
| `Names.ViewName` | django_orm_views/views.py:118-127 | Without a prefix the name is the word. With one, the name is the prefix, `_` and the word, at fixed positions. |
| `Names.WordIdempotent` | django_orm_views/views.py:118-122 | Deriving a word from a derived word changes nothing. A lower-case, hyphen-free class name is its own word. |
| `Names.WordIgnoresCase` | django_orm_views/views.py:121-122 | Class names equal up to ASCII case give the same view name. |
| `Names.WordAppend` | django_orm_views/views.py:118-122 | The derivation works character by character: the word of a concatenation is the concatenation of the words. |
| `Names.PrefixedNameSplits` | django_orm_views/views.py:124-127 | With a prefix, the name is prefix, underscore, word. Both parts can be read back when the prefix has no underscore. |
| `Views.NameWithSchema` | django_orm_views/views.py:129-132 | The qualified name is the schema name `views`, then `.`, then the view name, at fixed positions. |
| `Views.Body` | django_orm_views/views.py:156-174 | A raw-SQL view's body is its SQL text with no parameters. A queryset view's body is the compiled query with its own parameters. |
| `Views.NameWithSchemaSplits` | django_orm_views/views.py:129-132 | The schema-qualified name is `views`, a dot and the view name. Both parts can be read back. |
| `Views.CreationSql` | django_orm_views/views.py:101-105 | Creation statements start with `CREATE ` and bind exactly the body's parameters. A raw-SQL view binds none. |
| `Views.CreateViewRoundTrip` | django_orm_views/views.py:101-105 | The plain statement names the schema-qualified view name and carries the body unchanged. Both are recovered from the text when the name has no space. |
| `Views.MaterialisedExtendsPlain` | django_orm_views/views.py:31-42 | The materialised statement is the plain one with `MATERIALIZED` inserted. The unique-index statement on the pk field is appended if and only if the pk field is set and non-empty. The parameters are the same. |
| `Views.RefreshSql` | django_orm_views/views.py:44-59 | A concurrent refresh without a non-empty pk field fails and yields no text. Every other call yields `REFRESH MATERIALIZED VIEW`, then `CONCURRENTLY` when asked, then the schema-qualified name and `;`. |
| `Views.CheckDependencies` | django_orm_views/views.py:70-71 | The dependency check fails if and only if two dependencies name different databases. |
| `Views.DefineView` | django_orm_views/views.py:67-71 | A view class is defined unchanged exactly when its dependencies span at most one database. Otherwise `InvalidViewDepencies` is raised. |
| `Views.DefinitionIgnoresOwnDatabase` | django_orm_views/views.py:70 | The check never looks at the view's own database. Dependencies all on some other database are accepted. |
| `Sync.DependencyGraph` | django_orm_views/sync.py:26 | Every view of the database is a key, mapped to exactly the views in its `view_dependencies`. |
| `Sync.Plan` | django_orm_views/sync.py:69-87 | A pass has one statement for the reset, one per view, and, with a grantee, one more plus one per visible view. The reset comes first, and every view of the order is created. |
| `Sync.PlanLayout` | django_orm_views/sync.py:69-87 | A pass issues the following, in this order: the schema drop and create; one creation statement per view in build order, with that view's parameters; then, only with a grantee, the usage grant followed by one select grant per visible view in build order. |
| `Sync.GrantsExactly` | django_orm_views/sync.py:77-87 | Nothing before the grants is a grant, and everything after the creation statements is a grant. With no grantee, nothing follows the creation statements. With one, the usage grant is issued exactly once. Every other grant is a select grant on a visible view. |
| `Sync.GrantedIffVisible` | django_orm_views/sync.py:82-87 | With unique view names, a view receives a select grant if and only if it is not hidden. |
| `Sync.PlanCreatesDependenciesFirst` | django_orm_views/sync.py:72-75 | Each view's creation statement comes after the creation statements of all its dependencies. |
| `Sync.ViewsSortIffClosed` | django_orm_views/sync.py:26-41 | The views of one database sort if and only if each of their dependencies is registered for that database. |
| `Sync.SyncDatabase` | django_orm_views/sync.py:65-87 | The intended loop body. The sort runs before any statement. If it fails, nothing is issued and the error carries the residual map. Otherwise the pass builds the views in a build order, issues that order's plan, and creates every registered view. |
| `Sync.SyncViews` | django_orm_views/sync.py:65-88 | The intended loop. Databases are processed in registry order. Each completed pass is a valid pass for its database. The first sort failure stops the loop, naming that database's residual map. Earlier passes stay. |
| `Sync.SyncDatabaseAsWritten` | django_orm_views/sync.py:66-75 | The loop body as written. A sort failure is reported as before. Otherwise a database with views executes only the schema reset before `AttributeError` is raised, and none of its views is created. Only a database without views completes. |
| `Sync.SyncViewsAsWritten` | django_orm_views/sync.py:65-75 | The loop as written. It completes if and only if no database has a view. Otherwise it stops at the first database with views, and every pass completed before that one built nothing. |
| `Sync.RefreshMaterialisedView` | django_orm_views/sync.py:93-98 | The refresh runs on the view's own database as one statement without parameters. A rejected concurrent refresh issues nothing. |
| `Fixtures.SimpleViewFromQuerysetName` | tests/test_project/test_app/tests.py:31 | `SimpleViewFromQueryset` with prefix `test` is queried as `test_simpleviewfromqueryset`. |
| `Fixtures.ComplexViewFromQuerysetName` | tests/test_project/test_app/tests.py:61 | `ComplexViewFromQueryset` is queried as `test_complexviewfromqueryset`. |
| `Fixtures.SimpleViewFromSqlName` | tests/test_project/test_app/tests.py:91 | `SimpleViewFromSQL` is queried as `test_simpleviewfromsql`. |
| `Fixtures.ComplexViewFromSqlName` | tests/test_project/test_app/tests.py:121 | `ComplexViewFromSQL` is queried as `test_complexviewfromsql`. |
| `Fixtures.DependentViewName` | tests/test_project/test_app/postgres_views.py:86-88 | `DependentView` is created as `views.test_dependentview`. |
| `Fixtures.SimpleMaterialisedViewName` | tests/test_project/test_app/postgres_views.py:104-107 | `SimpleMaterializedView` is created as `views.test_simplematerializedview`. |
| `Fixtures.DocstringExamples` | django_orm_views/views.py:113-115 | `MyPostgresView` gives `mypostgresview`. `MyPostgreSQLView` does not give the documented `mypostgressqlview`. |
| `Fixtures.DependentViewBuiltSecond` | tests/test_project/test_app/postgres_views.py:86-96 | The only build order of the two test views is `SimpleViewFromSQL`, then `DependentView`. |
| `Fixtures.DependentViewNeedsItsDependency` | tests/test_project/test_app/postgres_views.py:90-92 | The two views together sort. `DependentView` registered without its dependency does not. |
| `Fixtures.SimpleViewSyncAsWritten` | tests/test_project/test_app/tests.py:12-13 | With `SimpleViewFromSQL` registered on the default database, the loop as written stops after the reset with `AttributeError`. The intended pass creates the view. |
| `Fixtures.ThreeCycle` | django_orm_views/sync.py:40-41 | A three-view cycle places nothing and reports the whole map. |
| `Fixtures.CycleWithDependent` | django_orm_views/sync.py:34-41 | A view depending on a cycle is reported with it. An independent view is placed and left out of the error. |
| `Fixtures.MaterialisedRefresh` | tests/test_project/test_app/postgres_views.py:104-107 | `SimpleMaterializedView` (pk field `id`) refreshes concurrently. Without a pk field, or with an empty one, it cannot. |
| `Fixtures.MixedDatabasesRejected` | django_orm_views/views.py:70-71 | A view class whose dependencies are on two databases is rejected. |

## Left out

- **Discovery and registration** (`register.py`, `apps.py`): importing every app's
  `postgres_views` module and the global registry. The registry is a parameter: a
  sequence of (database, set of views) pairs in the registry's iteration order.
- **Connections, cursors and transactions:** `transaction.atomic`, commit and rollback are
  the database's business. A pass is the list of statements it executes, and the as-written
  error keeps the statements executed before it, which the transaction rolls back. A
  database rejecting a statement (bad SQL, missing table) is not modelled.
- **Class identity:** Python compares view classes by identity, so the registry's set can
  hold two distinct classes with identical attributes, for example one module imported
  under two paths. The source then creates both. View records compare by value, so such
  classes are one element of a `set<View>` and are created once.
- **Queryset compilation:** `get_queryset` and `sql_with_params` are Django calls. A
  queryset view's body is an opaque (sql, params) pair.
- **Undefined hooks:** the `NotImplementedError` of the base class hooks
  (`_parameterised_sql`, `get_queryset`, `sql`). Only the two concrete view kinds exist.
- **`schema_qry`:** a fixed introspection query not used by the sync logic.
- **Logging:** the log calls, and the error message text built from the residual map. The
  error carries the map itself, and a pass keeps the built views, whose count is what is
  logged.
- **Other code:** the management commands, `setup.py`, the duplicate
  `django_postgres_views` package, and the package re-exports of classes defined elsewhere.
- **Unicode:** `str.lower()` is modelled on ASCII letters only.
- **SQL parameters:** they can be any Python value. The model keeps integers, text,
  booleans and null, passed through untouched.
- **Order inside a layer:** it is left unspecified, as Python set iteration order is.
  Nothing about a particular tie-break is claimed.
- **View name uniqueness:** the code never checks it. `Sync.GrantedIffVisible` assumes
  unique names, and `Names.WordIgnoresCase` shows how two classes can collide.
- **Cyclic view records:** a Python class attribute could be reassigned after definition
  to form a cycle among classes. View records cannot express that. Cycles are covered by
  the generic sort lemmas instead.
- `Sync.RefreshMaterialisedView`: it requires a materialised view. The source's parameter
  is typed as the materialised mixin, and `get_refresh_sql` exists only there. The view is
  taken to be an instance, as the type says. A class passed instead is not modelled.

## Findings

| source | as written | input that shows it | evidently intended | confidence | as-written member | corrected member |
|---|---|---|---|---|---|---|
| django_orm_views/sync.py:75 | The registry holds view classes (register.py:34). `creation_sql` is an instance `@property` (views.py:31, 80), so reading it on a class yields the property object. Its `.sql` raises `AttributeError` after the schema reset, the transaction rolls back, and the loop over databases ends. | registry `{"default": {SimpleViewFromSQL}}` | Every registered view is created. The tests call `sync_views()` (tests.py:12-13) and then query the views. | not executed; the reading of `property` on a class is standard Python | `Sync.SyncViewsAsWritten`, `Fixtures.SimpleViewSyncAsWritten` | `Sync.SyncViews`, `Sync.SyncDatabase` |
