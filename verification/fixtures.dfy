/** Concrete scenarios from the repository's test application
    (tests/test_project/test_app/postgres_views.py and tests.py), stated about the model. */
module Fixtures {
  import opened Base
  import opened Names
  import opened Views
  import opened TopoSort
  import opened Sync

  // Class names are written as concatenations of pieces; their words are derived piece by
  // piece and joined with `WordAppend`.

  const SimpleViewFromSqlClass: string := "Simple" + "View" + "From" + "SQL"
  const SimpleViewFromQuerysetClass: string := "Simple" + "View" + "From" + "Queryset"
  const ComplexViewFromQuerysetClass: string := "Complex" + "View" + "From" + "Queryset"
  const ComplexViewFromSqlClass: string := "Complex" + "View" + "From" + "SQL"
  const DependentViewClass: string := "Depend" + "ent" + "View"
  const SimpleMaterialisedViewClass: string := "Simple" + "Materi" + "alized" + "View"

  const SimpleSql: string := "SELECT * FROM test_app_testmodel"

  /** `SimpleViewFromSQL`: raw SQL, prefix `test`, no dependencies. */
  const SimpleViewFromSql: View :=
    View(SimpleViewFromSqlClass, Some("test"), FromSql(SimpleSql), Plain, false, DefaultDatabase, [])

  /** `DependentView`: raw SQL reading from `SimpleViewFromSQL`, which it lists as its one
      dependency. */
  const DependentView: View :=
    View(DependentViewClass, Some("test"), FromSql("SELECT * FROM \"views\".\"test_simpleviewfromsql\""),
         Plain, false, DefaultDatabase, [SimpleViewFromSql])

  /** `SimpleMaterializedView`: a materialised queryset view with `pk_field = 'id'`. */
  const SimpleMaterialisedView: View :=
    View(SimpleMaterialisedViewClass, Some("test"),
         FromQueryset(ParameterisedSql("SELECT id FROM test_app_testmodel", [])),
         Materialised(Some("id")), false, DefaultDatabase, [])

  lemma Word3(a: string, b: string, c: string)
    ensures Word(a + b + c) == Word(a) + Word(b) + Word(c)
  {
    WordAppend(a + b, c);
    WordAppend(a, b);
  }

  lemma Word4(a: string, b: string, c: string, d: string)
    ensures Word(a + b + c + d) == Word(a) + Word(b) + Word(c) + Word(d)
  {
    WordAppend(a + b + c, d);
    Word3(a, b, c);
  }

  lemma WordOfSimple() ensures Word("Simple") == "simple" {}
  lemma WordOfView() ensures Word("View") == "view" {}
  lemma WordOfFrom() ensures Word("From") == "from" {}
  lemma WordOfSQL() ensures Word("SQL") == "sql" {}
  lemma WordOfQueryset() ensures Word("Queryset") == "queryset" {}
  lemma WordOfComplex() ensures Word("Complex") == "complex" {}
  lemma WordOfDepend() ensures Word("Depend") == "depend" {}
  lemma WordOfEnt() ensures Word("ent") == "ent" {}
  lemma WordOfMateri() ensures Word("Materi") == "materi" {}
  lemma WordOfAlized() ensures Word("alized") == "alized" {}
  lemma WordOfMy() ensures Word("My") == "my" {}
  lemma WordOfPostgres() ensures Word("Postgres") == "postgres" {}
  lemma WordOfPostgre() ensures Word("Postgre") == "postgre" {}

  lemma SimpleViewFromSqlWord()
    ensures Word(SimpleViewFromSqlClass) == "simple" + "view" + "from" + "sql"
  {
    WordOfSimple(); WordOfView(); WordOfFrom(); WordOfSQL();
    Word4("Simple", "View", "From", "SQL");
  }

  lemma SimpleViewFromQuerysetWord()
    ensures Word(SimpleViewFromQuerysetClass) == "simple" + "view" + "from" + "queryset"
  {
    WordOfSimple(); WordOfView(); WordOfFrom(); WordOfQueryset();
    Word4("Simple", "View", "From", "Queryset");
  }

  lemma ComplexViewFromQuerysetWord()
    ensures Word(ComplexViewFromQuerysetClass) == "complex" + "view" + "from" + "queryset"
  {
    WordOfComplex(); WordOfView(); WordOfFrom(); WordOfQueryset();
    Word4("Complex", "View", "From", "Queryset");
  }

  lemma ComplexViewFromSqlWord()
    ensures Word(ComplexViewFromSqlClass) == "complex" + "view" + "from" + "sql"
  {
    WordOfComplex(); WordOfView(); WordOfFrom(); WordOfSQL();
    Word4("Complex", "View", "From", "SQL");
  }

  lemma DependentViewWord()
    ensures Word(DependentViewClass) == "depend" + "ent" + "view"
  {
    WordOfDepend(); WordOfEnt(); WordOfView();
    Word3("Depend", "ent", "View");
  }

  lemma SimpleMaterialisedViewWord()
    ensures Word(SimpleMaterialisedViewClass) == "simple" + "materi" + "alized" + "view"
  {
    WordOfSimple(); WordOfMateri(); WordOfAlized(); WordOfView();
    Word4("Simple", "Materi", "alized", "View");
  }

  /** `SimpleViewFromSQL` is queried as `test_simpleviewfromsql`. */
  lemma SimpleViewFromSqlName()
    ensures Name(SimpleViewFromSql) == "test_" + "simple" + "view" + "from" + "sql"
  {
    SimpleViewFromSqlWord();
  }

  /** `SimpleViewFromQueryset` is queried as `test_simpleviewfromqueryset`. */
  lemma SimpleViewFromQuerysetName()
    ensures ViewName(SimpleViewFromQuerysetClass, Some("test")) == "test_" + "simple" + "view" + "from" + "queryset"
  {
    SimpleViewFromQuerysetWord();
  }

  /** `ComplexViewFromQueryset` is queried as `test_complexviewfromqueryset`. */
  lemma ComplexViewFromQuerysetName()
    ensures ViewName(ComplexViewFromQuerysetClass, Some("test")) == "test_" + "complex" + "view" + "from" + "queryset"
  {
    ComplexViewFromQuerysetWord();
  }

  /** `ComplexViewFromSQL` is queried as `test_complexviewfromsql`. */
  lemma ComplexViewFromSqlName()
    ensures ViewName(ComplexViewFromSqlClass, Some("test")) == "test_" + "complex" + "view" + "from" + "sql"
  {
    ComplexViewFromSqlWord();
  }

  /** `DependentView` is created as `views.test_dependentview`. */
  lemma DependentViewName()
    ensures NameWithSchema(DependentView) == "views." + "test_" + "depend" + "ent" + "view"
  {
    DependentViewWord();
  }

  lemma SimpleMaterialisedViewName()
    ensures NameWithSchema(SimpleMaterialisedView) == "views." + "test_" + "simple" + "materi" + "alized" + "view"
  {
    SimpleMaterialisedViewWord();
  }

  lemma MyPostgresViewWord()
    ensures Word("My" + "Postgres" + "View") == "my" + "postgres" + "view"
  {
    WordOfMy(); WordOfPostgres(); WordOfView();
    Word3("My", "Postgres", "View");
  }

  lemma MyPostgreSqlViewWord()
    ensures Word("My" + "Postgre" + "SQL" + "View") == "my" + "postgre" + "sql" + "view"
  {
    WordOfMy(); WordOfPostgre(); WordOfSQL(); WordOfView();
    Word4("My", "Postgre", "SQL", "View");
  }

  /** Lower-casing keeps every letter of the class name: the name the source's docstring
      gives for `MyPostgresView` is the derived one, but the one it gives for
      `MyPostgreSQLView` (`mypostgressqlview`, with a doubled `s`) is not. */
  lemma DocstringExamples()
    ensures Word("My" + "Postgres" + "View") == "mypostgresview"
    ensures Word("My" + "Postgre" + "SQL" + "View") != "mypostgressqlview"
  {
    MyPostgresViewWord();
    assert "my" + "postgres" + "view" == "mypostgresview";
    MyPostgreSqlViewWord();
    assert |"my" + "postgre" + "sql" + "view"| != |"mypostgressqlview"|;
  }

  /** Syncing the two test views on their database builds `SimpleViewFromSQL` before
      `DependentView`: no other build order exists. */
  lemma DependentViewBuiltSecond(order: seq<View>)
    requires IsBuildOrder(DependencyGraph({SimpleViewFromSql, DependentView}), order)
    ensures order == [SimpleViewFromSql, DependentView]
  {
    var graph := DependencyGraph({SimpleViewFromSql, DependentView});
    assert SimpleViewFromSql != DependentView by {
      assert SimpleViewFromSql.dependencies != DependentView.dependencies;
    }
    assert graph.Keys == {SimpleViewFromSql, DependentView};
    BuildOrderLength(graph, order);
    assert |order| == 2;
    assert SimpleViewFromSql in graph[DependentView];
    assert DependentView in order;
    var p :| 0 <= p < |order| && order[p] == DependentView;
    assert SimpleViewFromSql in order[..p];
    assert p == 1;
    assert order[0] == SimpleViewFromSql;
  }

  /** The two test views form a closed set, so their sort succeeds; without
      `SimpleViewFromSQL` registered on the same database, it fails. */
  lemma DependentViewNeedsItsDependency()
    ensures DependencyLayers(DependencyGraph({SimpleViewFromSql, DependentView})).Success?
    ensures DependencyLayers(DependencyGraph({DependentView})).Failure?
  {
    ViewsSortIffClosed({SimpleViewFromSql, DependentView});
    assert SimpleViewFromSql != DependentView by {
      assert SimpleViewFromSql.dependencies != DependentView.dependencies;
    }
    var alone := DependencyGraph({DependentView});
    assert SimpleViewFromSql in alone[DependentView];
    UnknownDependencyFailsSort(alone, DependentView, SimpleViewFromSql);
  }

  /** Syncing a registry whose default database holds `SimpleViewFromSQL`: as written the
      pass stops after the schema reset, without creating the view, while the intended pass
      creates it. */
  lemma SimpleViewSyncAsWritten(grantee: Option<string>)
    ensures SyncViewsAsWritten([(DefaultDatabase, {SimpleViewFromSql})], grantee)
            == ([], Some((DefaultDatabase, AttributeErrorAfter([Reset()]))))
    ensures Create(SimpleViewFromSql) in Plan([SimpleViewFromSql], grantee)
  {
  }

  /** A three-way cycle blocks every member: no layer can be placed and the error carries the
      whole graph. */
  lemma ThreeCycle()
    ensures DependencyLayers(map[1 := {2}, 2 := {3}, 3 := {1}]) == Failure(map[1 := {2}, 2 := {3}, 3 := {1}])
  {
    var g: Graph<int> := map[1 := {2}, 2 := {3}, 3 := {1}];
    assert Ready(g) == {} by {
      forall v | v in g ensures g[v] != {} {
        assert v == 1 || v == 2 || v == 3;
        assert g[v] == {1 + v % 3};
      }
    }
    assert g != map[] by { assert 1 in g; }
  }

  /** A view depending on a cycle is reported with it; views outside the cycle's reach are
      placed and left out of the error. */
  lemma CycleWithDependent()
    ensures DependencyLayers(map[1 := {2}, 2 := {1}, 3 := {1}, 4 := {}])
            == Failure(map[1 := {2}, 2 := {1}, 3 := {1}])
  {
    var g: Graph<int> := map[1 := {2}, 2 := {1}, 3 := {1}, 4 := {}];
    var blocked: Graph<int> := map[1 := {2}, 2 := {1}, 3 := {1}];
    assert Ready(g) == {4} by {
      forall v | v in g && v != 4 ensures g[v] != {} {
        assert v == 1 || v == 2 || v == 3;
        assert g[v] == blocked[v];
      }
      assert g[4] == {};
    }
    var rest := Discharge(g, {4});
    assert rest == blocked by {
      assert rest.Keys == blocked.Keys;
      forall v | v in rest ensures rest[v] == blocked[v] {
        assert v == 1 || v == 2 || v == 3;
      }
    }
    assert Ready(blocked) == {} by {
      forall v | v in blocked ensures blocked[v] != {} {
        assert v == 1 || v == 2 || v == 3;
      }
    }
    assert blocked != map[] by { assert 1 in blocked; }
    assert DependencyLayers(rest) == Failure(blocked);
  }

  /** `SimpleMaterializedView` has a `pk_field`, so it refreshes concurrently; the same view
      without one, or with an empty one, cannot. */
  lemma MaterialisedRefresh()
    ensures RefreshMaterialisedView(SimpleMaterialisedView, true)
            == Success((DefaultDatabase, Statement(
                 "REFRESH MATERIALIZED VIEW " + "CONCURRENTLY "
                 + ("views." + "test_" + "simple" + "materi" + "alized" + "view") + ";", None)))
    ensures RefreshMaterialisedView(SimpleMaterialisedView.(kind := Materialised(None)), true)
            == Failure(RefreshWithoutPkField)
    ensures RefreshMaterialisedView(SimpleMaterialisedView.(kind := Materialised(Some(""))), true)
            == Failure(RefreshWithoutPkField)
  {
    var v := SimpleMaterialisedView;
    SimpleMaterialisedViewName();
    assert HasPkField(v.kind);
    var r := RefreshMaterialisedView(v, true);
    assert r.Success? && r.value.0 == DefaultDatabase && r.value.1.params == None;
    assert r.value.1.sql == "REFRESH MATERIALIZED VIEW " + "CONCURRENTLY " + NameWithSchema(v) + ";";
  }

  /** A view class whose dependencies sit on two databases is rejected when defined. */
  lemma MixedDatabasesRejected()
    ensures DefineView(DependentView.(dependencies :=
              [SimpleViewFromSql, SimpleViewFromSql.(database := "other")])).Failure?
  {
    var deps := [SimpleViewFromSql, SimpleViewFromSql.(database := "other")];
    assert deps[0].database != deps[1].database;
  }
}
