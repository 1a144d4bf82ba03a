/** The synchronisation pass of django_orm_views/sync.py. The database cursor is an
    append-only log: a pass is the list of `(sql, params)` statements it would execute,
    or the cyclic-dependency error raised before the cursor is opened. */
module Sync {
  import opened Base
  import opened TopoSort
  import opened Views

  /** One `cursor.execute` call. `params` is `None` when the call passes no parameters. */
  datatype Statement = Statement(sql: string, params: Option<seq<SqlParam>>)

  /** `CyclicDependencyError`, carrying the views that could not be placed with their
      unresolved dependencies. */
  datatype SyncError = CyclicDependencyError(blocked: Graph<View>)

  /** A completed pass over one database: the views in the order they were built (whose
      count the source logs) and the statements issued. */
  datatype SyncPass = SyncPass(built: seq<View>, statements: seq<Statement>)

  /** The graph the sort works on: each view with the set of its `view_dependencies`. */
  function DependencyGraph(views: set<View>): (r: Graph<View>)
    ensures r.Keys == views
    ensures forall v :: v in views ==> forall d :: d in r[v] <==> d in v.dependencies
  {
    map v | v in views :: set d | d in v.dependencies
  }

  const ResetSql: string :=
    "DROP SCHEMA IF EXISTS " + SchemaName + " CASCADE; CREATE SCHEMA " + SchemaName + ";"

  function Reset(): Statement
  {
    Statement(ResetSql, None)
  }

  /** Creation statements bind the view's own parameters, untouched. */
  function Create(v: View): Statement
  {
    Statement(CreationSql(v).sql, Some(CreationSql(v).params))
  }

  function UsageGrant(grantee: string): Statement
  {
    Statement("GRANT USAGE ON SCHEMA " + SchemaName + " TO " + grantee + ";", None)
  }

  function SelectGrant(v: View, grantee: string): Statement
  {
    Statement("GRANT SELECT ON " + NameWithSchema(v) + " TO " + grantee + ";", None)
  }

  function Creations(order: seq<View>): (r: seq<Statement>)
    ensures |r| == |order|
  {
    if order == [] then [] else [Create(order[0])] + Creations(order[1..])
  }

  /** The views that are not hidden, in their original order. */
  function Visible(order: seq<View>): (r: seq<View>)
    ensures forall v :: v in r <==> v in order && !v.hidden
    ensures |r| <= |order|
  {
    if order == [] then []
    else if order[0].hidden then Visible(order[1..])
    else [order[0]] + Visible(order[1..])
  }

  /** One select grant per visible view, in build order. */
  function SelectGrants(order: seq<View>, grantee: string): (r: seq<Statement>)
    ensures |r| == |Visible(order)|
  {
    var vis := Visible(order);
    seq(|vis|, k requires 0 <= k < |vis| => SelectGrant(vis[k], grantee))
  }

  /** The grants issued after the views are built. */
  function Grants(order: seq<View>, grantee: Option<string>): seq<Statement>
  {
    match grantee
    case None => []
    case Some(g) => [UsageGrant(g)] + SelectGrants(order, g)
  }

  /** The statements of one pass over views already sorted into `order`: the schema reset
      comes first, and every view of the order is created. */
  function Plan(order: seq<View>, grantee: Option<string>): (r: seq<Statement>)
    ensures |r| == 1 + |order| + (if grantee.Some? then 1 + |Visible(order)| else 0)
    ensures r[0] == Reset()
    ensures forall v :: v in order ==> Create(v) in r
  {
    CreationsAt(order);
    var r := [Reset()] + Creations(order) + Grants(order, grantee);
    assert forall v :: v in order ==> Create(v) in r by {
      forall v | v in order ensures Create(v) in r {
        var i :| 0 <= i < |order| && order[i] == v;
        assert r[1 + i] == Creations(order)[i];
      }
    }
    r
  }

  /** A statement that changes privileges. */
  predicate IsGrant(s: Statement)
  {
    StartsWith(s.sql, "GRANT ")
  }

  lemma {:induction false} CreationsAt(order: seq<View>)
    ensures |Creations(order)| == |order|
    ensures forall i :: 0 <= i < |order| ==> Creations(order)[i] == Create(order[i])
  {
    if order != [] {
      CreationsAt(order[1..]);
      forall i | 1 <= i < |order| ensures Creations(order)[i] == Create(order[i]) {
        assert Creations(order)[i] == Creations(order[1..])[i - 1];
      }
    }
  }

  /** The select grants name exactly the visible views. */
  lemma SelectGrantsNameVisible(order: seq<View>, g: string)
    ensures forall w :: w in order && !w.hidden ==> SelectGrant(w, g) in SelectGrants(order, g)
    ensures forall s :: s in SelectGrants(order, g) ==>
              exists w :: w in order && !w.hidden && s == SelectGrant(w, g)
  {
    var vis := Visible(order);
    forall w | w in order && !w.hidden ensures SelectGrant(w, g) in SelectGrants(order, g) {
      var k :| 0 <= k < |vis| && vis[k] == w;
      assert SelectGrants(order, g)[k] == SelectGrant(w, g);
    }
    forall s | s in SelectGrants(order, g) ensures exists w :: w in order && !w.hidden && s == SelectGrant(w, g) {
      var k :| 0 <= k < |vis| && SelectGrants(order, g)[k] == s;
      assert vis[k] in vis;
    }
  }

  /** Statement order of a pass: the schema reset first, then one creation statement per
      view in build order binding that view's own parameters, then (only with a grantee)
      the schema-usage grant followed by one select grant per visible view in build order. */
  lemma {:induction false} PlanLayout(order: seq<View>, grantee: Option<string>)
    ensures var r := Plan(order, grantee);
            && |r| == 1 + |order| + (if grantee.Some? then 1 + |Visible(order)| else 0)
            && r[0] == Reset()
            && r[1..1 + |order|] == Creations(order)
            && (forall i :: 0 <= i < |order| ==>
                  Creations(order)[i].sql == CreationSql(order[i]).sql
                  && Creations(order)[i].params == Some(CreationSql(order[i]).params))
            && r[1 + |order|..] == Grants(order, grantee)
            && (grantee.Some? ==>
                  && r[1 + |order|] == UsageGrant(grantee.value)
                  && forall k :: 0 <= k < |Visible(order)| ==>
                       SelectGrants(order, grantee.value)[k] == SelectGrant(Visible(order)[k], grantee.value))
  {
    CreationsAt(order);
    var r := Plan(order, grantee);
    var head := [Reset()] + Creations(order);
    assert r == head + Grants(order, grantee);
    assert r[1..1 + |order|] == head[1..];
    if grantee.Some? {
      assert r[1 + |order|] == Grants(order, grantee)[0];
    }
  }

  lemma CreateIsNoGrant(v: View)
    ensures !IsGrant(Create(v)) && Create(v).params.Some?
  {
    assert Create(v).sql[0] == 'C';
  }

  lemma SelectGrantIsNoUsageGrant(v: View, g: string)
    ensures IsGrant(SelectGrant(v, g)) && SelectGrant(v, g) != UsageGrant(g)
  {
    assert SelectGrant(v, g).sql[6] == 'S' && UsageGrant(g).sql[6] == 'U';
  }

  /** The reset and the creation statements grant nothing and take no privileges. */
  lemma HeadGrantsNothing(order: seq<View>)
    ensures forall s :: s in [Reset()] + Creations(order) ==> !IsGrant(s) && !StartsWith(s.sql, "G")
  {
    var head := [Reset()] + Creations(order);
    CreationsAt(order);
    forall s | s in head ensures !IsGrant(s) && !StartsWith(s.sql, "G") {
      if s == Reset() {
        assert s.sql[0] == 'D';
      } else {
        var i :| 0 <= i < |head| && head[i] == s;
        assert head[i] == Creations(order)[i - 1] == Create(order[i - 1]);
        CreateIsNoGrant(order[i - 1]);
        assert s.sql[0] == 'C';
      }
    }
  }

  /** Everything issued for a grantee is a grant: the usage grant once, and otherwise select
      grants on visible views. */
  lemma GrantsAreGrants(order: seq<View>, g: string)
    ensures forall s :: s in Grants(order, Some(g)) ==> IsGrant(s)
    ensures multiset(Grants(order, Some(g)))[UsageGrant(g)] == 1
    ensures forall s :: s in Grants(order, Some(g)) && s != UsageGrant(g) ==>
              exists w :: w in order && !w.hidden && s == SelectGrant(w, g)
  {
    var sg := SelectGrants(order, g);
    SelectGrantsNameVisible(order, g);
    forall s | s in sg ensures IsGrant(s) && s != UsageGrant(g) {
      var w :| w in order && !w.hidden && s == SelectGrant(w, g);
      SelectGrantIsNoUsageGrant(w, g);
    }
    assert IsGrant(UsageGrant(g));
    assert multiset(Grants(order, Some(g))) == multiset([UsageGrant(g)]) + multiset(sg);
  }

  /** Grants: the reset and creation statements grant nothing; everything after them is a
      grant; with no grantee there is nothing after them; with one, the schema-usage grant
      is issued exactly once, and every other grant is a select grant on a visible view. */
  lemma GrantsExactly(order: seq<View>, grantee: Option<string>)
    ensures var r := Plan(order, grantee);
            && (forall s :: s in r[..1 + |order|] ==> !IsGrant(s))
            && (forall s :: s in r[1 + |order|..] ==> IsGrant(s))
            && (grantee.None? ==> |r| == 1 + |order|)
            && (grantee.Some? ==> multiset(r)[UsageGrant(grantee.value)] == 1)
            && (grantee.Some? ==> forall s :: s in r && s != UsageGrant(grantee.value) && IsGrant(s) ==>
                  exists w :: w in order && !w.hidden && s == SelectGrant(w, grantee.value))
  {
    var r := Plan(order, grantee);
    var head := [Reset()] + Creations(order);
    var tail := Grants(order, grantee);
    assert r == head + tail;
    assert r[..1 + |order|] == head;
    assert r[1 + |order|..] == tail;
    HeadGrantsNothing(order);
    if grantee.Some? {
      var g := grantee.value;
      GrantsAreGrants(order, g);
      assert UsageGrant(g) !in head by {
        assert StartsWith(UsageGrant(g).sql, "G");
      }
      assert multiset(r) == multiset(head) + multiset(tail);
      assert multiset(head)[UsageGrant(g)] == 0;
      forall s | s in r && s != UsageGrant(g) && IsGrant(s)
        ensures exists w :: w in order && !w.hidden && s == SelectGrant(w, g)
      {
        assert s !in head;
      }
    }
  }

  /** When names are unique within the pass, a view gets a select grant exactly when it is
      not hidden. */
  lemma GrantedIffVisible(order: seq<View>, g: string, v: View)
    requires v in order
    requires forall a, b :: a in order && b in order && Name(a) == Name(b) ==> a == b
    ensures SelectGrant(v, g) in Plan(order, Some(g)) <==> !v.hidden
  {
    var head := [Reset()] + Creations(order);
    var r := Plan(order, Some(g));
    assert r == head + Grants(order, Some(g));
    SelectGrantsNameVisible(order, g);
    assert StartsWith(SelectGrant(v, g).sql, "G");
    HeadGrantsNothing(order);
    SelectGrantIsNoUsageGrant(v, g);
    if SelectGrant(v, g) in r {
      assert SelectGrant(v, g) in SelectGrants(order, g);
      var w :| w in order && !w.hidden && SelectGrant(v, g) == SelectGrant(w, g);
      NameFromSelectGrant(v, w, g);
    }
    if !v.hidden {
      assert SelectGrant(v, g) in Grants(order, Some(g));
    }
  }

  lemma NameFromSelectGrant(v: View, w: View, g: string)
    requires SelectGrant(v, g) == SelectGrant(w, g)
    ensures Name(v) == Name(w)
  {
    var a := SelectGrant(v, g).sql;
    var b := SelectGrant(w, g).sql;
    var n := |"GRANT SELECT ON " + SchemaName + "."|;
    assert |a| == |b|;
    assert |Name(v)| == |Name(w)|;
    assert a[n..n + |Name(v)|] == Name(v);
    assert b[n..n + |Name(w)|] == Name(w);
  }

  /** A pass creates every view after all of its dependencies: the creation statement of each
      dependency comes earlier among the creation statements. */
  lemma {:induction false} PlanCreatesDependenciesFirst(views: set<View>, order: seq<View>)
    requires IsBuildOrder(DependencyGraph(views), order)
    ensures forall i, d :: 0 <= i < |order| && d in order[i].dependencies ==>
              Creations(order)[i] == Create(order[i]) && Create(d) in Creations(order)[..i]
  {
    var graph := DependencyGraph(views);
    CreationsAt(order);
    forall i, d | 0 <= i < |order| && d in order[i].dependencies
      ensures Creations(order)[i] == Create(order[i]) && Create(d) in Creations(order)[..i]
    {
      assert order[i] in graph;
      assert d in graph[order[i]];
      assert d in order[..i];
      var j :| 0 <= j < i && order[..i][j] == d;
      assert Creations(order)[..i][j] == Create(d);
    }
  }

  /** How many levels of dependencies lie below a view: one more than the highest of its
      dependencies. */
  function Height(v: View): nat
    decreases v, |v.dependencies| + 1
  {
    1 + HighestOf(v, |v.dependencies|)
  }

  /** The greatest height among the first `n` dependencies of `v` (0 when there are none). */
  function HighestOf(v: View, n: nat): nat
    requires n <= |v.dependencies|
    decreases v, n
  {
    if n == 0 then 0
    else
      var h := Height(v.dependencies[n - 1]);
      var rest := HighestOf(v, n - 1);
      if h < rest then rest else h
  }

  lemma {:induction false} HighestBounds(v: View, n: nat)
    requires n <= |v.dependencies|
    ensures forall i :: 0 <= i < n ==> Height(v.dependencies[i]) <= HighestOf(v, n)
  {
    if n > 0 {
      HighestBounds(v, n - 1);
    }
  }

  /** Every dependency of a view sits strictly lower than the view. */
  lemma DependencyIsLower(v: View, d: View)
    requires d in v.dependencies
    ensures Height(d) < Height(v)
  {
    HighestBounds(v, |v.dependencies|);
  }

  /** Every dependency of every view in the set is itself in the set. */
  predicate Closed(views: set<View>)
  {
    forall v, d :: v in views && d in v.dependencies ==> d in views
  }

  /** View classes can only name classes that already exist, so their dependencies never
      form a cycle: the sort of one database's views fails exactly when some view depends on
      a view that is not registered for that database. */
  lemma ViewsSortIffClosed(views: set<View>)
    ensures DependencyLayers(DependencyGraph(views)).Success? <==> Closed(views)
  {
    var graph := DependencyGraph(views);
    SortSucceedsIffRanked(graph);
    if Closed(views) {
      var rank: map<View, nat> := map v | v in views :: Height(v);
      forall v, d | v in graph && d in graph[v] ensures d in graph && rank[d] < rank[v] {
        DependencyIsLower(v, d);
      }
      assert Ranked(graph, rank);
    } else {
      var v, d :| v in views && d in v.dependencies && d !in views;
      assert d in graph[v];
      UnknownDependencyFailsSort(graph, v, d);
    }
  }

  /** One iteration of the loop of `sync_views`: the sort runs first; if it fails nothing
      is executed, otherwise the statements of the plan are. */
  method SyncDatabase(views: set<View>, grantee: Option<string>) returns (r: Result<SyncPass, SyncError>)
    ensures r.Failure? <==> DependencyLayers(DependencyGraph(views)).Failure?
    ensures r.Failure? ==> r.error.blocked == DependencyLayers(DependencyGraph(views)).error
    ensures r.Success? ==> IsBuildOrder(DependencyGraph(views), r.value.built)
    ensures r.Success? ==> r.value.statements == Plan(r.value.built, grantee)
    ensures r.Success? ==> forall v :: v in views ==> Create(v) in r.value.statements
    ensures views == {} ==> r == Success(SyncPass([], Plan([], grantee)))
  {
    if views == {} {
      assert DependencyGraph(views) == map[];
    }
    var sorted := TopologicalSort(DependencyGraph(views));
    match sorted
    case Failure(blocked) =>
      r := Failure(CyclicDependencyError(blocked));
    case Success(order) =>
      r := Success(SyncPass(order, Plan(order, grantee)));
  }

  /** What a successful pass over `views` produced. */
  ghost predicate ValidPass(views: set<View>, grantee: Option<string>, pass: SyncPass)
  {
    && IsBuildOrder(DependencyGraph(views), pass.built)
    && pass.statements == Plan(pass.built, grantee)
  }

  /** `sync_views` over the registry, one database after another in registry order. The
      first sort failure propagates: the databases before it keep their passes, it and the
      databases after it issue nothing. */
  method SyncViews(registry: seq<(string, set<View>)>, grantee: Option<string>)
    returns (passes: seq<(string, SyncPass)>, failure: Option<(string, SyncError)>)
    ensures |passes| <= |registry|
    ensures forall i :: 0 <= i < |passes| ==>
              passes[i].0 == registry[i].0 && ValidPass(registry[i].1, grantee, passes[i].1)
    ensures failure.None? <==> |passes| == |registry|
    ensures failure.Some? ==>
              && failure.value.0 == registry[|passes|].0
              && DependencyLayers(DependencyGraph(registry[|passes|].1)).Failure?
              && failure.value.1.blocked == DependencyLayers(DependencyGraph(registry[|passes|].1)).error
  {
    passes := [];
    var k := 0;
    while k < |registry|
      invariant 0 <= k <= |registry| && |passes| == k
      invariant forall i :: 0 <= i < k ==>
                  passes[i].0 == registry[i].0 && ValidPass(registry[i].1, grantee, passes[i].1)
    {
      var (database, views) := registry[k];
      var r := SyncDatabase(views, grantee);
      if r.Failure? {
        return passes, Some((database, r.error));
      }
      passes := passes + [(database, r.value)];
      k := k + 1;
    }
    failure := None;
  }

  // ---------------------------------------------------------------------------
  // The loop body as written
  // ---------------------------------------------------------------------------

  /** How one iteration of the loop of `sync_views` ends as written. The registry holds the
      view classes themselves, and `creation_sql` is an instance property. Read on a class it
      yields the property object, whose missing `.sql` raises `AttributeError` at the first
      view, after the schema reset and inside the transaction that the error rolls back. */
  datatype PassAsWritten =
    | SortFails(blocked: Graph<View>)
    | AttributeErrorAfter(executed: seq<Statement>)
    | Built(pass: SyncPass)

  /** One database of `sync_views` as written: the sort, then the schema reset, then the
      failing read of the first view's creation statement. Only a database without views
      gets through. */
  function SyncDatabaseAsWritten(views: set<View>, grantee: Option<string>): (r: PassAsWritten)
    ensures r.SortFails? <==> DependencyLayers(DependencyGraph(views)).Failure?
    ensures r.SortFails? ==> r.blocked == DependencyLayers(DependencyGraph(views)).error
    ensures r.Built? <==> views == {}
    ensures r.Built? ==> r.pass.built == [] && r.pass.statements == Plan([], grantee)
    ensures r.AttributeErrorAfter? ==>
              r.executed == [Reset()] && forall v :: v in views ==> Create(v) !in r.executed
  {
    var graph := DependencyGraph(views);
    if views == {} then
      assert graph == map[];
      Built(SyncPass([], Plan([], grantee)))
    else
      match DependencyLayers(graph)
      case Failure(blocked) => SortFails(blocked)
      case Success(_) =>
        assert forall v :: v in views ==> Create(v) != Reset() by {
          forall v | v in views ensures Create(v) != Reset() {
            assert Create(v).params.Some?;
          }
        }
        AttributeErrorAfter([Reset()])
  }

  /** `sync_views` as written, database after database: every database with a view ends the
      loop with an error, so no view is ever built. */
  function SyncViewsAsWritten(registry: seq<(string, set<View>)>, grantee: Option<string>)
    : (r: (seq<(string, SyncPass)>, Option<(string, PassAsWritten)>))
    ensures |r.0| <= |registry|
    ensures forall i :: 0 <= i < |r.0| ==>
              r.0[i].0 == registry[i].0 && registry[i].1 == {} && r.0[i].1.built == []
    ensures r.1.None? <==> forall i :: 0 <= i < |registry| ==> registry[i].1 == {}
    ensures r.1.Some? ==>
              && r.1.value.0 == registry[|r.0|].0
              && registry[|r.0|].1 != {}
              && !r.1.value.1.Built?
  {
    if registry == [] then ([], None)
    else
      var outcome := SyncDatabaseAsWritten(registry[0].1, grantee);
      if outcome.Built? then
        var rest := SyncViewsAsWritten(registry[1..], grantee);
        assert forall i :: 1 <= i < |registry| ==> registry[i] == registry[1..][i - 1];
        ([(registry[0].0, outcome.pass)] + rest.0, rest.1)
      else ([], Some((registry[0].0, outcome)))
  }

  /** `refresh_materialized_view`: the refresh statement, without parameters, on the view's
      own database; a rejected concurrent refresh issues nothing. */
  function RefreshMaterialisedView(v: View, concurrently: bool): (r: Result<(string, Statement), RefreshError>)
    requires v.kind.Materialised?
    ensures r.Failure? <==> concurrently && !HasPkField(v.kind)
    ensures r.Success? ==>
              && r.value.0 == v.database
              && r.value.1.params.None?
              && r.value.1.sql == "REFRESH MATERIALIZED VIEW " + (if concurrently then "CONCURRENTLY " else "")
                                  + NameWithSchema(v) + ";"
  {
    match RefreshSql(v, concurrently)
    case Failure(e) => Failure(e)
    case Success(sql) => Success((v.database, Statement(sql, None)))
  }
}
