/** The layered topological sort of django_orm_views/sync.py (`topological_sort_views`).

    A graph maps every view to the set of views it must be created after. The sort repeatedly
    takes every view whose set of unresolved dependencies is empty as the next layer and
    removes that layer from everybody else's set. When no view is ready but some remain the
    sort fails with the residual map. */
module TopoSort {
  import opened Base

  /** Each view with the views it depends on (Python's `view_to_deps`). */
  type Graph<V> = map<V, set<V>>

  /** What is left of `deps` once the views in `placed` have been emitted. */
  function Residual<V>(deps: Graph<V>, placed: set<V>): Graph<V>
  {
    map v | v in deps && v !in placed :: deps[v] - placed
  }

  /** The views with no unresolved dependency: the next layer. */
  function Ready<V>(remaining: Graph<V>): set<V>
  {
    set v | v in remaining && remaining[v] == {}
  }

  /** Drops the views of `layer` and removes them from every remaining dependency set. */
  function Discharge<V>(remaining: Graph<V>, layer: set<V>): Graph<V>
  {
    map v | v in remaining && v !in layer :: remaining[v] - layer
  }

  /** All views of a sequence of layers. */
  function Flat<V>(layers: seq<set<V>>): set<V>
  {
    if layers == [] then {} else layers[0] + Flat(layers[1..])
  }

  lemma {:induction false} FlatCovers<V>(layers: seq<set<V>>)
    ensures forall i :: 0 <= i < |layers| ==> layers[i] <= Flat(layers)
  {
    if layers != [] {
      FlatCovers(layers[1..]);
      forall i | 1 <= i < |layers| ensures layers[i] <= Flat(layers) {
        assert layers[i] == layers[1..][i - 1];
      }
    }
  }

  lemma {:induction false} FlatMember<V>(layers: seq<set<V>>, v: V) returns (i: nat)
    requires v in Flat(layers)
    ensures i < |layers| && v in layers[i]
  {
    if v in layers[0] {
      i := 0;
    } else {
      var j := FlatMember(layers[1..], v);
      i := j + 1;
    }
  }

  ghost predicate PairwiseDisjoint<V>(layers: seq<set<V>>)
  {
    forall i, j :: 0 <= i < j < |layers| ==> layers[i] !! layers[j]
  }

  /** The generator `_sets_of_views_deps_iterator`, all of whose layers `list(...)` collects:
      either every layer, or the residual map the cyclic-dependency error reports. */
  function DependencyLayers<V>(remaining: Graph<V>): (r: Result<seq<set<V>>, Graph<V>>)
    ensures r.Success? ==>
              && Flat(r.value) == remaining.Keys
              && PairwiseDisjoint(r.value)
              && forall i :: 0 <= i < |r.value| ==> r.value[i] != {}
    ensures r.Failure? ==>
              && r.error != map[]
              && r.error.Keys <= remaining.Keys
              && Ready(r.error) == {}
    decreases remaining.Keys
  {
    var ready := Ready(remaining);
    if ready == {} then
      if remaining == map[] then Success([]) else Failure(remaining)
    else
      var next := Discharge(remaining, ready);
      assert next.Keys < remaining.Keys by {
        var v :| v in ready;
        assert v in remaining.Keys - next.Keys;
      }
      match DependencyLayers(next)
      case Success(rest) =>
        assert Flat([ready] + rest) == ready + Flat(rest) by {
          assert ([ready] + rest)[1..] == rest;
        }
        assert PairwiseDisjoint([ready] + rest) by {
          FlatCovers(rest);
        }
        Success([ready] + rest)
      case Failure(residual) => Failure(residual)
  }

  lemma ResidualOfNothing<V>(deps: Graph<V>)
    ensures Residual(deps, {}) == deps
  {
    assert Residual(deps, {}).Keys == deps.Keys;
    forall v | v in deps ensures Residual(deps, {})[v] == deps[v] {
      assert deps[v] - {} == deps[v];
    }
  }

  /** One round of the sort turns the residual of `placed` into the residual of
      `placed` plus the layer just emitted. */
  lemma ResidualStep<V>(deps: Graph<V>, placed: set<V>)
    ensures var rem := Residual(deps, placed);
            Discharge(rem, Ready(rem)) == Residual(deps, placed + Ready(rem))
  {
    var rem := Residual(deps, placed);
    var a, b := Discharge(rem, Ready(rem)), Residual(deps, placed + Ready(rem));
    assert a.Keys == b.Keys;
    forall v | v in a ensures a[v] == b[v] {
      assert a[v] == (deps[v] - placed) - Ready(rem);
    }
  }

  lemma {:induction false} FlatCons<V>(layer: set<V>, rest: seq<set<V>>)
    ensures Flat([layer] + rest) == layer + Flat(rest)
  {
    assert ([layer] + rest)[1..] == rest;
  }

  /** Every view of layer `i` of `ls` has all its dependencies among `placed` and the views
      of the layers before `i`. */
  ghost predicate DependenciesPlaced<V>(deps: Graph<V>, placed: set<V>, ls: seq<set<V>>)
  {
    forall i, v :: 0 <= i < |ls| && v in ls[i] ==> v in deps && deps[v] <= placed + Flat(ls[..i])
  }

  lemma DependenciesPlacedCons<V>(deps: Graph<V>, placed: set<V>, ready: set<V>, rest: seq<set<V>>)
    requires forall v :: v in ready ==> v in deps && deps[v] <= placed
    requires DependenciesPlaced(deps, placed + ready, rest)
    ensures DependenciesPlaced(deps, placed, [ready] + rest)
  {
    var ls := [ready] + rest;
    forall i, v | 0 <= i < |ls| && v in ls[i]
      ensures v in deps && deps[v] <= placed + Flat(ls[..i])
    {
      if i > 0 {
        assert ls[i] == rest[i - 1];
        assert ls[..i] == [ready] + rest[..i - 1];
        FlatCons(ready, rest[..i - 1]);
      }
    }
  }

  /** One round of the sort: a non-empty ready layer is emitted in front of the layers of
      the residual graph. */
  lemma {:induction false} LayersStep<V>(deps: Graph<V>, placed: set<V>)
    requires Ready(Residual(deps, placed)) != {}
    requires DependencyLayers(Residual(deps, placed)).Success?
    ensures var ready := Ready(Residual(deps, placed));
            && DependencyLayers(Residual(deps, placed + ready)).Success?
            && DependencyLayers(Residual(deps, placed)).value
               == [ready] + DependencyLayers(Residual(deps, placed + ready)).value
  {
    ResidualStep(deps, placed);
  }

  /** Every view of layer `i` has all its dependencies among the views placed before the sort
      started or emitted in layers `0..i`. */
  lemma {:induction false} LayerDependenciesPlaced<V>(deps: Graph<V>, placed: set<V>)
    requires DependencyLayers(Residual(deps, placed)).Success?
    ensures DependenciesPlaced(deps, placed, DependencyLayers(Residual(deps, placed)).value)
    decreases deps.Keys - placed
  {
    var remaining := Residual(deps, placed);
    var ready := Ready(remaining);
    if ready != {} {
      LayersStep(deps, placed);
      var v0 :| v0 in ready;
      assert v0 in (deps.Keys - placed) - (deps.Keys - (placed + ready));
      LayerDependenciesPlaced(deps, placed + ready);
      assert forall v :: v in ready ==> v in remaining && remaining[v] == {};
      DependenciesPlacedCons(deps, placed, ready, DependencyLayers(Residual(deps, placed + ready)).value);
    } else {
      assert DependencyLayers(remaining).value == [];
    }
  }

  /** On failure the residual map holds exactly the views not yet placed, each with its
      declared dependencies minus the placed ones. */
  lemma {:induction false} ResidualIsUnplaced<V>(deps: Graph<V>, placed: set<V>)
    requires placed <= deps.Keys
    requires DependencyLayers(Residual(deps, placed)).Failure?
    ensures var e := DependencyLayers(Residual(deps, placed)).error;
            && e.Keys <= deps.Keys - placed
            && forall v :: v in e ==> e[v] == deps[v] - (deps.Keys - e.Keys)
    decreases deps.Keys - placed
  {
    var remaining := Residual(deps, placed);
    var ready := Ready(remaining);
    if ready != {} {
      ResidualStep(deps, placed);
      var v0 :| v0 in ready;
      assert v0 in (deps.Keys - placed) - (deps.Keys - (placed + ready));
      ResidualIsUnplaced(deps, placed + ready);
    } else {
      assert DependencyLayers(remaining).error == remaining;
      assert deps.Keys - remaining.Keys == placed;
    }
  }

  /** The graph restricted to the views of `keep`. */
  function Restrict<V>(deps: Graph<V>, keep: set<V>): (r: Graph<V>)
    ensures r.Keys == deps.Keys * keep
    ensures forall v :: v in r ==> r[v] == deps[v]
  {
    map v | v in deps && v in keep :: deps[v]
  }

  /** `rank`, bounded by `bound`, orders the views of `placed`: each is a view of `deps` all
      of whose dependencies were placed before it. */
  ghost predicate PlacedInOrder<V>(deps: Graph<V>, placed: set<V>, rank: map<V, nat>, bound: nat)
  {
    forall v :: v in placed ==>
      && v in deps && v in rank && rank[v] < bound
      && forall d :: d in deps[v] ==> d in placed && d in rank && rank[d] < rank[v]
  }

  /** The views the sort manages to place before it gets stuck form a graph of their own that
      sorts: none of them depends on a view of the error map. */
  lemma {:induction false} PlacedPartRanked<V>(deps: Graph<V>, placed: set<V>, rank: map<V, nat>, bound: nat)
    requires PlacedInOrder(deps, placed, rank, bound)
    requires DependencyLayers(Residual(deps, placed)).Failure?
    ensures var e := DependencyLayers(Residual(deps, placed)).error;
            exists r :: Ranked(Restrict(deps, deps.Keys - e.Keys), r)
    decreases deps.Keys - placed
  {
    var remaining := Residual(deps, placed);
    var ready := Ready(remaining);
    if ready != {} {
      ResidualStep(deps, placed);
      var v0 :| v0 in ready;
      assert v0 in (deps.Keys - placed) - (deps.Keys - (placed + ready));
      var next: map<V, nat> := map v | v in placed + ready :: if v in placed then rank[v] else bound;
      assert PlacedInOrder(deps, placed + ready, next, bound + 1) by {
        forall v | v in placed + ready
          ensures && v in deps && v in next && next[v] < bound + 1
                  && forall d :: d in deps[v] ==> d in placed + ready && d in next && next[d] < next[v]
        {
          if v !in placed {
            assert v in remaining && remaining[v] == {};
            forall d | d in deps[v] ensures d in placed {
              assert d !in remaining[v];
            }
          }
        }
      }
      PlacedPartRanked(deps, placed + ready, next, bound + 1);
    } else {
      var e := DependencyLayers(remaining).error;
      assert e == remaining;
      assert deps.Keys - e.Keys == placed;
      var sub := Restrict(deps, placed);
      assert Ranked(sub, rank);
    }
  }

  /** The cyclic-dependency error of a whole sort: a non-empty map over views of the input,
      none of which is ready, each carrying its declared dependencies minus the views that
      were placed before the sort stopped. The views left out of the map are exactly the ones
      that could be placed: on their own they sort. */
  lemma {:induction false} SortErrorPayload<V>(deps: Graph<V>)
    requires DependencyLayers(deps).Failure?
    ensures var e := DependencyLayers(deps).error;
            && e != map[]
            && e.Keys <= deps.Keys
            && (forall v :: v in e ==> e[v] == deps[v] - (deps.Keys - e.Keys))
            && (forall v :: v in e ==> e[v] != {})
            && DependencyLayers(Restrict(deps, deps.Keys - e.Keys)).Success?
  {
    ResidualOfNothing(deps);
    ResidualIsUnplaced(deps, {});
    var e := DependencyLayers(deps).error;
    forall v | v in e ensures e[v] != {} {
      assert v !in Ready(e);
    }
    PlacedPartRanked(deps, {}, map[], 0);
    SortSucceedsIffRanked(Restrict(deps, deps.Keys - e.Keys));
  }

  // ---------------------------------------------------------------------------
  // When the sort succeeds: ranks
  // ---------------------------------------------------------------------------

  /** `rank` orders the graph: every dependency is itself a view of the graph and has a
      strictly smaller rank than its dependent. Such a rank exists exactly when the graph
      is closed and acyclic. */
  ghost predicate Ranked<V>(deps: Graph<V>, rank: map<V, nat>)
  {
    && (forall v :: v in deps ==> v in rank)
    && forall v, d :: v in deps && d in deps[v] ==> d in deps && rank[d] < rank[v]
  }

  /** A view of least rank in a non-empty set. */
  lemma {:induction false} LeastRanked<V>(s: set<V>, rank: map<V, nat>) returns (m: V)
    requires s != {} && s <= rank.Keys
    ensures m in s && forall u :: u in s ==> rank[m] <= rank[u]
    decreases s
  {
    var x :| x in s;
    if s == {x} {
      m := x;
    } else {
      var m' := LeastRanked(s - {x}, rank);
      m := if rank[x] <= rank[m'] then x else m';
    }
  }

  /** A ranked graph never gets stuck: a least-ranked remaining view has all its
      dependencies placed already. */
  lemma {:induction false} RankedSortsFrom<V>(deps: Graph<V>, rank: map<V, nat>, placed: set<V>)
    requires Ranked(deps, rank)
    ensures DependencyLayers(Residual(deps, placed)).Success?
    decreases deps.Keys - placed
  {
    var remaining := Residual(deps, placed);
    if remaining != map[] {
      var keys := remaining.Keys;
      assert keys <= rank.Keys by {
        forall u | u in keys ensures u in rank {
          var w :| w in remaining && w == u;
        }
      }
      var m := LeastRanked(keys, rank);
      assert forall d :: d in deps[m] ==> d in placed by {
        forall d | d in deps[m] ensures d in placed {
          assert d in deps && rank[d] < rank[m];
          assert d !in keys;
        }
      }
      assert remaining[m] == {};
      var ready := Ready(remaining);
      assert m in ready;
      ResidualStep(deps, placed);
      assert m in (deps.Keys - placed) - (deps.Keys - (placed + ready));
      RankedSortsFrom(deps, rank, placed + ready);
    }
  }

  /** Index of the first layer holding `v`. */
  function FirstLayer<V>(layers: seq<set<V>>, v: V): (i: nat)
    requires v in Flat(layers)
    ensures i < |layers| && v in layers[i]
    ensures forall j :: 0 <= j < i ==> v !in layers[j]
  {
    if v in layers[0] then 0 else 1 + FirstLayer(layers[1..], v)
  }

  /** The rank given by a list of layers: the index of the first layer holding a view. */
  ghost function RankOfLayers<V>(deps: Graph<V>, ls: seq<set<V>>): map<V, nat>
    requires deps.Keys <= Flat(ls)
  {
    map v | v in deps :: FirstLayer(ls, v)
  }

  /** The rank a successful sort assigns: the index of the layer a view lands in. */
  ghost function LayerRank<V>(deps: Graph<V>): map<V, nat>
  {
    match DependencyLayers(deps)
    case Success(ls) => RankOfLayers(deps, ls)
    case Failure(_) => map[]
  }

  lemma InPrefixBeforeFirst<V>(ls: seq<set<V>>, i: nat, d: V)
    requires i <= |ls| && d in Flat(ls[..i])
    ensures d in Flat(ls) && FirstLayer(ls, d) < i
  {
    var j := FlatMember(ls[..i], d);
    assert d in ls[j];
    FlatCovers(ls);
  }

  /** Layers in which every view follows its dependencies rank the graph. */
  lemma {:induction false} LayersRankGraph<V>(deps: Graph<V>, ls: seq<set<V>>)
    requires Flat(ls) == deps.Keys
    requires DependenciesPlaced(deps, {}, ls)
    ensures Ranked(deps, RankOfLayers(deps, ls))
  {
    var rank := RankOfLayers(deps, ls);
    forall v, d | v in deps && d in deps[v]
      ensures d in deps && rank[d] < rank[v]
    {
      var i := FirstLayer(ls, v);
      assert v in ls[i];
      assert deps[v] <= {} + Flat(ls[..i]);
      InPrefixBeforeFirst(ls, i, d);
    }
  }

  /** Soundness: the layer index of a successful sort is a rank of the graph. */
  lemma SortedIsRanked<V>(deps: Graph<V>)
    ensures DependencyLayers(deps).Success? ==> Ranked(deps, LayerRank(deps))
  {
    if DependencyLayers(deps).Success? {
      var ls := DependencyLayers(deps).value;
      ResidualOfNothing(deps);
      LayerDependenciesPlaced(deps, {});
      LayersRankGraph(deps, ls);
    }
  }

  /** The sort succeeds exactly when the graph can be ranked, that is when every dependency is
      among the sorted views and there is no cycle. */
  lemma SortSucceedsIffRanked<V>(deps: Graph<V>)
    ensures DependencyLayers(deps).Success? <==> exists rank :: Ranked(deps, rank)
  {
    SortedIsRanked(deps);
    if exists rank :: Ranked(deps, rank) {
      var rank :| Ranked(deps, rank);
      RankedSortsFrom(deps, rank, {});
      ResidualOfNothing(deps);
    }
  }

  // ---------------------------------------------------------------------------
  // When the sort fails: cycles and unknown dependencies
  // ---------------------------------------------------------------------------

  /** `path[k+1]` is a dependency of `path[k]` for every step of the path. */
  ghost predicate IsPath<V>(deps: Graph<V>, path: seq<V>)
  {
    forall k :: 0 <= k < |path| - 1 ==> path[k] in deps && path[k + 1] in deps[path[k]]
  }

  /** A path whose last view depends on its first: a cycle (of length one for a view that
      depends on itself). */
  ghost predicate IsCycle<V>(deps: Graph<V>, path: seq<V>)
  {
    && |path| >= 1
    && IsPath(deps, path)
    && path[|path| - 1] in deps
    && path[0] in deps[path[|path| - 1]]
  }

  /** Ranks strictly fall along a path. */
  lemma {:induction false} RankFallsAlongPath<V>(deps: Graph<V>, rank: map<V, nat>, path: seq<V>)
    requires Ranked(deps, rank) && IsPath(deps, path) && |path| >= 2
    ensures path[0] in rank && path[|path| - 1] in rank
    ensures rank[path[|path| - 1]] + |path| - 1 <= rank[path[0]]
    decreases |path|
  {
    if |path| > 2 {
      var shorter := path[..|path| - 1];
      assert IsPath(deps, shorter) by {
        forall k | 0 <= k < |shorter| - 1
          ensures shorter[k] in deps && shorter[k + 1] in deps[shorter[k]]
        {
          assert shorter[k] == path[k] && shorter[k + 1] == path[k + 1];
        }
      }
      RankFallsAlongPath(deps, rank, shorter);
      assert path[|path| - 2] in deps && path[|path| - 1] in deps[path[|path| - 2]];
    } else {
      assert path[0] in deps && path[1] in deps[path[0]];
    }
  }

  /** A ranked graph closes no path into a cycle. */
  lemma RankedHasNoCycle<V>(deps: Graph<V>, rank: map<V, nat>, path: seq<V>)
    requires IsPath(deps, path) && |path| >= 1 && path[|path| - 1] in deps
    ensures Ranked(deps, rank) ==> path[0] !in deps[path[|path| - 1]]
  {
    if Ranked(deps, rank) && |path| >= 2 {
      RankFallsAlongPath(deps, rank, path);
    }
  }

  /** Cycle detection: a cycle anywhere in the graph, including a view that depends on
      itself, makes the whole sort fail. */
  lemma {:induction false} CycleFailsSort<V>(deps: Graph<V>, cycle: seq<V>)
    requires IsCycle(deps, cycle)
    ensures DependencyLayers(deps).Failure?
  {
    SortedIsRanked(deps);
    RankedHasNoCycle(deps, LayerRank(deps), cycle);
  }

  /** A view that depends on itself is a cycle of length one. */
  lemma {:induction false} SelfDependencyFailsSort<V>(deps: Graph<V>, v: V)
    requires v in deps && v in deps[v]
    ensures DependencyLayers(deps).Failure?
  {
    CycleFailsSort(deps, [v]);
  }

  /** A dependency on a view outside the sorted collection can never be placed. */
  lemma {:induction false} UnknownDependencyFailsSort<V>(deps: Graph<V>, v: V, d: V)
    requires v in deps && d in deps[v] && d !in deps
    ensures DependencyLayers(deps).Failure?
  {
    SortedIsRanked(deps);
    UnknownDependencyUnranked(deps, LayerRank(deps), v, d);
  }

  /** No rank can order a graph with a dependency outside it. */
  lemma UnknownDependencyUnranked<V>(deps: Graph<V>, rank: map<V, nat>, v: V, d: V)
    requires v in deps && d in deps[v] && d !in deps
    ensures !Ranked(deps, rank)
  {
  }

  // ---------------------------------------------------------------------------
  // Flattening the layers into one list
  // ---------------------------------------------------------------------------

  /** `order` lists every view of `deps` exactly once, each after all of its dependencies. */
  ghost predicate IsBuildOrder<V>(deps: Graph<V>, order: seq<V>)
  {
    && Distinct(order)
    && (forall v :: v in deps ==> v in order)
    && (forall v :: v in order ==> v in deps)
    && forall p :: 0 <= p < |order| ==>
         order[p] in deps && forall d :: d in deps[order[p]] ==> d in order[..p]
  }

  lemma {:induction false} DistinctElements<V>(s: seq<V>)
    requires Distinct(s)
    ensures |(set x | x in s)| == |s|
  {
    if s != [] {
      var tail := s[1..];
      assert Distinct(tail) by {
        forall i, j | 0 <= i < j < |tail| ensures tail[i] != tail[j] {
          assert tail[i] == s[i + 1] && tail[j] == s[j + 1];
        }
      }
      DistinctElements(tail);
      assert s[0] !in tail by {
        forall j | 0 <= j < |tail| ensures tail[j] != s[0] {
          assert tail[j] == s[j + 1];
        }
      }
      assert (set x | x in s) == {s[0]} + (set x | x in tail);
    }
  }

  /** A build order lists exactly as many views as the graph holds. */
  lemma BuildOrderLength<V>(deps: Graph<V>, order: seq<V>)
    requires IsBuildOrder(deps, order)
    ensures |order| == |deps|
  {
    DistinctElements(order);
    assert (set x | x in order) == deps.Keys;
  }

  /** Lists a set in some order: the iteration order of a Python set, which nothing fixes. */
  method Enumerate<V>(s: set<V>) returns (e: seq<V>)
    ensures Distinct(e)
    ensures forall x :: x in e <==> x in s
  {
    e := [];
    var rest := s;
    while rest != {}
      invariant rest <= s
      invariant Distinct(e)
      invariant forall x :: x in e <==> x in s && x !in rest
      decreases rest
    {
      var x :| x in rest;
      e := e + [x];
      rest := rest - {x};
    }
  }

  lemma FlatSnoc<V>(ls: seq<set<V>>, k: nat)
    requires k < |ls|
    ensures Flat(ls[..k + 1]) == Flat(ls[..k]) + ls[k]
  {
    assert ls[..k + 1] == ls[..k] + [ls[k]];
    FlatAppend(ls[..k], [ls[k]]);
    FlatCons(ls[k], []);
  }

  lemma {:induction false} FlatAppend<V>(a: seq<set<V>>, b: seq<set<V>>)
    ensures Flat(a + b) == Flat(a) + Flat(b)
  {
    if a != [] {
      assert (a + b)[1..] == a[1..] + b;
      FlatAppend(a[1..], b);
    } else {
      assert a + b == b;
    }
  }

  /** `order` lists, without repetition, exactly the views of the first `k` layers, each
      after its dependencies and in non-decreasing layer index. */
  ghost predicate FlattenedUpTo<V>(deps: Graph<V>, ls: seq<set<V>>, k: nat, order: seq<V>)
    requires k <= |ls|
  {
    && Distinct(order)
    && (forall v :: v in order ==> v in Flat(ls[..k]))
    && (forall v :: v in Flat(ls[..k]) ==> v in order)
    && (forall p :: 0 <= p < |order| ==>
          order[p] in deps && forall d :: d in deps[order[p]] ==> d in order[..p])
    && (forall p :: 0 <= p < |order| ==> order[p] in Flat(ls) && FirstLayer(ls, order[p]) < k)
    && (forall p, q :: 0 <= p < q < |order| ==>
          order[p] in Flat(ls) && order[q] in Flat(ls) &&
          FirstLayer(ls, order[p]) <= FirstLayer(ls, order[q]))
  }

  /** Layer `k` of a disjoint list of layers is the first layer of each of its views. */
  lemma FirstLayerOfMember<V>(ls: seq<set<V>>, k: nat, x: V)
    requires k < |ls| && PairwiseDisjoint(ls) && x in ls[k]
    ensures x in Flat(ls) && FirstLayer(ls, x) == k
  {
    FlatCovers(ls);
    assert forall j :: 0 <= j < |ls| && j != k ==> x !in ls[j] by {
      assert forall j :: 0 <= j < k ==> ls[j] !! ls[k];
      assert forall j :: k < j < |ls| ==> ls[k] !! ls[j];
    }
  }

  /** Appending an enumeration of layer `k` keeps the flattening invariant. */
  lemma AppendLayer<V>(deps: Graph<V>, ls: seq<set<V>>, k: nat, order: seq<V>, e: seq<V>)
    requires k < |ls| && PairwiseDisjoint(ls) && DependenciesPlaced(deps, {}, ls)
    requires FlattenedUpTo(deps, ls, k, order)
    requires Distinct(e) && (forall x :: x in e ==> x in ls[k]) && (forall x :: x in ls[k] ==> x in e)
    ensures FlattenedUpTo(deps, ls, k + 1, order + e)
  {
    FlatSnoc(ls, k);
    var o := order + e;
    forall x | x in e ensures x in Flat(ls) && FirstLayer(ls, x) == k {
      FirstLayerOfMember(ls, k, x);
    }
    assert forall x :: x in e ==> x !in order;
    assert Distinct(o);
    forall p | 0 <= p < |o|
      ensures o[p] in deps && forall d :: d in deps[o[p]] ==> d in o[..p]
    {
      if p >= |order| {
        var v := o[p];
        assert v in e;
        assert v in ls[k];
        assert v in deps && deps[v] <= {} + Flat(ls[..k]);
        forall d | d in deps[v] ensures d in o[..p] {
          assert d in order;
          assert order == o[..p][..|order|];
        }
      } else {
        assert o[..p] == order[..p];
      }
    }
    forall p | 0 <= p < |o| ensures o[p] in Flat(ls) && FirstLayer(ls, o[p]) < k + 1 {
      if p >= |order| { assert o[p] in e; }
    }
    forall p, q | 0 <= p < q < |o|
      ensures o[p] in Flat(ls) && o[q] in Flat(ls) && FirstLayer(ls, o[p]) <= FirstLayer(ls, o[q])
    {
      if q >= |order| {
        assert o[q] in e;
        if p >= |order| { assert o[p] in e; }
      }
    }
  }

  /** Flattens the layers one after another, each in whatever order its set yields. */
  method FlattenLayers<V>(deps: Graph<V>, ls: seq<set<V>>) returns (order: seq<V>)
    requires Flat(ls) == deps.Keys && PairwiseDisjoint(ls) && DependenciesPlaced(deps, {}, ls)
    ensures IsBuildOrder(deps, order)
    ensures forall p, q :: 0 <= p < q < |order| ==>
              order[p] in Flat(ls) && order[q] in Flat(ls) &&
              FirstLayer(ls, order[p]) <= FirstLayer(ls, order[q])
  {
    order := [];
    var k := 0;
    while k < |ls|
      invariant 0 <= k <= |ls|
      invariant FlattenedUpTo(deps, ls, k, order)
    {
      var e := Enumerate(ls[k]);
      AppendLayer(deps, ls, k, order, e);
      order := order + e;
      k := k + 1;
    }
    assert ls[..|ls|] == ls;
  }

  /** `topological_sort_views`: flattens the layers into a list (layer by layer, in an
      unspecified order inside each layer) or reports the residual map of the cyclic
      dependency error. */
  method TopologicalSort<V>(deps: Graph<V>) returns (r: Result<seq<V>, Graph<V>>)
    ensures deps == map[] ==> r == Success([])
    ensures r.Success? <==> DependencyLayers(deps).Success?
    ensures r.Failure? ==> r.error == DependencyLayers(deps).error
    ensures r.Success? ==> IsBuildOrder(deps, r.value)
    ensures r.Success? ==>
              forall p, q :: 0 <= p < q < |r.value| ==>
                var ls := DependencyLayers(deps).value;
                r.value[p] in Flat(ls) && r.value[q] in Flat(ls) &&
                FirstLayer(ls, r.value[p]) <= FirstLayer(ls, r.value[q])
  {
    var layers := DependencyLayers(deps);
    if deps == map[] {
      assert Ready(deps) == {};
      return Success([]);
    }
    if layers.Failure? {
      return Failure(layers.error);
    }
    ResidualOfNothing(deps);
    LayerDependenciesPlaced(deps, {});
    var order := FlattenLayers(deps, layers.value);
    r := Success(order);
  }
}
