// The residual network (include/algorithms/flowNetwork/FlowNetwork.h).
//
// The C++ class keeps one vector of FlowEdge per vertex, and each edge holds a raw
// pointer to its reverse edge. Here every edge lives in one arena `edges`, and a
// vertex's adjacency list is the sequence of arena indices of its edges. addEdge always
// appends two edges at once, so the arena is a sequence of consecutive pairs:
// position 2k is the forward edge and 2k+1 its reverse. The `reverse` field is
// the arena index of the reverse edge, or -1 for a null pointer. The owning vertex
// ("home") of an edge is therefore the target of the other edge of its pair.

module FlowNetworks {
  import opened GraphTypes

  /** A residual edge: target, capacity, current flow and the index of its reverse edge. */
  datatype FlowEdge = FlowEdge(target: Vertex, capacity: int, flow: int, reverse: int)

  /** The null reverse pointer. */
  const NoReverse: int := -1

  /** The other edge of the pair that holds edge `i`. */
  function Partner(i: nat): nat {
    if i % 2 == 0 then i + 1 else i - 1
  }

  /**
   * The two edges addEdge(from, to, capacity) appends when the arena holds `n` edges.
   * When from == to both `back()` calls of the source name the same vector, whose last
   * element is then the second edge: the forward edge keeps a null reverse pointer
   * and the second edge points at itself.
   */
  function EdgePair(from: Vertex, to: Vertex, capacity: int, n: nat): (p: seq<FlowEdge>)
    ensures |p| == 2 && p[0].target == to && p[1].target == from
    ensures p[0].capacity == capacity && p[1].capacity == 0 && p[0].flow == 0 && p[1].flow == 0
  {
    if from != to then [FlowEdge(to, capacity, 0, n + 1), FlowEdge(from, 0, 0, n)]
    else [FlowEdge(to, capacity, 0, NoReverse), FlowEdge(from, 0, 0, n + 1)]
  }

  /** Pair k is as addEdge builds it, whatever flow it carries now. */
  ghost predicate PairAt(es: seq<FlowEdge>, k: nat)
    requires 2 * k + 1 < |es|
  {
    var a, b := es[2 * k], es[2 * k + 1];
    b.capacity == 0 &&
    if a.target != b.target then a.reverse == 2 * k + 1 && b.reverse == 2 * k
    else a.reverse == NoReverse && b.reverse == 2 * k + 1
  }

  ghost predicate Paired(es: seq<FlowEdge>) {
    |es| % 2 == 0 && forall k: nat :: 2 * k + 1 < |es| ==> PairAt(es, k)
  }

  /** The vertex whose adjacency vector holds edge `i`. */
  function Home(es: seq<FlowEdge>, i: nat): Vertex
    requires |es| % 2 == 0 && i < |es|
  {
    es[Partner(i)].target
  }

  /** The arena indices below `n` of the edges owned by `v`, in increasing order. */
  function Owned(es: seq<FlowEdge>, v: Vertex, n: nat): seq<nat>
    requires |es| % 2 == 0 && n <= |es|
  {
    if n == 0 then [] else Owned(es, v, n - 1) + (if Home(es, n - 1) == v then [n - 1] else [])
  }

  /** The arena and the adjacency lists agree. */
  ghost predicate Wf(es: seq<FlowEdge>, lists: map<Vertex, seq<nat>>) {
    Paired(es) &&
    (forall v :: v in lists ==> lists[v] == Owned(es, v, |es|)) &&
    (forall i :: 0 <= i < |es| ==> Home(es, i) in lists)
  }

  /** Same edges as far as the structure goes; only flows may differ. */
  ghost predicate SameShape(a: seq<FlowEdge>, b: seq<FlowEdge>) {
    |a| == |b| &&
    forall i :: 0 <= i < |a| ==>
      a[i].target == b[i].target && a[i].capacity == b[i].capacity && a[i].reverse == b[i].reverse
  }

  /** `e.flow += f; e.reverse->flow -= f` on edge `i` of a proper pair. */
  function PushAt(es: seq<FlowEdge>, i: nat, f: int): (r: seq<FlowEdge>)
    requires |es| % 2 == 0 && i < |es|
    ensures SameShape(es, r)
    ensures r[i].flow == es[i].flow + f && r[Partner(i)].flow == es[Partner(i)].flow - f
    ensures forall j :: 0 <= j < |es| && j != i && j != Partner(i) ==> r[j] == es[j]
  {
    var p := Partner(i);
    es[i := es[i].(flow := es[i].flow + f)][p := es[p].(flow := es[p].flow - f)]
  }

  /** The arena the constructor builds from the base graph's edges. */
  function Arena(base: seq<Edge>): (es: seq<FlowEdge>)
    ensures |es| == 2 * |base|
  {
    if base == [] then []
    else
      var b := base[|base| - 1];
      Arena(base[..|base| - 1]) + EdgePair(b.source, b.target, b.capacity, 2 * (|base| - 1))
  }

  /** The first index in `ids` of an edge into `v` with flow < capacity. */
  function FirstResidual(es: seq<FlowEdge>, ids: seq<nat>, v: Vertex): (r: Option<nat>)
    requires forall j :: 0 <= j < |ids| ==> ids[j] < |es|
    ensures r.Some? ==> r.value < |ids| && es[ids[r.value]].target == v
                        && es[ids[r.value]].flow < es[ids[r.value]].capacity
    ensures r.Some? ==> forall j :: 0 <= j < r.value ==>
                          !(es[ids[j]].target == v && es[ids[j]].flow < es[ids[j]].capacity)
    ensures r.None? <==> forall j :: 0 <= j < |ids| ==>
                           !(es[ids[j]].target == v && es[ids[j]].flow < es[ids[j]].capacity)
  {
    if ids == [] then None
    else if es[ids[0]].target == v && es[ids[0]].flow < es[ids[0]].capacity then Some(0)
    else match FirstResidual(es, ids[1..], v)
      case None => None
      case Some(j) => Some(j + 1)
  }

  function ListOf(lists: map<Vertex, seq<nat>>, v: Vertex): seq<nat> {
    if v in lists then lists[v] else []
  }

  /** The arena index of the first edge u -> v in u's list that still has residual capacity. */
  function HopOf(es: seq<FlowEdge>, lists: map<Vertex, seq<nat>>, u: Vertex, v: Vertex): (r: Option<nat>)
    requires Wf(es, lists)
    ensures r.Some? ==> r.value < |es| && Home(es, r.value) == u && es[r.value].target == v
                        && es[r.value].flow < es[r.value].capacity
  {
    WfFacts(es, lists);
    var ids := ListOf(lists, u);
    match FirstResidual(es, ids, v)
    case None => None
    case Some(j) => Some(ids[j])
  }

  /** No hop exactly when every edge u -> v is saturated. */
  lemma HopOfNone(es: seq<FlowEdge>, lists: map<Vertex, seq<nat>>, u: Vertex, v: Vertex)
    requires Wf(es, lists)
    ensures HopOf(es, lists, u, v).None? <==>
      forall i :: 0 <= i < |es| && Home(es, i) == u && es[i].target == v ==> es[i].flow >= es[i].capacity
  {
    WfFacts(es, lists);
    if FirstResidual(es, ListOf(lists, u), v).None? {
      NoHop(es, lists, u, v);
    }
  }

  lemma NoHop(es: seq<FlowEdge>, lists: map<Vertex, seq<nat>>, u: Vertex, v: Vertex)
    requires Wf(es, lists)
    requires forall j :: 0 <= j < |ListOf(lists, u)| ==> ListOf(lists, u)[j] < |es|
    requires FirstResidual(es, ListOf(lists, u), v).None?
    ensures forall i :: 0 <= i < |es| && Home(es, i) == u && es[i].target == v ==> es[i].flow >= es[i].capacity
  {
    var ids := ListOf(lists, u);
    forall i | 0 <= i < |es| && Home(es, i) == u && es[i].target == v
      ensures es[i].flow >= es[i].capacity
    {
      InHomeList(es, lists, i);
      var j :| 0 <= j < |ids| && ids[j] == i;
    }
  }

  /** The residual capacity of that edge, 0 when there is none. */
  function HopResidual(es: seq<FlowEdge>, lists: map<Vertex, seq<nat>>, u: Vertex, v: Vertex): int
    requires Wf(es, lists)
  {
    match HopOf(es, lists, u, v)
    case None => 0
    case Some(i) => es[i].capacity - es[i].flow
  }

  // ---------------------------------------------------------------------------
  // Lemmas about the arena

  lemma PartnerFacts(es: seq<FlowEdge>, i: nat)
    requires |es| % 2 == 0 && i < |es|
    ensures Partner(i) < |es| && Partner(i) != i && Partner(Partner(i)) == i
    ensures Partner(i) / 2 == i / 2
  {
  }

  /** A proper pair: each edge's reverse pointer names its partner. */
  lemma LinkedPair(es: seq<FlowEdge>, i: nat)
    requires Paired(es) && i < |es| && Home(es, i) != es[i].target
    ensures es[i].reverse == Partner(i)
    ensures Home(es, Partner(i)) == es[i].target && es[Partner(i)].target == Home(es, i)
  {
    var k := i / 2;
    assert PairAt(es, k);
  }

  /** The second edge of every pair has capacity 0. */
  lemma SecondHasNoCapacity(es: seq<FlowEdge>, i: nat)
    requires Paired(es) && i < |es| && i % 2 == 1
    ensures es[i].capacity == 0
  {
    assert PairAt(es, i / 2);
  }

  lemma {:induction false} OwnedBounds(es: seq<FlowEdge>, v: Vertex, n: nat)
    requires |es| % 2 == 0 && n <= |es|
    ensures forall j :: 0 <= j < |Owned(es, v, n)| ==> Owned(es, v, n)[j] < n
    ensures forall j :: 0 <= j < |Owned(es, v, n)| ==> Home(es, Owned(es, v, n)[j]) == v
  {
    if n > 0 {
      OwnedBounds(es, v, n - 1);
    }
  }

  /** Owned(es, v, n) lists exactly the edges below `n` whose home is `v`, each once, in order. */
  lemma {:induction false} OwnedExactly(es: seq<FlowEdge>, v: Vertex, n: nat)
    requires |es| % 2 == 0 && n <= |es|
    ensures forall i :: 0 <= i < n ==> (Home(es, i) == v <==> i in Owned(es, v, n))
    ensures forall j, k :: 0 <= j < k < |Owned(es, v, n)| ==> Owned(es, v, n)[j] < Owned(es, v, n)[k]
  {
    if n > 0 {
      OwnedExactly(es, v, n - 1);
      OwnedBounds(es, v, n - 1);
    }
  }

  /** The edges at the given indices, in order. */
  function Gather(es: seq<FlowEdge>, ids: seq<nat>): (r: seq<FlowEdge>)
    requires forall j :: 0 <= j < |ids| ==> ids[j] < |es|
    ensures |r| == |ids| && forall j :: 0 <= j < |r| ==> r[j] == es[ids[j]]
  {
    seq(|ids|, j requires 0 <= j < |ids| => es[ids[j]])
  }

  /** The edges listed for a known vertex are exactly those whose home it is. */
  lemma AdjacentExactly(es: seq<FlowEdge>, lists: map<Vertex, seq<nat>>, v: Vertex)
    requires Wf(es, lists) && v in lists
    ensures forall j :: 0 <= j < |lists[v]| ==> lists[v][j] < |es|
    ensures forall e :: e in Gather(es, lists[v]) <==> exists i :: 0 <= i < |es| && Home(es, i) == v && es[i] == e
  {
    WfFacts(es, lists);
    var ids := lists[v];
    OwnedExactly(es, v, |es|);
    var r := Gather(es, ids);
    forall i | 0 <= i < |es| && Home(es, i) == v ensures es[i] in r {
      var j :| 0 <= j < |ids| && ids[j] == i;
      assert r[j] == es[i];
    }
  }

  /** No edge has its home at a vertex without a list. */
  lemma AdjacentNone(es: seq<FlowEdge>, lists: map<Vertex, seq<nat>>, v: Vertex)
    requires Wf(es, lists) && v !in lists
    ensures forall i :: 0 <= i < |es| ==> Home(es, i) != v
  {
  }

  lemma {:induction false} OwnedNone(es: seq<FlowEdge>, v: Vertex, n: nat)
    requires |es| % 2 == 0 && n <= |es|
    requires forall i :: 0 <= i < n ==> Home(es, i) != v
    ensures Owned(es, v, n) == []
  {
    if n > 0 {
      OwnedNone(es, v, n - 1);
    }
  }

  lemma {:induction false} OwnedShape(a: seq<FlowEdge>, b: seq<FlowEdge>, v: Vertex, n: nat)
    requires |a| % 2 == 0 && SameShape(a, b) && n <= |a|
    ensures Owned(a, v, n) == Owned(b, v, n)
  {
    if n > 0 {
      OwnedShape(a, b, v, n - 1);
      assert Home(a, n - 1) == Home(b, n - 1);
    }
  }

  lemma {:induction false} OwnedAppend(es: seq<FlowEdge>, more: seq<FlowEdge>, v: Vertex, n: nat)
    requires |es| % 2 == 0 && |more| % 2 == 0 && n <= |es|
    ensures Owned(es + more, v, n) == Owned(es, v, n)
  {
    if n > 0 {
      OwnedAppend(es, more, v, n - 1);
      assert Home(es + more, n - 1) == Home(es, n - 1);
    }
  }

  lemma ShapeKeepsWf(a: seq<FlowEdge>, b: seq<FlowEdge>, lists: map<Vertex, seq<nat>>)
    requires Wf(a, lists) && SameShape(a, b)
    ensures Wf(b, lists)
  {
    forall k: nat | 2 * k + 1 < |b| ensures PairAt(b, k) {
      assert PairAt(a, k);
    }
    forall v | v in lists ensures lists[v] == Owned(b, v, |b|) {
      OwnedShape(a, b, v, |a|);
    }
    forall i | 0 <= i < |b| ensures Home(b, i) in lists {
      assert Home(a, i) == Home(b, i);
    }
  }

  lemma ShapeKeepsHome(a: seq<FlowEdge>, b: seq<FlowEdge>, i: nat)
    requires |a| % 2 == 0 && SameShape(a, b) && i < |a|
    ensures Home(a, i) == Home(b, i)
  {
  }

  lemma ShapeTransitive(a: seq<FlowEdge>, b: seq<FlowEdge>, c: seq<FlowEdge>)
    requires SameShape(a, b) && SameShape(b, c)
    ensures SameShape(a, c)
  {
  }

  /** Every list index points into the arena, and every edge's target has a list. */
  lemma WfFacts(es: seq<FlowEdge>, lists: map<Vertex, seq<nat>>)
    requires Wf(es, lists)
    ensures forall v, j :: v in lists && 0 <= j < |lists[v]| ==> lists[v][j] < |es| && Home(es, lists[v][j]) == v
    ensures forall i :: 0 <= i < |es| ==> es[i].target in lists
  {
    forall v | v in lists
      ensures forall j :: 0 <= j < |lists[v]| ==> lists[v][j] < |es| && Home(es, lists[v][j]) == v
    {
      OwnedBounds(es, v, |es|);
    }
    forall i | 0 <= i < |es| ensures es[i].target in lists {
      PartnerFacts(es, i);
      assert Home(es, Partner(i)) == es[i].target;
    }
  }

  /** Edge `i` sits in its home's adjacency list. */
  lemma InHomeList(es: seq<FlowEdge>, lists: map<Vertex, seq<nat>>, i: nat)
    requires Wf(es, lists) && i < |es|
    ensures Home(es, i) in lists && i in lists[Home(es, i)]
  {
    OwnedExactly(es, Home(es, i), |es|);
  }

  /** The adjacency lists after addEdge(from, to, _) on an arena of `n` edges. */
  function ListsAfterAdd(lists: map<Vertex, seq<nat>>, from: Vertex, to: Vertex, n: nat): map<Vertex, seq<nat>> {
    var l1 := lists[from := ListOf(lists, from) + [n]];
    l1[to := ListOf(l1, to) + [n + 1]]
  }

  /** addEdge gives `from` and `to` a list if they had none, and appends to each its own edge. */
  lemma ListsAfterAddSpec(lists: map<Vertex, seq<nat>>, from: Vertex, to: Vertex, n: nat)
    ensures ListsAfterAdd(lists, from, to, n).Keys == lists.Keys + {from, to}
    ensures forall v :: v in ListsAfterAdd(lists, from, to, n) ==>
      ListsAfterAdd(lists, from, to, n)[v]
        == ListOf(lists, v) + (if v == from then [n] else []) + (if v == to then [n + 1] else [])
  {
  }

  /** Every vertex that is an endpoint of a base edge. */
  function Endpoints(base: seq<Edge>): set<Vertex> {
    if base == [] then {} else Endpoints(base[..|base| - 1]) + {base[|base| - 1].source, base[|base| - 1].target}
  }

  lemma OwnedAfterPair(es: seq<FlowEdge>, from: Vertex, to: Vertex, capacity: int, v: Vertex)
    requires |es| % 2 == 0
    ensures var n := |es|; var es1 := es + EdgePair(from, to, capacity, n);
      Owned(es1, v, |es1|) == Owned(es, v, n) + (if v == from then [n] else []) + (if v == to then [n + 1] else [])
  {
    var n := |es|;
    var pair := EdgePair(from, to, capacity, n);
    var es1 := es + pair;
    assert Home(es1, n) == from && Home(es1, n + 1) == to;
    OwnedAppend(es, pair, v, n);
    assert Owned(es1, v, n + 2) == Owned(es1, v, n + 1) + (if v == to then [n + 1] else []);
    assert Owned(es1, v, n + 1) == Owned(es1, v, n) + (if v == from then [n] else []);
  }

  lemma AddEdgeKeepsWf(es: seq<FlowEdge>, lists: map<Vertex, seq<nat>>, from: Vertex, to: Vertex, capacity: int)
    requires Wf(es, lists)
    ensures Wf(es + EdgePair(from, to, capacity, |es|), ListsAfterAdd(lists, from, to, |es|))
  {
    var n := |es|;
    var es1, ls1 := es + EdgePair(from, to, capacity, n), ListsAfterAdd(lists, from, to, n);
    AppendPairKeepsPaired(es, from, to, capacity);
    forall v | v in ls1 ensures ls1[v] == Owned(es1, v, |es1|) {
      OwnedAfterPair(es, from, to, capacity, v);
      if v !in lists {
        OwnedNone(es, v, n);
      }
    }
    forall i | 0 <= i < |es1| ensures Home(es1, i) in ls1 {
      if i < n {
        assert Home(es1, i) == Home(es, i);
      }
    }
  }

  lemma {:induction false} ArenaPaired(base: seq<Edge>)
    ensures Paired(Arena(base))
  {
    if base != [] {
      var init := base[..|base| - 1];
      var b := base[|base| - 1];
      ArenaPaired(init);
      AppendPairKeepsPaired(Arena(init), b.source, b.target, b.capacity);
    }
  }

  lemma AppendPairKeepsPaired(es: seq<FlowEdge>, from: Vertex, to: Vertex, capacity: int)
    requires Paired(es)
    ensures Paired(es + EdgePair(from, to, capacity, |es|))
  {
    var r := es + EdgePair(from, to, capacity, |es|);
    forall k: nat | 2 * k + 1 < |r| ensures PairAt(r, k) {
      if 2 * k + 1 < |es| {
        assert PairAt(es, k);
      }
    }
  }

  // ---------------------------------------------------------------------------

  /** The flow network: one adjacency list per vertex over a shared edge arena. */
  class FlowNetwork {
    var edges: seq<FlowEdge>
    var lists: map<Vertex, seq<nat>>

    ghost predicate Valid()
      reads this
    {
      Wf(edges, lists)
    }

    /**
     * Builds the network of a base graph: each vertex gets an empty list, then each
     * base edge, in order, adds a forward edge with its capacity and a reverse edge.
     */
    constructor (vertices: seq<Vertex>, base: seq<Edge>)
      ensures Valid()
      ensures edges == Arena(base)
      ensures lists.Keys == (set v | v in vertices) + Endpoints(base)
    {
      edges := [];
      lists := map[];
      new;
      for i := 0 to |vertices|
        invariant Valid() && edges == []
        invariant lists.Keys == set v | v in vertices[..i]
      {
        assert vertices[..i + 1] == vertices[..i] + [vertices[i]];
        AddVertex(vertices[i]);
      }
      assert vertices[..|vertices|] == vertices;
      for j := 0 to |base|
        invariant Valid() && edges == Arena(base[..j])
        invariant lists.Keys == (set v | v in vertices) + Endpoints(base[..j])
      {
        assert base[..j + 1][..j] == base[..j];
        AddEdge(base[j].source, base[j].target, base[j].capacity);
      }
      assert base[..|base|] == base;
    }

    /** `addEdge`: appends the forward edge to `from`'s list and the reverse edge to `to`'s. */
    method AddEdge(from: Vertex, to: Vertex, capacity: int)
      requires Valid()
      modifies this
      ensures Valid()
      ensures edges == old(edges) + EdgePair(from, to, capacity, |old(edges)|)
      ensures lists == ListsAfterAdd(old(lists), from, to, |old(edges)|)
    {
      var n := |edges|;
      AddEdgeKeepsWf(edges, lists, from, to, capacity);
      edges := edges + EdgePair(from, to, capacity, n);
      lists := lists[from := ListOf(lists, from) + [n]];
      lists := lists[to := ListOf(lists, to) + [n + 1]];
    }

    /** `getAdjacent`: the edges leaving `v` in insertion order; none for an unknown vertex. */
    function GetAdjacent(v: Vertex): (r: seq<FlowEdge>)
      reads this
      requires Valid()
      ensures v !in lists ==> r == []
      ensures v in lists ==> |r| == |lists[v]| &&
                             forall j :: 0 <= j < |r| ==> lists[v][j] < |edges| && r[j] == edges[lists[v][j]]
      ensures forall e :: e in r <==> exists i :: 0 <= i < |edges| && Home(edges, i) == v && edges[i] == e
    {
      WfFacts(edges, lists);
      if v in lists then
        AdjacentExactly(edges, lists, v);
        Gather(edges, lists[v])
      else
        AdjacentNone(edges, lists, v);
        []
    }

    /** `getAdjacentMut`: `operator[]` gives an unknown vertex an empty list; nothing else changes. */
    method GetAdjacentMut(v: Vertex) returns (ids: seq<nat>)
      requires Valid()
      modifies this`lists
      ensures Valid()
      ensures lists == if v in old(lists) then old(lists) else old(lists)[v := []]
      ensures ids == lists[v]
    {
      if v !in lists {
        AddVertex(v);
      }
      ids := lists[v];
    }

    /** `addVertex`: `emplace` never replaces an existing list. */
    method AddVertex(v: Vertex)
      requires Valid()
      modifies this`lists
      ensures Valid()
      ensures lists == if v in old(lists) then old(lists) else old(lists)[v := []]
    {
      if v !in lists {
        forall i | 0 <= i < |edges| ensures Home(edges, i) != v {
        }
        OwnedNone(edges, v, |edges|);
        lists := lists[v := []];
      }
    }

    /** `e.flow += f; e.reverse->flow -= f` for the edge at arena index `i`. */
    method Push(i: nat, f: int)
      requires Valid() && i < |edges| && Home(edges, i) != edges[i].target
      modifies this`edges
      ensures Valid()
      ensures edges == PushAt(old(edges), i, f)
    {
      LinkedPair(edges, i);
      var r := edges[i].reverse;
      ghost var es0 := edges;
      edges := edges[i := edges[i].(flow := edges[i].flow + f)];
      edges := edges[r := edges[r].(flow := edges[r].flow - f)];
      assert edges == PushAt(es0, i, f);
      ShapeKeepsWf(es0, edges, lists);
    }

    // The next three are the network operations the Edmonds-Karp solver calls; the
    // header does not declare them. Each acts on the first edge u -> v with flow < capacity,
    // the same edge the Ford-Fulkerson augmentation should push onto.

    /** Whether some edge u -> v still has residual capacity. */
    function HasResidualCapacity(u: Vertex, v: Vertex): (r: bool)
      reads this
      requires Valid()
      ensures r <==> exists i :: 0 <= i < |edges| && Home(edges, i) == u && edges[i].target == v
                                 && edges[i].flow < edges[i].capacity
    {
      HopOfNone(edges, lists, u, v);
      HopOf(edges, lists, u, v).Some?
    }

    /** The residual capacity of the first such edge; 0 when there is none. */
    function GetResidualCapacity(u: Vertex, v: Vertex): (r: int)
      reads this
      requires Valid()
      ensures r == HopResidual(edges, lists, u, v)
      ensures HasResidualCapacity(u, v) <==> r > 0
    {
      match HopOf(edges, lists, u, v)
      case None => 0
      case Some(i) => edges[i].capacity - edges[i].flow
    }

    /** Pushes `f` units onto the first u -> v edge with residual capacity. */
    method AddFlow(u: Vertex, v: Vertex, f: int)
      requires Valid() && u != v && HasResidualCapacity(u, v)
      modifies this
      ensures Valid() && lists == old(lists)
      ensures edges == PushAt(old(edges), HopOf(old(edges), old(lists), u, v).value, f)
    {
      ghost var es0, ls0 := edges, lists;
      WfFacts(edges, lists);
      ghost var hop := HopOf(es0, ls0, u, v).value;
      assert Home(es0, hop) in ls0;
      var ids := GetAdjacentMut(u);
      assert ids == ListOf(ls0, u);
      ghost var first := FirstResidual(es0, ids, v).value;
      assert hop == ids[first];
      var k := 0;
      while k < |ids|
        invariant 0 <= k <= first && edges == es0 && lists == ls0
      {
        var e := edges[ids[k]];
        if e.target == v && e.flow < e.capacity {
          assert k == first;
          Push(ids[k], f);
          return;
        }
        k := k + 1;
      }
      assert false;
    }
  }
}
