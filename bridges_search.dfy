// Bridges and articulation points by low-link depth-first search
// (include/algorithms/bfs_dfs/BridgesAndArticulationPoints.h). The neighbours of a vertex are
// the targets of the edges leaving it, in edge order. The three maps of the source are keyed by
// vertex id; the clock `time` is a field of the object and is never reset.

module LowLinkSearch {
  import opened GraphTypes
  import opened GraphBase

  // ----- The search as a function of its state -----

  /** The neighbours from position `i` on are the one at `i` followed by those after it. */
  lemma NextNeighbours(ws: seq<Vertex>, i: nat)
    requires i < |ws|
    ensures ws[i..] == [ws[i]] + ws[i + 1..]
  {
  }

  /** The head and the tail of `[v] + rest`. */
  lemma HeadTail(v: Vertex, rest: seq<Vertex>)
    ensures ([v] + rest)[0] == v && ([v] + rest)[1..] == rest
  {
  }

  /**
   * The state the two searches thread through their recursion: the discovery times, the low
   * links, the parent links (all keyed by vertex id), the clock, and what each search records.
   * One traversal computes both records; each search keeps its own.
   */
  datatype Dfs = Dfs(disc: map<int, int>, low: map<int, int>, parent: map<int, int>, time: int,
                     bridges: seq<Edge>, points: seq<int>)

  /** The state at the start of `findBridges` or `findArticulationPoints`: empty maps, clock `t`. */
  function Start(t: int): Dfs {
    Dfs(map[], map[], map[], t, [], [])
  }

  /** Every id the search can meet: the listed vertices and the targets of the edges. */
  function Ids(vs: seq<Vertex>, es: seq<Edge>): set<int> {
    (set v | v in vs :: v.id) + (set e | e in es :: e.target.id)
  }

  /** The neighbours of any vertex have ids the search knows. */
  lemma TargetIds(vs: seq<Vertex>, es: seq<Edge>, u: Vertex)
    ensures forall w :: w in Targets(es, u) ==> w.id in Ids(vs, es)
  {
    forall w | w in Targets(es, u) ensures w.id in Ids(vs, es) {
      TargetsMembers(es, u, w);
      var i :| 0 <= i < |es| && IsEdge(es[i], u, w);
      assert es[i] in es;
    }
  }

  /**
   * The else-branch test `v.id != parent[u.id]` skips `v`: `v` is the recorded parent of `u`.
   * Without a parent entry nothing is skipped.
   */
  predicate Skips(parent: map<int, int>, u: Vertex, v: Vertex) {
    u.id in parent && v.id == parent[u.id]
  }

  /**
   * The parent map the else-branch leaves. In the source, `parent[u.id]` is `operator[]`, which
   * inserts 0 for a vertex without a parent (`inserting`); the corrected lookup inserts nothing.
   */
  function Looked(parent: map<int, int>, u: Vertex, inserting: bool): map<int, int> {
    if inserting && u.id !in parent then parent[u.id := 0] else parent
  }

  /** Entering `u`: `discoveryTime[u.id] = low[u.id] = ++time`. */
  function Enter(s: Dfs, u: Vertex): (r: Dfs)
    ensures r.disc.Keys == s.disc.Keys + {u.id} && r.low.Keys == s.low.Keys + {u.id}
  {
    var t := s.time + 1;
    s.(disc := s.disc[u.id := t], low := s.low[u.id := t], time := t)
  }

  /**
   * Back from the child `v` of `u`, the `children`-th: fold `low[v]` into `low[u]`, record the
   * bridge `(u, v)` when `low[v] > discoveryTime[u]`, and record `u` as an articulation point when
   * it has no parent and more than one child, or has a parent and `low[v] >= discoveryTime[u]`.
   */
  function Returned(s: Dfs, u: Vertex, v: Vertex, children: nat): Dfs
    requires u.id in s.disc && u.id in s.low && v.id in s.low
  {
    var low := s.low[u.id := Min(s.low[u.id], s.low[v.id])];
    var bridges := if low[v.id] > s.disc[u.id] then s.bridges + [NewPlainEdge(u, v)] else s.bridges;
    var root := if u.id !in s.parent && children > 1 then [u.id] else [];
    var cut := if u.id in s.parent && low[v.id] >= s.disc[u.id] then [u.id] else [];
    s.(low := low, bridges := bridges, points := s.points + root + cut)
  }

  /** `low[u.id] = min(low[u.id], discoveryTime[v.id])` for an already discovered `v`. */
  function Back(s: Dfs, u: Vertex, v: Vertex): Dfs
    requires u.id in s.low && v.id in s.disc
  {
    s.(low := s.low[u.id := Min(s.low[u.id], s.disc[v.id])])
  }

  /** The call `dfsBridges(u, ...)` or `dfsArticulationPoints(u, ...)` on an undiscovered `u`. */
  function Visit(vs: seq<Vertex>, es: seq<Edge>, u: Vertex, s: Dfs, inserting: bool): (r: Dfs)
    requires u.id in Ids(vs, es) && u.id !in s.disc
    ensures s.disc.Keys + {u.id} <= r.disc.Keys && s.low.Keys + {u.id} <= r.low.Keys
    decreases Ids(vs, es) - s.disc.Keys, 0, 0
  {
    TargetIds(vs, es, u);
    Scan(vs, es, u, Targets(es, u), Enter(s, u), 0, inserting)
  }

  /** A visit enters `u` at the next tick and scans all of `u`'s neighbours with no child yet. */
  lemma VisitStart(vs: seq<Vertex>, es: seq<Edge>, u: Vertex, s: Dfs, inserting: bool)
    requires u.id in Ids(vs, es) && u.id !in s.disc
    ensures forall w :: w in Targets(es, u)[0..] ==> w.id in Ids(vs, es)
    ensures Visit(vs, es, u, s, inserting)
            == Scan(vs, es, u, Targets(es, u)[0..], Dfs(s.disc[u.id := s.time + 1], s.low[u.id := s.time + 1], s.parent,
                                                      s.time + 1, s.bridges, s.points), 0, inserting)
  {
    var ws := Targets(es, u);
    TargetIds(vs, es, u);
    WholeSlice(ws);
    var t := s.time + 1;
    assert Enter(s, u) == Dfs(s.disc[u.id := t], s.low[u.id := t], s.parent, t, s.bridges, s.points);
  }

  lemma WholeSlice(ws: seq<Vertex>)
    ensures ws[0..] == ws
  {
  }

  /** The loop over the neighbours `ws` of `u` still to scan, with `children` children so far. */
  function Scan(vs: seq<Vertex>, es: seq<Edge>, u: Vertex, ws: seq<Vertex>, s: Dfs, children: nat,
                inserting: bool): (r: Dfs)
    requires u.id in s.disc && u.id in s.low
    requires forall w :: w in ws ==> w.id in Ids(vs, es)
    ensures s.disc.Keys <= r.disc.Keys && s.low.Keys <= r.low.Keys
    decreases Ids(vs, es) - s.disc.Keys, 1, |ws|
  {
    if ws == [] then s
    else
      var v := ws[0];
      if v.id !in s.disc then
        var c := Visit(vs, es, v, s.(parent := s.parent[v.id := u.id]), inserting);
        Scan(vs, es, u, ws[1..], Returned(c, u, v, children + 1), children + 1, inserting)
      else
        var s1 := s.(parent := Looked(s.parent, u, inserting));
        Scan(vs, es, u, ws[1..], if Skips(s1.parent, u, v) then s1 else Back(s1, u, v), children, inserting)
  }

  /** The loop of `findBridges` / `findArticulationPoints` over the vertices `ws` still to try. */
  function Sweep(vs: seq<Vertex>, es: seq<Edge>, ws: seq<Vertex>, s: Dfs, inserting: bool): (r: Dfs)
    requires forall w :: w in ws ==> w in vs
    ensures s.disc.Keys <= r.disc.Keys
    decreases |ws|
  {
    if ws == [] then s
    else
      var s1 := if ws[0].id in s.disc then s else Visit(vs, es, ws[0], s, inserting);
      Sweep(vs, es, ws[1..], s1, inserting)
  }

  /** What a whole search computes from clock `t`, with the parent lookup as corrected. */
  function Search(vs: seq<Vertex>, es: seq<Edge>, t: int): Dfs {
    Sweep(vs, es, vs, Start(t), false)
  }
}
