// The level graph of Dinic's algorithm (include/algorithms/flowNetwork/Dinic.h), stated
// over the edge arena of FlowNetworks.
//
// buildLevelGraph gives each vertex it reaches over edges with flow < capacity the level
// of the vertex it was reached from plus one; findBlockingFlow only descends along an
// edge that climbs exactly one level and still has residual capacity ("admissible"
// below). Both read `level[x]` through operator[], which gives 0 for a vertex without
// a level, and `ptr[x]` the same way.

module DinicLevels {
  import opened GraphTypes
  import opened FlowNetworks
  import opened FlowTheory

  /** `level[x]`: 0 for a vertex the level graph did not reach. */
  function Lvl(level: map<Vertex, nat>, x: Vertex): nat {
    if x in level then level[x] else 0
  }

  /** Edge `i` still has residual capacity. */
  predicate Open(es: seq<FlowEdge>, i: nat) {
    i < |es| && es[i].flow < es[i].capacity
  }

  /** findBlockingFlow may descend along edge `i`: it has residual capacity and climbs one level. */
  predicate Admissible(es: seq<FlowEdge>, level: map<Vertex, nat>, i: nat) {
    |es| % 2 == 0 && Open(es, i) && Lvl(level, es[i].target) == Lvl(level, Home(es, i)) + 1
  }

  /** Every level is below the number of levelled vertices. */
  ghost predicate Bounded(level: map<Vertex, nat>) {
    forall v :: v in level ==> level[v] < |level|
  }

  /**
   * What buildLevelGraph leaves: the source on level 0, and every other levelled vertex
   * reached over a residual edge `via[v]` from a vertex one level lower.
   */
  ghost predicate Layered(es: seq<FlowEdge>, level: map<Vertex, nat>, source: Vertex, via: map<Vertex, nat>)
    requires |es| % 2 == 0
  {
    source in level && level[source] == 0 && Bounded(level) &&
    forall v :: v in level && v != source ==>
      v in via && Open(es, via[v]) && es[via[v]].target == v &&
      Home(es, via[v]) in level && level[v] == level[Home(es, via[v])] + 1
  }

  /**
   * Breadth first: every residual edge leaving a levelled vertex leads to a levelled vertex
   * at most one level higher.
   */
  ghost predicate LevelClosed(es: seq<FlowEdge>, level: map<Vertex, nat>)
    requires |es| % 2 == 0
  {
    forall i :: 0 <= i < |es| && Home(es, i) in level && Open(es, i) ==>
      es[i].target in level && level[es[i].target] <= level[Home(es, i)] + 1
  }

  /** A path of arena edges from `u` to `sink`, each admissible and leaving the end of the previous one. */
  ghost predicate LevelPath(es: seq<FlowEdge>, level: map<Vertex, nat>, u: Vertex, sink: Vertex, path: seq<nat>)
    decreases |path|
  {
    if path == [] then u == sink
    else
      u != sink && Admissible(es, level, path[0]) && Home(es, path[0]) == u &&
      LevelPath(es, level, es[path[0]].target, sink, path[1..])
  }

  /** From `w` the sink can be reached along admissible edges of the adjacency lists. */
  ghost predicate Reaches(es: seq<FlowEdge>, ls: map<Vertex, seq<nat>>, level: map<Vertex, nat>, w: Vertex, sink: Vertex)
    decreases |level| - Lvl(level, w)
  {
    w == sink ||
    (Lvl(level, w) < |level| &&
     exists j :: 0 <= j < |ListOf(ls, w)| && Admissible(es, level, ListOf(ls, w)[j]) &&
       Home(es, ListOf(ls, w)[j]) == w && Reaches(es, ls, level, es[ListOf(ls, w)[j]].target, sink))
  }

  /** Entry `j` of `w`'s list can carry nothing more to the sink in this phase. */
  ghost predicate Spent(es: seq<FlowEdge>, ls: map<Vertex, seq<nat>>, level: map<Vertex, nat>, sink: Vertex, w: Vertex, j: nat)
    requires j < |ListOf(ls, w)|
  {
    !(Admissible(es, level, ListOf(ls, w)[j]) && Home(es, ListOf(ls, w)[j]) == w &&
      Reaches(es, ls, level, es[ListOf(ls, w)[j]].target, sink))
  }

  /** Every list entry a pointer has moved past is spent. */
  ghost predicate PtrSound(es: seq<FlowEdge>, ls: map<Vertex, seq<nat>>, level: map<Vertex, nat>, sink: Vertex,
                           ptr: map<Vertex, nat>) {
    forall w :: w in ptr ==>
      ptr[w] <= |ListOf(ls, w)| && forall j :: 0 <= j < ptr[w] ==> Spent(es, ls, level, sink, w, j)
  }

  /** Going from `a` to `b` created no admissible edge. */
  ghost predicate Shrinks(a: seq<FlowEdge>, b: seq<FlowEdge>, level: map<Vertex, nat>) {
    SameShape(a, b) && forall i :: Admissible(b, level, i) ==> Admissible(a, level, i)
  }

  /** The pushes of findBlockingFlow along `path`: the edge nearest the sink is updated first. */
  function PushAll(es: seq<FlowEdge>, path: seq<nat>, f: int): (r: seq<FlowEdge>)
    requires |es| % 2 == 0 && forall k :: 0 <= k < |path| ==> path[k] < |es|
    ensures SameShape(es, r)
    decreases |path|
  {
    if path == [] then es
    else PushAt(PushAll(es, path[1..], f), path[0], f)
  }

  /** The amount findBlockingFlow returns along `path` when `c` is the bound it starts with. */
  function PathCap(es: seq<FlowEdge>, path: seq<nat>, c: int): int
    requires forall k :: 0 <= k < |path| ==> path[k] < |es|
    decreases |path|
  {
    if path == [] then c
    else PathCap(es, path[1..], Min(c, es[path[0]].capacity - es[path[0]].flow))
  }

  // ---------------------------------------------------------------------------

  lemma {:induction false} LevelPathBounds(es: seq<FlowEdge>, level: map<Vertex, nat>, u: Vertex, sink: Vertex, path: seq<nat>)
    requires LevelPath(es, level, u, sink, path)
    ensures forall k :: 0 <= k < |path| ==> path[k] < |es|
    decreases |path|
  {
    if path != [] {
      LevelPathBounds(es, level, es[path[0]].target, sink, path[1..]);
    }
  }

  /** Each edge of a level path climbs one level, so the ends are |path| levels apart. */
  lemma {:induction false} LevelPathRises(es: seq<FlowEdge>, level: map<Vertex, nat>, u: Vertex, sink: Vertex, path: seq<nat>)
    requires LevelPath(es, level, u, sink, path)
    ensures Lvl(level, sink) == Lvl(level, u) + |path|
    decreases |path|
  {
    if path != [] {
      LevelPathRises(es, level, es[path[0]].target, sink, path[1..]);
    }
  }

  /** The amount returned along a level path is positive, within the starting bound and every residual capacity. */
  lemma {:induction false} PathCapBounds(es: seq<FlowEdge>, level: map<Vertex, nat>, u: Vertex, sink: Vertex,
                                         path: seq<nat>, c: int)
    requires LevelPath(es, level, u, sink, path) && c > 0
    ensures forall k :: 0 <= k < |path| ==> path[k] < |es|
    ensures 0 < PathCap(es, path, c) <= c
    ensures forall k :: 0 <= k < |path| ==> PathCap(es, path, c) <= es[path[k]].capacity - es[path[k]].flow
    ensures PathCap(es, path, c) == c ||
            exists k :: 0 <= k < |path| && PathCap(es, path, c) == es[path[k]].capacity - es[path[k]].flow
    decreases |path|
  {
    LevelPathBounds(es, level, u, sink, path);
    if path != [] {
      var i := path[0];
      var c1 := Min(c, es[i].capacity - es[i].flow);
      var rest := path[1..];
      PathCapBounds(es, level, es[i].target, sink, rest, c1);
      var f := PathCap(es, path, c);
      assert f == PathCap(es, rest, c1);
      forall k | 0 <= k < |path| ensures f <= es[path[k]].capacity - es[path[k]].flow {
        if k > 0 {
          assert path[k] == rest[k - 1];
        }
      }
      if f != c && f != es[i].capacity - es[i].flow {
        var k :| 0 <= k < |rest| && f == es[rest[k]].capacity - es[rest[k]].flow;
        assert path[k + 1] == rest[k];
      }
    }
  }

  /** A push onto an edge that climbs one level creates no admissible edge. */
  lemma PushShrinks(es: seq<FlowEdge>, level: map<Vertex, nat>, i: nat, f: int)
    requires Paired(es) && i < |es| && f >= 0
    requires Lvl(level, es[i].target) == Lvl(level, Home(es, i)) + 1
    ensures Shrinks(es, PushAt(es, i, f), level)
  {
    var r := PushAt(es, i, f);
    LinkedPair(es, i);
    PartnerFacts(es, i);
    forall j | Admissible(r, level, j) ensures Admissible(es, level, j) {
      assert Home(r, j) == Home(es, j);
    }
  }

  /** Whatever reaches the sink after the flows changed without a new admissible edge reached it before. */
  lemma {:induction false} ReachesShrinks(a: seq<FlowEdge>, b: seq<FlowEdge>, ls: map<Vertex, seq<nat>>,
                                          level: map<Vertex, nat>, w: Vertex, sink: Vertex)
    requires Shrinks(a, b, level) && Reaches(b, ls, level, w, sink)
    ensures Reaches(a, ls, level, w, sink)
    decreases |level| - Lvl(level, w)
  {
    if w != sink {
      var ids := ListOf(ls, w);
      var j :| 0 <= j < |ids| && Admissible(b, level, ids[j]) && Home(b, ids[j]) == w &&
               Reaches(b, ls, level, b[ids[j]].target, sink);
      assert Admissible(a, level, ids[j]) && Home(a, ids[j]) == w;
      ReachesShrinks(a, b, ls, level, b[ids[j]].target, sink);
    }
  }

  /** The pointers stay sound when the flows change without a new admissible edge. */
  lemma PtrSoundShrinks(a: seq<FlowEdge>, b: seq<FlowEdge>, ls: map<Vertex, seq<nat>>, level: map<Vertex, nat>,
                        sink: Vertex, ptr: map<Vertex, nat>)
    requires Shrinks(a, b, level) && PtrSound(a, ls, level, sink, ptr)
    ensures PtrSound(b, ls, level, sink, ptr)
  {
    forall w, j | w in ptr && 0 <= j < ptr[w] ensures Spent(b, ls, level, sink, w, j) {
      assert Spent(a, ls, level, sink, w, j);
      var i := ListOf(ls, w)[j];
      if Admissible(b, level, i) && Home(b, i) == w && Reaches(b, ls, level, b[i].target, sink) {
        ReachesShrinks(a, b, ls, level, b[i].target, sink);
        assert false;
      }
    }
  }

  /** A level path to the sink shows that its start reaches the sink. */
  lemma {:induction false} ReachesAlong(es: seq<FlowEdge>, ls: map<Vertex, seq<nat>>, level: map<Vertex, nat>,
                                        u: Vertex, sink: Vertex, path: seq<nat>)
    requires Wf(es, ls) && Bounded(level) && LevelPath(es, level, u, sink, path)
    ensures Reaches(es, ls, level, u, sink)
    decreases |path|
  {
    if path != [] {
      var i := path[0];
      var t := es[i].target;
      ReachesAlong(es, ls, level, t, sink, path[1..]);
      InHomeList(es, ls, i);
      var j :| 0 <= j < |ListOf(ls, u)| && ListOf(ls, u)[j] == i;
      assert t in level;
    }
  }

  /** A level path from `u` to `w` continues along an admissible edge out of `w`. */
  lemma {:induction false} LevelPathSnoc(es: seq<FlowEdge>, level: map<Vertex, nat>, u: Vertex, w: Vertex,
                                         path: seq<nat>, i: nat)
    requires LevelPath(es, level, u, w, path) && Admissible(es, level, i) && Home(es, i) == w
    ensures LevelPath(es, level, u, es[i].target, path + [i])
    decreases |path|
  {
    LevelPathRises(es, level, u, w, path);
    if path == [] {
      assert [i][1..] == [];
    } else {
      var t := es[path[0]].target;
      LevelPathSnoc(es, level, t, w, path[1..], i);
      assert (path + [i])[1..] == path[1..] + [i];
    }
  }

  /** Following `via` down from a levelled vertex gives a level path from the source to it. */
  lemma {:induction false} PathTo(es: seq<FlowEdge>, level: map<Vertex, nat>, source: Vertex, via: map<Vertex, nat>,
                                  v: Vertex) returns (path: seq<nat>)
    requires |es| % 2 == 0 && Layered(es, level, source, via) && v in level
    ensures LevelPath(es, level, source, v, path)
    decreases level[v]
  {
    if v == source {
      path := [];
    } else {
      var i := via[v];
      var w := Home(es, i);
      var p := PathTo(es, level, source, via, w);
      LevelPathSnoc(es, level, source, w, p, i);
      path := p + [i];
    }
  }

  /** After a level graph that reaches the sink, the source reaches the sink. */
  lemma SourceReaches(es: seq<FlowEdge>, ls: map<Vertex, seq<nat>>, level: map<Vertex, nat>, source: Vertex,
                      sink: Vertex, via: map<Vertex, nat>)
    requires Wf(es, ls) && Layered(es, level, source, via) && sink in level
    ensures Reaches(es, ls, level, source, sink)
  {
    var path := PathTo(es, level, source, via, sink);
    ReachesAlong(es, ls, level, source, sink, path);
  }

  /** A push along a level path from `u` leaves every edge leaving a lower level as it was. */
  lemma {:induction false} PushAllOutside(es: seq<FlowEdge>, level: map<Vertex, nat>, u: Vertex, sink: Vertex,
                                          path: seq<nat>, f: int, i: nat)
    requires |es| % 2 == 0 && LevelPath(es, level, u, sink, path) && i < |es|
    requires Lvl(level, Home(es, i)) < Lvl(level, u)
    ensures forall k :: 0 <= k < |path| ==> path[k] < |es|
    ensures PushAll(es, path, f)[i] == es[i]
    decreases |path|
  {
    LevelPathBounds(es, level, u, sink, path);
    if path != [] {
      var t := es[path[0]].target;
      PushAllOutside(es, level, t, sink, path[1..], f, i);
      PartnerFacts(es, path[0]);
      assert Home(es, Partner(path[0])) == t;
    }
  }

  /** Pushing at most every residual on a level path keeps the flow feasible. */
  lemma {:induction false} PushAllFeasible(es: seq<FlowEdge>, level: map<Vertex, nat>, u: Vertex, sink: Vertex,
                                           path: seq<nat>, f: int)
    requires Feasible(es) && LevelPath(es, level, u, sink, path) && 0 <= f
    requires forall k :: 0 <= k < |path| ==> path[k] < |es| && f <= es[path[k]].capacity - es[path[k]].flow
    ensures Feasible(PushAll(es, path, f))
    decreases |path|
  {
    if path != [] {
      var t := es[path[0]].target;
      PushAllFeasible(es, level, t, sink, path[1..], f);
      PushAllOutside(es, level, t, sink, path[1..], f, path[0]);
      PushFeasible(PushAll(es, path[1..], f), path[0], f);
    }
  }

  /** A push of `f` along a level path from `u` to `sink` moves `f` of net flow from `sink` to `u`. */
  lemma {:induction false} PushAllNetOut(es: seq<FlowEdge>, level: map<Vertex, nat>, u: Vertex, sink: Vertex,
                                         path: seq<nat>, f: int, v: Vertex)
    requires |es| % 2 == 0 && LevelPath(es, level, u, sink, path)
    ensures forall k :: 0 <= k < |path| ==> path[k] < |es|
    ensures NetOut(PushAll(es, path, f), v)
         == NetOut(es, v) + (if v == u then f else 0) - (if v == sink then f else 0)
    decreases |path|
  {
    LevelPathBounds(es, level, u, sink, path);
    if path != [] {
      var t := es[path[0]].target;
      PushAllNetOut(es, level, t, sink, path[1..], f, v);
      PushNetOut(PushAll(es, path[1..], f), path[0], f, v);
    }
  }

  /** `Reaches` sees the lists only through `ListOf`. */
  lemma {:induction false} ReachesSameLists(es: seq<FlowEdge>, a: map<Vertex, seq<nat>>, b: map<Vertex, seq<nat>>,
                                            level: map<Vertex, nat>, w: Vertex, sink: Vertex)
    requires forall x :: ListOf(a, x) == ListOf(b, x)
    ensures Reaches(es, a, level, w, sink) <==> Reaches(es, b, level, w, sink)
    decreases |level| - Lvl(level, w)
  {
    if w != sink && Lvl(level, w) < |level| {
      var ids := ListOf(a, w);
      assert ids == ListOf(b, w);
      forall j | 0 <= j < |ids| && Admissible(es, level, ids[j]) && Home(es, ids[j]) == w
        ensures Reaches(es, a, level, es[ids[j]].target, sink) <==> Reaches(es, b, level, es[ids[j]].target, sink)
      {
        ReachesSameLists(es, a, b, level, es[ids[j]].target, sink);
      }
    }
  }

  lemma PtrSoundSameLists(es: seq<FlowEdge>, a: map<Vertex, seq<nat>>, b: map<Vertex, seq<nat>>,
                          level: map<Vertex, nat>, sink: Vertex, ptr: map<Vertex, nat>)
    requires forall x :: ListOf(a, x) == ListOf(b, x)
    requires PtrSound(es, a, level, sink, ptr)
    ensures PtrSound(es, b, level, sink, ptr)
  {
    forall w, j | w in ptr && 0 <= j < ptr[w] ensures Spent(es, b, level, sink, w, j) {
      assert Spent(es, a, level, sink, w, j);
      if Admissible(es, level, ListOf(a, w)[j]) {
        ReachesSameLists(es, a, b, level, es[ListOf(a, w)[j]].target, sink);
      }
    }
  }

  /** A new pointer at the start of a list is sound. */
  lemma PtrSoundZero(es: seq<FlowEdge>, ls: map<Vertex, seq<nat>>, level: map<Vertex, nat>, sink: Vertex,
                     ptr: map<Vertex, nat>, u: Vertex)
    requires PtrSound(es, ls, level, sink, ptr)
    ensures PtrSound(es, ls, level, sink, ptr[u := 0])
  {
  }

  /** Advancing a pointer past a spent entry keeps the pointers sound. */
  lemma PtrSoundStep(es: seq<FlowEdge>, ls: map<Vertex, seq<nat>>, level: map<Vertex, nat>, sink: Vertex,
                     ptr: map<Vertex, nat>, u: Vertex)
    requires PtrSound(es, ls, level, sink, ptr) && u in ptr && ptr[u] < |ListOf(ls, u)|
    requires Spent(es, ls, level, sink, u, ptr[u])
    ensures PtrSound(es, ls, level, sink, ptr[u := ptr[u] + 1])
  {
  }

  /** A vertex other than the sink whose every list entry is spent does not reach the sink. */
  lemma Exhausted(es: seq<FlowEdge>, ls: map<Vertex, seq<nat>>, level: map<Vertex, nat>, sink: Vertex,
                  ptr: map<Vertex, nat>, u: Vertex)
    requires PtrSound(es, ls, level, sink, ptr) && u in ptr && ptr[u] == |ListOf(ls, u)| && u != sink
    ensures !Reaches(es, ls, level, u, sink)
  {
    var ids := ListOf(ls, u);
    forall j | 0 <= j < |ids|
      ensures !(Admissible(es, level, ids[j]) && Home(es, ids[j]) == u && Reaches(es, ls, level, es[ids[j]].target, sink))
    {
      assert Spent(es, ls, level, sink, u, j);
    }
  }

  /** findBlockingFlow's return through `u`: the descended edge `i` goes in front of the path below it. */
  lemma Descend(es: seq<FlowEdge>, level: map<Vertex, nat>, u: Vertex, sink: Vertex, i: nat, p: seq<nat>,
                c: int, f: int)
    requires u != sink && Admissible(es, level, i) && Home(es, i) == u
    requires LevelPath(es, level, es[i].target, sink, p) && forall k :: 0 <= k < |p| ==> p[k] < |es|
    requires f == PathCap(es, p, Min(c, es[i].capacity - es[i].flow))
    ensures LevelPath(es, level, u, sink, [i] + p)
    ensures forall k :: 0 <= k < |[i] + p| ==> ([i] + p)[k] < |es|
    ensures f == PathCap(es, [i] + p, c)
    ensures PushAll(es, [i] + p, f) == PushAt(PushAll(es, p, f), i, f)
  {
    assert ([i] + p)[1..] == p;
  }

  /**
   * `b` is `a` after pushing `f`, the bottleneck capped by `c`, along the level path `path`
   * from `u` to `sink`.
   */
  ghost predicate Pushed(a: seq<FlowEdge>, b: seq<FlowEdge>, level: map<Vertex, nat>, u: Vertex, sink: Vertex,
                         c: int, f: int, path: seq<nat>)
  {
    |a| % 2 == 0 && LevelPath(a, level, u, sink, path) && (forall k :: 0 <= k < |path| ==> path[k] < |a|) &&
    f == PathCap(a, path, c) && b == PushAll(a, path, f)
  }

  /**
   * The pointers of `q` are those of `p` or further along, and those of vertices below
   * level `floor` did not move.
   */
  ghost predicate PtrAdvance(p: map<Vertex, nat>, q: map<Vertex, nat>, level: map<Vertex, nat>, floor: nat) {
    forall v :: v in p ==> v in q && p[v] <= q[v] && (Lvl(level, v) < floor ==> q[v] == p[v])
  }

  lemma PtrAdvanceTrans(p: map<Vertex, nat>, q: map<Vertex, nat>, r: map<Vertex, nat>, level: map<Vertex, nat>,
                        f1: nat, f2: nat, f: nat)
    requires PtrAdvance(p, q, level, f1) && PtrAdvance(q, r, level, f2) && f <= f1 && f <= f2
    ensures PtrAdvance(p, r, level, f)
  {
  }

  lemma PtrAdvanceSet(p: map<Vertex, nat>, level: map<Vertex, nat>, u: Vertex, x: nat)
    requires u in p ==> p[u] <= x
    ensures PtrAdvance(p, p[u := x], level, Lvl(level, u))
  {
  }

  /**
   * After the descent below the admissible edge `i` of `u` came back with `f` pushed along
   * `p`, pushing `f` on `i` is allowed, completes the push along `[i] + p` and creates no
   * admissible edge.
   */
  lemma Carry(es0: seq<FlowEdge>, es1: seq<FlowEdge>, level: map<Vertex, nat>, u: Vertex, sink: Vertex,
              i: nat, p: seq<nat>, c: int, f: int)
    requires Paired(es0) && u != sink && Admissible(es0, level, i) && Home(es0, i) == u && f >= 0
    requires Pushed(es0, es1, level, es0[i].target, sink, Min(c, es0[i].capacity - es0[i].flow), f, p)
    ensures |es1| == |es0| && i < |es1| && Home(es1, i) != es1[i].target
    ensures Pushed(es0, PushAt(es1, i, f), level, u, sink, c, f, [i] + p)
    ensures Shrinks(es1, PushAt(es1, i, f), level)
  {
    Descend(es0, level, u, sink, i, p, c, f);
    ShapeKeepsHome(es0, es1, i);
    ShapeKeepsPaired(es0, es1);
    PushShrinks(es1, level, i, f);
  }
}
