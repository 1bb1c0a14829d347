// Augmentation along a path of a search tree (the loops at FordFulkerson.h:94-103 and
// EdmondsKarp.h:97-108): walk from the sink back to the source through `parent`,
// pushing the bottleneck onto the first residual edge of every hop.

module AugmentingPaths {
  import opened GraphTypes
  import opened FlowNetworks
  import opened FlowTheory

  /** The position of `v` in the discovery order. */
  function IndexIn(order: seq<Vertex>, v: Vertex): (k: nat)
    requires v in order
    ensures k < |order| && order[k] == v
    ensures forall j :: 0 <= j < k ==> order[j] != v
  {
    if order[0] == v then 0 else 1 + IndexIn(order[1..], v)
  }

  ghost predicate Distinct(s: seq<Vertex>) {
    forall a, b :: 0 <= a < b < |s| ==> s[a] != s[b]
  }

  /**
   * A search tree rooted at `source`: `order` lists the discovered vertices once each, the
   * source first, and every other discovered vertex has a parent discovered before it.
   */
  ghost predicate SearchTree(parent: map<Vertex, Vertex>, order: seq<Vertex>, source: Vertex) {
    |order| > 0 && order[0] == source && Distinct(order) &&
    (forall v :: v in parent <==> v in order && v != source) &&
    (forall v :: v in parent ==> parent[v] in order && IndexIn(order, parent[v]) < IndexIn(order, v))
  }

  lemma {:induction false} IndexInPrefix(a: seq<Vertex>, b: seq<Vertex>, x: Vertex)
    requires x in a && a <= b
    ensures x in b && IndexIn(b, x) == IndexIn(a, x)
  {
    if a[0] != x {
      assert a[1..] <= b[1..];
      IndexInPrefix(a[1..], b[1..], x);
    }
  }

  lemma DistinctAppend(order: seq<Vertex>, t: Vertex)
    requires Distinct(order) && t !in order
    ensures Distinct(order + [t])
  {
    var order1 := order + [t];
    forall a, b | 0 <= a < b < |order1| ensures order1[a] != order1[b] {
      assert order1[a] == order[a];
      if b < |order| {
        assert order1[b] == order[b];
      }
    }
  }

  /** A sequence without repetitions drawn from S is no longer than S is large. */
  lemma {:induction false} DistinctWithin(s: seq<Vertex>, S: set<Vertex>)
    requires Distinct(s) && forall j :: 0 <= j < |s| ==> s[j] in S
    ensures |s| <= |S|
  {
    if s != [] {
      var rest := s[1..];
      assert Distinct(rest) by {
        forall a, b | 0 <= a < b < |rest| ensures rest[a] != rest[b] {
          assert rest[a] == s[a + 1] && rest[b] == s[b + 1];
        }
      }
      forall j | 0 <= j < |rest| ensures rest[j] in S - {s[0]} {
        assert rest[j] == s[j + 1] && s[0] != s[j + 1];
      }
      DistinctWithin(rest, S - {s[0]});
    }
  }

  /** Every residual edge of `w` leads to a vertex of `order`. */
  ghost predicate Closed(es: seq<FlowEdge>, lists: map<Vertex, seq<nat>>, w: Vertex, order: seq<Vertex>)
    requires Wf(es, lists)
  {
    forall j :: 0 <= j < |ListOf(lists, w)| ==>
      ListOf(lists, w)[j] < |es| &&
      (es[ListOf(lists, w)[j]].flow < es[ListOf(lists, w)[j]].capacity ==> es[ListOf(lists, w)[j]].target in order)
  }

  lemma PrefixMembers(a: seq<Vertex>, b: seq<Vertex>)
    requires a <= b
    ensures forall x :: x in a ==> x in b
  {
    forall x | x in a ensures x in b {
      var k :| 0 <= k < |a| && a[k] == x;
      assert b[k] == x;
    }
  }

  lemma ClosedGrows(es: seq<FlowEdge>, lists: map<Vertex, seq<nat>>, w: Vertex, a: seq<Vertex>, b: seq<Vertex>)
    requires Wf(es, lists) && Closed(es, lists, w, a) && a <= b
    ensures Closed(es, lists, w, b)
  {
    PrefixMembers(a, b);
  }

  /** The first k edges of `u`'s list have no residual capacity or lead into `order`. */
  ghost predicate Scanned(es: seq<FlowEdge>, lists: map<Vertex, seq<nat>>, u: Vertex, k: nat, order: seq<Vertex>)
    requires Wf(es, lists)
  {
    k <= |ListOf(lists, u)| &&
    forall j :: 0 <= j < k ==>
      ListOf(lists, u)[j] < |es| &&
      (es[ListOf(lists, u)[j]].flow < es[ListOf(lists, u)[j]].capacity ==> es[ListOf(lists, u)[j]].target in order)
  }

  lemma ScannedGrows(es: seq<FlowEdge>, lists: map<Vertex, seq<nat>>, u: Vertex, k: nat, a: seq<Vertex>, b: seq<Vertex>)
    requires Wf(es, lists) && Scanned(es, lists, u, k, a) && a <= b
    ensures Scanned(es, lists, u, k, b)
  {
    PrefixMembers(a, b);
  }

  lemma ScannedStep(es: seq<FlowEdge>, lists: map<Vertex, seq<nat>>, u: Vertex, k: nat, order: seq<Vertex>)
    requires Wf(es, lists) && Scanned(es, lists, u, k, order) && k < |ListOf(lists, u)|
    requires var i := ListOf(lists, u)[k]; i < |es| && (es[i].flow < es[i].capacity ==> es[i].target in order)
    ensures Scanned(es, lists, u, k + 1, order)
  {
  }

  lemma SetOfAppend(order: seq<Vertex>, t: Vertex)
    ensures (set x | x in order + [t]) == (set x | x in order) + {t}
  {
  }

  /** Every edge of `u`'s list leads to a vertex that has a list. */
  lemma ListTargets(es: seq<FlowEdge>, lists: map<Vertex, seq<nat>>, u: Vertex)
    requires Wf(es, lists)
    ensures forall j :: 0 <= j < |ListOf(lists, u)| ==> ListOf(lists, u)[j] < |es| && es[ListOf(lists, u)[j]].target in lists
  {
    WfFacts(es, lists);
  }

  lemma ListBounds(es: seq<FlowEdge>, lists: map<Vertex, seq<nat>>, u: Vertex)
    requires Wf(es, lists)
    ensures forall j :: 0 <= j < |ListOf(lists, u)| ==> ListOf(lists, u)[j] < |es|
  {
    WfFacts(es, lists);
  }

  /** The vertices a search from `root` has yet to discover. */
  ghost function Unvisited(lists: map<Vertex, seq<nat>>, root: Vertex, order: seq<Vertex>): set<Vertex> {
    (lists.Keys + {root}) - (set x | x in order)
  }

  /** Discovering a vertex that has a list leaves strictly fewer to discover. */
  lemma UnvisitedShrinks(lists: map<Vertex, seq<nat>>, root: Vertex, order: seq<Vertex>, t: Vertex)
    requires t in lists && t !in order
    ensures Unvisited(lists, root, order + [t]) < Unvisited(lists, root, order)
  {
    assert t in Unvisited(lists, root, order) && t !in Unvisited(lists, root, order + [t]);
  }

  /** When every vertex of `order` is closed, no residual edge leaves the set of them. */
  lemma AllClosed(es: seq<FlowEdge>, lists: map<Vertex, seq<nat>>, order: seq<Vertex>)
    requires Wf(es, lists)
    requires forall m :: 0 <= m < |order| ==> Closed(es, lists, order[m], order)
    ensures ResidualClosed(es, set x | x in order)
  {
    forall i | 0 <= i < |es| && Home(es, i) in order && es[i].flow < es[i].capacity
      ensures es[i].target in order
    {
      InHomeList(es, lists, i);
      var w := Home(es, i);
      var m := IndexIn(order, w);
      assert Closed(es, lists, order[m], order);
      var j :| 0 <= j < |ListOf(lists, w)| && ListOf(lists, w)[j] == i;
    }
  }

  /** Discovering a new vertex `t` from a discovered `u` extends the search tree. */
  lemma SearchTreeExtend(parent: map<Vertex, Vertex>, order: seq<Vertex>, source: Vertex, u: Vertex, t: Vertex)
    requires SearchTree(parent, order, source) && u in order && t !in order
    ensures SearchTree(parent[t := u], order + [t], source)
    ensures IndexIn(order + [t], t) == |order|
    ensures forall x :: x in order ==> IndexIn(order + [t], x) == IndexIn(order, x)
  {
    var order1 := order + [t];
    var parent1 := parent[t := u];
    DistinctAppend(order, t);
    assert IndexIn(order1, t) == |order|;
    forall x | x in order ensures IndexIn(order1, x) == IndexIn(order, x) {
      IndexInPrefix(order, order1, x);
    }
    IndexInPrefix(order, order1, u);
    forall v | v in parent1
      ensures parent1[v] in order1 && IndexIn(order1, parent1[v]) < IndexIn(order1, v)
    {
      if v != t {
        assert v in parent && parent1[v] == parent[v];
        IndexInPrefix(order, order1, v);
        IndexInPrefix(order, order1, parent[v]);
      }
    }
  }

  /** The tree path from `v` back to the source: v, parent[v], ..., source. */
  ghost function PathFrom(parent: map<Vertex, Vertex>, order: seq<Vertex>, source: Vertex, v: Vertex): (p: seq<Vertex>)
    requires SearchTree(parent, order, source) && v in order
    ensures |p| >= 1 && p[0] == v && p[|p| - 1] == source
    ensures forall m :: 0 <= m < |p| ==> p[m] in order
    ensures forall m :: 0 <= m < |p| - 1 ==> p[m] in parent && p[m + 1] == parent[p[m]]
    ensures forall m :: 0 <= m < |p| ==> IndexIn(order, p[m]) <= IndexIn(order, v)
    decreases IndexIn(order, v)
  {
    if v == source then [v]
    else
      var rest := PathFrom(parent, order, source, parent[v]);
      PathPrepend(parent, order, source, v, rest);
      [v] + rest
  }

  /** A tree path from `parent[v]` with `v` put in front is a tree path from `v`. */
  lemma PathPrepend(parent: map<Vertex, Vertex>, order: seq<Vertex>, source: Vertex, v: Vertex, rest: seq<Vertex>)
    requires v in order && v in parent && parent[v] in order && IndexIn(order, parent[v]) < IndexIn(order, v)
    requires |rest| >= 1 && rest[0] == parent[v] && rest[|rest| - 1] == source
    requires forall m :: 0 <= m < |rest| ==> rest[m] in order
    requires forall m :: 0 <= m < |rest| - 1 ==> rest[m] in parent && rest[m + 1] == parent[rest[m]]
    requires forall m :: 0 <= m < |rest| ==> IndexIn(order, rest[m]) <= IndexIn(order, parent[v])
    ensures var p := [v] + rest;
            (forall m :: 0 <= m < |p| ==> p[m] in order) &&
            (forall m :: 0 <= m < |p| - 1 ==> p[m] in parent && p[m + 1] == parent[p[m]]) &&
            (forall m :: 0 <= m < |p| ==> IndexIn(order, p[m]) <= IndexIn(order, v))
  {
    var p := [v] + rest;
    forall m | 0 <= m < |p| ensures p[m] in order && IndexIn(order, p[m]) <= IndexIn(order, v) {
      if m > 0 {
        assert p[m] == rest[m - 1];
      }
    }
    forall m | 0 <= m < |p| - 1 ensures p[m] in parent && p[m + 1] == parent[p[m]] {
      assert p[m + 1] == rest[m];
      if m > 0 {
        assert p[m] == rest[m - 1];
      }
    }
  }

  /** Putting a vertex that does not occur in front of a sequence without repetitions. */
  lemma DistinctPrepend(v: Vertex, rest: seq<Vertex>)
    requires Distinct(rest) && forall m :: 0 <= m < |rest| ==> rest[m] != v
    ensures Distinct([v] + rest)
  {
    var s := [v] + rest;
    forall a, b | 0 <= a < b < |s| ensures s[a] != s[b] {
      assert s[b] == rest[b - 1];
      if a > 0 {
        assert s[a] == rest[a - 1];
      }
    }
  }

  /** A tree path visits no vertex twice. */
  lemma {:induction false} PathDistinct(parent: map<Vertex, Vertex>, order: seq<Vertex>, source: Vertex, v: Vertex)
    requires SearchTree(parent, order, source) && v in order
    ensures Distinct(PathFrom(parent, order, source, v))
    decreases IndexIn(order, v)
  {
    if v != source {
      var u := parent[v];
      var rest := PathFrom(parent, order, source, u);
      PathDistinct(parent, order, source, u);
      assert IndexIn(order, u) < IndexIn(order, v);
      forall m | 0 <= m < |rest| ensures rest[m] != v {
        assert IndexIn(order, rest[m]) <= IndexIn(order, u);
      }
      DistinctPrepend(v, rest);
    }
  }

  /** Two lists agree on which of their entries qualify, so their first qualifying entries agree. */
  lemma {:induction false} FirstResidualSame(a: seq<FlowEdge>, b: seq<FlowEdge>, ids: seq<nat>, v: Vertex)
    requires forall j :: 0 <= j < |ids| ==> ids[j] < |a| && ids[j] < |b|
    requires forall j :: 0 <= j < |ids| ==>
      ((a[ids[j]].target == v && a[ids[j]].flow < a[ids[j]].capacity) <==>
       (b[ids[j]].target == v && b[ids[j]].flow < b[ids[j]].capacity))
    ensures FirstResidual(a, ids, v) == FirstResidual(b, ids, v)
  {
    if ids != [] {
      FirstResidualSame(a, b, ids[1..], v);
    }
  }

  /** A push on edge `i` leaves an edge of `a` toward `b` alone unless a -> b is `i`'s direction or its reverse. */
  lemma PushElsewhere(es: seq<FlowEdge>, i: nat, f: int, h: nat, a: Vertex, b: Vertex)
    requires Paired(es) && i < |es| && Home(es, i) != es[i].target && h < |es| && Home(es, h) == a
    requires !(a == Home(es, i) && b == es[i].target) && !(a == es[i].target && b == Home(es, i))
    ensures PushAt(es, i, f)[h].target == es[h].target
    ensures PushAt(es, i, f)[h].capacity == es[h].capacity
    ensures es[h].target == b ==> PushAt(es, i, f)[h] == es[h]
  {
    LinkedPair(es, i);
  }

  /** A push on edge `i` leaves the hop a -> b alone unless a -> b is `i`'s own direction or its reverse. */
  lemma HopAfterPush(es: seq<FlowEdge>, lists: map<Vertex, seq<nat>>, i: nat, f: int, a: Vertex, b: Vertex)
    requires Wf(es, lists) && i < |es| && Home(es, i) != es[i].target
    requires !(a == Home(es, i) && b == es[i].target) && !(a == es[i].target && b == Home(es, i))
    ensures Wf(PushAt(es, i, f), lists)
    ensures HopOf(PushAt(es, i, f), lists, a, b) == HopOf(es, lists, a, b)
    ensures HopResidual(PushAt(es, i, f), lists, a, b) == HopResidual(es, lists, a, b)
  {
    var es1 := PushAt(es, i, f);
    ShapeKeepsWf(es, es1, lists);
    WfFacts(es, lists);
    var ids := ListOf(lists, a);
    forall j | 0 <= j < |ids|
      ensures (es1[ids[j]].target == b && es1[ids[j]].flow < es1[ids[j]].capacity)
          <==> (es[ids[j]].target == b && es[ids[j]].flow < es[ids[j]].capacity)
    {
      PushElsewhere(es, i, f, ids[j], a, b);
    }
    FirstResidualSame(es1, es, ids, b);
    assert HopOf(es1, lists, a, b) == HopOf(es, lists, a, b);
    if HopOf(es, lists, a, b).Some? {
      PushElsewhere(es, i, f, HopOf(es, lists, a, b).value, a, b);
    }
  }

  /** Every hop of `p` from position `from` on still has residual capacity at least `f`. */
  ghost predicate HopsAtLeast(es: seq<FlowEdge>, lists: map<Vertex, seq<nat>>, p: seq<Vertex>, f: int, from: nat)
    requires Wf(es, lists)
  {
    forall m :: from <= m < |p| - 1 ==> HopResidual(es, lists, p[m + 1], p[m]) >= f
  }

  /** Pushing on hop `from` of a path without repeated vertices leaves the later hops alone. */
  lemma HopsAfterPush(es: seq<FlowEdge>, lists: map<Vertex, seq<nat>>, p: seq<Vertex>, f: int, from: nat, i: nat)
    requires Wf(es, lists) && Distinct(p) && from < |p| - 1 && HopsAtLeast(es, lists, p, f, from + 1)
    requires i < |es| && Home(es, i) == p[from + 1] && es[i].target == p[from]
    ensures Wf(PushAt(es, i, f), lists) && HopsAtLeast(PushAt(es, i, f), lists, p, f, from + 1)
  {
    ShapeKeepsWf(es, PushAt(es, i, f), lists);
    forall m | from + 1 <= m < |p| - 1
      ensures HopResidual(PushAt(es, i, f), lists, p[m + 1], p[m]) >= f
    {
      assert HopResidual(es, lists, p[m + 1], p[m]) >= f;
      HopAfterPush(es, lists, i, f, p[m + 1], p[m]);
    }
  }

  /** The augmentation loop has reached hop `j` of the path `p`, started from the arena `es0`. */
  ghost predicate Pushing(es: seq<FlowEdge>, ls: map<Vertex, seq<nat>>, es0: seq<FlowEdge>, p: seq<Vertex>,
                          f: int, j: nat, sink: Vertex) {
    j < |p| && Wf(es, ls) && Feasible(es) && SameShape(es0, es) &&
    (forall x :: NetOut(es, x) == NetOut(es0, x) + (if x == p[j] then f else 0) - (if x == sink then f else 0)) &&
    HopsAtLeast(es, ls, p, f, j)
  }

  /** Pushing `f` on hop `j` moves the loop on to hop `j + 1`. */
  lemma PushStep(es: seq<FlowEdge>, ls: map<Vertex, seq<nat>>, es0: seq<FlowEdge>, p: seq<Vertex>,
                 f: int, j: nat, sink: Vertex)
    requires Pushing(es, ls, es0, p, f, j, sink) && Distinct(p) && j < |p| - 1 && f > 0
    ensures HopOf(es, ls, p[j + 1], p[j]).Some? && p[j + 1] != p[j]
    ensures Pushing(PushAt(es, HopOf(es, ls, p[j + 1], p[j]).value, f), ls, es0, p, f, j + 1, sink)
  {
    HopHasRoom(es, ls, p, f, j);
    PushOnto(es, ls, es0, p, f, j, sink, HopOf(es, ls, p[j + 1], p[j]).value);
  }

  /** Pushing `f` on an edge of hop `j` with room for it moves the loop on to hop `j + 1`. */
  lemma PushOnto(es: seq<FlowEdge>, ls: map<Vertex, seq<nat>>, es0: seq<FlowEdge>, p: seq<Vertex>,
                 f: int, j: nat, sink: Vertex, i: nat)
    requires Pushing(es, ls, es0, p, f, j, sink) && Distinct(p) && j < |p| - 1 && f > 0
    requires i < |es| && Home(es, i) == p[j + 1] && es[i].target == p[j] && f <= es[i].capacity - es[i].flow
    ensures Pushing(PushAt(es, i, f), ls, es0, p, f, j + 1, sink)
  {
    PushFeasible(es, i, f);
    PushMovesExcess(es, es0, i, f, p[j + 1], p[j], sink);
    HopsAfterPush(es, ls, p, f, j, i);
  }

  /** The first hop still to push has room for `f`. */
  lemma HopHasRoom(es: seq<FlowEdge>, ls: map<Vertex, seq<nat>>, p: seq<Vertex>, f: int, j: nat)
    requires Wf(es, ls) && HopsAtLeast(es, ls, p, f, j) && j < |p| - 1 && f > 0
    ensures HopOf(es, ls, p[j + 1], p[j]).Some?
    ensures f <= es[HopOf(es, ls, p[j + 1], p[j]).value].capacity - es[HopOf(es, ls, p[j + 1], p[j]).value].flow
  {
    assert HopResidual(es, ls, p[j + 1], p[j]) >= f;
  }

  /** Pushing on an edge u -> v moves the excess `f` waiting at v back to u. */
  lemma PushMovesExcess(es: seq<FlowEdge>, es0: seq<FlowEdge>, i: nat, f: int, u: Vertex, v: Vertex, sink: Vertex)
    requires |es| % 2 == 0 && |es0| % 2 == 0 && i < |es| && Home(es, i) == u && es[i].target == v && u != v
    requires forall x :: NetOut(es, x) == NetOut(es0, x) + (if x == v then f else 0) - (if x == sink then f else 0)
    ensures forall x :: NetOut(PushAt(es, i, f), x) == NetOut(es0, x) + (if x == u then f else 0) - (if x == sink then f else 0)
  {
    forall x ensures NetOut(PushAt(es, i, f), x) == NetOut(es0, x) + (if x == u then f else 0) - (if x == sink then f else 0) {
      PushNetOut(es, i, f, x);
    }
  }

  /**
   * The arena after the augmentation loop has walked from `v` back to the source: at each
   * hop parent[w] -> w, the first edge of parent[w]'s list into w that still has residual
   * capacity gains `f` and its reverse loses `f`; a hop without such an edge is left alone.
   */
  ghost function PushAlong(es: seq<FlowEdge>, lists: map<Vertex, seq<nat>>, parent: map<Vertex, Vertex>,
                           order: seq<Vertex>, source: Vertex, v: Vertex, f: int): (r: seq<FlowEdge>)
    requires Wf(es, lists) && SearchTree(parent, order, source) && v in order
    ensures Wf(r, lists) && SameShape(es, r)
    decreases IndexIn(order, v)
  {
    if v == source then es
    else
      var u := parent[v];
      var es1 := match HopOf(es, lists, u, v)
        case None => es
        case Some(i) => PushAt(es, i, f);
      ShapeKeepsWf(es, es1, lists);
      var r := PushAlong(es1, lists, parent, order, source, u, f);
      ShapeTransitive(es, es1, r);
      r
  }

  /** One hop of the walk: the push from `v` is the push on the hop parent[v] -> v followed by the push from parent[v]. */
  lemma PushAlongStep(es: seq<FlowEdge>, lists: map<Vertex, seq<nat>>, parent: map<Vertex, Vertex>,
                      order: seq<Vertex>, source: Vertex, v: Vertex, f: int)
    requires Wf(es, lists) && SearchTree(parent, order, source) && v in order && v != source
    ensures parent[v] in order
    ensures var es1 := if HopOf(es, lists, parent[v], v).Some? then PushAt(es, HopOf(es, lists, parent[v], v).value, f) else es;
      Wf(es1, lists) && SameShape(es, es1) &&
      PushAlong(es, lists, parent, order, source, v, f) == PushAlong(es1, lists, parent, order, source, parent[v], f)
  {
    var u := parent[v];
    var es1 := if HopOf(es, lists, u, v).Some? then PushAt(es, HopOf(es, lists, u, v).value, f) else es;
    ShapeKeepsWf(es, es1, lists);
  }

  /** A push on edge `h` leaves alone every edge that does not join the two ends of `h`. */
  lemma PushAtElsewhere(es: seq<FlowEdge>, h: nat, f: int, i: nat)
    requires |es| % 2 == 0 && h < |es| && i < |es|
    requires !((Home(es, i) == Home(es, h) || Home(es, i) == es[h].target) &&
               (es[i].target == Home(es, h) || es[i].target == es[h].target))
    ensures PushAt(es, h, f)[i] == es[i] && Home(PushAt(es, h, f), i) == Home(es, i)
  {
    PartnerFacts(es, h);
    PartnerFacts(es, i);
  }

  /** The push along the tree path from `v` leaves alone every edge that does not join two vertices of that path. */
  lemma {:induction false} PushAlongElsewhere(es: seq<FlowEdge>, lists: map<Vertex, seq<nat>>, parent: map<Vertex, Vertex>,
                                              order: seq<Vertex>, source: Vertex, v: Vertex, f: int, i: nat)
    requires Wf(es, lists) && SearchTree(parent, order, source) && v in order && i < |es|
    requires !(Home(es, i) in PathFrom(parent, order, source, v) && es[i].target in PathFrom(parent, order, source, v))
    ensures PushAlong(es, lists, parent, order, source, v, f)[i] == es[i]
    decreases IndexIn(order, v)
  {
    if v != source {
      var u := parent[v];
      var p, rest := PathFrom(parent, order, source, v), PathFrom(parent, order, source, u);
      assert p == [v] + rest;
      assert u in p && v in p;
      PushAlongStep(es, lists, parent, order, source, v, f);
      var es1 := if HopOf(es, lists, u, v).Some? then PushAt(es, HopOf(es, lists, u, v).value, f) else es;
      if HopOf(es, lists, u, v).Some? {
        PushAtElsewhere(es, HopOf(es, lists, u, v).value, f, i);
      }
      assert !(Home(es1, i) in rest && es1[i].target in rest);
      PushAlongElsewhere(es1, lists, parent, order, source, u, f, i);
    }
  }

  /**
   * The augmentation loop, started on `es0` at the sink, has reached the vertex `v`, hop `j`
   * of the tree path, and what is left to push from `v` completes the push from the sink.
   */
  ghost predicate Walking(es: seq<FlowEdge>, ls: map<Vertex, seq<nat>>, es0: seq<FlowEdge>, parent: map<Vertex, Vertex>,
                          order: seq<Vertex>, source: Vertex, sink: Vertex, f: int, j: nat, v: Vertex)
  {
    SearchTree(parent, order, source) && sink in order && Wf(es0, ls) &&
    Pushing(es, ls, es0, PathFrom(parent, order, source, sink), f, j, sink) &&
    PathFrom(parent, order, source, sink)[j] == v && v in order &&
    PushAlong(es, ls, parent, order, source, v, f) == PushAlong(es0, ls, parent, order, source, sink, f)
  }

  /** One round of the augmentation loop: the hop into `v` has room for `f`, and pushing it moves the loop on. */
  lemma WalkStep(es: seq<FlowEdge>, ls: map<Vertex, seq<nat>>, es0: seq<FlowEdge>, parent: map<Vertex, Vertex>,
                 order: seq<Vertex>, source: Vertex, sink: Vertex, f: int, j: nat, v: Vertex)
    requires Walking(es, ls, es0, parent, order, source, sink, f, j, v) && v != source && f > 0
    ensures v in parent && parent[v] != v && HopOf(es, ls, parent[v], v).Some?
    ensures Walking(PushAt(es, HopOf(es, ls, parent[v], v).value, f), ls, es0, parent, order, source, sink, f, j + 1, parent[v])
  {
    var p := PathFrom(parent, order, source, sink);
    PathDistinct(parent, order, source, sink);
    assert j < |p| - 1 && p[j + 1] == parent[v];
    PushStep(es, ls, es0, p, f, j, sink);
    PushAlongStep(es, ls, parent, order, source, v, f);
  }

  /** Before the first round the loop stands at the sink, hop 0, with nothing pushed yet. */
  lemma WalkStart(es: seq<FlowEdge>, ls: map<Vertex, seq<nat>>, parent: map<Vertex, Vertex>,
                  order: seq<Vertex>, source: Vertex, sink: Vertex, f: int)
    requires Wf(es, ls) && Feasible(es) && SearchTree(parent, order, source) && sink in parent
    requires HopsAtLeast(es, ls, PathFrom(parent, order, source, sink), f, 0)
    ensures Walking(es, ls, es, parent, order, source, sink, f, 0, sink)
  {
  }

  /** When the loop reaches the source, the whole push is done: the excess `f` has moved from the sink to the source. */
  lemma WalkDone(es: seq<FlowEdge>, ls: map<Vertex, seq<nat>>, es0: seq<FlowEdge>, parent: map<Vertex, Vertex>,
                 order: seq<Vertex>, source: Vertex, sink: Vertex, f: int, j: nat)
    requires Walking(es, ls, es0, parent, order, source, sink, f, j, source)
    ensures Wf(es, ls) && Feasible(es) && SameShape(es0, es)
    ensures forall x :: NetOut(es, x) == NetOut(es0, x) + (if x == source then f else 0) - (if x == sink then f else 0)
    ensures es == PushAlong(es0, ls, parent, order, source, sink, f)
  {
  }

  /**
   * Pushes `f` along the tree path from the source to the sink: each hop's first residual
   * edge gains `f` and its reverse loses `f`. Net flow moves from the source to the sink.
   */
  method Augment(net: FlowNetwork, parent: map<Vertex, Vertex>, ghost order: seq<Vertex>,
                 source: Vertex, sink: Vertex, f: int)
    requires net.Valid() && Feasible(net.edges) && SearchTree(parent, order, source) && sink in parent && f > 0
    requires HopsAtLeast(net.edges, net.lists, PathFrom(parent, order, source, sink), f, 0)
    modifies net
    ensures net.Valid() && Feasible(net.edges) && SameShape(old(net.edges), net.edges) && net.lists == old(net.lists)
    ensures forall x :: NetOut(net.edges, x)
                     == old(NetOut(net.edges, x)) + (if x == source then f else 0) - (if x == sink then f else 0)
    ensures net.edges == PushAlong(old(net.edges), old(net.lists), parent, order, source, sink, f)
  {
    ghost var p := PathFrom(parent, order, source, sink);
    ghost var es0, ls := net.edges, net.lists;
    var v := sink;
    ghost var j := 0;
    WalkStart(es0, ls, parent, order, source, sink, f);
    while v != source
      invariant Walking(net.edges, ls, es0, parent, order, source, sink, f, j, v) && net.lists == ls
      invariant j < |p|
      decreases |p| - j
    {
      var u := parent[v];
      ghost var es := net.edges;
      WalkStep(es, ls, es0, parent, order, source, sink, f, j, v);
      net.AddFlow(u, v, f);
      assert net.edges == PushAt(es, HopOf(es, ls, u, v).value, f);
      v := u;
      j := j + 1;
    }
    WalkDone(net.edges, ls, es0, parent, order, source, sink, f, j);
  }
}
