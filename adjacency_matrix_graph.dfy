// The adjacency-matrix container (src/graph/AdjacencyMatrixGraph.cpp): a square bool matrix,
// a map from vertex to matrix index and a map back, besides the base vectors. `hasVertex`
// consults the forward map and `hasEdge` the matrix. Indices are handed out in insertion
// order and closed up on removal, so the index of a vertex is its position in the vector.

module AdjacencyMatrixGraphs {
  import opened GraphTypes
  import opened GraphBase

  /** `adjacencyMatrix[i][j]`, false outside the matrix. */
  predicate Entry(m: seq<seq<bool>>, i: nat, j: nat) {
    i < |m| && j < |m[i]| && m[i][j]
  }

  /** Every row is as long as the matrix is tall. */
  ghost predicate Square(m: seq<seq<bool>>) {
    forall i :: 0 <= i < |m| ==> |m[i]| == |m|
  }

  /** `erase(begin() + k)`. */
  function EraseAt<T>(s: seq<T>, k: nat): (r: seq<T>)
    requires k < |s|
    ensures |r| == |s| - 1
    ensures forall i :: 0 <= i < |r| ==> r[i] == s[if i < k then i else i + 1]
  {
    s[..k] + s[k + 1..]
  }

  /** The index in the old matrix of index `i` of the matrix with index `k` erased. */
  function Skip(i: nat, k: nat): nat {
    if i < k then i else i + 1
  }

  /** `addVertex` on the matrix: a false column on every row, then an all-false row. */
  function Grown(m: seq<seq<bool>>): seq<seq<bool>> {
    seq(|m|, i requires 0 <= i < |m| => m[i] + [false]) + [seq(|m| + 1, _ => false)]
  }

  /** `removeVertex` on the matrix: erase row `k`, then column `k` of every remaining row. */
  function Shrunk(m: seq<seq<bool>>, k: nat): seq<seq<bool>>
    requires k < |m| && Square(m)
  {
    var rows := EraseAt(m, k);
    seq(|rows|, i requires 0 <= i < |rows| => EraseAt(rows[i], k))
  }

  /** `adjacencyMatrix[i][j] = b`. */
  function SetEntry(m: seq<seq<bool>>, i: nat, j: nat, b: bool): seq<seq<bool>>
    requires i < |m| && j < |m[i]|
  {
    m[i := m[i][j := b]]
  }

  /** The loop of `removeVertex` over `vertexToIndex`: every index above `k` moves down by one. */
  function Renumbered(vti: map<Vertex, nat>, k: nat): map<Vertex, nat> {
    map v | v in vti :: if vti[v] > k then vti[v] - 1 else vti[v]
  }

  /** `indexToVertex[i]`; `operator[]` would give a default vertex 0 for a missing index. */
  function NameOf(names: map<nat, Vertex>, i: nat): Vertex {
    if i in names then names[i] else Vertex(0)
  }

  /** The neighbour loop: the names of the set entries of a row, in index order. */
  function Named(names: map<nat, Vertex>, row: seq<bool>): seq<Vertex>
    decreases |row|
  {
    if row == [] then []
    else Named(names, row[..|row| - 1]) + (if row[|row| - 1] then [NameOf(names, |row| - 1)] else [])
  }

  /** The loop of `getAdjacencyVertices`: set entry `i` of a row reported as vertex `i + 1`. */
  function ByPosition(row: seq<bool>): seq<Vertex>
    decreases |row|
  {
    if row == [] then []
    else ByPosition(row[..|row| - 1]) + (if row[|row| - 1] then [Vertex(|row|)] else [])
  }

  /** The index maps name each position of the vector and nothing else. */
  ghost predicate Indexed(vs: seq<Vertex>, vti: map<Vertex, nat>, itv: map<nat, Vertex>) {
    DistinctVertices(vs) &&
    (forall v :: v in vti <==> v in vs) &&
    (forall k :: 0 <= k < |vs| ==> vs[k] in vti && vti[vs[k]] == k) &&
    (forall k :: 0 <= k < |vs| ==> k in itv && itv[k] == vs[k])
  }

  /** Entry (i, j) is set exactly when the edge vector holds an edge from vertex i to vertex j. */
  ghost predicate Agrees(vs: seq<Vertex>, m: seq<seq<bool>>, es: seq<Edge>) {
    forall i, j :: 0 <= i < |vs| && 0 <= j < |vs| ==> (Entry(m, i, j) <==> HasEdgeIn(es, vs[i], vs[j]))
  }

  /** The invariant of the container. */
  ghost predicate Consistent(vs: seq<Vertex>, vti: map<Vertex, nat>, itv: map<nat, Vertex>, m: seq<seq<bool>>, es: seq<Edge>) {
    Indexed(vs, vti, itv) && |m| == |vs| && Square(m) && Agrees(vs, m, es) && WellFormed(vs, es)
  }

  /** `hasEdge`: false unless both ends have an index; otherwise the matrix entry. */
  predicate MatrixHas(vti: map<Vertex, nat>, m: seq<seq<bool>>, s: Vertex, t: Vertex) {
    s in vti && t in vti && Entry(m, vti[s], vti[t])
  }

  // ----- Lemmas about the matrix operations -----

  /** Growing adds an all-false row and column and keeps every old entry. */
  lemma GrownEntries(m: seq<seq<bool>>)
    requires Square(m)
    ensures |Grown(m)| == |m| + 1 && Square(Grown(m))
    ensures forall i: nat, j: nat :: Entry(Grown(m), i, j) <==> Entry(m, i, j)
  {
    var g := Grown(m);
    forall i | 0 <= i < |g| ensures |g[i]| == |g| {
      if i < |m| { assert g[i] == m[i] + [false]; }
    }
    forall i: nat, j: nat ensures Entry(g, i, j) <==> Entry(m, i, j) {
      if i < |m| {
        assert g[i] == m[i] + [false];
      } else if i == |m| {
        assert g[i] == seq(|m| + 1, _ => false);
      }
    }
  }

  /** Shrinking keeps exactly the entries outside row and column `k`, renumbered. */
  lemma ShrunkEntries(m: seq<seq<bool>>, k: nat)
    requires k < |m| && Square(m)
    ensures |Shrunk(m, k)| == |m| - 1 && Square(Shrunk(m, k))
    ensures forall i: nat, j: nat :: i < |m| - 1 && j < |m| - 1 ==> (Entry(Shrunk(m, k), i, j) <==> Entry(m, Skip(i, k), Skip(j, k)))
  {
    var r := Shrunk(m, k);
    var rows := EraseAt(m, k);
    forall i | 0 <= i < |r| ensures |r[i]| == |r| && r[i] == EraseAt(m[Skip(i, k)], k) {
      assert rows[i] == m[Skip(i, k)];
    }
  }

  /** Setting one entry changes that entry and no other. */
  lemma SetEntryEntries(m: seq<seq<bool>>, i: nat, j: nat, b: bool)
    requires i < |m| && j < |m[i]|
    ensures |SetEntry(m, i, j, b)| == |m|
    ensures forall x :: 0 <= x < |m| ==> |SetEntry(m, i, j, b)[x]| == |m[x]|
    ensures forall x: nat, y: nat :: Entry(SetEntry(m, i, j, b), x, y) <==> if x == i && y == j then b else Entry(m, x, y)
  {
  }

  /** Under the invariant a present vertex sits at its index. */
  lemma {:induction false} IndexOf(vs: seq<Vertex>, vti: map<Vertex, nat>, itv: map<nat, Vertex>, x: Vertex)
    requires Indexed(vs, vti, itv) && x in vs
    ensures x in vti && vti[x] < |vs| && vs[vti[x]] == x && itv[vti[x]] == x
  {
    var k :| 0 <= k < |vs| && vs[k] == x;
    assert vti[vs[k]] == k;
  }

  /** Under the invariant `hasEdge` answers the edge vector's membership test. */
  lemma {:induction false} MatrixHasEdge(vs: seq<Vertex>, vti: map<Vertex, nat>, itv: map<nat, Vertex>, m: seq<seq<bool>>, es: seq<Edge>, s: Vertex, t: Vertex)
    requires Consistent(vs, vti, itv, m, es)
    ensures MatrixHas(vti, m, s, t) <==> HasEdgeIn(es, s, t)
  {
    if HasEdgeIn(es, s, t) {
      var i :| 0 <= i < |es| && IsEdge(es[i], s, t);
      assert es[i].source in vs && es[i].target in vs;
    }
    if s in vti && t in vti {
      IndexOf(vs, vti, itv, s);
      IndexOf(vs, vti, itv, t);
    }
  }

  /** The members of a named row: the names of its set entries. */
  lemma {:induction false} NamedMembers(names: map<nat, Vertex>, row: seq<bool>, w: Vertex)
    ensures w in Named(names, row) <==> exists i :: 0 <= i < |row| && row[i] && NameOf(names, i) == w
    decreases |row|
  {
    if row != [] {
      var init := row[..|row| - 1];
      NamedMembers(names, init, w);
      if w in Named(names, init) {
        var i :| 0 <= i < |init| && init[i] && NameOf(names, i) == w;
        assert row[i] == init[i];
      }
      if exists i :: 0 <= i < |row| && row[i] && NameOf(names, i) == w {
        var i :| 0 <= i < |row| && row[i] && NameOf(names, i) == w;
        if i < |init| {
          assert init[i] == row[i];
        }
      }
    }
  }

  /** A row named by a map that names index `i` as vertex `i + 1` is the row read by position. */
  lemma {:induction false} NamedByPosition(names: map<nat, Vertex>, row: seq<bool>)
    requires forall i :: 0 <= i < |row| ==> NameOf(names, i) == Vertex(i + 1)
    ensures Named(names, row) == ByPosition(row)
    decreases |row|
  {
    if row != [] {
      NamedByPosition(names, row[..|row| - 1]);
    }
  }

  /** Under the invariant the neighbours read off the matrix row of `v` are the targets of its edges. */
  lemma {:induction false} NamedRowIsTargets(vs: seq<Vertex>, vti: map<Vertex, nat>, itv: map<nat, Vertex>, m: seq<seq<bool>>, es: seq<Edge>, v: Vertex, w: Vertex)
    requires Consistent(vs, vti, itv, m, es) && v in vti
    ensures vti[v] < |m|
    ensures w in Named(itv, m[vti[v]]) <==> HasEdgeIn(es, v, w)
  {
    IndexOf(vs, vti, itv, v);
    var row := m[vti[v]];
    NamedMembers(itv, row, w);
    MatrixHasEdge(vs, vti, itv, m, es, v, w);
    if w in Named(itv, row) {
      var i :| 0 <= i < |row| && row[i] && NameOf(itv, i) == w;
      assert itv[i] == vs[i] && vti[vs[i]] == i;
    }
    if HasEdgeIn(es, v, w) {
      assert w in vti;
      IndexOf(vs, vti, itv, w);
      assert row[vti[w]] && NameOf(itv, vti[w]) == w;
    }
  }

  /** `removeVertex` changes the vector as erasing the index of the vertex does. */
  lemma {:induction false} WithoutVertexAt(vs: seq<Vertex>, k: nat)
    requires DistinctVertices(vs) && k < |vs|
    ensures WithoutVertex(vs, vs[k]) == EraseAt(vs, k)
  {
    forall i | 0 <= i < |vs| && i != k ensures OtherThan(vs[k])(vs[i]) {
      if i < k {
        assert vs[i] != vs[k];
      } else {
        assert vs[k] != vs[i];
      }
    }
    FilterDropsOne(vs, k, OtherThan(vs[k]));
  }

  /** Filtering out exactly the entry at `k` erases index `k`. */
  lemma {:induction false} FilterDropsOne<T>(s: seq<T>, k: nat, keep: T -> bool)
    requires k < |s| && !keep(s[k]) && forall i :: 0 <= i < |s| && i != k ==> keep(s[i])
    ensures Filter(s, keep) == EraseAt(s, k)
  {
    var a, x, b := s[..k], s[k], s[k + 1..];
    assert s == (a + [x]) + b;
    FilterConcat(a + [x], b, keep);
    FilterAppend(a, x, keep);
    FilterAll(a, keep);
    FilterAll(b, keep);
    assert EraseAt(s, k) == a + b;
  }

  /** Filtering distributes over concatenation. */
  lemma {:induction false} FilterConcat<T>(a: seq<T>, b: seq<T>, keep: T -> bool)
    ensures Filter(a + b, keep) == Filter(a, keep) + Filter(b, keep)
    decreases |b|
  {
    if b == [] {
      assert a + b == a;
    } else {
      var init := b[..|b| - 1];
      FilterConcat(a, init, keep);
      assert (a + b)[..|a + b| - 1] == a + init;
    }
  }

  /** Renumbering after the erase of index `k` keeps the forward map in step with the shrunk vector. */
  lemma {:induction false} RenumberedIndexed(vs: seq<Vertex>, vti: map<Vertex, nat>, itv: map<nat, Vertex>, k: nat)
    requires Indexed(vs, vti, itv) && k < |vs|
    ensures var vs' := EraseAt(vs, k);
            var itv' := map i | 0 <= i < |vs'| :: vs'[i];
            Indexed(vs', Renumbered(vti - {vs[k]}, k), itv')
  {
    EraseDistinct(vs, k);
    RenumberedKeys(vs, vti, itv, k);
    RenumberedAt(vs, vti, itv, k);
  }

  /** Erasing one entry of a repetition-free vector leaves it repetition-free. */
  lemma EraseDistinct(vs: seq<Vertex>, k: nat)
    requires DistinctVertices(vs) && k < |vs|
    ensures DistinctVertices(EraseAt(vs, k))
  {
    var vs' := EraseAt(vs, k);
    forall i, j | 0 <= i < j < |vs'| ensures vs'[i] != vs'[j] {
      assert vs'[i] == vs[Skip(i, k)] && vs'[j] == vs[Skip(j, k)];
    }
  }

  /** After the erase the renumbered map has exactly the remaining vertices as keys. */
  lemma RenumberedKeys(vs: seq<Vertex>, vti: map<Vertex, nat>, itv: map<nat, Vertex>, k: nat)
    requires Indexed(vs, vti, itv) && k < |vs|
    ensures forall x :: x in Renumbered(vti - {vs[k]}, k) <==> x in EraseAt(vs, k)
  {
    forall x ensures x in Renumbered(vti - {vs[k]}, k) <==> x in EraseAt(vs, k) {
      if x in EraseAt(vs, k) {
        KeptIsKey(vs, vti, itv, k, x);
      }
      if x in Renumbered(vti - {vs[k]}, k) {
        KeyIsKept(vs, vti, itv, k, x);
      }
    }
  }

  lemma KeptIsKey(vs: seq<Vertex>, vti: map<Vertex, nat>, itv: map<nat, Vertex>, k: nat, x: Vertex)
    requires Indexed(vs, vti, itv) && k < |vs| && x in EraseAt(vs, k)
    ensures x in Renumbered(vti - {vs[k]}, k)
  {
    var vs' := EraseAt(vs, k);
    var i :| 0 <= i < |vs'| && vs'[i] == x;
    assert vs[Skip(i, k)] == x;
    assert vti[vs[Skip(i, k)]] == Skip(i, k);
  }

  lemma KeyIsKept(vs: seq<Vertex>, vti: map<Vertex, nat>, itv: map<nat, Vertex>, k: nat, x: Vertex)
    requires Indexed(vs, vti, itv) && k < |vs| && x in Renumbered(vti - {vs[k]}, k)
    ensures x in EraseAt(vs, k)
  {
    assert x in vti - {vs[k]};
    assert x in vs;
    IndexOf(vs, vti, itv, x);
    var i := vti[x];
    assert i != k;
    var j := if i < k then i else i - 1;
    assert Skip(j, k) == i;
    assert EraseAt(vs, k)[j] == x;
  }

  /** After the erase the renumbered map sends each remaining vertex to its new position. */
  lemma RenumberedAt(vs: seq<Vertex>, vti: map<Vertex, nat>, itv: map<nat, Vertex>, k: nat)
    requires Indexed(vs, vti, itv) && k < |vs|
    ensures forall i :: 0 <= i < |EraseAt(vs, k)| ==>
              EraseAt(vs, k)[i] in Renumbered(vti - {vs[k]}, k) && Renumbered(vti - {vs[k]}, k)[EraseAt(vs, k)[i]] == i
  {
    var vs' := EraseAt(vs, k);
    var vti' := Renumbered(vti - {vs[k]}, k);
    forall i | 0 <= i < |vs'| ensures vs'[i] in vti' && vti'[vs'[i]] == i {
      assert vs'[i] == vs[Skip(i, k)] && vti[vs[Skip(i, k)]] == Skip(i, k);
      assert vs[Skip(i, k)] != vs[k];
    }
  }

  // ----- The invariant under each operation -----

  /** `addVertex` of a new vertex keeps the invariant; the new vertex gets index n and no edge. */
  lemma AddVertexKeepsMatrix(vs: seq<Vertex>, vti: map<Vertex, nat>, itv: map<nat, Vertex>, m: seq<seq<bool>>, es: seq<Edge>, v: Vertex,
                             vs': seq<Vertex>, vti': map<Vertex, nat>, itv': map<nat, Vertex>, m': seq<seq<bool>>)
    requires Consistent(vs, vti, itv, m, es) && v !in vti
    requires vs' == vs + [v] && vti' == vti[v := |m|] && itv' == itv[|m| := v] && m' == Grown(m)
    ensures Consistent(vs', vti', itv', m', es)
    ensures forall a, b :: MatrixHas(vti', m', a, b) <==> MatrixHas(vti, m, a, b)
  {
    AddVertexIndexed(vs, vti, itv, v);
    AddVertexAgrees(vs, m, es, v);
    FilterListedGrow(vs, es, v);
    forall a, b ensures MatrixHas(vti', Grown(m), a, b) <==> MatrixHas(vti, m, a, b) {
      if a in vti' && b in vti' && !(a in vti && b in vti) {
        assert vti'[a] == |m| || vti'[b] == |m|;
      }
    }
  }

  /** A new vertex appended at index n keeps both maps in step with the vector. */
  lemma AddVertexIndexed(vs: seq<Vertex>, vti: map<Vertex, nat>, itv: map<nat, Vertex>, v: Vertex)
    requires Indexed(vs, vti, itv) && v !in vti
    ensures Indexed(vs + [v], vti[v := |vs|], itv[|vs| := v])
  {
    var vs', vti', itv' := vs + [v], vti[v := |vs|], itv[|vs| := v];
    assert v !in vs;
    assert DistinctVertices(vs') by {
      forall i, j | 0 <= i < j < |vs'| ensures vs'[i] != vs'[j] {
        if j == |vs| { assert vs'[i] == vs[i]; assert vs[i] in vs; }
      }
    }
    forall k | 0 <= k < |vs'| ensures vs'[k] in vti' && vti'[vs'[k]] == k && k in itv' && itv'[k] == vs'[k] {
      if k < |vs| { assert vs'[k] == vs[k] && vs[k] != v; }
    }
    forall x ensures x in vti' <==> x in vs' { }
  }

  /** The grown matrix agrees with the same edges once the new vertex is listed. */
  lemma AddVertexAgrees(vs: seq<Vertex>, m: seq<seq<bool>>, es: seq<Edge>, v: Vertex)
    requires |m| == |vs| && Square(m) && Agrees(vs, m, es) && EndpointsListed(vs, es) && v !in vs
    ensures Agrees(vs + [v], Grown(m), es)
  {
    var vs' := vs + [v];
    GrownEntries(m);
    forall e | 0 <= e < |es| ensures es[e].source != v && es[e].target != v {
      assert es[e].source in vs && es[e].target in vs;
    }
    forall i, j | 0 <= i < |vs'| && 0 <= j < |vs'| ensures Entry(Grown(m), i, j) <==> HasEdgeIn(es, vs'[i], vs'[j]) {
      if i < |vs| && j < |vs| {
        assert vs'[i] == vs[i] && vs'[j] == vs[j];
      } else {
        assert vs'[i] == v || vs'[j] == v;
      }
    }
  }

  /** Listing one more vertex keeps every edge listed. */
  lemma FilterListedGrow(vs: seq<Vertex>, es: seq<Edge>, v: Vertex)
    requires EndpointsListed(vs, es)
    ensures EndpointsListed(vs + [v], es)
  {
    forall i | 0 <= i < |es| ensures es[i].source in vs + [v] && es[i].target in vs + [v] { }
  }

  /** `addEdge` between present vertices with no such edge keeps the invariant and sets the entry. */
  lemma {:induction false} AddEdgeKeepsMatrix(vs: seq<Vertex>, vti: map<Vertex, nat>, itv: map<nat, Vertex>, m: seq<seq<bool>>, es: seq<Edge>, s: Vertex, t: Vertex)
    requires Consistent(vs, vti, itv, m, es) && s in vti && t in vti && !MatrixHas(vti, m, s, t)
    ensures vti[s] < |m| && vti[t] < |m[vti[s]]|
    ensures Consistent(vs, vti, itv, SetEntry(m, vti[s], vti[t], true), es + [NewPlainEdge(s, t)])
    ensures forall a, b :: MatrixHas(vti, SetEntry(m, vti[s], vti[t], true), a, b) <==> MatrixHas(vti, m, a, b) || (a == s && b == t)
  {
    IndexOf(vs, vti, itv, s);
    IndexOf(vs, vti, itv, t);
    var si, ti := vti[s], vti[t];
    var m' := SetEntry(m, si, ti, true);
    var es' := es + [NewPlainEdge(s, t)];
    SetEntryEntries(m, si, ti, true);
    MatrixHasEdge(vs, vti, itv, m, es, s, t);
    assert AddedEdge(vs, es, s, t) == es';
    AddEdgeKeeps(vs, es, s, t);
    forall i, j | 0 <= i < |vs| && 0 <= j < |vs| ensures Entry(m', i, j) <==> HasEdgeIn(es', vs[i], vs[j]) {
      assert vti[vs[i]] == i && vti[vs[j]] == j;
      if HasEdgeIn(es', vs[i], vs[j]) && !(i == si && j == ti) {
        var e :| 0 <= e < |es'| && IsEdge(es'[e], vs[i], vs[j]);
        assert e < |es|;
        assert IsEdge(es[e], vs[i], vs[j]);
      }
      if i == si && j == ti {
        assert IsEdge(es'[|es|], vs[i], vs[j]);
      } else if HasEdgeIn(es, vs[i], vs[j]) {
        var e :| 0 <= e < |es| && IsEdge(es[e], vs[i], vs[j]);
        assert es'[e] == es[e];
      }
    }
    forall a, b ensures MatrixHas(vti, m', a, b) <==> MatrixHas(vti, m, a, b) || (a == s && b == t) {
      if a in vti && b in vti {
        IndexOf(vs, vti, itv, a);
        IndexOf(vs, vti, itv, b);
      }
    }
  }

  /** Clearing entry (vs⁻¹(s), vs⁻¹(t)) matches deleting the edges from `s` to `t`. */
  lemma {:induction false} RemoveEdgeAgrees(vs: seq<Vertex>, m: seq<seq<bool>>, es: seq<Edge>, si: nat, ti: nat)
    requires DistinctVertices(vs) && |m| == |vs| && Square(m) && Agrees(vs, m, es)
    requires si < |vs| && ti < |vs|
    ensures Agrees(vs, SetEntry(m, si, ti, false), WithoutEdge(es, vs[si], vs[ti]))
  {
    var s, t := vs[si], vs[ti];
    var m' := SetEntry(m, si, ti, false);
    SetEntryEntries(m, si, ti, false);
    forall i, j | 0 <= i < |vs| && 0 <= j < |vs| ensures Entry(m', i, j) <==> HasEdgeIn(WithoutEdge(es, s, t), vs[i], vs[j]) {
      WithoutEdgeHas(es, s, t, vs[i], vs[j]);
      assert (vs[i] == s && vs[j] == t) <==> (i == si && j == ti);
    }
  }

  /** `removeEdge` of a present edge keeps the invariant and clears the entry. */
  lemma {:induction false} RemoveEdgeKeepsMatrix(vs: seq<Vertex>, vti: map<Vertex, nat>, itv: map<nat, Vertex>, m: seq<seq<bool>>, es: seq<Edge>, s: Vertex, t: Vertex)
    requires Consistent(vs, vti, itv, m, es) && MatrixHas(vti, m, s, t)
    ensures vti[s] < |m| && vti[t] < |m[vti[s]]|
    ensures Consistent(vs, vti, itv, SetEntry(m, vti[s], vti[t], false), WithoutEdge(es, s, t))
    ensures forall a, b :: MatrixHas(vti, SetEntry(m, vti[s], vti[t], false), a, b) <==> MatrixHas(vti, m, a, b) && !(a == s && b == t)
  {
    MatrixHasEdge(vs, vti, itv, m, es, s, t);
    IndexOf(vs, vti, itv, s);
    IndexOf(vs, vti, itv, t);
    var m' := SetEntry(m, vti[s], vti[t], false);
    var es' := WithoutEdge(es, s, t);
    SetEntryEntries(m, vti[s], vti[t], false);
    RemoveEdgeKeeps(vs, es, s, t);
    RemoveEdgeAgrees(vs, m, es, vti[s], vti[t]);
    assert Consistent(vs, vti, itv, m', es');
    forall a, b ensures MatrixHas(vti, m', a, b) <==> MatrixHas(vti, m, a, b) && !(a == s && b == t) {
      MatrixHasEdge(vs, vti, itv, m, es, a, b);
      MatrixHasEdge(vs, vti, itv, m', es', a, b);
      WithoutEdgeHas(es, s, t, a, b);
    }
  }

  /** Erasing row and column `k` matches erasing vertex `vs[k]` and the edges touching it. */
  lemma {:induction false} RemoveVertexAgrees(vs: seq<Vertex>, m: seq<seq<bool>>, es: seq<Edge>, k: nat)
    requires WellFormed(vs, es) && |m| == |vs| && Square(m) && Agrees(vs, m, es) && k < |vs|
    ensures Agrees(EraseAt(vs, k), Shrunk(m, k), WithoutIncident(es, vs[k]))
  {
    var v := vs[k];
    var vs' := EraseAt(vs, k);
    var m' := Shrunk(m, k);
    var es' := WithoutIncident(es, v);
    ShrunkEntries(m, k);
    RemoveVertexKeeps(vs, es, v);
    forall i, j | 0 <= i < |vs'| && 0 <= j < |vs'| ensures Entry(m', i, j) <==> HasEdgeIn(es', vs'[i], vs'[j]) {
      assert vs'[i] == vs[Skip(i, k)] && vs'[j] == vs[Skip(j, k)];
      assert vs[Skip(i, k)] != v && vs[Skip(j, k)] != v;
      assert Entry(m, Skip(i, k), Skip(j, k)) <==> HasEdgeIn(es, vs[Skip(i, k)], vs[Skip(j, k)]);
    }
  }

  /**
   * The intended `removeVertex` keeps the invariant: the vector, the matrix and the forward map
   * change as the source changes them, the map back is rebuilt from the new vector, and the
   * edges touching the vertex leave the edge vector.
   */
  lemma {:induction false} RemoveVertexKeepsMatrix(vs: seq<Vertex>, vti: map<Vertex, nat>, itv: map<nat, Vertex>, m: seq<seq<bool>>, es: seq<Edge>, v: Vertex)
    requires Consistent(vs, vti, itv, m, es) && v in vti
    ensures vti[v] < |vs| && vs[vti[v]] == v
    ensures var k := vti[v];
            var vs' := EraseAt(vs, k);
            Consistent(vs', Renumbered(vti - {v}, k), map i | 0 <= i < |vs'| :: vs'[i], Shrunk(m, k), WithoutIncident(es, v))
    ensures var k := vti[v];
            forall a, b :: MatrixHas(Renumbered(vti - {v}, k), Shrunk(m, k), a, b) <==> MatrixHas(vti, m, a, b) && a != v && b != v
  {
    IndexOf(vs, vti, itv, v);
    var k := vti[v];
    var vs' := EraseAt(vs, k);
    var vti' := Renumbered(vti - {v}, k);
    var itv' := map i | 0 <= i < |vs'| :: vs'[i];
    var m' := Shrunk(m, k);
    var es' := WithoutIncident(es, v);
    RenumberedIndexed(vs, vti, itv, k);
    ShrunkEntries(m, k);
    WithoutVertexAt(vs, k);
    RemoveVertexKeeps(vs, es, v);
    RemoveVertexAgrees(vs, m, es, k);
    assert Consistent(vs', vti', itv', m', es');
    forall a, b ensures MatrixHas(vti', m', a, b) <==> MatrixHas(vti, m, a, b) && a != v && b != v {
      MatrixHasEdge(vs', vti', itv', m', es', a, b);
      MatrixHasEdge(vs, vti, itv, m, es, a, b);
    }
  }

  /** The matrix part of `removeVertex`: erase row `k`, then erase column `k` row by row. */
  method EraseRowAndColumn(m: seq<seq<bool>>, k: nat) returns (rows: seq<seq<bool>>)
    requires k < |m| && Square(m)
    ensures rows == Shrunk(m, k)
  {
    rows := EraseAt(m, k);
    ghost var erased := rows;
    ghost var goal := Shrunk(m, k);
    var i := 0;
    while i < |rows|
      invariant |rows| == |erased| == |goal| && 0 <= i <= |rows|
      invariant forall x :: 0 <= x < i ==> rows[x] == goal[x]
      invariant forall x :: i <= x < |rows| ==> rows[x] == erased[x]
    {
      assert |rows[i]| == |m| by {
        assert erased[i] == m[Skip(i, k)];
      }
      rows := rows[i := EraseAt(rows[i], k)];
      i := i + 1;
    }
  }

  /** The index part of `removeVertex`: every index above `k` moves down by one. */
  method CloseUp(vti: map<Vertex, nat>, k: nat) returns (indices: map<Vertex, nat>)
    ensures indices == Renumbered(vti, k)
  {
    indices := vti;
    ghost var goal := Renumbered(vti, k);
    var todo := indices.Keys;
    while todo != {}
      invariant todo <= indices.Keys == vti.Keys == goal.Keys
      invariant forall u :: u in todo ==> indices[u] == vti[u]
      invariant forall u :: u in indices && u !in todo ==> indices[u] == goal[u]
      decreases todo
    {
      var u :| u in todo;
      if indices[u] > k {
        indices := indices[u := indices[u] - 1];
      }
      todo := todo - {u};
    }
  }

  /** The loop of `addVertex` that appends a false column to every row. */
  method WidenRows(m: seq<seq<bool>>) returns (rows: seq<seq<bool>>)
    ensures |rows| == |m| && forall x :: 0 <= x < |m| ==> rows[x] == m[x] + [false]
    ensures rows + [seq(|m| + 1, _ => false)] == Grown(m)
  {
    rows := m;
    var i := 0;
    while i < |rows|
      invariant 0 <= i <= |rows| == |m|
      invariant forall x :: 0 <= x < i ==> rows[x] == m[x] + [false]
      invariant forall x :: i <= x < |rows| ==> rows[x] == m[x]
    {
      rows := rows[i := rows[i] + [false]];
      i := i + 1;
    }
  }

  class AdjacencyMatrixGraph {
    var vertices: seq<Vertex>
    var edges: seq<Edge>
    var adjacencyMatrix: seq<seq<bool>>
    var vertexToIndex: map<Vertex, nat>
    var indexToVertex: map<nat, Vertex>

    ghost predicate Valid()
      reads this
    {
      Consistent(vertices, vertexToIndex, indexToVertex, adjacencyMatrix, edges)
    }

    constructor ()
      ensures Valid() && vertices == [] && edges == [] && adjacencyMatrix == []
      ensures vertexToIndex == map[] && indexToVertex == map[]
    {
      vertices := [];
      edges := [];
      adjacencyMatrix := [];
      vertexToIndex := map[];
      indexToVertex := map[];
    }

    /** `hasVertex`: the vertex has an index. */
    predicate HasVertex(v: Vertex)
      reads this
    {
      v in vertexToIndex
    }

    /** `hasEdge`. */
    predicate HasEdge(source: Vertex, target: Vertex)
      reads this
    {
      MatrixHas(vertexToIndex, adjacencyMatrix, source, target)
    }

    /** `getVertexIndex`: the index, or `out_of_range` for an unknown vertex. */
    function GetVertexIndex(v: Vertex): (r: Result<nat>)
      reads this
      ensures r.Ok? <==> HasVertex(v)
      ensures r.Ok? ==> r.value == vertexToIndex[v]
    {
      if v in vertexToIndex then Ok(vertexToIndex[v]) else Err("Vertex not found")
    }

    /** `addVertex`: a new vertex gets index n, a false column on every row and an all-false row. */
    method AddVertex(v: Vertex)
      requires Valid()
      modifies this
      ensures Valid() && HasVertex(v) && edges == old(edges)
      ensures forall a, b :: HasEdge(a, b) <==> old(HasEdge(a, b))
      ensures old(HasVertex(v)) ==>
                (vertices == old(vertices) && adjacencyMatrix == old(adjacencyMatrix) &&
                 vertexToIndex == old(vertexToIndex) && indexToVertex == old(indexToVertex))
      ensures !old(HasVertex(v)) ==>
                (vertices == old(vertices) + [v] && adjacencyMatrix == Grown(old(adjacencyMatrix)) &&
                 vertexToIndex == old(vertexToIndex)[v := |old(vertices)|] &&
                 indexToVertex == old(indexToVertex)[|old(vertices)| := v])
    {
      if HasVertex(v) {
        return;
      }
      ghost var vs, vti, itv, m := vertices, vertexToIndex, indexToVertex, adjacencyMatrix;
      vertices := vertices + [v];
      var newIndex := |adjacencyMatrix|;
      vertexToIndex := vertexToIndex[v := newIndex];
      indexToVertex := indexToVertex[newIndex := v];
      var rows := WidenRows(adjacencyMatrix);
      adjacencyMatrix := rows + [seq(newIndex + 1, _ => false)];
      AddVertexKeepsMatrix(vs, vti, itv, m, edges, v, vertices, vertexToIndex, indexToVertex, adjacencyMatrix);
    }

    /**
     * `removeVertex` on a present vertex: erase it from the vector, its row and its column from
     * the matrix, its index from the forward map and close up the indices above it. The map back
     * is rebuilt from the new vector and the edges touching it are dropped (the source does
     * neither; see module AdjacencyMatrixAsWritten).
     */
    method RemoveVertex(v: Vertex)
      requires Valid()
      modifies this
      ensures Valid() && !HasVertex(v)
      ensures forall a, b :: HasEdge(a, b) <==> old(HasEdge(a, b)) && a != v && b != v
      ensures !old(HasVertex(v)) ==>
                (vertices == old(vertices) && adjacencyMatrix == old(adjacencyMatrix) &&
                 vertexToIndex == old(vertexToIndex) && indexToVertex == old(indexToVertex) && edges == old(edges))
      ensures old(HasVertex(v)) ==> var k := old(vertexToIndex)[v];
                                   k < |old(vertices)| &&
                                   vertices == WithoutVertex(old(vertices), v) &&
                                   adjacencyMatrix == Shrunk(old(adjacencyMatrix), k) &&
                                   vertexToIndex == Renumbered(old(vertexToIndex) - {v}, k) &&
                                   edges == WithoutIncident(old(edges), v)
    {
      if !HasVertex(v) {
        return;
      }
      var index := vertexToIndex[v];
      RemoveVertexKeepsMatrix(vertices, vertexToIndex, indexToVertex, adjacencyMatrix, edges, v);
      WithoutVertexAt(vertices, index);
      vertices := WithoutVertex(vertices, v);

      adjacencyMatrix := EraseRowAndColumn(adjacencyMatrix, index);
      vertexToIndex := CloseUp(vertexToIndex - {v}, index);
      indexToVertex := map x | 0 <= x < |vertices| :: vertices[x];
      edges := WithoutIncident(edges, v);
    }

    /** `addEdge`: between present vertices and only when the entry is clear: append the edge and set the entry. */
    method AddEdge(source: Vertex, target: Vertex)
      requires Valid()
      modifies this`edges, this`adjacencyMatrix
      ensures Valid() && (HasVertex(source) && HasVertex(target) ==> HasEdge(source, target))
      ensures forall a, b :: HasEdge(a, b) <==> old(HasEdge(a, b)) || (a == source && b == target && HasVertex(source) && HasVertex(target))
      ensures old(HasVertex(source) && HasVertex(target) && !HasEdge(source, target)) ==>
                edges == old(edges) + [NewPlainEdge(source, target)] &&
                adjacencyMatrix == SetEntry(old(adjacencyMatrix), vertexToIndex[source], vertexToIndex[target], true)
      ensures !old(HasVertex(source) && HasVertex(target) && !HasEdge(source, target)) ==>
                edges == old(edges) && adjacencyMatrix == old(adjacencyMatrix)
    {
      if HasVertex(source) && HasVertex(target) && !HasEdge(source, target) {
        AddEdgeKeepsMatrix(vertices, vertexToIndex, indexToVertex, adjacencyMatrix, edges, source, target);
        edges := edges + [NewPlainEdge(source, target)];
        var si, ti := vertexToIndex[source], vertexToIndex[target];
        adjacencyMatrix := adjacencyMatrix[si := adjacencyMatrix[si][ti := true]];
      }
    }

    /** `removeEdge`: when the edge is present, delete the matching edges and clear the entry. */
    method RemoveEdge(source: Vertex, target: Vertex)
      requires Valid()
      modifies this`edges, this`adjacencyMatrix
      ensures Valid() && !HasEdge(source, target)
      ensures forall a, b :: HasEdge(a, b) <==> old(HasEdge(a, b)) && !(a == source && b == target)
      ensures old(HasEdge(source, target)) ==>
                edges == WithoutEdge(old(edges), source, target) &&
                adjacencyMatrix == SetEntry(old(adjacencyMatrix), vertexToIndex[source], vertexToIndex[target], false)
      ensures !old(HasEdge(source, target)) ==> edges == old(edges) && adjacencyMatrix == old(adjacencyMatrix)
    {
      if HasEdge(source, target) {
        RemoveEdgeKeepsMatrix(vertices, vertexToIndex, indexToVertex, adjacencyMatrix, edges, source, target);
        edges := WithoutEdge(edges, source, target);
        var si, ti := vertexToIndex[source], vertexToIndex[target];
        adjacencyMatrix := adjacencyMatrix[si := adjacencyMatrix[si][ti := false]];
      }
    }

    /** `getNeighborsIterator`: the names of the set entries of the row of `v`; empty for an absent `v`. */
    method GetNeighbors(v: Vertex) returns (neighbors: seq<Vertex>)
      requires Valid()
      ensures HasVertex(v) ==> vertexToIndex[v] < |adjacencyMatrix| && neighbors == Named(indexToVertex, adjacencyMatrix[vertexToIndex[v]])
      ensures !HasVertex(v) ==> neighbors == []
      ensures forall w :: w in neighbors <==> HasEdge(v, w)
    {
      neighbors := [];
      if HasVertex(v) {
        IndexOf(vertices, vertexToIndex, indexToVertex, v);
        var row := adjacencyMatrix[vertexToIndex[v]];
        var i := 0;
        while i < |row|
          invariant 0 <= i <= |row| == |vertices|
          invariant neighbors == Named(indexToVertex, row[..i])
        {
          assert row[..i + 1][..i] == row[..i];
          assert i in indexToVertex;
          if row[i] {
            neighbors := neighbors + [indexToVertex[i]];
          }
          i := i + 1;
        }
        assert row[..i] == row;
        forall w ensures w in neighbors <==> HasEdge(v, w) {
          NamedRowIsTargets(vertices, vertexToIndex, indexToVertex, adjacencyMatrix, edges, v, w);
          MatrixHasEdge(vertices, vertexToIndex, indexToVertex, adjacencyMatrix, edges, v, w);
        }
      }
    }

    /** `getFilteredNeighborsIterator`: the neighbours of `v` that pass `keep`, in index order. */
    method GetFilteredNeighbors(v: Vertex, keep: Vertex -> bool) returns (neighbors: seq<Vertex>)
      requires Valid()
      ensures HasVertex(v) ==> vertexToIndex[v] < |adjacencyMatrix| &&
                               neighbors == Filter(Named(indexToVertex, adjacencyMatrix[vertexToIndex[v]]), keep)
      ensures !HasVertex(v) ==> neighbors == []
      ensures forall w :: w in neighbors <==> HasEdge(v, w) && keep(w)
    {
      neighbors := [];
      if HasVertex(v) {
        IndexOf(vertices, vertexToIndex, indexToVertex, v);
        var row := adjacencyMatrix[vertexToIndex[v]];
        var i := 0;
        while i < |row|
          invariant 0 <= i <= |row| == |vertices|
          invariant neighbors == Filter(Named(indexToVertex, row[..i]), keep)
        {
          assert row[..i + 1][..i] == row[..i];
          assert i in indexToVertex;
          ghost var before := Named(indexToVertex, row[..i]);
          if row[i] {
            assert Named(indexToVertex, row[..i + 1]) == before + [indexToVertex[i]];
            FilterAppend(before, indexToVertex[i], keep);
            if keep(indexToVertex[i]) {
              neighbors := neighbors + [indexToVertex[i]];
            }
          } else {
            assert Named(indexToVertex, row[..i + 1]) == before + [] == before;
          }
          i := i + 1;
        }
        assert row[..i] == row;
        forall w ensures w in neighbors <==> HasEdge(v, w) && keep(w) {
          FilterMembers(Named(indexToVertex, row), keep, w);
          NamedRowIsTargets(vertices, vertexToIndex, indexToVertex, adjacencyMatrix, edges, v, w);
          MatrixHasEdge(vertices, vertexToIndex, indexToVertex, adjacencyMatrix, edges, v, w);
        }
      }
    }

    /**
     * `getAdjacencyVertices`: row `id - 1` read unchecked, each set entry `i` reported as vertex
     * `i + 1`. The caller must pass an id in 1..n; the read is out of range otherwise.
     */
    method GetAdjacencyVertices(v: Vertex) returns (neighbors: seq<Vertex>)
      requires 1 <= v.id <= |adjacencyMatrix|
      ensures neighbors == ByPosition(adjacencyMatrix[v.id - 1])
    {
      var row := adjacencyMatrix[v.id - 1];
      neighbors := [];
      var i := 0;
      while i < |row|
        invariant 0 <= i <= |row|
        invariant neighbors == ByPosition(row[..i])
      {
        assert row[..i + 1][..i] == row[..i];
        if row[i] {
          neighbors := neighbors + [Vertex(i + 1)];
        }
        i := i + 1;
      }
      assert row[..i] == row;
    }
  }

  /**
   * When the vertices are 1..n in insertion order, `getAdjacencyVertices` reads the row of `v`
   * and reports the same neighbours as the neighbour loop.
   */
  lemma {:induction false} ByPositionIsNamed(vs: seq<Vertex>, vti: map<Vertex, nat>, itv: map<nat, Vertex>, m: seq<seq<bool>>, es: seq<Edge>, v: Vertex)
    requires Consistent(vs, vti, itv, m, es) && v in vti
    requires forall k :: 0 <= k < |vs| ==> vs[k] == Vertex(k + 1)
    ensures 1 <= v.id <= |m| && vti[v] == v.id - 1
    ensures ByPosition(m[v.id - 1]) == Named(itv, m[vti[v]])
  {
    IndexOf(vs, vti, itv, v);
    var row := m[vti[v]];
    forall i | 0 <= i < |row| ensures NameOf(itv, i) == Vertex(i + 1) {
      assert itv[i] == vs[i];
    }
    NamedByPosition(itv, row);
  }
}
