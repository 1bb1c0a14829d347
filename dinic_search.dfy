// The facts behind findBlockingFlow in Dinic's algorithm (include/algorithms/flowNetwork/Dinic.h:105-121):
// what one descent, one round at a vertex's pointer and the whole loop at a vertex leave behind,
// and the steps that carry each of these from one call to the next.

module DinicSearch {
  import opened GraphTypes
  import opened FlowNetworks
  import opened FlowTheory
  import opened DinicLevels

  /** An entry whose target does not reach the sink is spent. */
  lemma EntrySpent(es: seq<FlowEdge>, ls: map<Vertex, seq<nat>>, level: map<Vertex, nat>, sink: Vertex, u: Vertex, j: nat)
    requires j < |ListOf(ls, u)| && ListOf(ls, u)[j] < |es|
    requires !Reaches(es, ls, level, es[ListOf(ls, u)[j]].target, sink)
    ensures Spent(es, ls, level, sink, u, j)
  {
  }

  lemma ListEntry(es: seq<FlowEdge>, ls: map<Vertex, seq<nat>>, u: Vertex, k: nat)
    requires Wf(es, ls) && k < |ListOf(ls, u)|
    ensures ListOf(ls, u)[k] < |es| && Home(es, ListOf(ls, u)[k]) == u
  {
    WfFacts(es, ls);
  }

  /** The descent along an admissible edge searches from a listed vertex one level up, with a positive cap. */
  lemma DescentStart(es: seq<FlowEdge>, ls: map<Vertex, seq<nat>>, level: map<Vertex, nat>, i: nat, c: int)
    requires Wf(es, ls) && Admissible(es, level, i) && c > 0
    ensures es[i].target in ls && Min(c, es[i].capacity - es[i].flow) > 0
  {
    TargetListed(es, ls, i);
  }

  lemma TargetListed(es: seq<FlowEdge>, ls: map<Vertex, seq<nat>>, i: nat)
    requires Wf(es, ls) && i < |es|
    ensures es[i].target in ls
  {
    PartnerFacts(es, i);
    assert Home(es, Partner(i)) == es[i].target;
  }

  /** Giving a vertex without a list an empty one changes no `ListOf`. */
  lemma TouchedLists(ls: map<Vertex, seq<nat>>, u: Vertex)
    ensures var t := if u in ls then ls else ls[u := []];
      forall x :: ListOf(ls, x) == ListOf(t, x)
  {
  }

  /** `getAdjacentMut(u)` adds an empty list for a `u` no edge leaves, which keeps the lists well formed. */
  lemma TouchedWf(es: seq<FlowEdge>, ls: map<Vertex, seq<nat>>, u: Vertex)
    requires Wf(es, ls)
    ensures Wf(es, if u in ls then ls else ls[u := []])
  {
    if u !in ls {
      forall i | 0 <= i < |es| ensures Home(es, i) != u {
      }
      OwnedNone(es, u, |es|);
    }
  }

  /**
   * What a descent from `u` with cap `c` leaves: at most `c`; 0 with the edges unchanged, or
   * a positive amount that is the capped bottleneck of the level path `path` from `u` to the
   * sink, pushed along it.
   */
  ghost predicate Outcome(es0: seq<FlowEdge>, es: seq<FlowEdge>, level: map<Vertex, nat>, sink: Vertex, u: Vertex,
                          c: int, flow: int, path: seq<nat>) {
    0 <= flow <= c && (flow == 0 ==> es == es0) && (flow > 0 ==> Pushed(es0, es, level, u, sink, c, flow, path))
  }

  /** The pointers are sound for the new edges and advanced from `ptr0`, none below level `floor`. */
  ghost predicate PtrMoved(es: seq<FlowEdge>, ls: map<Vertex, seq<nat>>, level: map<Vertex, nat>, sink: Vertex,
                           ptr0: map<Vertex, nat>, ptr: map<Vertex, nat>, floor: nat) {
    PtrSound(es, ls, level, sink, ptr) && PtrAdvance(ptr0, ptr, level, floor)
  }

  /**
   * What findBlockingFlow and its loop leave at `u`: the outcome; on 0, `u` does not reach the
   * sink; the pointers sound and advanced, none below `u`'s level; and on a positive amount
   * away from the sink, `u`'s pointer on the edge that carried it.
   */
  ghost predicate Found(es0: seq<FlowEdge>, es: seq<FlowEdge>, ls: map<Vertex, seq<nat>>, level: map<Vertex, nat>,
                        sink: Vertex, u: Vertex, c: int, flow: int, path: seq<nat>,
                        ptr0: map<Vertex, nat>, ptr: map<Vertex, nat>) {
    Outcome(es0, es, level, sink, u, c, flow, path) &&
    (flow == 0 ==> !Reaches(es, ls, level, u, sink)) &&
    PtrMoved(es, ls, level, sink, ptr0, ptr, Lvl(level, u)) &&
    (flow > 0 && u != sink ==>
       u in ptr && ptr[u] < |ListOf(ls, u)| && |path| > 0 && ListOf(ls, u)[ptr[u]] == path[0])
  }

  /**
   * What one round at `u`'s pointer leaves: the outcome, the pointers sound and advanced, and
   * `u`'s pointer one entry further on 0, or still on the edge that carried a positive amount.
   */
  ghost predicate Entry(es0: seq<FlowEdge>, es: seq<FlowEdge>, ls: map<Vertex, seq<nat>>, level: map<Vertex, nat>,
                        sink: Vertex, u: Vertex, c: int, flow: int, path: seq<nat>,
                        ptr0: map<Vertex, nat>, ptr: map<Vertex, nat>) {
    Outcome(es0, es, level, sink, u, c, flow, path) &&
    PtrMoved(es, ls, level, sink, ptr0, ptr, Lvl(level, u)) && u in ptr0 && u in ptr &&
    (flow == 0 ==> ptr[u] == ptr0[u] + 1) &&
    (flow > 0 ==> ptr[u] == ptr0[u] && ptr[u] < |ListOf(ls, u)| && |path| > 0 && ListOf(ls, u)[ptr[u]] == path[0])
  }

  /** At the sink, findBlockingFlow returns its cap along the empty path. */
  lemma AtSink(es: seq<FlowEdge>, ls: map<Vertex, seq<nat>>, level: map<Vertex, nat>, sink: Vertex, c: int,
               ptr: map<Vertex, nat>)
    requires Wf(es, ls) && c > 0 && PtrSound(es, ls, level, sink, ptr)
    ensures Found(es, es, ls, level, sink, sink, c, c, [], ptr, ptr)
  {
  }

  /** A pointer set up for `u` before the loop does not change what the loop promises. */
  lemma FoundFrom(es0: seq<FlowEdge>, es: seq<FlowEdge>, ls: map<Vertex, seq<nat>>, level: map<Vertex, nat>,
                  sink: Vertex, u: Vertex, c: int, flow: int, path: seq<nat>,
                  ptr0: map<Vertex, nat>, ptr1: map<Vertex, nat>, ptr: map<Vertex, nat>)
    requires Found(es0, es, ls, level, sink, u, c, flow, path, ptr1, ptr) && PtrAdvance(ptr0, ptr1, level, Lvl(level, u))
    ensures Found(es0, es, ls, level, sink, u, c, flow, path, ptr0, ptr)
  {
    PtrAdvanceTrans(ptr0, ptr1, ptr, level, Lvl(level, u), Lvl(level, u), Lvl(level, u));
  }

  /** One round of the loop at `u`: on 0 the loop goes on from the next entry, otherwise it returns. */
  lemma Tried(es0: seq<FlowEdge>, es: seq<FlowEdge>, ls: map<Vertex, seq<nat>>, level: map<Vertex, nat>,
              sink: Vertex, u: Vertex, c: int, f: int, p: seq<nat>,
              ptr0: map<Vertex, nat>, before: map<Vertex, nat>, ptr: map<Vertex, nat>)
    requires u != sink && PtrMoved(es0, ls, level, sink, ptr0, before, Lvl(level, u))
    requires Entry(es0, es, ls, level, sink, u, c, f, p, before, ptr)
    ensures f == 0 ==> es == es0 && PtrMoved(es0, ls, level, sink, ptr0, ptr, Lvl(level, u)) &&
                       u in ptr && ptr[u] == before[u] + 1
    ensures f > 0 ==> Found(es0, es, ls, level, sink, u, c, f, p, ptr0, ptr)
  {
    PtrAdvanceTrans(ptr0, before, ptr, level, Lvl(level, u), Lvl(level, u), Lvl(level, u));
  }

  /** With every entry of `u`'s list spent, the loop returns 0. */
  lemma NotFound(es: seq<FlowEdge>, ls: map<Vertex, seq<nat>>, level: map<Vertex, nat>, sink: Vertex, u: Vertex,
                 c: int, ptr0: map<Vertex, nat>, ptr: map<Vertex, nat>)
    requires u != sink && c >= 0 && PtrMoved(es, ls, level, sink, ptr0, ptr, Lvl(level, u))
    requires u in ptr && ptr[u] == |ListOf(ls, u)|
    ensures Found(es, es, ls, level, sink, u, c, 0, [], ptr0, ptr)
  {
    Exhausted(es, ls, level, sink, ptr, u);
  }

  /** Moving `u`'s pointer past a spent entry ends the round with 0. */
  lemma Skipped(es: seq<FlowEdge>, ls: map<Vertex, seq<nat>>, level: map<Vertex, nat>, sink: Vertex, u: Vertex,
                c: int, ptr0: map<Vertex, nat>, before: map<Vertex, nat>, floor: nat)
    requires c >= 0 && Lvl(level, u) <= floor
    requires PtrSound(es, ls, level, sink, before) && PtrAdvance(ptr0, before, level, floor)
    requires u in ptr0 && u in before && before[u] == ptr0[u] && before[u] < |ListOf(ls, u)|
    requires Spent(es, ls, level, sink, u, before[u])
    ensures Entry(es, es, ls, level, sink, u, c, 0, [], ptr0, before[u := before[u] + 1])
  {
    PtrSoundStep(es, ls, level, sink, before, u);
    PtrAdvanceSet(before, level, u, before[u] + 1);
    PtrAdvanceTrans(ptr0, before, before[u := before[u] + 1], level, floor, Lvl(level, u), Lvl(level, u));
  }

  /** An entry at `u`'s pointer that is not admissible is passed over with 0. */
  lemma Passed(es: seq<FlowEdge>, ls: map<Vertex, seq<nat>>, level: map<Vertex, nat>, sink: Vertex, u: Vertex,
               i: nat, c: int, ptr: map<Vertex, nat>)
    requires c > 0 && PtrSound(es, ls, level, sink, ptr)
    requires i < |es| && u in ptr && ptr[u] < |ListOf(ls, u)| && ListOf(ls, u)[ptr[u]] == i
    requires !(Lvl(level, es[i].target) == Lvl(level, u) + 1 && es[i].flow < es[i].capacity)
    ensures Entry(es, es, ls, level, sink, u, c, 0, [], ptr, ptr[u := ptr[u] + 1])
  {
    assert Spent(es, ls, level, sink, u, ptr[u]);
    Skipped(es, ls, level, sink, u, c, ptr, ptr, Lvl(level, u));
  }

  /** A descent that carries nothing spends the entry, and the pointer moves past it. */
  lemma Declined(es0: seq<FlowEdge>, es: seq<FlowEdge>, ls: map<Vertex, seq<nat>>, level: map<Vertex, nat>,
                 sink: Vertex, u: Vertex, i: nat, c: int, p: seq<nat>, ptr0: map<Vertex, nat>, ptr: map<Vertex, nat>,
                 t: Vertex, m: int)
    requires c > 0 && i < |es0| && Admissible(es0, level, i) && Home(es0, i) == u
    requires u in ptr0 && ptr0[u] < |ListOf(ls, u)| && ListOf(ls, u)[ptr0[u]] == i
    requires t == es0[i].target && m == Min(c, es0[i].capacity - es0[i].flow)
    requires Found(es0, es, ls, level, sink, t, m, 0, p, ptr0, ptr)
    ensures es == es0 && u in ptr && Entry(es0, es0, ls, level, sink, u, c, 0, p, ptr0, ptr[u := ptr[u] + 1])
  {
    assert Lvl(level, t) == Lvl(level, u) + 1;
    EntrySpent(es0, ls, level, sink, u, ptr[u]);
    Skipped(es0, ls, level, sink, u, c, ptr0, ptr, Lvl(level, u) + 1);
  }

  /** A positive amount from the descent along entry `i`, pushed onto `i`, ends the round with the pointer on `i`. */
  lemma Carried(es0: seq<FlowEdge>, es1: seq<FlowEdge>, es2: seq<FlowEdge>, ls: map<Vertex, seq<nat>>,
                level: map<Vertex, nat>, sink: Vertex, u: Vertex, i: nat, c: int, f: int, p: seq<nat>,
                ptr0: map<Vertex, nat>, ptr: map<Vertex, nat>, t: Vertex, m: int)
    requires c > 0 && f > 0 && i < |es0| && Admissible(es0, level, i) && Home(es0, i) == u
    requires u in ptr0 && ptr0[u] < |ListOf(ls, u)| && ListOf(ls, u)[ptr0[u]] == i
    requires t == es0[i].target && m == Min(c, es0[i].capacity - es0[i].flow)
    requires Found(es0, es1, ls, level, sink, t, m, f, p, ptr0, ptr)
    requires Pushed(es0, es2, level, u, sink, c, f, [i] + p) && PtrSound(es2, ls, level, sink, ptr)
    ensures Entry(es0, es2, ls, level, sink, u, c, f, [i] + p, ptr0, ptr)
  {
    assert Lvl(level, t) == Lvl(level, u) + 1;
  }
}
