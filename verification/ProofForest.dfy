/** The undirected graph of proof edges, the breadth-first tree that an explanation walks back,
    and why the walk only ever needs older edges. */
module ProofForest {
  import opened Lits
  import opened CongruenceModel

  type Adjacency = map<nat, seq<(nat, Option<Lit>)>>

  // ---------- adjacency lists ----------

  /** What the edges put on the list of `t`, oldest first. */
  ghost function AdjList(edges: seq<ProofEdge>, t: nat): seq<(nat, Option<Lit>)>
    decreases |edges|
  {
    if edges == [] then []
    else
      var e := edges[|edges| - 1];
      var before := AdjList(edges[..|edges| - 1], t);
      if e.a == t then before + [(e.b, e.reason)]
      else if e.b == t then before + [(e.a, e.reason)]
      else before
  }

  ghost predicate Mirrors(adj: Adjacency, edges: seq<ProofEdge>) {
    forall t: nat :: Get(adj, t) == AdjList(edges, t)
  }

  ghost predicate Joins(edges: seq<ProofEdge>, i: nat, x: nat, y: nat) {
    i < |edges| && ((edges[i].a == x && edges[i].b == y) || (edges[i].a == y && edges[i].b == x))
  }

  lemma AdjAppend(edges: seq<ProofEdge>, e: ProofEdge, t: nat)
    ensures AdjList(edges + [e], t) ==
            if e.a == t then AdjList(edges, t) + [(e.b, e.reason)]
            else if e.b == t then AdjList(edges, t) + [(e.a, e.reason)]
            else AdjList(edges, t)
  {
    assert (edges + [e])[..|edges|] == edges;
  }

  lemma {:induction false} AdjIsEdge(edges: seq<ProofEdge>, t: nat, p: (nat, Option<Lit>)) returns (i: nat)
    requires p in AdjList(edges, t)
    ensures Joins(edges, i, t, p.0) && edges[i].reason == p.1
    decreases |edges|
  {
    var n := |edges| - 1;
    if p in AdjList(edges[..n], t) {
      i := AdjIsEdge(edges[..n], t, p);
    } else {
      i := n;
    }
  }

  lemma {:induction false} EdgeIsAdj(edges: seq<ProofEdge>, i: nat)
    requires i < |edges|
    ensures edges[i].a != edges[i].b ==> (edges[i].a, edges[i].reason) in AdjList(edges, edges[i].b)
    ensures (edges[i].b, edges[i].reason) in AdjList(edges, edges[i].a)
    decreases |edges|
  {
    var n := |edges| - 1;
    if i < n { EdgeIsAdj(edges[..n], i); }
  }

  // ---------- reachability is equality of representatives ----------

  /** A set closed under the edges contains whole classes. */
  lemma {:induction false} ClosedSetHoldsClass(ts: Arena, reg: set<nat>, links: seq<Link>, edges: seq<ProofEdge>, eqs: set<Equation>,
                                               s: set<nat>, x: nat, y: nat, k: nat)
    requires Registered(ts, reg) && LinksOk(links, reg) && EdgesOk(ts, reg, links, edges, eqs) && k <= |links|
    requires forall i :: 0 <= i < |edges| ==> (edges[i].a in s <==> edges[i].b in s)
    requires Root(links[..k], x) == Root(links[..k], y) && x in s
    ensures y in s
    decreases k
  {
    if k > 0 {
      var before := links[..k - 1];
      assert links[..k][..k - 1] == before;
      assert EdgeOk(ts, reg, links, edges[k - 1], k - 1, eqs);
      var a, b := edges[k - 1].a, edges[k - 1].b;
      if Root(before, x) == Root(before, y) {
        ClosedSetHoldsClass(ts, reg, links, edges, eqs, s, x, y, k - 1);
      } else {
        PairMembers(Root(before, a), Root(before, b), links[k - 1].child, links[k - 1].parent);
        if Root(before, x) == Root(before, a) {
          ClosedSetHoldsClass(ts, reg, links, edges, eqs, s, x, a, k - 1);
          ClosedSetHoldsClass(ts, reg, links, edges, eqs, s, b, y, k - 1);
        } else {
          ClosedSetHoldsClass(ts, reg, links, edges, eqs, s, x, b, k - 1);
          ClosedSetHoldsClass(ts, reg, links, edges, eqs, s, a, y, k - 1);
        }
      }
    }
  }

  lemma PairMembers(x: nat, y: nat, c: nat, p: nat)
    requires {x, y} == {c, p}
    ensures (x == c && y == p) || (x == p && y == c)
  {
    assert x in {c, p} && y in {c, p} && c in {x, y} && p in {x, y};
  }

  /** The two ends of edge `i` are equal after link `i` and differ before it. */
  lemma EdgeEnds(ts: Arena, reg: set<nat>, links: seq<Link>, edges: seq<ProofEdge>, eqs: set<Equation>, i: nat, x: nat, y: nat)
    requires Registered(ts, reg) && LinksOk(links, reg) && EdgesOk(ts, reg, links, edges, eqs)
    requires Joins(edges, i, x, y)
    ensures Root(links[..i], x) != Root(links[..i], y)
    ensures Root(links[..i + 1], x) == Root(links[..i + 1], y)
    ensures x in reg && y in reg && x != y
  {
    assert EdgeOk(ts, reg, links, edges[i], i, eqs);
    PairMembers(Root(links[..i], edges[i].a), Root(links[..i], edges[i].b), links[i].child, links[i].parent);
    assert links[..i + 1][..i] == links[..i];
  }

  // ---------- the search tree ----------

  /** Terms in the order they were reached, the position each was reached from, and the edge. */
  datatype Tree = Tree(order: seq<nat>, prev: seq<nat>, via: seq<nat>)

  /** Position `j` was reached over edge `via[j]` from the earlier position `prev[j]`. */
  ghost predicate StepOk(edges: seq<ProofEdge>, t: Tree, j: nat) {
    j < |t.order| == |t.prev| == |t.via| && t.prev[j] < j && Joins(edges, t.via[j], t.order[t.prev[j]], t.order[j])
  }

  ghost predicate AllDistinct(s: seq<nat>) {
    forall i, j :: 0 <= i < j < |s| ==> s[i] != s[j]
  }

  ghost predicate TreeOk(edges: seq<ProofEdge>, t: Tree) {
    && |t.order| == |t.prev| == |t.via| && |t.order| > 0
    && AllDistinct(t.order)
    && forall j :: 0 < j < |t.order| ==> StepOk(edges, t, j)
  }

  /** The youngest edge on the way back from position `j`; -1 at the start. */
  ghost function Youngest(edges: seq<ProofEdge>, t: Tree, j: nat): (m: int)
    requires TreeOk(edges, t) && j < |t.order|
    ensures -1 <= m < |edges|
  {
    if j == 0 then -1
    else
      assert StepOk(edges, t, j);
      var m := Youngest(edges, t, t.prev[j]);
      if m < t.via[j] then t.via[j] else m
  }

  /** No edge leads to two positions of the tree. */
  lemma ViaInjective(edges: seq<ProofEdge>, t: Tree, i: nat, j: nat)
    requires TreeOk(edges, t) && 0 < i < j < |t.order|
    ensures t.via[i] != t.via[j]
  {
    assert StepOk(edges, t, i) && StepOk(edges, t, j);
    assert t.order[i] != t.order[j] && t.prev[i] < j;
    assert t.order[t.prev[i]] != t.order[j];
  }

  lemma {:induction false} YoungestIsVia(edges: seq<ProofEdge>, t: Tree, j: nat) returns (i: nat)
    requires TreeOk(edges, t) && 0 < j < |t.order|
    ensures 0 < i <= j && Youngest(edges, t, j) == t.via[i]
    decreases j
  {
    var p := t.prev[j];
    assert StepOk(edges, t, j);
    if p == 0 || Youngest(edges, t, p) < t.via[j] {
      i := j;
    } else {
      i := YoungestIsVia(edges, t, p);
    }
  }

  /** A walk whose edges are all older than `m` stays in one class of time `m`. */
  lemma {:induction false} WalkJoined(ts: Arena, reg: set<nat>, links: seq<Link>, edges: seq<ProofEdge>, eqs: set<Equation>,
                                      t: Tree, j: nat, m: nat)
    requires Registered(ts, reg) && LinksOk(links, reg) && EdgesOk(ts, reg, links, edges, eqs)
    requires TreeOk(edges, t) && j < |t.order| && Youngest(edges, t, j) < m <= |links|
    ensures Root(links[..m], t.order[0]) == Root(links[..m], t.order[j])
    decreases j
  {
    if j > 0 {
      var p := t.prev[j];
      assert StepOk(edges, t, j);
      WalkJoined(ts, reg, links, edges, eqs, t, p, m);
      EdgeEnds(ts, reg, links, edges, eqs, t.via[j], t.order[p], t.order[j]);
      JoinedStays(links, t.order[p], t.order[j], t.via[j] + 1, m);
    }
  }

  /** The graph is a forest: before the youngest edge of the walk its ends were not equal. */
  lemma {:induction false} WalkNeedsYoungest(ts: Arena, reg: set<nat>, links: seq<Link>, edges: seq<ProofEdge>, eqs: set<Equation>,
                                             t: Tree, j: nat)
    requires Registered(ts, reg) && LinksOk(links, reg) && EdgesOk(ts, reg, links, edges, eqs)
    requires TreeOk(edges, t) && 0 < j < |t.order|
    ensures Youngest(edges, t, j) >= 0
    ensures Root(links[..Youngest(edges, t, j)], t.order[0]) != Root(links[..Youngest(edges, t, j)], t.order[j])
    decreases j
  {
    var p, v := t.prev[j], t.via[j];
    assert StepOk(edges, t, j);
    EdgeEnds(ts, reg, links, edges, eqs, v, t.order[p], t.order[j]);
    if p == 0 {
    } else {
      var i := YoungestIsVia(edges, t, p);
      ViaInjective(edges, t, i, j);
      if Youngest(edges, t, p) < v {
        WalkJoined(ts, reg, links, edges, eqs, t, p, v);
      } else {
        WalkNeedsYoungest(ts, reg, links, edges, eqs, t, p);
        JoinedStays(links, t.order[p], t.order[j], v + 1, Youngest(edges, t, p));
      }
    }
  }

  /** Hence terms equal at time `k` are walked to over edges older than `k`. */
  lemma WalkIsOlder(ts: Arena, reg: set<nat>, links: seq<Link>, edges: seq<ProofEdge>, eqs: set<Equation>, t: Tree, j: nat, k: nat)
    requires Registered(ts, reg) && LinksOk(links, reg) && EdgesOk(ts, reg, links, edges, eqs)
    requires TreeOk(edges, t) && j < |t.order| && k <= |links|
    requires Root(links[..k], t.order[0]) == Root(links[..k], t.order[j])
    ensures Youngest(edges, t, j) < k
  {
    if j > 0 {
      WalkNeedsYoungest(ts, reg, links, edges, eqs, t, j);
      var m := Youngest(edges, t, j);
      if k <= m { JoinedStays(links, t.order[0], t.order[j], k, m); }
    }
  }

  // ---------- what a list of literals explains ----------

  /** The equations whose negated literals are in the list. */
  ghost function Used(eqs: set<Equation>, c: seq<Lit>): set<Equation> {
    set e | e in eqs && e.lit.Not() in c
  }

  ghost predicate Explained(ts: Arena, reg: set<nat>, eqs: set<Equation>, c: seq<Lit>, t: nat, u: nat)
    requires Registered(ts, reg)
  {
    Entailed(ts, reg, Used(eqs, c), t, u)
  }

  lemma ExplainedMore(ts: Arena, reg: set<nat>, eqs: set<Equation>, c: seq<Lit>, d: seq<Lit>, t: nat, u: nat)
    requires Registered(ts, reg) && Explained(ts, reg, eqs, c, t, u)
    requires forall l :: l in c ==> l in d
    ensures Explained(ts, reg, eqs, d, t, u)
  {
    forall r: Rel | Congruence(ts, reg, r) && Contains(r, Used(eqs, d)) ensures (t, u) in r {
      assert Contains(r, Used(eqs, c));
    }
  }

  lemma ExplainedEquivalence(ts: Arena, reg: set<nat>, eqs: set<Equation>, c: seq<Lit>, t: nat, u: nat, v: nat)
    requires Registered(ts, reg)
    ensures Explained(ts, reg, eqs, c, t, t)
    ensures Explained(ts, reg, eqs, c, t, u) <==> Explained(ts, reg, eqs, c, u, t)
    ensures Explained(ts, reg, eqs, c, t, u) && Explained(ts, reg, eqs, c, u, v) ==> Explained(ts, reg, eqs, c, t, v)
  {
    var s := Used(eqs, c);
    if Explained(ts, reg, eqs, c, t, u) {
      forall r: Rel | Congruence(ts, reg, r) && Contains(r, s) ensures (u, t) in r { assert (t, u) in r; }
    }
    if Explained(ts, reg, eqs, c, u, t) {
      forall r: Rel | Congruence(ts, reg, r) && Contains(r, s) ensures (t, u) in r { assert (u, t) in r; }
    }
    if Explained(ts, reg, eqs, c, t, u) && Explained(ts, reg, eqs, c, u, v) {
      forall r: Rel | Congruence(ts, reg, r) && Contains(r, s) ensures (t, v) in r { RelTrans(r, t, u, v); }
    }
  }

  /** Applications whose arguments are explained pairwise are explained. */
  lemma ExplainedCongruent(ts: Arena, reg: set<nat>, eqs: set<Equation>, c: seq<Lit>, t: nat, u: nat)
    requires Registered(ts, reg) && t in reg && u in reg && ts[t].Apply? && ts[u].Apply?
    requires ts[t].f == ts[u].f && |ts[t].args| == |ts[u].args|
    requires forall i :: 0 <= i < |ts[t].args| ==> Explained(ts, reg, eqs, c, ts[t].args[i], ts[u].args[i])
    ensures Explained(ts, reg, eqs, c, t, u)
  {
    forall r: Rel | Congruence(ts, reg, r) && Contains(r, Used(eqs, c)) ensures (t, u) in r {
      forall i | 0 <= i < |ts[t].args| ensures (ts[t].args[i], ts[u].args[i]) in r {
        assert Explained(ts, reg, eqs, c, ts[t].args[i], ts[u].args[i]);
      }
      assert SameUpTo(ts, t, u, r);
    }
  }

  /** Every pair seen is explained, or belongs to a walk over edges no older than `k`. */
  ghost predicate PairsOk(ts: Arena, reg: set<nat>, links: seq<Link>, eqs: set<Equation>, pairs: set<(nat, nat)>, c: seq<Lit>, k: nat)
    requires Registered(ts, reg) && k <= |links|
  {
    forall p :: p in pairs ==> Explained(ts, reg, eqs, c, p.0, p.1) || Root(links[..k], p.0) != Root(links[..k], p.1)
  }

  lemma PairsStay(ts: Arena, reg: set<nat>, links: seq<Link>, eqs: set<Equation>, pairs: set<(nat, nat)>, c: seq<Lit>, d: seq<Lit>,
                  k: nat, m: nat)
    requires Registered(ts, reg) && m <= k <= |links| && PairsOk(ts, reg, links, eqs, pairs, c, k)
    requires forall l :: l in c ==> l in d
    ensures PairsOk(ts, reg, links, eqs, pairs, d, m)
  {
    forall p | p in pairs ensures Explained(ts, reg, eqs, d, p.0, p.1) || Root(links[..m], p.0) != Root(links[..m], p.1) {
      if Root(links[..m], p.0) == Root(links[..m], p.1) {
        JoinedStays(links, p.0, p.1, m, k);
        ExplainedMore(ts, reg, eqs, c, d, p.0, p.1);
      }
    }
  }

  // ---------- breadth-first search ----------

  type Visited = map<nat, Option<(nat, Option<Lit>)>>

  ghost predicate StepRecorded(edges: seq<ProofEdge>, t: Tree, visited: Visited, j: nat)
    requires StepOk(edges, t, j)
  {
    t.order[j] in visited && visited[t.order[j]] == Some((t.order[t.prev[j]], edges[t.via[j]].reason))
  }

  /** What the `visited` table says of the tree: the start has no predecessor. */
  ghost predicate Recorded(edges: seq<ProofEdge>, t: Tree, visited: Visited)
    requires TreeOk(edges, t)
  {
    && (forall v :: v in visited <==> v in t.order)
    && visited[t.order[0]] == None
    && forall j :: 0 < j < |t.order| ==> StepRecorded(edges, t, visited, j)
  }

  /** All neighbours of the first `n` terms of the tree have been reached. */
  ghost predicate Expanded(edges: seq<ProofEdge>, order: seq<nat>, n: nat, visited: Visited) {
    n <= |order| && forall j, p :: 0 <= j < n && p in AdjList(edges, order[j]) ==> p.0 in visited
  }

  /** One more neighbour is reached. */
  lemma TreeGrows(edges: seq<ProofEdge>, t: Tree, visited: Visited, from: nat, next: nat, i: nat)
    requires TreeOk(edges, t) && Recorded(edges, t, visited)
    requires from < |t.order| && Joins(edges, i, t.order[from], next) && next !in visited
    ensures TreeOk(edges, Tree(t.order + [next], t.prev + [from], t.via + [i]))
    ensures Recorded(edges, Tree(t.order + [next], t.prev + [from], t.via + [i]),
                     visited[next := Some((t.order[from], edges[i].reason))])
  {
    var t' := Tree(t.order + [next], t.prev + [from], t.via + [i]);
    var visited' := visited[next := Some((t.order[from], edges[i].reason))];
    assert next !in t.order;
    forall j | 0 < j < |t'.order| ensures StepOk(edges, t', j) && StepRecorded(edges, t', visited', j) {
      if j < |t.order| {
        assert StepOk(edges, t, j) && StepRecorded(edges, t, visited, j);
        assert t.order[j] != next;
      }
    }
  }

  lemma TreeFacts(edges: seq<ProofEdge>, t: Tree, visited: Visited)
    requires TreeOk(edges, t) && Recorded(edges, t, visited)
    ensures |t.order| == |t.prev| == |t.via| > 0 && AllDistinct(t.order)
    ensures forall v :: v in visited <==> v in t.order
  {
  }

  lemma StartTree(edges: seq<ProofEdge>, start: nat)
    ensures TreeOk(edges, Tree([start], [0], [0])) && Recorded(edges, Tree([start], [0], [0]), map[start := None])
  {
  }

  /** The list of the term at position `head` has been gone through. */
  lemma ExpandedOne(edges: seq<ProofEdge>, order: seq<nat>, head: nat, visited: Visited, visited': Visited)
    requires head < |order| && Expanded(edges, order, head, visited) && visited.Keys <= visited'.Keys
    requires forall p :: p in AdjList(edges, order[head]) ==> p.0 in visited'
    ensures Expanded(edges, order, head + 1, visited')
  {
  }

  lemma ExpandedLonger(edges: seq<ProofEdge>, order: seq<nat>, order': seq<nat>, n: nat, visited: Visited)
    requires Expanded(edges, order, n, visited) && order <= order'
    ensures Expanded(edges, order', n, visited)
  {
  }

  /** Breadth-first search over the proof edges, stopping when the target is taken from the queue. */
  method Search(adj: Adjacency, start: nat, target: nat, ghost edges: seq<ProofEdge>, ghost reg: set<nat>)
    returns (visited: Visited, ghost t: Tree)
    requires Mirrors(adj, edges) && start in reg
    requires forall i :: 0 <= i < |edges| ==> edges[i].a in reg && edges[i].b in reg
    ensures TreeOk(edges, t) && Recorded(edges, t, visited) && t.order[0] == start
    ensures target in visited || Expanded(edges, t.order, |t.order|, visited)
  {
    hide *;
    visited := map[start := None];
    var queue := [start];
    t := Tree([start], [0], [0]);
    StartTree(edges, start);
    ghost var head := 0;
    assert Expanded(edges, t.order, head, visited) by { ExpandedNone(edges, t.order, visited); }
    TreeFacts(edges, t, visited);
    while |queue| > 0
      invariant TreeOk(edges, t) && Recorded(edges, t, visited) && |t.order| > 0 && t.order[0] == start
      invariant head <= |t.order| && queue == t.order[head..]
      invariant Expanded(edges, t.order, head, visited)
      invariant forall v :: v in t.order ==> v in reg
      decreases |reg| - head
    {
      var curr := queue[0];
      queue := queue[1..];
      TreeFacts(edges, t, visited);
      DistinctSize(t.order, reg);
      if curr == target { break; }
      var neighbours := Get(adj, curr);
      MirrorsAt(adj, edges, curr);
      queue, visited, t := Expand(queue, visited, curr, neighbours, t, edges, reg, head);
      head := head + 1;
    }
    TreeFacts(edges, t, visited);
  }

  lemma ExpandedNone(edges: seq<ProofEdge>, order: seq<nat>, visited: Visited)
    ensures Expanded(edges, order, 0, visited)
  {
  }

  lemma MirrorsAt(adj: Adjacency, edges: seq<ProofEdge>, t: nat)
    requires Mirrors(adj, edges)
    ensures Get(adj, t) == AdjList(edges, t)
  {
  }

  /** The loop over the neighbours of the term at position `head`. */
  method Expand(queue0: seq<nat>, visited0: Visited, curr: nat, neighbours: seq<(nat, Option<Lit>)>,
                ghost t0: Tree, ghost edges: seq<ProofEdge>, ghost reg: set<nat>, ghost head: nat)
    returns (queue: seq<nat>, visited: Visited, ghost t: Tree)
    requires TreeOk(edges, t0) && Recorded(edges, t0, visited0)
    requires head < |t0.order| && t0.order[head] == curr && queue0 == t0.order[head + 1..]
    requires Expanded(edges, t0.order, head, visited0) && neighbours == AdjList(edges, curr)
    requires forall v :: v in t0.order ==> v in reg
    requires forall i :: 0 <= i < |edges| ==> edges[i].a in reg && edges[i].b in reg
    ensures TreeOk(edges, t) && Recorded(edges, t, visited) && t0.order <= t.order
    ensures queue == t.order[head + 1..] && Expanded(edges, t.order, head + 1, visited)
    ensures forall v :: v in t.order ==> v in reg
  {
    hide *;
    queue, visited, t := queue0, visited0, t0;
    TreeFacts(edges, t, visited);
    var i := 0;
    while i < |neighbours|
      invariant i <= |neighbours| && visited0.Keys <= visited.Keys
      invariant TreeOk(edges, t) && Recorded(edges, t, visited) && t0.order <= t.order
      invariant queue == t.order[head + 1..] && forall v :: v in t.order ==> v in reg
      invariant forall k :: 0 <= k < i ==> neighbours[k].0 in visited
    {
      var (next, reason) := neighbours[i];
      if next !in visited {
        ghost var e := AdjIsEdge(edges, curr, neighbours[i]);
        JoinsFacts(edges, e, curr, next);
        TreeFacts(edges, t, visited);
        TreeGrows(edges, t, visited, head, next, e);
        visited := visited[next := Some((curr, reason))];
        queue := queue + [next];
        t := Tree(t.order + [next], t.prev + [head], t.via + [e]);
      }
      i := i + 1;
    }
    ExpandedLonger(edges, t0.order, t.order, head, visited0);
    ExpandedOne(edges, t.order, head, visited0, visited);
  }

  lemma JoinsFacts(edges: seq<ProofEdge>, i: nat, x: nat, y: nat)
    requires Joins(edges, i, x, y)
    ensures i < |edges| && y in {edges[i].a, edges[i].b}
  {
  }

  lemma {:induction false} DistinctSize(s: seq<nat>, u: set<nat>)
    requires AllDistinct(s) && forall v :: v in s ==> v in u
    ensures |s| <= |u|
    decreases |s|
  {
    if s != [] {
      var n := |s| - 1;
      forall v | v in s[..n] ensures v in u - {s[n]} {}
      DistinctSize(s[..n], u - {s[n]});
    }
  }

  /** A finished search that missed the target proves that start and target are not equal. */
  lemma SearchComplete(ts: Arena, reg: set<nat>, links: seq<Link>, edges: seq<ProofEdge>, eqs: set<Equation>,
                       t: Tree, visited: Visited, target: nat)
    requires Registered(ts, reg) && LinksOk(links, reg) && EdgesOk(ts, reg, links, edges, eqs)
    requires TreeOk(edges, t) && Recorded(edges, t, visited) && Expanded(edges, t.order, |t.order|, visited)
    requires Root(links, t.order[0]) == Root(links, target)
    ensures target in visited
  {
    forall i | 0 <= i < |edges| ensures edges[i].a in visited.Keys <==> edges[i].b in visited.Keys {
      assert Joins(edges, i, edges[i].a, edges[i].b);
      EdgeEnds(ts, reg, links, edges, eqs, i, edges[i].a, edges[i].b);
      EdgeIsAdj(edges, i);
      if edges[i].a in visited {
        var j :| 0 <= j < |t.order| && t.order[j] == edges[i].a;
        assert (edges[i].b, edges[i].reason) in AdjList(edges, t.order[j]);
      }
      if edges[i].b in visited {
        var j :| 0 <= j < |t.order| && t.order[j] == edges[i].b;
        assert (edges[i].a, edges[i].reason) in AdjList(edges, t.order[j]);
      }
    }
    assert links[..|links|] == links;
    ClosedSetHoldsClass(ts, reg, links, edges, eqs, visited.Keys, t.order[0], target, |links|);
  }

  // ---------- walking back ----------

  /** The position of a reached term. */
  lemma PositionOf(edges: seq<ProofEdge>, t: Tree, visited: Visited, v: nat) returns (j: nat)
    requires TreeOk(edges, t) && Recorded(edges, t, visited) && v in visited
    ensures j < |t.order| && t.order[j] == v
  {
    assert v in t.order;
    j :| j < |t.order| && t.order[j] == v;
  }

  /** At the start there is no predecessor, elsewhere the table names it and the edge. */
  lemma WalkStep(edges: seq<ProofEdge>, t: Tree, visited: Visited, j: nat)
    requires TreeOk(edges, t) && Recorded(edges, t, visited) && j < |t.order|
    ensures t.order[j] in visited && (visited[t.order[j]] == None <==> j == 0)
    ensures j > 0 ==>
      && |t.prev| == |t.via| == |t.order| && t.prev[j] < j && t.via[j] < |edges|
      && visited[t.order[j]] == Some((t.order[t.prev[j]], edges[t.via[j]].reason))
      && Joins(edges, t.via[j], t.order[t.prev[j]], t.order[j])
      && t.via[j] <= Youngest(edges, t, j) && Youngest(edges, t, t.prev[j]) <= Youngest(edges, t, j)
  {
    if j > 0 { assert StepOk(edges, t, j) && StepRecorded(edges, t, visited, j); }
  }

  /** What one edge of the walk rests on. */
  lemma EdgeGround(ts: Arena, reg: set<nat>, links: seq<Link>, edges: seq<ProofEdge>, eqs: set<Equation>, i: nat, x: nat, y: nat)
    requires Registered(ts, reg) && EdgesOk(ts, reg, links, edges, eqs) && Joins(edges, i, x, y)
    ensures i < |edges| == |links| && x in reg && y in reg && x < |ts| && y < |ts|
    ensures edges[i].reason.Some? ==> Equation(x, y, edges[i].reason.value) in eqs || Equation(y, x, edges[i].reason.value) in eqs
    ensures edges[i].reason == None ==>
      && ts[x].Apply? && ts[y].Apply? && ts[x].f == ts[y].f && |ts[x].args| == |ts[y].args|
      && forall k :: 0 <= k < |ts[x].args| ==>
          && ts[x].args[k] in reg && ts[y].args[k] in reg
          && Root(links[..i], ts[x].args[k]) == Root(links[..i], ts[y].args[k])
  {
    var e := edges[i];
    assert EdgeOk(ts, reg, links, e, i, eqs);
    if e.reason == None {
      forall k | 0 <= k < |ts[e.a].args| ensures Root(links[..i], ts[e.a].args[k]) == Root(links[..i], ts[e.b].args[k]) {
        assert (ts[e.a].args[k], ts[e.b].args[k]) in Kernel(links[..i]);
      }
    }
  }

  lemma ExplainedByLiteral(ts: Arena, reg: set<nat>, eqs: set<Equation>, c: seq<Lit>, t: nat, u: nat, l: Lit)
    requires Registered(ts, reg) && l.Not() in c
    requires Equation(t, u, l) in eqs || Equation(u, t, l) in eqs
    ensures Explained(ts, reg, eqs, c, t, u)
  {
    if Equation(t, u, l) in eqs {
      forall r: Rel | Congruence(ts, reg, r) && Contains(r, Used(eqs, c)) ensures (t, u) in r {
        assert Equation(t, u, l) in Used(eqs, c);
      }
    } else {
      forall r: Rel | Congruence(ts, reg, r) && Contains(r, Used(eqs, c)) ensures (t, u) in r {
        assert Equation(u, t, l) in Used(eqs, c);
        RelTrans(r, t, u, t);
      }
    }
  }

  /** Every literal of the list is the negation of one that an equation was asserted with. */
  ghost predicate FromEquations(eqs: set<Equation>, c: seq<Lit>) {
    forall l :: l in c ==> exists e :: e in eqs && e.lit.Not() == l
  }

  lemma FromEquationsMore(eqs: set<Equation>, c: seq<Lit>, x: nat, y: nat, l: Lit)
    requires FromEquations(eqs, c) && (Equation(x, y, l) in eqs || Equation(y, x, l) in eqs)
    ensures FromEquations(eqs, c + [l.Not()])
  {
    forall k | k in c + [l.Not()] ensures exists e :: e in eqs && e.lit.Not() == k {
      if k !in c {
        assert Equation(x, y, l) in eqs || Equation(y, x, l) in eqs;
        assert Equation(x, y, l).lit.Not() == k && Equation(y, x, l).lit.Not() == k;
      }
    }
  }

  /** Pairs seen since are all explained. */
  ghost predicate NewExplained(ts: Arena, reg: set<nat>, eqs: set<Equation>, pairs0: set<(nat, nat)>, pairs: set<(nat, nat)>, c: seq<Lit>)
    requires Registered(ts, reg)
  {
    pairs0 <= pairs && forall p :: p in pairs - pairs0 ==> Explained(ts, reg, eqs, c, p.0, p.1)
  }

  lemma NewExplainedChain(ts: Arena, reg: set<nat>, eqs: set<Equation>, p0: set<(nat, nat)>, p1: set<(nat, nat)>, p2: set<(nat, nat)>,
                          c: seq<Lit>, d: seq<Lit>)
    requires Registered(ts, reg) && NewExplained(ts, reg, eqs, p0, p1, c) && NewExplained(ts, reg, eqs, p1, p2, d)
    requires forall l :: l in c ==> l in d
    ensures NewExplained(ts, reg, eqs, p0, p2, d)
  {
    forall p | p in p2 - p0 ensures Explained(ts, reg, eqs, d, p.0, p.1) {
      if p in p1 { ExplainedMore(ts, reg, eqs, c, d, p.0, p.1); }
    }
  }

  /** Old pairs keep their standing, new ones are explained. */
  lemma PairsGrow(ts: Arena, reg: set<nat>, links: seq<Link>, eqs: set<Equation>, p0: set<(nat, nat)>, p1: set<(nat, nat)>,
                  c: seq<Lit>, d: seq<Lit>, k: nat)
    requires Registered(ts, reg) && k <= |links| && PairsOk(ts, reg, links, eqs, p0, c, k)
    requires NewExplained(ts, reg, eqs, p0, p1, d) && forall l :: l in c ==> l in d
    ensures PairsOk(ts, reg, links, eqs, p1, d, k)
  {
    PairsStay(ts, reg, links, eqs, p0, c, d, k, k);
    forall p | p in p1 ensures Explained(ts, reg, eqs, d, p.0, p.1) || Root(links[..k], p.0) != Root(links[..k], p.1) {
      if p !in p0 { assert p in p1 - p0; }
    }
  }

  lemma PairsAdd(ts: Arena, reg: set<nat>, links: seq<Link>, eqs: set<Equation>, pairs: set<(nat, nat)>, c: seq<Lit>, k: nat, t: nat, u: nat)
    requires Registered(ts, reg) && k <= |links| && PairsOk(ts, reg, links, eqs, pairs, c, k)
    requires Root(links[..k], t) != Root(links[..k], u)
    ensures PairsOk(ts, reg, links, eqs, pairs + {(t, u)}, c, k)
  {
  }

  lemma PairSeen(ts: Arena, reg: set<nat>, links: seq<Link>, eqs: set<Equation>, pairs: set<(nat, nat)>, c: seq<Lit>, k: nat, t: nat, u: nat)
    requires Registered(ts, reg) && k <= |links| && PairsOk(ts, reg, links, eqs, pairs, c, k)
    requires (t, u) in pairs && Root(links[..k], t) == Root(links[..k], u)
    ensures Explained(ts, reg, eqs, c, t, u)
  {
    var p := (t, u);
    assert p in pairs;
  }

  lemma NewExplainedNone(ts: Arena, reg: set<nat>, eqs: set<Equation>, pairs: set<(nat, nat)>, c: seq<Lit>)
    requires Registered(ts, reg)
    ensures NewExplained(ts, reg, eqs, pairs, pairs, c)
  {
  }

  lemma NewExplainedOne(ts: Arena, reg: set<nat>, eqs: set<Equation>, pairs: set<(nat, nat)>, pairs': set<(nat, nat)>, c: seq<Lit>, t: nat, u: nat)
    requires Registered(ts, reg) && NewExplained(ts, reg, eqs, pairs + {(t, u)}, pairs', c) && Explained(ts, reg, eqs, c, t, u)
    ensures NewExplained(ts, reg, eqs, pairs, pairs', c)
  {
    forall p | p in pairs' - pairs ensures Explained(ts, reg, eqs, c, p.0, p.1) {
      if p != (t, u) { assert p in pairs' - (pairs + {(t, u)}); }
    }
  }

  /** A term of the search tree other than the start is not equal to it when the target is not. */
  lemma TreeInClass(ts: Arena, reg: set<nat>, links: seq<Link>, edges: seq<ProofEdge>, eqs: set<Equation>, t: Tree, j: nat)
    requires Registered(ts, reg) && LinksOk(links, reg) && EdgesOk(ts, reg, links, edges, eqs)
    requires TreeOk(edges, t) && j < |t.order|
    ensures Root(links, t.order[0]) == Root(links, t.order[j])
  {
    assert links[..|links|] == links;
    WalkJoined(ts, reg, links, edges, eqs, t, j, |links|);
  }
}
