/** Which literals an explanation may name: those of edges on the way between the two terms, and on the
    ways between the arguments of edges that stand for a congruence. */
module ProofPaths {
  import opened Lits
  import opened CongruenceModel
  import opened ProofForest

  /** A way through the proof graph that meets no term twice: in a forest there is only one. */
  ghost predicate PathIn(edges: seq<ProofEdge>, p: seq<nat>, es: seq<nat>) {
    && |p| == |es| + 1
    && (forall i, j :: 0 <= i < j < |p| ==> p[i] != p[j])
    && forall i :: 0 <= i < |es| ==> Joins(edges, es[i], p[i], p[i + 1])
  }

  ghost predicate Ends(p: seq<nat>, a: nat, b: nat) { p != [] && p[0] == a && p[|p| - 1] == b }

  /** The literal negates the reason of an edge on the way, or is needed, at most `n` congruences deep,
      for the arguments of one. */
  ghost predicate RestsOn(ts: Arena, edges: seq<ProofEdge>, a: nat, b: nat, l: Lit, n: nat)
    decreases n, 1
  {
    exists p: seq<nat>, es: seq<nat>, i: nat ::
      PathIn(edges, p, es) && Ends(p, a, b) && i < |es| && EdgeRests(ts, edges, es[i], p[i], p[i + 1], l, n)
  }

  ghost predicate EdgeRests(ts: Arena, edges: seq<ProofEdge>, e: nat, x: nat, y: nat, l: Lit, n: nat)
    decreases n, 0
  {
    && e < |edges| && x < |ts| && y < |ts|
    && match edges[e].reason
       case Some(r) => l == r.Not()
       case None =>
         n > 0 && ts[x].Apply? && ts[y].Apply? &&
         exists m :: 0 <= m < |ts[x].args| && m < |ts[y].args| && RestsOn(ts, edges, ts[y].args[m], ts[x].args[m], l, n - 1)
  }

  ghost predicate Rests(ts: Arena, edges: seq<ProofEdge>, a: nat, b: nat, l: Lit) {
    exists n: nat :: RestsOn(ts, edges, a, b, l, n)
  }

  // ---------- the way back through a search tree ----------

  ghost function WalkPath(edges: seq<ProofEdge>, t: Tree, j: nat): seq<nat>
    requires TreeOk(edges, t) && j < |t.order|
    decreases j
  {
    if j == 0 then [t.order[0]] else
      assert StepOk(edges, t, j);
      WalkPath(edges, t, t.prev[j]) + [t.order[j]]
  }

  ghost function WalkVia(edges: seq<ProofEdge>, t: Tree, j: nat): seq<nat>
    requires TreeOk(edges, t) && j < |t.order|
    decreases j
  {
    if j == 0 then [] else
      assert StepOk(edges, t, j);
      WalkVia(edges, t, t.prev[j]) + [t.via[j]]
  }

  lemma {:induction false} WalkIsPath(edges: seq<ProofEdge>, t: Tree, j: nat)
    requires TreeOk(edges, t) && j < |t.order|
    ensures PathIn(edges, WalkPath(edges, t, j), WalkVia(edges, t, j)) && Ends(WalkPath(edges, t, j), t.order[0], t.order[j])
    ensures forall x :: x in WalkPath(edges, t, j) ==> x in t.order[..j + 1]
    decreases j
  {
    if j > 0 {
      assert StepOk(edges, t, j);
      var k := t.prev[j];
      WalkIsPath(edges, t, k);
      forall x | x in WalkPath(edges, t, k) ensures x != t.order[j] && x in t.order[..j + 1] {
        var i :| 0 <= i < k + 1 && t.order[i] == x;
        assert t.order[..j + 1][i] == x;
      }
      var q := WalkPath(edges, t, k);
      forall i | 0 <= i < |q| ensures q[i] != t.order[j] { assert q[i] in q; }
      forall x | x in WalkPath(edges, t, j) ensures x in t.order[..j + 1] {
        if x !in WalkPath(edges, t, k) { assert x == t.order[j] && t.order[..j + 1][j] == x; }
      }
    }
  }

  /** The way to position `j` is the beginning of the way to `last`. */
  ghost predicate WalkOn(edges: seq<ProofEdge>, t: Tree, j: nat, last: nat)
    requires TreeOk(edges, t)
  {
    && j < |t.order| && last < |t.order|
    && WalkPath(edges, t, j) <= WalkPath(edges, t, last) && WalkVia(edges, t, j) <= WalkVia(edges, t, last)
  }

  lemma WalkOnStart(edges: seq<ProofEdge>, t: Tree, last: nat)
    requires TreeOk(edges, t) && last < |t.order|
    ensures WalkOn(edges, t, last, last)
  {
  }

  lemma WalkOnBack(edges: seq<ProofEdge>, t: Tree, j: nat, last: nat)
    requires TreeOk(edges, t) && WalkOn(edges, t, j, last) && j > 0
    ensures |t.prev| == |t.order| && t.prev[j] < j && WalkOn(edges, t, t.prev[j], last)
  {
    assert StepOk(edges, t, j);
    var k := t.prev[j];
    assert WalkPath(edges, t, j) == WalkPath(edges, t, k) + [t.order[j]];
    assert WalkVia(edges, t, j) == WalkVia(edges, t, k) + [t.via[j]];
  }

  /** Position `j` of the tree on the way to `last`. */
  lemma EdgeAt(edges: seq<ProofEdge>, t: Tree, j: nat, last: nat) returns (i: nat)
    requires TreeOk(edges, t) && WalkOn(edges, t, j, last) && j > 0
    ensures |t.prev| == |t.via| == |t.order| && t.prev[j] < j
    ensures var p, es := WalkPath(edges, t, last), WalkVia(edges, t, last);
      |p| == |es| + 1 && i < |es| && es[i] == t.via[j] && p[i] == t.order[t.prev[j]] && p[i + 1] == t.order[j]
  {
    assert StepOk(edges, t, j);
    var k := t.prev[j];
    WalkIsPath(edges, t, last);
    WalkIsPath(edges, t, j);
    WalkIsPath(edges, t, k);
    hide PathIn;
    var q, ds := WalkPath(edges, t, j), WalkVia(edges, t, j);
    i := |ds| - 1;
    assert q[i + 1] == t.order[j] && ds[i] == t.via[j] && q[i] == t.order[k];
    assert WalkVia(edges, t, last)[i] == ds[i] && WalkPath(edges, t, last)[i] == q[i] && WalkPath(edges, t, last)[i + 1] == q[i + 1];
  }

  lemma RestsIntro(ts: Arena, edges: seq<ProofEdge>, p: seq<nat>, es: seq<nat>, i: nat, a: nat, b: nat, l: Lit, n: nat)
    requires PathIn(edges, p, es) && Ends(p, a, b) && i < |es| && EdgeRests(ts, edges, es[i], p[i], p[i + 1], l, n)
    ensures Rests(ts, edges, a, b, l)
  {
    hide EdgeRests, PathIn;
    assert RestsOn(ts, edges, a, b, l, n);
  }

  /** What an edge of the walk rests on, the pair rests on. */
  lemma EdgeOnWalk(ts: Arena, edges: seq<ProofEdge>, t: Tree, j: nat, last: nat, l: Lit, n: nat)
    requires TreeOk(edges, t) && WalkOn(edges, t, j, last) && j > 0
    requires |t.prev| == |t.via| == |t.order| && t.prev[j] < j && EdgeRests(ts, edges, t.via[j], t.order[t.prev[j]], t.order[j], l, n)
    ensures Rests(ts, edges, t.order[0], t.order[last], l)
  {
    hide EdgeRests, WalkPath, WalkVia, PathIn, Ends, Rests;
    var i := EdgeAt(edges, t, j, last);
    WalkIsPath(edges, t, last);
    RestsIntro(ts, edges, WalkPath(edges, t, last), WalkVia(edges, t, last), i, t.order[0], t.order[last], l, n);
  }

  // ---------- what is new in a conflict ----------

  ghost predicate NewRest(ts: Arena, edges: seq<ProofEdge>, c0: seq<Lit>, c: seq<Lit>, a: nat, b: nat) {
    forall l :: l in c ==> l in c0 || Rests(ts, edges, a, b, l)
  }

  /** New literals are needed for some argument of the two applications. */
  ghost predicate NewRestArgs(ts: Arena, edges: seq<ProofEdge>, c0: seq<Lit>, c: seq<Lit>, y: nat, x: nat)
    requires x < |ts| && y < |ts| && ts[x].Apply? && ts[y].Apply?
  {
    forall l :: l in c ==> l in c0 || exists m :: 0 <= m < |ts[x].args| && m < |ts[y].args| && Rests(ts, edges, ts[y].args[m], ts[x].args[m], l)
  }

  lemma NewRestNone(ts: Arena, edges: seq<ProofEdge>, c: seq<Lit>, a: nat, b: nat)
    ensures NewRest(ts, edges, c, c, a, b)
  {
  }

  lemma NewRestArgsNone(ts: Arena, edges: seq<ProofEdge>, c: seq<Lit>, y: nat, x: nat)
    requires x < |ts| && y < |ts| && ts[x].Apply? && ts[y].Apply?
    ensures NewRestArgs(ts, edges, c, c, y, x)
  {
  }

  lemma NewRestArgsMore(ts: Arena, edges: seq<ProofEdge>, c0: seq<Lit>, c1: seq<Lit>, c2: seq<Lit>, y: nat, x: nat, m: nat)
    requires x < |ts| && y < |ts| && ts[x].Apply? && ts[y].Apply? && m < |ts[x].args| && m < |ts[y].args|
    requires NewRestArgs(ts, edges, c0, c1, y, x) && NewRest(ts, edges, c1, c2, ts[y].args[m], ts[x].args[m])
    ensures NewRestArgs(ts, edges, c0, c2, y, x)
  {
    hide Rests;
  }

  lemma NewRestLiteral(ts: Arena, edges: seq<ProofEdge>, t: Tree, j: nat, last: nat, c0: seq<Lit>, c: seq<Lit>, r: Lit)
    requires TreeOk(edges, t) && WalkOn(edges, t, j, last) && j > 0 && |t.prev| == |t.via| == |t.order| && t.prev[j] < j
    requires t.via[j] < |edges| && edges[t.via[j]].reason == Some(r) && t.order[j] < |ts| && t.order[t.prev[j]] < |ts|
    requires NewRest(ts, edges, c0, c, t.order[0], t.order[last])
    ensures NewRest(ts, edges, c0, c + [r.Not()], t.order[0], t.order[last])
  {
    EdgeOnWalk(ts, edges, t, j, last, r.Not(), 0);
  }

  lemma CongruenceRests(ts: Arena, edges: seq<ProofEdge>, e: nat, x: nat, y: nat, m: nat, l: Lit, n: nat)
    requires e < |edges| && edges[e].reason == None && x < |ts| && y < |ts| && ts[x].Apply? && ts[y].Apply?
    requires m < |ts[x].args| && m < |ts[y].args| && RestsOn(ts, edges, ts[y].args[m], ts[x].args[m], l, n)
    ensures EdgeRests(ts, edges, e, x, y, l, n + 1)
  {
    hide RestsOn;
  }

  lemma NewRestCongruence(ts: Arena, edges: seq<ProofEdge>, t: Tree, j: nat, last: nat, c0: seq<Lit>, c1: seq<Lit>, c2: seq<Lit>)
    requires TreeOk(edges, t) && WalkOn(edges, t, j, last) && j > 0 && |t.prev| == |t.via| == |t.order| && t.prev[j] < j
    requires t.via[j] < |edges| && edges[t.via[j]].reason == None && t.order[j] < |ts| && t.order[t.prev[j]] < |ts|
    requires ts[t.order[j]].Apply? && ts[t.order[t.prev[j]]].Apply?
    requires NewRest(ts, edges, c0, c1, t.order[0], t.order[last])
    requires NewRestArgs(ts, edges, c1, c2, t.order[j], t.order[t.prev[j]])
    ensures NewRest(ts, edges, c0, c2, t.order[0], t.order[last])
  {
    hide RestsOn, EdgeRests, WalkPath, WalkVia;
    var x, y := t.order[t.prev[j]], t.order[j];
    forall l | l in c2 && l !in c0 ensures Rests(ts, edges, t.order[0], t.order[last], l) {
      if l !in c1 {
        var m :| 0 <= m < |ts[x].args| && m < |ts[y].args| && Rests(ts, edges, ts[y].args[m], ts[x].args[m], l);
        var n: nat :| RestsOn(ts, edges, ts[y].args[m], ts[x].args[m], l, n);
        CongruenceRests(ts, edges, t.via[j], x, y, m, l, n);
        EdgeOnWalk(ts, edges, t, j, last, l, n + 1);
      }
    }
  }
}
