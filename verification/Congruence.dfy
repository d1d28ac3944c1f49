/** Congruence closure as values: the links of the union-find in the order they were made, the
    proof edges behind them and the signature table, all read off one log of events. */
module CongruenceModel {
  import opened Lits

  /** Applications of uninterpreted functions, the two equality atoms, and every other term, whose
      arguments are not looked into. */
  datatype Term = Apply(f: string, args: seq<nat>) | Equals(args: seq<nat>) | Distinct(args: seq<nat>) | Other

  type Arena = seq<Term>

  datatype Sig = Sig(f: string, reps: seq<nat>)

  /** An asserted equality and the literal that stands for it. */
  datatype Equation = Equation(a: nat, b: nat, lit: Lit)

  datatype Link = Link(child: nat, parent: nat)

  datatype ProofEdge = ProofEdge(a: nat, b: nat, reason: Option<Lit>)

  /** Registered terms: within the arena and closed under arguments of applications. */
  ghost predicate Registered(ts: Arena, reg: set<nat>) {
    forall t :: t in reg ==> t < |ts| && (ts[t].Apply? ==> forall i :: 0 <= i < |ts[t].args| ==> ts[t].args[i] in reg)
  }

  // ---------- congruences ----------

  type Rel = iset<(nat, nat)>

  ghost predicate Equivalence(r: Rel) {
    && (forall x: nat :: (x, x) in r)
    && (forall x: nat, y: nat :: (x, y) in r ==> (y, x) in r)
    && (forall x: nat, y: nat, z: nat :: (x, y) in r && (y, z) in r ==> (x, z) in r)
  }

  /** Same function, same number of arguments, arguments pairwise related. */
  ghost predicate SameUpTo(ts: Arena, t: nat, u: nat, r: Rel)
    requires t < |ts| && u < |ts|
  {
    && ts[t].Apply? && ts[u].Apply? && ts[t].f == ts[u].f && |ts[t].args| == |ts[u].args|
    && forall i :: 0 <= i < |ts[t].args| ==> (ts[t].args[i], ts[u].args[i]) in r
  }

  ghost predicate Congruence(ts: Arena, reg: set<nat>, r: Rel)
    requires Registered(ts, reg)
  {
    && Equivalence(r)
    && forall t, u :: t in reg && u in reg && SameUpTo(ts, t, u, r) ==> (t, u) in r
  }

  ghost predicate Contains(r: Rel, eqs: set<Equation>) {
    forall e :: e in eqs ==> (e.a, e.b) in r
  }

  /** The pair belongs to the least congruence that contains the equations. */
  ghost predicate Entailed(ts: Arena, reg: set<nat>, eqs: set<Equation>, t: nat, u: nat)
    requires Registered(ts, reg)
  {
    forall r: Rel :: Congruence(ts, reg, r) && Contains(r, eqs) ==> (t, u) in r
  }

  // ---------- links ----------

  /** The representative of `t` after the links, in order. */
  ghost function Root(links: seq<Link>, t: nat): nat
    decreases |links|
  {
    if links == [] then t
    else
      var n := |links| - 1;
      var r := Root(links[..n], t);
      if r == links[n].child then links[n].parent else r
  }

  ghost function Kernel(links: seq<Link>): Rel {
    iset x: nat, y: nat | Root(links, x) == Root(links, y) :: (x, y)
  }

  /** Each link joins two representatives of its time. */
  ghost predicate LinksOk(links: seq<Link>, reg: set<nat>) {
    forall i :: 0 <= i < |links| ==>
      && links[i].child in reg && links[i].parent in reg && links[i].child != links[i].parent
      && Root(links[..i], links[i].child) == links[i].child
      && Root(links[..i], links[i].parent) == links[i].parent
  }

  ghost function ParentOf(links: seq<Link>, t: nat): nat
    decreases |links|
  {
    if links == [] then t
    else
      var n := |links| - 1;
      if links[n].child == t then links[n].parent else ParentOf(links[..n], t)
  }

  /** When `t` ceased to be a representative. */
  ghost function LinkTime(links: seq<Link>, t: nat): (k: nat)
    ensures k <= |links|
    decreases |links|
  {
    if links == [] then 0
    else
      var n := |links| - 1;
      var k := LinkTime(links[..n], t);
      if k < n then k else if links[n].child == t then n else n + 1
  }

  lemma LinksPrefix(links: seq<Link>, reg: set<nat>, k: nat)
    requires LinksOk(links, reg) && k <= |links|
    ensures LinksOk(links[..k], reg)
  {
    forall i | 0 <= i < k ensures links[..k][..i] == links[..i] {}
  }

  /** A term that never was a child is its own representative, and only such terms are. */
  lemma {:induction false} RootIffNoParent(links: seq<Link>, reg: set<nat>, t: nat)
    requires LinksOk(links, reg)
    ensures Root(links, t) == t <==> ParentOf(links, t) == t
    ensures ParentOf(links, t) == t <==> LinkTime(links, t) == |links|
    ensures Root(links, Root(links, t)) == Root(links, t)
    ensures t in reg ==> Root(links, t) in reg && ParentOf(links, t) in reg
    decreases |links|
  {
    if links != [] {
      var n := |links| - 1;
      LinksPrefix(links, reg, n);
      RootIffNoParent(links[..n], reg, t);
      RootIffNoParent(links[..n], reg, links[n].child);
      RootIffNoParent(links[..n], reg, links[n].parent);
    }
  }

  /** Following one parent pointer stays in the class and moves on in time. */
  lemma {:induction false} ParentStep(links: seq<Link>, reg: set<nat>, t: nat)
    requires LinksOk(links, reg) && ParentOf(links, t) != t
    ensures Root(links, ParentOf(links, t)) == Root(links, t)
    ensures LinkTime(links, t) < LinkTime(links, ParentOf(links, t))
    decreases |links|
  {
    if links != [] {
      var n := |links| - 1;
      LinksPrefix(links, reg, n);
      RootIffNoParent(links[..n], reg, t);
      if links[n].child == t {
        RootIffNoParent(links[..n], reg, links[n].parent);
      } else {
        ParentStep(links[..n], reg, t);
      }
    }
  }

  /** Terms joined once stay joined. */
  lemma {:induction false} JoinedStays(links: seq<Link>, x: nat, y: nat, j: nat, k: nat)
    requires j <= k <= |links| && Root(links[..j], x) == Root(links[..j], y)
    ensures Root(links[..k], x) == Root(links[..k], y)
    decreases k
  {
    if j < k {
      JoinedStays(links, x, y, j, k - 1);
      assert links[..k][..k - 1] == links[..k - 1];
    }
  }

  lemma RootAppend(links: seq<Link>, l: Link, t: nat)
    ensures Root(links + [l], t) == if Root(links, t) == l.child then l.parent else Root(links, t)
  {
    assert (links + [l])[..|links|] == links;
  }

  // ---------- proof edges ----------

  /** Edge `i` is why link `i` was made: an asserted equality, or two applications whose
      arguments were equal already. */
  ghost predicate EdgeOk(ts: Arena, reg: set<nat>, links: seq<Link>, e: ProofEdge, i: nat, eqs: set<Equation>)
    requires Registered(ts, reg) && i < |links|
  {
    && e.a in reg && e.b in reg
    && {Root(links[..i], e.a), Root(links[..i], e.b)} == {links[i].child, links[i].parent}
    && (e.reason.Some? ==> Equation(e.a, e.b, e.reason.value) in eqs)
    && (e.reason == None ==> SameUpTo(ts, e.a, e.b, Kernel(links[..i])))
  }

  ghost predicate EdgesOk(ts: Arena, reg: set<nat>, links: seq<Link>, edges: seq<ProofEdge>, eqs: set<Equation>)
    requires Registered(ts, reg)
  {
    |edges| == |links| && forall i :: 0 <= i < |links| ==> EdgeOk(ts, reg, links, edges[i], i, eqs)
  }

  /** Every congruence that contains the equations contains the representatives. */
  lemma {:induction false} LinksSound(ts: Arena, reg: set<nat>, links: seq<Link>, edges: seq<ProofEdge>, eqs: set<Equation>,
                                      k: nat, r: Rel, t: nat)
    requires Registered(ts, reg) && LinksOk(links, reg) && EdgesOk(ts, reg, links, edges, eqs)
    requires k <= |links| && Congruence(ts, reg, r) && Contains(r, eqs)
    ensures (t, Root(links[..k], t)) in r
    decreases k, 0
  {
    if k > 0 {
      assert links[..k][..k - 1] == links[..k - 1];
      LinksSound(ts, reg, links, edges, eqs, k - 1, r, t);
      if Root(links[..k - 1], t) == links[k - 1].child {
        EdgeSound(ts, reg, links, edges, eqs, k - 1, r);
        RelTrans(r, t, links[k - 1].child, links[k - 1].parent);
      }
    }
  }

  lemma RelTrans(r: Rel, x: nat, y: nat, z: nat)
    requires Equivalence(r)
    ensures (x, y) in r && (y, z) in r ==> (x, z) in r
    ensures (x, y) in r <==> (y, x) in r
    ensures (x, x) in r
  {
  }

  lemma EdgeSound(ts: Arena, reg: set<nat>, links: seq<Link>, edges: seq<ProofEdge>, eqs: set<Equation>, i: nat, r: Rel)
    requires Registered(ts, reg) && LinksOk(links, reg) && EdgesOk(ts, reg, links, edges, eqs)
    requires i < |links| && Congruence(ts, reg, r) && Contains(r, eqs)
    ensures (edges[i].a, edges[i].b) in r && (links[i].child, links[i].parent) in r
    decreases i, 2
  {
    var e := edges[i];
    assert EdgeOk(ts, reg, links, e, i, eqs);
    if e.reason == None {
      SameSound(ts, reg, links, edges, eqs, i, r, e.a, e.b);
    } else {
      assert Equation(e.a, e.b, e.reason.value) in eqs;
    }
    LinksSound(ts, reg, links, edges, eqs, i, r, e.a);
    LinksSound(ts, reg, links, edges, eqs, i, r, e.b);
    var x, y := Root(links[..i], e.a), Root(links[..i], e.b);
    RelTrans(r, e.a, x, x);
    RelTrans(r, x, e.a, e.b);
    RelTrans(r, x, e.b, y);
    RelTrans(r, x, y, x);
    assert x in {x, y} && y in {x, y};
    assert (x == links[i].child && y == links[i].parent) || (y == links[i].child && x == links[i].parent) by {
      assert links[i].child in {x, y} && links[i].parent in {x, y};
    }
  }

  /** Applications equal up to the links of time `i` are equal in every such congruence. */
  lemma SameSound(ts: Arena, reg: set<nat>, links: seq<Link>, edges: seq<ProofEdge>, eqs: set<Equation>, i: nat, r: Rel,
                  t: nat, u: nat)
    requires Registered(ts, reg) && LinksOk(links, reg) && EdgesOk(ts, reg, links, edges, eqs)
    requires i <= |links| && Congruence(ts, reg, r) && Contains(r, eqs)
    requires t in reg && u in reg && SameUpTo(ts, t, u, Kernel(links[..i]))
    ensures (t, u) in r
    decreases i, 1
  {
    var p, q := ts[t].args, ts[u].args;
    forall j | 0 <= j < |p| ensures (p[j], q[j]) in r {
      assert (p[j], q[j]) in Kernel(links[..i]);
      LinksSound(ts, reg, links, edges, eqs, i, r, p[j]);
      LinksSound(ts, reg, links, edges, eqs, i, r, q[j]);
      RelTrans(r, q[j], Root(links[..i], q[j]), q[j]);
      RelTrans(r, p[j], Root(links[..i], p[j]), q[j]);
    }
  }

  // ---------- signatures ----------

  ghost function Reps(links: seq<Link>, args: seq<nat>): (r: seq<nat>)
    ensures |r| == |args|
  {
    seq(|args|, i requires 0 <= i < |args| => Root(links, args[i]))
  }

  ghost function SigOf(ts: Arena, links: seq<Link>, t: nat): Sig
    requires t < |ts| && ts[t].Apply?
  {
    Sig(ts[t].f, Reps(links, ts[t].args))
  }

  /** `rep` was the representative of `t` after some prefix of the links. */
  ghost predicate WasRoot(links: seq<Link>, t: nat, rep: nat) {
    exists k: nat :: k <= |links| && Root(links[..k], t) == rep
  }

  /** The entry was the signature of its application at some time: each representative in the
      key was that of the argument after some prefix of the links. */
  ghost predicate EntryOk(ts: Arena, reg: set<nat>, links: seq<Link>, sig: Sig, app: nat) {
    && app in reg && app < |ts| && ts[app].Apply? && ts[app].f == sig.f && |ts[app].args| == |sig.reps|
    && forall j :: 0 <= j < |sig.reps| ==> WasRoot(links, ts[app].args[j], sig.reps[j])
  }

  ghost predicate TableOk(ts: Arena, reg: set<nat>, links: seq<Link>, table: map<Sig, nat>) {
    forall sig :: sig in table ==> EntryOk(ts, reg, links, sig, table[sig])
  }

  /** Equality of representatives together with the pending pairs connects the two terms. */
  ghost predicate Connected(links: seq<Link>, pend: set<(nat, nat)>, t: nat, u: nat) {
    forall q: Rel :: Equivalence(q) && (forall p :: p in Kernel(links) ==> p in q) && (forall p :: p in pend ==> p in q) ==> (t, u) in q
  }

  ghost predicate Indexed(ts: Arena, links: seq<Link>, table: map<Sig, nat>, pend: set<(nat, nat)>, t: nat)
    requires t < |ts| && ts[t].Apply?
  {
    var sig := SigOf(ts, links, t);
    sig in table && Connected(links, pend, table[sig], t)
  }

  /** Every application finds its signature in the table, under a term that is, or is about to
      become, equal to it. */
  ghost predicate Closed(ts: Arena, reg: set<nat>, links: seq<Link>, table: map<Sig, nat>, pend: set<(nat, nat)>)
    requires Registered(ts, reg)
  {
    forall t :: t in reg && ts[t].Apply? ==> Indexed(ts, links, table, pend, t)
  }

  lemma KernelEquivalence(links: seq<Link>)
    ensures Equivalence(Kernel(links))
  {
  }

  lemma ConnectedNow(links: seq<Link>, t: nat, u: nat)
    ensures Connected(links, {}, t, u) <==> Root(links, t) == Root(links, u)
  {
    KernelEquivalence(links);
    assert (t, u) in Kernel(links) <==> Root(links, t) == Root(links, u);
  }

  /** With nothing pending, equality of representatives is a congruence. */
  lemma ClosedIsCongruence(ts: Arena, reg: set<nat>, links: seq<Link>, table: map<Sig, nat>)
    requires Registered(ts, reg) && Closed(ts, reg, links, table, {})
    ensures Congruence(ts, reg, Kernel(links))
  {
    KernelEquivalence(links);
    forall t, u | t in reg && u in reg && SameUpTo(ts, t, u, Kernel(links)) ensures (t, u) in Kernel(links) {
      assert Indexed(ts, links, table, {}, t) && Indexed(ts, links, table, {}, u);
      var p, q := ts[t].args, ts[u].args;
      forall j | 0 <= j < |p| ensures Root(links, p[j]) == Root(links, q[j]) {
        assert (p[j], q[j]) in Kernel(links);
      }
      assert Reps(links, p) == Reps(links, q);
      var sig := SigOf(ts, links, t);
      ConnectedNow(links, table[sig], t);
      ConnectedNow(links, table[sig], u);
    }
  }

  /** Once closed, the representatives decide the least congruence of the equations. */
  lemma ExactlyCongruenceClosure(ts: Arena, reg: set<nat>, links: seq<Link>, edges: seq<ProofEdge>, table: map<Sig, nat>,
                                 eqs: set<Equation>, t: nat, u: nat)
    requires Registered(ts, reg) && LinksOk(links, reg) && EdgesOk(ts, reg, links, edges, eqs)
    requires Closed(ts, reg, links, table, {})
    requires forall e :: e in eqs ==> Root(links, e.a) == Root(links, e.b)
    ensures Root(links, t) == Root(links, u) <==> Entailed(ts, reg, eqs, t, u)
  {
    if Entailed(ts, reg, eqs, t, u) {
      ClosedIsCongruence(ts, reg, links, table);
      assert Contains(Kernel(links), eqs);
      assert (t, u) in Kernel(links);
    }
    if Root(links, t) == Root(links, u) {
      assert links[..|links|] == links;
      forall r: Rel | Congruence(ts, reg, r) && Contains(r, eqs) ensures (t, u) in r {
        LinksSound(ts, reg, links, edges, eqs, |links|, r, t);
        LinksSound(ts, reg, links, edges, eqs, |links|, r, u);
        RelTrans(r, u, Root(links, u), u);
        RelTrans(r, t, Root(links, t), u);
      }
    }
  }

  /** A table entry found under a current signature: its application is equal up to the links. */
  lemma EntryCurrent(ts: Arena, reg: set<nat>, links: seq<Link>, table: map<Sig, nat>, t: nat)
    requires Registered(ts, reg) && LinksOk(links, reg) && TableOk(ts, reg, links, table)
    requires t in reg && ts[t].Apply? && SigOf(ts, links, t) in table
    ensures table[SigOf(ts, links, t)] in reg && SameUpTo(ts, table[SigOf(ts, links, t)], t, Kernel(links))
  {
    var sig := SigOf(ts, links, t);
    var u := table[sig];
    assert EntryOk(ts, reg, links, sig, u);
    var p, q := ts[u].args, ts[t].args;
    forall j | 0 <= j < |p| ensures (p[j], q[j]) in Kernel(links) {
      assert WasRoot(links, p[j], sig.reps[j]);
      var k: nat :| k <= |links| && Root(links[..k], p[j]) == sig.reps[j];
      RootOfRep(links, reg, p[j], k);
      RootOfRep(links, reg, q[j], |links|);
      assert links[..|links|] == links;
      assert sig.reps[j] == Root(links, q[j]);
    }
  }

  /** Going through an earlier representative does not change the representative. */
  lemma RootOfRep(links: seq<Link>, reg: set<nat>, t: nat, k: nat)
    requires LinksOk(links, reg) && k <= |links|
    ensures Root(links, Root(links[..k], t)) == Root(links, t)
  {
    LinksPrefix(links, reg, k);
    RootIffNoParent(links[..k], reg, t);
    JoinedStays(links, Root(links[..k], t), t, k, |links|);
    assert links[..|links|] == links;
  }

  // ---------- one link ----------

  /** Every application is on the use list of the representative of each of its arguments. */
  ghost predicate UsesOk(ts: Arena, reg: set<nat>, links: seq<Link>, uses: map<nat, seq<nat>>)
    requires Registered(ts, reg)
  {
    && (forall t, i :: t in reg && ts[t].Apply? && 0 <= i < |ts[t].args| ==>
        Root(links, ts[t].args[i]) in uses && t in uses[Root(links, ts[t].args[i])])
    && (forall r, k :: r in uses && 0 <= k < |uses[r]| ==> uses[r][k] in reg && ts[uses[r][k]].Apply?)
  }

  function Get<T>(m: map<nat, seq<T>>, k: nat): seq<T> { if k in m then m[k] else [] }

  /** As `Closed`, but for the applications still to be looked at. */
  ghost predicate ClosedBut(ts: Arena, reg: set<nat>, links: seq<Link>, table: map<Sig, nat>, pend: set<(nat, nat)>, rest: seq<nat>)
    requires Registered(ts, reg)
  {
    forall t :: t in reg && ts[t].Apply? && t !in rest ==> Indexed(ts, links, table, pend, t)
  }

  /** Joining the classes of `a` and `b` makes the pair's own entry superfluous. */
  lemma ConnectedAfterLink(links: seq<Link>, l: Link, pend: set<(nat, nat)>, a: nat, b: nat, t: nat, u: nat)
    requires {Root(links, a), Root(links, b)} == {l.child, l.parent} && Root(links, l.parent) == l.parent
    requires Connected(links, pend + {(a, b)}, t, u)
    ensures Connected(links + [l], pend, t, u)
  {
    var links' := links + [l];
    forall p | p in Kernel(links) ensures p in Kernel(links') {
      RootAppend(links, l, p.0);
      RootAppend(links, l, p.1);
    }
    RootAppend(links, l, a);
    RootAppend(links, l, b);
    assert Root(links, a) in {l.child, l.parent} && Root(links, b) in {l.child, l.parent};
    assert (a, b) in Kernel(links');
  }

  /** After the link only the applications on the child's use list need attention. */
  lemma AfterLink(ts: Arena, reg: set<nat>, links: seq<Link>, l: Link, table: map<Sig, nat>, pend: set<(nat, nat)>,
                  uses: map<nat, seq<nat>>, a: nat, b: nat)
    requires Registered(ts, reg) && UsesOk(ts, reg, links, uses)
    requires {Root(links, a), Root(links, b)} == {l.child, l.parent} && Root(links, l.parent) == l.parent
    requires Closed(ts, reg, links, table, pend + {(a, b)})
    ensures ClosedBut(ts, reg, links + [l], table, pend, Get(uses, l.child))
  {
    forall t | t in reg && ts[t].Apply? && t !in Get(uses, l.child) ensures Indexed(ts, links + [l], table, pend, t) {
      assert Indexed(ts, links, table, pend + {(a, b)}, t);
      var args := ts[t].args;
      forall i | 0 <= i < |args| ensures Root(links + [l], args[i]) == Root(links, args[i]) {
        RootAppend(links, l, args[i]);
      }
      assert Reps(links + [l], args) == Reps(links, args);
      ConnectedAfterLink(links, l, pend, a, b, table[SigOf(ts, links, t)], t);
    }
  }

  lemma TableAfterLink(ts: Arena, reg: set<nat>, links: seq<Link>, l: Link, table: map<Sig, nat>)
    requires TableOk(ts, reg, links, table)
    ensures TableOk(ts, reg, links + [l], table)
  {
    var links' := links + [l];
    forall sig | sig in table ensures EntryOk(ts, reg, links', sig, table[sig]) {
      var app := table[sig];
      assert EntryOk(ts, reg, links, sig, app);
      forall j | 0 <= j < |sig.reps|
        ensures WasRoot(links', ts[app].args[j], sig.reps[j])
      {
        assert WasRoot(links, ts[app].args[j], sig.reps[j]);
        var k: nat :| k <= |links| && Root(links[..k], ts[app].args[j]) == sig.reps[j];
        assert links'[..k] == links[..k];
      }
    }
  }

  /** A new entry under the current signature of an application. */
  lemma TableInsert(ts: Arena, reg: set<nat>, links: seq<Link>, table: map<Sig, nat>, t: nat)
    requires Registered(ts, reg) && TableOk(ts, reg, links, table)
    requires t in reg && ts[t].Apply? && SigOf(ts, links, t) !in table
    ensures TableOk(ts, reg, links, table[SigOf(ts, links, t) := t])
  {
    var sig := SigOf(ts, links, t);
    assert EntryOk(ts, reg, links, sig, t) by {
      assert links[..|links|] == links;
    }
    var table' := table[sig := t];
    forall s | s in table' ensures EntryOk(ts, reg, links, s, table'[s]) {
      if s != sig { assert EntryOk(ts, reg, links, s, table[s]); }
    }
  }

  /** One application of the child's use list has been looked at. */
  lemma UseStep(ts: Arena, reg: set<nat>, links: seq<Link>, table: map<Sig, nat>, pend: set<(nat, nat)>,
                app: nat, rest: seq<nat>, table': map<Sig, nat>, pend': set<(nat, nat)>)
    requires Registered(ts, reg) && ClosedBut(ts, reg, links, table, pend, [app] + rest)
    requires app in reg && ts[app].Apply?
    requires SigOf(ts, links, app) !in table ==> table' == table[SigOf(ts, links, app) := app] && pend' == pend
    requires SigOf(ts, links, app) in table ==> table' == table && pend <= pend'
    requires SigOf(ts, links, app) in table ==>
      Root(links, table[SigOf(ts, links, app)]) == Root(links, app) || (table[SigOf(ts, links, app)], app) in pend'
    ensures ClosedBut(ts, reg, links, table', pend', rest)
  {
    var sig := SigOf(ts, links, app);
    KernelEquivalence(links);
    forall t | t in reg && ts[t].Apply? && t !in rest ensures Indexed(ts, links, table', pend', t) {
      if t == app {
        assert sig in table';
        if Root(links, table'[sig]) == Root(links, app) {
          assert (table'[sig], app) in Kernel(links);
        }
      } else {
        assert Indexed(ts, links, table, pend, t);
        MorePending(links, pend, pend', table[SigOf(ts, links, t)], t);
      }
    }
  }

  lemma MorePending(links: seq<Link>, pend: set<(nat, nat)>, pend': set<(nat, nat)>, t: nat, u: nat)
    requires Connected(links, pend, t, u) && pend <= pend'
    ensures Connected(links, pend', t, u)
  {
  }

  /** A pending pair whose classes have met is no longer pending. */
  lemma DropPending(ts: Arena, reg: set<nat>, links: seq<Link>, table: map<Sig, nat>, pend: set<(nat, nat)>, a: nat, b: nat)
    requires Registered(ts, reg) && Closed(ts, reg, links, table, pend + {(a, b)}) && Root(links, a) == Root(links, b)
    ensures Closed(ts, reg, links, table, pend)
  {
    assert (a, b) in Kernel(links);
    forall t | t in reg && ts[t].Apply? ensures Indexed(ts, links, table, pend, t) {
      assert Indexed(ts, links, table, pend + {(a, b)}, t);
    }
  }

  /** The child's use list is appended to the parent's. */
  lemma UsesAfterLink(ts: Arena, reg: set<nat>, links: seq<Link>, l: Link, uses: map<nat, seq<nat>>)
    requires Registered(ts, reg) && UsesOk(ts, reg, links, uses)
    ensures UsesOk(ts, reg, links + [l], uses[l.parent := Get(uses, l.parent) + Get(uses, l.child)])
  {
    var uses' := uses[l.parent := Get(uses, l.parent) + Get(uses, l.child)];
    forall t, i | t in reg && ts[t].Apply? && 0 <= i < |ts[t].args|
      ensures Root(links + [l], ts[t].args[i]) in uses' && t in uses'[Root(links + [l], ts[t].args[i])]
    {
      RootAppend(links, l, ts[t].args[i]);
      assert t in uses[Root(links, ts[t].args[i])];
    }
  }

  lemma LinksAfterLink(links: seq<Link>, reg: set<nat>, l: Link)
    requires LinksOk(links, reg) && l.child in reg && l.parent in reg && l.child != l.parent
    requires Root(links, l.child) == l.child && Root(links, l.parent) == l.parent
    ensures LinksOk(links + [l], reg)
  {
    var links' := links + [l];
    forall i | 0 <= i < |links'|
      ensures Root(links'[..i], links'[i].child) == links'[i].child && Root(links'[..i], links'[i].parent) == links'[i].parent
    {
      assert links'[..i] == links[..i];
      if i == |links| { assert links[..i] == links; }
    }
  }

  lemma EdgesAfterLink(ts: Arena, reg: set<nat>, links: seq<Link>, edges: seq<ProofEdge>, l: Link, e: ProofEdge, eqs: set<Equation>)
    requires Registered(ts, reg) && EdgesOk(ts, reg, links, edges, eqs)
    requires e.a in reg && e.b in reg && {Root(links, e.a), Root(links, e.b)} == {l.child, l.parent}
    requires e.reason.Some? ==> Equation(e.a, e.b, e.reason.value) in eqs
    requires e.reason == None ==> SameUpTo(ts, e.a, e.b, Kernel(links))
    ensures EdgesOk(ts, reg, links + [l], edges + [e], eqs)
  {
    var links', edges' := links + [l], edges + [e];
    forall i | 0 <= i < |links'| ensures EdgeOk(ts, reg, links', edges'[i], i, eqs) {
      assert links'[..i] == links[..i];
      if i < |links| { assert EdgeOk(ts, reg, links, edges[i], i, eqs); } else { assert links[..i] == links; }
    }
  }

  /** Applications equal up to the links stay so. */
  lemma SameUpToGrows(ts: Arena, links: seq<Link>, links': seq<Link>, t: nat, u: nat)
    requires t < |ts| && u < |ts| && SameUpTo(ts, t, u, Kernel(links)) && links <= links'
    ensures SameUpTo(ts, t, u, Kernel(links'))
  {
    forall i | 0 <= i < |ts[t].args| ensures (ts[t].args[i], ts[u].args[i]) in Kernel(links') {
      assert (ts[t].args[i], ts[u].args[i]) in Kernel(links);
      assert links'[..|links|] == links && links'[..|links'|] == links';
      JoinedStays(links', ts[t].args[i], ts[u].args[i], |links|, |links'|);
    }
  }

  /** Each link takes one representative away, so there are at most as many as terms. */
  lemma {:induction false} LinkCount(links: seq<Link>, reg: set<nat>) returns (gone: set<nat>)
    requires LinksOk(links, reg)
    ensures gone <= reg && |gone| == |links|
    ensures forall t :: t in gone <==> ParentOf(links, t) != t
    decreases |links|
  {
    if links == [] {
      gone := {};
    } else {
      var n := |links| - 1;
      LinksPrefix(links, reg, n);
      gone := LinkCount(links[..n], reg);
      RootIffNoParent(links[..n], reg, links[n].child);
      RootIffNoParent(links[..n], reg, links[n].parent);
      gone := gone + {links[n].child};
    }
  }

  lemma LinksBounded(links: seq<Link>, reg: set<nat>)
    requires LinksOk(links, reg)
    ensures |links| <= |reg|
  {
    var gone := LinkCount(links, reg);
    SubsetSize(gone, reg);
  }

  lemma {:induction false} SubsetSize(a: set<nat>, b: set<nat>)
    requires a <= b
    ensures |a| <= |b|
  {
    if a != {} {
      var x :| x in a;
      SubsetSize(a - {x}, b - {x});
    }
  }
}
