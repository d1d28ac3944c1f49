/** The clause arena and the two-watched-literal lists, as values, with the steps by which
    propagation changes them. */
module TwoWatched {
  import opened Lits
  import opened Trails

  datatype Clause = Clause(lits: seq<Lit>, lbd: nat, learned: bool, deleted: bool) {
    ghost predicate Wf(n: nat) {
      && 2 <= |lits|
      && (forall l :: l in lits ==> l.v < n)
      && (forall i, j :: 0 <= i < j < |lits| ==> lits[i].v != lits[j].v)
    }
  }

  datatype Watcher = Watcher(clause: nat, blocker: Lit)

  type Arena = seq<Clause>
  type Lists = seq<seq<Watcher>>

  ghost predicate ArenaWf(cls: Arena, n: nat) {
    forall id :: 0 <= id < |cls| ==> cls[id].Wf(n)
  }

  ghost predicate Live(cls: Arena, id: int) {
    0 <= id < |cls| && !cls[id].deleted
  }

  // ---------- watch lists ----------

  ghost predicate Watches(c: Clause, l: Lit) {
    2 <= |c.lits| && (l == c.lits[0] || l == c.lits[1])
  }

  ghost predicate GoodWatcher(cls: Arena, p: Lit, w: Watcher) {
    && w.clause < |cls|
    && (!cls[w.clause].deleted ==> Watches(cls[w.clause], p.Not()) && w.blocker in cls[w.clause].lits)
  }

  /** The list of the clauses to visit when `p` becomes true: each entry is good, and no live
      clause is entered twice. */
  ghost predicate ListOk(cls: Arena, p: Lit, ws: seq<Watcher>) {
    && (forall i :: 0 <= i < |ws| ==> GoodWatcher(cls, p, ws[i]))
    && (forall i, j :: 0 <= i < j < |ws| && ws[i].clause == ws[j].clause ==> cls[ws[i].clause].deleted)
  }

  ghost predicate Listed(ws: seq<Watcher>, id: int) {
    exists i :: 0 <= i < |ws| && ws[i].clause == id
  }

  ghost predicate Linked(cls: Arena, wl: Lists, n: nat) {
    && |wl| == 2 * n
    && (forall p: Lit :: p.v < n ==> ListOk(cls, p, wl[p.Index()]))
    && (forall id, l: Lit :: Live(cls, id) && l.v < n && Watches(cls[id], l) ==> Listed(wl[l.Not().Index()], id))
  }

  lemma ListedAppend(a: seq<Watcher>, b: seq<Watcher>, id: int)
    ensures Listed(a + b, id) <==> Listed(a, id) || Listed(b, id)
  {
    if Listed(a, id) {
      var i :| 0 <= i < |a| && a[i].clause == id;
      assert (a + b)[i].clause == id;
    }
    if Listed(b, id) {
      var i :| 0 <= i < |b| && b[i].clause == id;
      assert (a + b)[|a| + i].clause == id;
    }
    if Listed(a + b, id) {
      var i :| 0 <= i < |a + b| && (a + b)[i].clause == id;
      if i < |a| { assert a[i].clause == id; } else { assert b[i - |a|].clause == id; }
    }
  }

  /** In a good list with `w` in the middle, a live `w.clause` is entered nowhere else. */
  lemma ListedOnce(cls: Arena, p: Lit, keep: seq<Watcher>, w: Watcher, rest: seq<Watcher>)
    requires ListOk(cls, p, keep + [w] + rest)
    ensures w.clause < |cls|
    ensures !cls[w.clause].deleted ==> !Listed(keep, w.clause) && !Listed(rest, w.clause)
  {
    var ws := keep + [w] + rest;
    assert ws[|keep|] == w;
    if !cls[w.clause].deleted {
      forall i | 0 <= i < |keep| ensures keep[i].clause != w.clause {
        assert ws[i] == keep[i];
      }
      forall i | 0 <= i < |rest| ensures rest[i].clause != w.clause {
        assert ws[|keep| + 1 + i] == rest[i];
      }
    }
  }

  /** Dropping an entry keeps the list good. */
  lemma ListDrop(cls: Arena, p: Lit, keep: seq<Watcher>, w: Watcher, rest: seq<Watcher>)
    requires ListOk(cls, p, keep + [w] + rest)
    ensures ListOk(cls, p, keep + rest)
  {
    var ws, us := keep + [w] + rest, keep + rest;
    forall i | 0 <= i < |us| ensures GoodWatcher(cls, p, us[i]) {
      assert us[i] == ws[if i < |keep| then i else i + 1];
    }
    forall i, j | 0 <= i < j < |us| && us[i].clause == us[j].clause ensures cls[us[i].clause].deleted {
      assert us[i] == ws[if i < |keep| then i else i + 1];
      assert us[j] == ws[if j < |keep| then j else j + 1];
    }
  }

  lemma SkipDeleted(cls: Arena, wl: Lists, n: nat, p: Lit, keep: seq<Watcher>, w: Watcher, rest: seq<Watcher>)
    requires p.v < n && |wl| == 2 * n && Linked(cls, wl[p.Index() := keep + [w] + rest], n)
    requires w.clause < |cls| && cls[w.clause].deleted
    ensures Linked(cls, wl[p.Index() := keep + rest], n)
  {
    var a, b := wl[p.Index() := keep + [w] + rest], wl[p.Index() := keep + rest];
    assert ListOk(cls, p, a[p.Index()]);
    ListDrop(cls, p, keep, w, rest);
    forall q: Lit | q.v < n ensures ListOk(cls, q, b[q.Index()]) {
      assert q == p || (q.Index() != p.Index() && b[q.Index()] == a[q.Index()]);
    }
    forall id, l: Lit | Live(cls, id) && l.v < n && Watches(cls[id], l) ensures Listed(b[l.Not().Index()], id) {
      assert Listed(a[l.Not().Index()], id);
      if l.Not().Index() == p.Index() {
        ListedAppend(keep + [w], rest, id);
        ListedAppend(keep, [w], id);
        ListedAppend(keep, rest, id);
      }
    }
  }

  /** Keeping an entry with another literal of its clause as blocker. */
  lemma KeepWith(cls: Arena, wl: Lists, n: nat, p: Lit, keep: seq<Watcher>, w: Watcher, w': Watcher, rest: seq<Watcher>)
    requires p.v < n && |wl| == 2 * n && Linked(cls, wl[p.Index() := keep + [w] + rest], n)
    requires w.clause < |cls| && w'.clause == w.clause && w'.blocker in cls[w.clause].lits
    ensures Linked(cls, wl[p.Index() := keep + [w'] + rest], n)
  {
    var x, y := keep + [w] + rest, keep + [w'] + rest;
    var a, b := wl[p.Index() := x], wl[p.Index() := y];
    assert ListOk(cls, p, a[p.Index()]);
    assert forall i :: 0 <= i < |x| ==> (if i == |keep| then x[i] == w && y[i] == w' else x[i] == y[i]);
    forall q: Lit | q.v < n ensures ListOk(cls, q, b[q.Index()]) {
      assert q == p || (q.Index() != p.Index() && b[q.Index()] == a[q.Index()]);
    }
    forall id, l: Lit | Live(cls, id) && l.v < n && Watches(cls[id], l) ensures Listed(b[l.Not().Index()], id) {
      assert Listed(a[l.Not().Index()], id);
      if l.Not().Index() == p.Index() {
        var i :| 0 <= i < |x| && x[i].clause == id;
        assert y[i].clause == id;
      }
    }
  }

  /** `lits` with the entries at `i` and `j` exchanged. */
  function Exchanged(lits: seq<Lit>, i: nat, j: nat): seq<Lit>
    requires i < |lits| && j < |lits|
  {
    lits[i := lits[j]][j := lits[i]]
  }

  lemma ExchangedMembers(lits: seq<Lit>, i: nat, j: nat)
    requires i < |lits| && j < |lits|
    ensures forall l :: l in Exchanged(lits, i, j) <==> l in lits
  {
    var e := Exchanged(lits, i, j);
    assert forall k :: 0 <= k < |lits| ==> lits[k] == e[if k == i then j else if k == j then i else k];
    assert forall k :: 0 <= k < |lits| ==> e[k] == lits[if k == i then j else if k == j then i else k];
  }

  /** Exchanging the two watched literals of a clause. */
  lemma SwapFirst(cls: Arena, wl: Lists, n: nat, id: nat)
    requires ArenaWf(cls, n) && Linked(cls, wl, n) && id < |cls|
    ensures ArenaWf(cls[id := cls[id].(lits := Exchanged(cls[id].lits, 0, 1))], n)
    ensures Linked(cls[id := cls[id].(lits := Exchanged(cls[id].lits, 0, 1))], wl, n)
  {
    var cls' := cls[id := cls[id].(lits := Exchanged(cls[id].lits, 0, 1))];
    ExchangedMembers(cls[id].lits, 0, 1);
    forall p: Lit | p.v < n ensures ListOk(cls', p, wl[p.Index()]) {
      var ws := wl[p.Index()];
      assert ListOk(cls, p, ws);
      forall i | 0 <= i < |ws| ensures GoodWatcher(cls', p, ws[i]) {
        assert GoodWatcher(cls, p, ws[i]);
      }
    }
    forall k, l: Lit | Live(cls', k) && l.v < n && Watches(cls'[k], l) ensures Listed(wl[l.Not().Index()], k) {
      assert Live(cls, k) && Watches(cls[k], l);
    }
  }

  /** The watch of `p`'s negation moves to the literal at `i`: the entry leaves the list of `p`
      and a new one joins the list of the new watch. */
  ghost predicate Moves(cls: Arena, wl: Lists, n: nat, p: Lit, keep: seq<Watcher>, w: Watcher, rest: seq<Watcher>,
                        i: nat, blocker: Lit)
  {
    && p.v < n && |wl| == 2 * n && ArenaWf(cls, n) && Linked(cls, wl[p.Index() := keep + [w] + rest], n)
    && Live(cls, w.clause) && cls[w.clause].lits[1] == p.Not() && 2 <= i < |cls[w.clause].lits|
    && blocker in cls[w.clause].lits && cls[w.clause].lits[i].Not() != p
  }

  function Moved(cls: Arena, id: nat, i: nat): Arena
    requires id < |cls| && 1 < |cls[id].lits| && i < |cls[id].lits|
  {
    cls[id := cls[id].(lits := Exchanged(cls[id].lits, 1, i))]
  }

  lemma MoveWatch(cls: Arena, wl: Lists, n: nat, p: Lit, keep: seq<Watcher>, w: Watcher, rest: seq<Watcher>,
                  i: nat, blocker: Lit, wl': Lists)
    requires Moves(cls, wl, n, p, keep, w, rest, i, blocker)
    requires var np := cls[w.clause].lits[i].Not().Index();
             np < |wl| && wl' == wl[np := wl[np] + [Watcher(w.clause, blocker)]]
    ensures ArenaWf(Moved(cls, w.clause, i), n) && Linked(Moved(cls, w.clause, i), wl'[p.Index() := keep + rest], n)
  {
    var c := cls[w.clause].lits;
    assert c[i] in c;
    var cls' := Moved(cls, w.clause, i);
    var b := wl'[p.Index() := keep + rest];
    ExchangedMembers(c, 1, i);
    forall q: Lit | q.v < n ensures ListOk(cls', q, b[q.Index()]) {
      MoveListOk(cls, wl, n, p, keep, w, rest, i, blocker, wl', q);
    }
    forall k, l: Lit | Live(cls', k) && l.v < n && Watches(cls'[k], l) ensures Listed(b[l.Not().Index()], k) {
      MoveListed(cls, wl, n, p, keep, w, rest, i, blocker, wl', k, l);
    }
  }

  lemma MoveListOk(cls: Arena, wl: Lists, n: nat, p: Lit, keep: seq<Watcher>, w: Watcher, rest: seq<Watcher>,
                   i: nat, blocker: Lit, wl': Lists, q: Lit)
    requires Moves(cls, wl, n, p, keep, w, rest, i, blocker)
    requires var np := cls[w.clause].lits[i].Not().Index();
             np < |wl| && wl' == wl[np := wl[np] + [Watcher(w.clause, blocker)]]
    requires q.v < n
    ensures ListOk(Moved(cls, w.clause, i), q, wl'[p.Index() := keep + rest][q.Index()])
  {
    var c, np := cls[w.clause].lits, cls[w.clause].lits[i].Not();
    var cls' := Moved(cls, w.clause, i);
    var a := wl[p.Index() := keep + [w] + rest];
    assert np.Index() != p.Index();
    assert ListOk(cls, q, a[q.Index()]);
    var was := if q == p then keep + rest else a[q.Index()];
    ListedOnce(cls, p, keep, w, rest) by { assert ListOk(cls, p, a[p.Index()]); }
    if q == p {
      ListDrop(cls, p, keep, w, rest);
      ListedAppend(keep, rest, w.clause);
    }
    assert ListOk(cls, q, was);
    if Listed(was, w.clause) {
      var k :| 0 <= k < |was| && was[k].clause == w.clause;
      assert GoodWatcher(cls, q, was[k]);
      assert q.Not() == c[0] || q == p;
    }
    MovedListOk(cls, cls', q, was, w.clause, i);
    if q == np {
      ExchangedMembers(c, 1, i);
      assert q.Not() == c[i] && c[i] != c[0];
      AppendOk(cls', q, was, Watcher(w.clause, blocker));
    } else {
      assert q.Index() != np.Index();
      assert q == p || q.Index() != p.Index();
    }
  }

  lemma MoveListed(cls: Arena, wl: Lists, n: nat, p: Lit, keep: seq<Watcher>, w: Watcher, rest: seq<Watcher>,
                   i: nat, blocker: Lit, wl': Lists, k: int, l: Lit)
    requires Moves(cls, wl, n, p, keep, w, rest, i, blocker)
    requires var np := cls[w.clause].lits[i].Not().Index();
             np < |wl| && wl' == wl[np := wl[np] + [Watcher(w.clause, blocker)]]
    requires Live(Moved(cls, w.clause, i), k) && l.v < n && Watches(Moved(cls, w.clause, i)[k], l)
    ensures Listed(wl'[p.Index() := keep + rest][l.Not().Index()], k)
  {
    var c, np := cls[w.clause].lits, cls[w.clause].lits[i].Not();
    var a: Lists, b: Lists := wl[p.Index() := keep + [w] + rest], wl'[p.Index() := keep + rest];
    assert np.Index() != p.Index();
    if k == w.clause && l == c[i] {
      assert b[np.Index()][|wl[np.Index()]|].clause == k;
    } else {
      assert Live(cls, k) && Watches(cls[k], l);
      assert Listed(a[l.Not().Index()], k);
      if l.Not() == p {
        assert k != w.clause by {
          assert l == c[1] && c[0] != c[1] && c[i] != c[1];
        }
        ListedAppend(keep + [w], rest, k);
        ListedAppend(keep, [w], k);
        ListedAppend(keep, rest, k);
      } else {
        assert l.Not().Index() != p.Index();
        ListedAppend(wl[np.Index()], [Watcher(w.clause, blocker)], k);
      }
    }
  }

  lemma MovedListOk(cls: Arena, cls': Arena, q: Lit, ws: seq<Watcher>, id: nat, i: nat)
    requires id < |cls| && 2 <= i < |cls[id].lits|
    requires cls' == cls[id := cls[id].(lits := Exchanged(cls[id].lits, 1, i))]
    requires ListOk(cls, q, ws)
    requires Listed(ws, id) ==> q.Not() == cls[id].lits[0]
    ensures ListOk(cls', q, ws)
  {
    ExchangedMembers(cls[id].lits, 1, i);
    forall k | 0 <= k < |ws| ensures GoodWatcher(cls', q, ws[k]) {
      assert GoodWatcher(cls, q, ws[k]);
    }
  }

  lemma AppendOk(cls: Arena, q: Lit, ws: seq<Watcher>, w: Watcher)
    requires ListOk(cls, q, ws) && GoodWatcher(cls, q, w) && !Listed(ws, w.clause)
    ensures ListOk(cls, q, ws + [w])
  {
    var us := ws + [w];
    forall i | 0 <= i < |us| ensures GoodWatcher(cls, q, us[i]) {
      if i < |ws| { assert GoodWatcher(cls, q, ws[i]); }
    }
  }

  /** Attaching a new clause to the lists of its first two literals. */
  function Attached(wl: Lists, id: nat, c: seq<Lit>): Lists
    requires 2 <= |c| && c[0].Not().Index() < |wl| && c[1].Not().Index() < |wl|
  {
    var x, y := c[0].Not().Index(), c[1].Not().Index();
    var wl1 := wl[x := wl[x] + [Watcher(id, c[1])]];
    wl1[y := wl1[y] + [Watcher(id, c[0])]]
  }

  lemma AttachLinked(cls: Arena, wl: Lists, n: nat, c: Clause)
    requires ArenaWf(cls, n) && Linked(cls, wl, n) && c.Wf(n) && !c.deleted
    ensures c.lits[0].Not().Index() < |wl| && c.lits[1].Not().Index() < |wl|
    ensures ArenaWf(cls + [c], n) && Linked(cls + [c], Attached(wl, |cls|, c.lits), n)
  {
    var cls', id := cls + [c], |cls|;
    assert c.lits[0] in c.lits && c.lits[1] in c.lits;
    var x, y := c.lits[0].Not(), c.lits[1].Not();
    assert x.v != y.v;
    var b := Attached(wl, id, c.lits);
    forall q: Lit | q.v < n ensures ListOk(cls', q, b[q.Index()]) {
      var ws := wl[q.Index()];
      assert ListOk(cls, q, ws);
      assert ListOk(cls', q, ws) by {
        forall i | 0 <= i < |ws| ensures GoodWatcher(cls', q, ws[i]) { assert GoodWatcher(cls, q, ws[i]); }
      }
      forall i | 0 <= i < |ws| ensures ws[i].clause != id { assert GoodWatcher(cls, q, ws[i]); }
      assert q == x || q.Index() != x.Index();
      assert q == y || q.Index() != y.Index();
      if q == x { AppendOk(cls', q, ws, Watcher(id, c.lits[1])); }
      if q == y { AppendOk(cls', q, ws, Watcher(id, c.lits[0])); }
    }
    forall k, l: Lit | Live(cls', k) && l.v < n && Watches(cls'[k], l) ensures Listed(b[l.Not().Index()], k) {
      assert x.Index() != y.Index();
      if k == id {
        assert b[x.Index()][|wl[x.Index()]|].clause == id;
        assert b[y.Index()][|wl[y.Index()]|].clause == id;
      } else {
        assert Live(cls, k) && Watches(cls[k], l);
        assert Listed(wl[l.Not().Index()], k);
        ListedAppend(wl[x.Index()], [Watcher(id, c.lits[1])], k);
        ListedAppend(wl[y.Index()], [Watcher(id, c.lits[0])], k);
      }
    }
  }

  // ---------- what the watches mean ----------

  /** The weak watch invariant up to queue position `q`: once both watched literals are false
      and dequeued, some literal is true, and it was made true no later than the later of the two. */
  ghost predicate Settled(t: TrailState, c: seq<Lit>, q: nat)
    requires 2 <= |c| && q <= |t.lits|
    requires forall l :: l in c ==> l.v < |t.data|
  {
    c[0].Not() in t.lits[..q] && c[1].Not() in t.lits[..q] ==>
      exists l :: l in c && l in t.lits && (t.Level(l) <= t.Level(c[0]) || t.Level(l) <= t.Level(c[1]))
  }

  ghost predicate AllSettled(cls: Arena, t: TrailState, n: nat, q: nat)
    requires ArenaWf(cls, n) && t.Wf(n) && q <= |t.lits|
  {
    forall id :: Live(cls, id) ==> Settled(t, cls[id].lits, q)
  }

  lemma SettledEarlier(t: TrailState, n: nat, c: Clause, q: nat, r: nat)
    requires t.Wf(n) && c.Wf(n) && r <= q <= |t.lits|
    requires Settled(t, c.lits, q)
    ensures Settled(t, c.lits, r)
  {
    assert forall l :: l in t.lits[..r] ==> l in t.lits[..q];
  }

  lemma SettledAssign(t: TrailState, n: nat, c: Clause, q: nat, x: Lit, reason: Reason)
    requires t.Wf(n) && c.Wf(n) && q <= |t.lits| && x.v < n && !t.Defined(x)
    requires Settled(t, c.lits, q)
    ensures Settled(Assign(t, x, reason), c.lits, q)
  {
    var u := Assign(t, x, reason);
    assert u.lits[..q] == t.lits[..q];
    if c.lits[0].Not() in u.lits[..q] && c.lits[1].Not() in u.lits[..q] {
      assert c.lits[0].Not() in t.lits && c.lits[1].Not() in t.lits;
      var l :| l in c.lits && l in t.lits && (t.Level(l) <= t.Level(c.lits[0]) || t.Level(l) <= t.Level(c.lits[1]));
      assert forall y: Lit :: y in t.lits ==> y.v != x.v by {
        forall y: Lit | y in t.lits ensures y.v != x.v { assert y == x || y == x.Not() || y.v != x.v; }
      }
      assert l in u.lits;
    }
  }

  lemma SettledBacktrack(t: TrailState, n: nat, c: Clause, q: nat, k: nat)
    requires t.Wf(n) && c.Wf(n) && k < |t.lims| && t.lims[k] <= q <= |t.lits|
    requires Settled(t, c.lits, q)
    ensures Backtrack(t, k).Wf(n) && Settled(Backtrack(t, k), c.lits, t.lims[k])
  {
    BacktrackWf(t, n, k);
    var u := Backtrack(t, k);
    var a, b := c.lits[0], c.lits[1];
    if a.Not() in u.lits && b.Not() in u.lits {
      assert u.lits[..t.lims[k]] == u.lits;
      SettledEarlier(t, n, c, q, t.lims[k]);
      var l :| l in c.lits && l in t.lits && (t.Level(l) <= t.Level(a) || t.Level(l) <= t.Level(b));
      LevelPrefix(t, n, a.Not(), k);
      LevelPrefix(t, n, b.Not(), k);
      LevelPrefix(t, n, l, k);
    }
  }

  /** Dequeuing `p` disturbs no clause that does not watch its negation. */
  lemma SettledNext(t: TrailState, n: nat, c: Clause, q: nat)
    requires t.Wf(n) && c.Wf(n) && q < |t.lits|
    requires Settled(t, c.lits, q) && !Watches(c, t.lits[q].Not())
    ensures Settled(t, c.lits, q + 1)
  {
    assert t.lits[..q + 1] == t.lits[..q] + [t.lits[q]];
  }

  /** A clause with a true literal is settled if it watches a false literal of the current level. */
  lemma SettledByTrue(t: TrailState, n: nat, c: Clause, q: nat, p: Lit, l: Lit)
    requires t.Wf(n) && c.Wf(n) && q <= |t.lits|
    requires p in t.lits && t.Level(p) == |t.lims| && Watches(c, p.Not())
    requires l in c.lits && l in t.lits
    ensures Settled(t, c.lits, q)
  {
    LevelPrefix(t, n, l, 0);
  }

  /** A clause with a watched literal that is not false is settled. */
  lemma SettledByOpen(t: TrailState, n: nat, c: Clause, q: nat, l: Lit)
    requires t.Wf(n) && c.Wf(n) && q <= |t.lits| && Watches(c, l) && !t.IsFalse(l)
    ensures Settled(t, c.lits, q)
  {
    assert forall x :: x in t.lits[..q] ==> x in t.lits;
  }

  // ---------- reasons, coverage, soundness ----------

  /** The arena up to the order of literals inside clauses. */
  ghost predicate SameArena(a: Arena, b: Arena) {
    && |a| == |b|
    && forall id :: 0 <= id < |a| ==>
      && a[id].deleted == b[id].deleted && a[id].learned == b[id].learned && a[id].lbd == b[id].lbd
      && |a[id].lits| == |b[id].lits|
      && forall l :: l in a[id].lits <==> l in b[id].lits
  }

  lemma SameArenaRefl(a: Arena)
    ensures SameArena(a, a)
  {
  }

  lemma SameArenaExchange(a: Arena, id: nat, i: nat, j: nat)
    requires id < |a| && i < |a[id].lits| && j < |a[id].lits|
    ensures SameArena(a, a[id := a[id].(lits := Exchanged(a[id].lits, i, j))])
    ensures forall l :: l in Exchanged(a[id].lits, i, j) <==> l in a[id].lits
  {
    ExchangedMembers(a[id].lits, i, j);
  }

  lemma SameArenaTrans(a: Arena, b: Arena, c: Arena)
    requires SameArena(a, b) && SameArena(b, c)
    ensures SameArena(a, c)
  {
  }

  /** The arena `b` still holds every clause of `a`, perhaps flagged deleted, and no original
      clause became deleted. */
  ghost predicate Extends(a: Arena, b: Arena) {
    && |a| <= |b|
    && forall id :: 0 <= id < |a| ==>
      && a[id].learned == b[id].learned
      && (a[id].deleted ==> b[id].deleted)
      && (!a[id].learned ==> a[id].deleted == b[id].deleted)
      && forall l :: l in a[id].lits <==> l in b[id].lits
  }

  /** The literal at position `i` was decided first in its level, or its clause is unit under
      the literals before it. */
  ghost predicate ReasonOk(cls: Arena, t: TrailState, i: nat)
    requires i < |t.lits| && t.lits[i].v < |t.data|
  {
    var d := t.data[t.lits[i].v];
    match d.reason
    case Decision => 0 < d.level <= |t.lims| && t.lims[d.level - 1] == i
    case Unit => false
    case FromClause(id) =>
      && id < |cls| && t.lits[i] in cls[id].lits
      && forall l :: l in cls[id].lits ==> l == t.lits[i] || l.Not() in t.lits[..i]
  }

  ghost predicate ReasonsOk(cls: Arena, t: TrailState, n: nat)
    requires t.Wf(n)
  {
    forall i :: t.End(0) <= i < |t.lits| ==> ReasonOk(cls, t, i)
  }

  lemma ReasonsExtend(a: Arena, b: Arena, t: TrailState, n: nat)
    requires t.Wf(n) && ReasonsOk(a, t, n) && Extends(a, b)
    ensures ReasonsOk(b, t, n)
  {
    forall i | t.End(0) <= i < |t.lits| ensures ReasonOk(b, t, i) {
      assert ReasonOk(a, t, i);
    }
  }

  lemma ReasonsBacktrack(cls: Arena, t: TrailState, n: nat, k: nat)
    requires t.Wf(n) && ReasonsOk(cls, t, n)
    ensures Backtrack(t, k).Wf(n) && ReasonsOk(cls, Backtrack(t, k), n)
  {
    BacktrackWf(t, n, k);
    var u := Backtrack(t, k);
    if k < |t.lims| {
      forall i | u.End(0) <= i < |u.lits| ensures ReasonOk(cls, u, i) {
        assert t.End(0) <= i;
        assert ReasonOk(cls, t, i);
        assert u.lits[..i] == t.lits[..i];
        assert u.lits[i] in u.lits;
        assert u.AtLevel(i, u.data[u.lits[i].v].level);
      }
    }
  }

  /** Assigning `x` with reason `id` when every other literal of that clause is false. */
  lemma ReasonsAssign(cls: Arena, t: TrailState, n: nat, x: Lit, reason: Reason)
    requires t.Wf(n) && ReasonsOk(cls, t, n) && x.v < n && !t.Defined(x)
    requires reason.Decision? ==> t.lims != [] && t.lims[|t.lims| - 1] == |t.lits|
    requires reason.Unit? ==> t.lims == []
    requires reason.FromClause? && t.lims != [] ==>
      (reason.cid < |cls| && x in cls[reason.cid].lits
       && forall l :: l in cls[reason.cid].lits ==> l == x || t.IsFalse(l))
    ensures Assign(t, x, reason).Wf(n) && ReasonsOk(cls, Assign(t, x, reason), n)
  {
    AssignWf(t, n, x, reason);
    var u := Assign(t, x, reason);
    forall i | u.End(0) <= i < |u.lits| ensures ReasonOk(cls, u, i) {
      assert u.lits[..i] == t.lits[..i];
      if i < |t.lits| {
        assert ReasonOk(cls, t, i);
        assert t.lits[i].v != x.v by { assert u.lits[|t.lits|] == x; }
      } else {
        assert t.lits[..i] == t.lits;
      }
    }
  }

  ghost predicate Tautology(c: seq<Lit>, n: nat) {
    exists l :: l in c && l.Not() in c && l.v < n
  }

  /** Some original clause of the arena is live and has only literals of `c`. */
  ghost predicate Stored(cls: Arena, c: seq<Lit>) {
    exists id :: Live(cls, id) && !cls[id].learned && forall l :: l in cls[id].lits ==> l in c
  }

  /** Each added clause is true at level 0, or valid, or still represented in the arena. */
  ghost predicate Covered(f: Cnf, cls: Arena, t: TrailState, n: nat)
    requires t.Wf(n)
  {
    forall c :: c in f ==> Tautology(c, n) || (exists l :: l in c && l in t.lits[..t.End(0)]) || Stored(cls, c)
  }

  lemma CoveredExtend(f: Cnf, a: Arena, b: Arena, t: TrailState, u: TrailState, n: nat)
    requires t.Wf(n) && u.Wf(n) && Covered(f, a, t, n) && Extends(a, b)
    requires forall l :: l in t.lits[..t.End(0)] ==> l in u.lits[..u.End(0)]
    ensures Covered(f, b, u, n)
  {
    forall c | c in f ensures Tautology(c, n) || (exists l :: l in c && l in u.lits[..u.End(0)]) || Stored(b, c) {
      if Stored(a, c) {
        var id :| Live(a, id) && !a[id].learned && forall l :: l in a[id].lits ==> l in c;
        assert Live(b, id);
      }
    }
  }

  /** Every stored clause, live or deleted, follows from the added ones, and so does every
      literal assigned at level 0. */
  ghost predicate Sound(f: Cnf, cls: Arena, t: TrailState, n: nat)
    requires t.Wf(n)
  {
    && (forall id :: 0 <= id < |cls| ==> Entails(f, cls[id].lits))
    && (forall l :: l in t.lits[..t.End(0)] ==> Entails(f, [l]))
  }

  /** A clause whose other literals are all refuted entails the remaining one. */
  lemma UnitEntailed(f: Cnf, c: seq<Lit>, x: Lit)
    requires Entails(f, c)
    requires forall l :: l in c ==> l == x || Entails(f, [l.Not()])
    ensures Entails(f, [x])
  {
    forall m: Valuation | Models(m, f) ensures SatClause(m, [x]) {
      assert SatClause(m, c);
      var l :| l in c && Holds(m, l);
      if l != x {
        assert SatClause(m, [l.Not()]);
      }
      assert x in [x];
    }
  }

  /** A clause all of whose literals are refuted makes the clauses unsatisfiable. */
  lemma AllRefuted(f: Cnf, c: seq<Lit>)
    requires Entails(f, c)
    requires forall l :: l in c ==> Entails(f, [l.Not()])
    ensures Unsat(f)
  {
    forall m: Valuation ensures !Models(m, f) {
      forall l | l in c ensures Models(m, f) ==> !Holds(m, l) {
        assert Models(m, f) ==> SatClause(m, [l.Not()]);
      }
      assert Models(m, f) ==> SatClause(m, c);
    }
  }
}
