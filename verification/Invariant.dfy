/** The invariant of the CDCL search and the lemmas by which each step keeps it. */
module SearchInvariant {
  import opened Lits
  import opened Trails
  import opened TwoWatched

  /** What holds in every state of the search, `f` being every clause added so far. `lost` has a unit
      clause for each literal of a longer clause that a restart has asserted at level 0, where nothing
      supports it: what the solver knows follows from `f` together with those. */
  ghost predicate Core(f: Cnf, cls: Arena, wl: Lists, t: TrailState, n: nat, lost: Cnf) {
    && t.Wf(n)
    && ArenaWf(cls, n)
    && Linked(cls, wl, n)
    && ReasonsOk(cls, t, n)
    && Covered(f, cls, t, n)
    && Sound(f + lost, cls, t, n)
  }

  ghost predicate LimsBelow(t: TrailState, q: nat) {
    forall k :: 0 <= k < |t.lims| ==> t.lims[k] <= q
  }

  lemma LimsBelowEnd(t: TrailState, n: nat)
    requires t.Wf(n)
    ensures LimsBelow(t, |t.lits|)
  {
  }

  /** While the list of the literal at position `q` is visited, every live clause is settled up
      to `q`, and up to `q + 1` unless it is still pending. */
  ghost predicate Visiting(cls: Arena, t: TrailState, n: nat, q: nat, pend: seq<Watcher>)
    requires ArenaWf(cls, n) && t.Wf(n)
  {
    && q < |t.lits| && t.qhead == q + 1 && LimsBelow(t, q)
    && AllSettled(cls, t, n, q)
    && forall id :: Live(cls, id) && !Listed(pend, id) ==> Settled(t, cls[id].lits, q + 1)
  }

  lemma CoreFacts(f: Cnf, cls: Arena, wl: Lists, t: TrailState, n: nat, lost: Cnf)
    requires Core(f, cls, wl, t, n, lost)
    ensures t.Wf(n) && t.Sized(n) && ArenaWf(cls, n) && |wl| == 2 * n
  {
  }

  lemma CoreReasons(f: Cnf, cls: Arena, wl: Lists, t: TrailState, n: nat, lost: Cnf)
    requires Core(f, cls, wl, t, n, lost)
    ensures ReasonsOk(cls, t, n)
  {
  }

  lemma CoreSound(f: Cnf, cls: Arena, wl: Lists, t: TrailState, n: nat, lost: Cnf)
    requires Core(f, cls, wl, t, n, lost)
    ensures t.Wf(n) && Sound(f + lost, cls, t, n)
  {
  }

  lemma ExtendsRefl(a: Arena)
    ensures Extends(a, a)
  {
  }

  /** Replacing the arena by an extension of the same length, with lists to match. */
  lemma CoreExtend(f: Cnf, a: Arena, b: Arena, wl: Lists, wl': Lists, t: TrailState, n: nat, lost: Cnf)
    requires Core(f, a, wl, t, n, lost)
    requires |a| == |b| && Extends(a, b) && ArenaWf(b, n) && Linked(b, wl', n)
    ensures Core(f, b, wl', t, n, lost)
  {
    ReasonsExtend(a, b, t, n);
    CoveredExtend(f, a, b, t, t, n);
    forall id | 0 <= id < |b| ensures Entails(f + lost, b[id].lits) {
      EntailsMono(f + lost, f + lost, a[id].lits, b[id].lits);
    }
  }

  lemma ExchangeExtends(cls: Arena, id: nat, i: nat, j: nat)
    requires id < |cls| && i < |cls[id].lits| && j < |cls[id].lits|
    ensures Extends(cls, cls[id := cls[id].(lits := Exchanged(cls[id].lits, i, j))])
  {
    ExchangedMembers(cls[id].lits, i, j);
  }

  /** Propagating `x` from a clause whose other literals are false. */
  lemma CorePropagate(f: Cnf, cls: Arena, wl: Lists, t: TrailState, n: nat, lost: Cnf, id: nat, x: Lit)
    requires Core(f, cls, wl, t, n, lost)
    requires id < |cls| && x in cls[id].lits && !t.Defined(x)
    requires forall l :: l in cls[id].lits ==> l == x || t.IsFalse(l)
    ensures Core(f, cls, wl, Assign(t, x, FromClause(id)), n, lost)
  {
    hide Linked, ReasonsOk, Covered, Entails;
    var u := Assign(t, x, FromClause(id));
    ReasonsAssign(cls, t, n, x, FromClause(id));
    EndZeroAssign(t, n, x, FromClause(id));
    ExtendsRefl(cls);
    CoveredExtend(f, cls, cls, t, u, n);
    SoundPropagate(f + lost, cls, t, n, id, x);
  }

  /** At level 0 the propagated literal is entailed; above it nothing changes at level 0. */
  lemma SoundPropagate(f: Cnf, cls: Arena, t: TrailState, n: nat, id: nat, x: Lit)
    requires t.Wf(n) && Sound(f, cls, t, n) && id < |cls| && x in cls[id].lits && x.v < n && !t.Defined(x)
    requires forall l :: l in cls[id].lits ==> l == x || t.IsFalse(l)
    requires Assign(t, x, FromClause(id)).Wf(n)
    ensures Sound(f, cls, Assign(t, x, FromClause(id)), n)
  {
    hide Entails;
    EndZeroAssign(t, n, x, FromClause(id));
    if t.lims == [] {
      assert t.lits[..t.End(0)] == t.lits;
      UnitEntailed(f, cls[id].lits, x);
    }
  }

  /** An assignment changes the level-0 stretch only at level 0, and then appends to it. */
  lemma EndZeroAssign(t: TrailState, n: nat, x: Lit, reason: Reason)
    requires t.Wf(n) && x.v < n
    ensures var u := Assign(t, x, reason);
            u.lits[..u.End(0)] == if t.lims == [] then t.lits[..t.End(0)] + [x] else t.lits[..t.End(0)]
  {
  }

  /** Moving the queue head alone. */
  lemma CoreQueue(f: Cnf, cls: Arena, wl: Lists, t: TrailState, n: nat, lost: Cnf, q: nat)
    requires Core(f, cls, wl, t, n, lost) && q <= |t.lits|
    ensures Core(f, cls, wl, t.(qhead := q), n, lost)
  {
    var u := t.(qhead := q);
    forall i | 0 <= i < |u.lits| ensures u.AtLevel(i, u.data[u.lits[i].v].level) {
      assert t.AtLevel(i, t.data[t.lits[i].v].level);
    }
    forall i | u.End(0) <= i < |u.lits| ensures ReasonOk(cls, u, i) {
      assert ReasonOk(cls, t, i);
    }
    ExtendsRefl(cls);
    CoveredExtend(f, cls, cls, t, u, n);
  }

  lemma CoreBacktrack(f: Cnf, cls: Arena, wl: Lists, t: TrailState, n: nat, lost: Cnf, k: nat)
    requires Core(f, cls, wl, t, n, lost)
    ensures Core(f, cls, wl, Backtrack(t, k), n, lost)
  {
    var u := Backtrack(t, k);
    ReasonsBacktrack(cls, t, n, k);
    assert u.lits[..u.End(0)] == t.lits[..t.End(0)];
    ExtendsRefl(cls);
    CoveredExtend(f, cls, cls, t, u, n);
  }

  /** Opening a level, then assigning a decision as its first literal. */
  lemma CoreDecide(f: Cnf, cls: Arena, wl: Lists, t: TrailState, n: nat, lost: Cnf, x: Lit)
    requires Core(f, cls, wl, t, n, lost) && x.v < n && !t.Defined(x)
    requires t.(lims := t.lims + [|t.lits|]).Wf(n)
    ensures Core(f, cls, wl, Assign(t.(lims := t.lims + [|t.lits|]), x, Decision), n, lost)
  {
    var s := t.(lims := t.lims + [|t.lits|]);
    assert s.lits[..s.End(0)] == t.lits[..t.End(0)];
    ExtendsRefl(cls);
    CoveredExtend(f, cls, cls, t, s, n);
    forall i | s.End(0) <= i < |s.lits| ensures ReasonOk(cls, s, i) {
      assert ReasonOk(cls, t, i);
    }
    ReasonsAssign(cls, s, n, x, Decision);
    EndZeroAssign(s, n, x, Decision);
    CoveredExtend(f, cls, cls, s, Assign(s, x, Decision), n);
  }

  lemma SettledAllAssign(cls: Arena, t: TrailState, n: nat, q: nat, x: Lit, reason: Reason)
    requires ArenaWf(cls, n) && t.Wf(n) && q <= |t.lits| && x.v < n && !t.Defined(x)
    requires AllSettled(cls, t, n, q)
    ensures Assign(t, x, reason).Wf(n) && AllSettled(cls, Assign(t, x, reason), n, q)
  {
    AssignWf(t, n, x, reason);
    forall id | Live(cls, id) ensures Settled(Assign(t, x, reason), cls[id].lits, q) {
      SettledAssign(t, n, cls[id], q, x, reason);
    }
  }

  /** Opening a level moves nothing. */
  lemma SettledLevel(cls: Arena, t: TrailState, n: nat, q: nat, s: TrailState)
    requires ArenaWf(cls, n) && t.Wf(n) && s.Wf(n) && q <= |t.lits| && AllSettled(cls, t, n, q)
    requires s == t.(lims := s.lims)
    ensures AllSettled(cls, s, n, q)
  {
    forall id | Live(cls, id) ensures Settled(s, cls[id].lits, q) {
      assert Settled(t, cls[id].lits, q);
      assert forall l :: l in cls[id].lits ==> s.Level(l) == t.Level(l);
      assert cls[id].lits[0] in cls[id].lits && cls[id].lits[1] in cls[id].lits;
    }
  }

  lemma SettledAllBacktrack(cls: Arena, t: TrailState, n: nat, q: nat, k: nat)
    requires ArenaWf(cls, n) && t.Wf(n) && k < |t.lims| && t.lims[k] <= q <= |t.lits|
    requires AllSettled(cls, t, n, q)
    ensures Backtrack(t, k).Wf(n) && AllSettled(cls, Backtrack(t, k), n, t.lims[k])
  {
    BacktrackWf(t, n, k);
    forall id | Live(cls, id) ensures Settled(Backtrack(t, k), cls[id].lits, t.lims[k]) {
      SettledBacktrack(t, n, cls[id], q, k);
    }
  }

  /** The current literal of the queue belongs to the current level. */
  lemma CurrentLevel(t: TrailState, n: nat, q: nat)
    requires t.Wf(n) && q < |t.lits| && LimsBelow(t, q)
    ensures t.Level(t.lits[q]) == |t.lims| && t.lits[q].v < n
  {
    assert t.lits[q] in t.lits;
    assert t.AtLevel(q, t.data[t.lits[q].v].level);
  }

  /** All literals of a clause false at level 0: the added clauses have no model, given what was lost. */
  lemma ConflictAtZero(f: Cnf, cls: Arena, wl: Lists, t: TrailState, n: nat, lost: Cnf, id: nat)
    requires Core(f, cls, wl, t, n, lost) && t.lims == [] && id < |cls|
    requires forall l :: l in cls[id].lits ==> t.IsFalse(l)
    ensures Unsat(f + lost)
  {
    assert t.lits[..t.End(0)] == t.lits;
    AllRefuted(f + lost, cls[id].lits);
  }

  /** When every variable is assigned and every dequeued watch is settled, the trail satisfies
      every live clause, hence every added one. */
  lemma FullTrailIsModel(f: Cnf, cls: Arena, wl: Lists, t: TrailState, n: nat, lost: Cnf)
    requires Core(f, cls, wl, t, n, lost) && t.qhead == |t.lits|
    requires AllSettled(cls, t, n, t.qhead)
    requires forall v :: 0 <= v < n ==> t.assigns[v] != Undef
    ensures forall c :: c in f ==> Tautology(c, n) || exists l :: l in c && l in t.lits
  {
    forall c | c in f ensures Tautology(c, n) || exists l :: l in c && l in t.lits {
      if exists l :: l in c && l in t.lits[..t.End(0)] {
        var l :| l in c && l in t.lits[..t.End(0)];
        assert l in t.lits;
      } else if Stored(cls, c) {
        var id :| Live(cls, id) && !cls[id].learned && forall l :: l in cls[id].lits ==> l in c;
        var l := TrueLiteral(cls, t, n, id);
      }
    }
  }

  /** The total valuation that a full assignment stands for. */
  ghost function ModelOf(assigns: seq<LBool>): Valuation {
    iset v | 0 <= v < |assigns| && assigns[v] == True
  }

  lemma FullTrailSatisfies(f: Cnf, cls: Arena, wl: Lists, t: TrailState, n: nat, lost: Cnf)
    requires Core(f, cls, wl, t, n, lost) && t.qhead == |t.lits|
    requires AllSettled(cls, t, n, t.qhead)
    requires |t.assigns| == n && forall v :: 0 <= v < n ==> t.assigns[v] != Undef
    ensures Models(ModelOf(t.assigns), f)
  {
    FullTrailIsModel(f, cls, wl, t, n, lost);
    var m := ModelOf(t.assigns);
    forall c | c in f ensures SatClause(m, c) {
      if Tautology(c, n) {
        var l :| l in c && l.Not() in c && l.v < n;
        HoldsNot(m, l);
      } else {
        var l :| l in c && l in t.lits;
        assert Holds(m, l);
      }
    }
  }

  /** A clause that the cleaning step found satisfied, or valid. */
  lemma CleanedAway(c: seq<Lit>, d: seq<Lit>, t: TrailState, n: nat)
    requires forall l :: l in d ==> l in c && l.v < n
    requires Tautology(d, n) || exists l :: l in d && t.IsTrue(l)
    requires t.lims == []
    ensures Tautology(c, n) || exists l :: l in c && l in t.lits[..t.End(0)]
  {
    assert t.lits[..t.End(0)] == t.lits;
    if Tautology(d, n) {
      var l :| l in d && l.Not() in d && l.v < n;
      assert l in c && l.Not() in c;
    }
  }

  lemma TrueLiteral(cls: Arena, t: TrailState, n: nat, id: nat) returns (l: Lit)
    requires ArenaWf(cls, n) && t.Wf(n) && Live(cls, id) && Settled(t, cls[id].lits, |t.lits|)
    requires forall v :: 0 <= v < n ==> t.assigns[v] != Undef
    ensures l in cls[id].lits && l in t.lits
  {
    var c := cls[id].lits;
    assert c[0] in c && c[1] in c;
    assert t.lits[..|t.lits|] == t.lits;
    if c[0] in t.lits {
      l := c[0];
    } else if c[1] in t.lits {
      l := c[1];
    } else {
      assert c[0].Not() in t.lits && c[1].Not() in t.lits;
      l :| l in c && l in t.lits && (t.Level(l) <= t.Level(c[0]) || t.Level(l) <= t.Level(c[1]));
    }
  }

  // ---------- growing and shrinking the database ----------

  /** A new clause joins the arena and the lists of its first two literals. */
  lemma CoreLearn(f: Cnf, cls: Arena, wl: Lists, t: TrailState, n: nat, lost: Cnf, c: Clause)
    requires Core(f, cls, wl, t, n, lost)
    requires c.Wf(n) && !c.deleted && Entails(f + lost, c.lits)
    ensures c.lits[0].Not().Index() < |wl| && c.lits[1].Not().Index() < |wl|
    ensures Core(f, cls + [c], Attached(wl, |cls|, c.lits), t, n, lost)
  {
    AttachLinked(cls, wl, n, c);
    assert Extends(cls, cls + [c]);
    ReasonsExtend(cls, cls + [c], t, n);
    CoveredExtend(f, cls, cls + [c], t, t, n);
  }

  /** Flagging a learned clause as deleted. */
  function Deleted(cls: Arena, id: nat): Arena
    requires id < |cls|
  {
    cls[id := cls[id].(deleted := true)]
  }

  lemma CoreDelete(f: Cnf, cls: Arena, wl: Lists, t: TrailState, n: nat, lost: Cnf, id: nat)
    requires Core(f, cls, wl, t, n, lost) && id < |cls| && cls[id].learned
    ensures Core(f, Deleted(cls, id), wl, t, n, lost)
  {
    var b := Deleted(cls, id);
    forall p: Lit | p.v < n ensures ListOk(b, p, wl[p.Index()]) {
      var ws := wl[p.Index()];
      assert ListOk(cls, p, ws);
      forall i | 0 <= i < |ws| ensures GoodWatcher(b, p, ws[i]) {
        assert GoodWatcher(cls, p, ws[i]);
      }
    }
    forall k, l: Lit | Live(b, k) && l.v < n && Watches(b[k], l) ensures Listed(wl[l.Not().Index()], k) {
      assert Live(cls, k) && Watches(cls[k], l);
    }
    CoreExtend(f, cls, b, wl, wl, t, n, lost);
  }

  lemma SettledDelete(cls: Arena, t: TrailState, n: nat, q: nat, id: nat)
    requires ArenaWf(cls, n) && t.Wf(n) && q <= |t.lits| && AllSettled(cls, t, n, q) && id < |cls|
    ensures ArenaWf(Deleted(cls, id), n) && AllSettled(Deleted(cls, id), t, n, q)
  {
    forall k | Live(Deleted(cls, id), k) ensures Settled(t, Deleted(cls, id)[k].lits, q) {
      assert Live(cls, k);
    }
  }

  /** A literal assigned at level 0 without a clause to justify it. */
  lemma CoreAssertAtZero(f: Cnf, cls: Arena, wl: Lists, t: TrailState, n: nat, lost: Cnf, x: Lit, reason: Reason)
    requires Core(f, cls, wl, t, n, lost) && t.lims == [] && x.v < n && !t.Defined(x) && !reason.Decision?
    requires Entails(f + lost, [x])
    ensures Core(f, cls, wl, Assign(t, x, reason), n, lost)
  {
    var u := Assign(t, x, reason);
    ReasonsAssign(cls, t, n, x, reason);
    EndZeroAssign(t, n, x, reason);
    ExtendsRefl(cls);
    CoveredExtend(f, cls, cls, t, u, n);
  }

  /** A restart is about to assert a literal that nothing supports. */
  lemma CoreLose(f: Cnf, cls: Arena, wl: Lists, t: TrailState, n: nat, lost: Cnf, lost': Cnf)
    requires Core(f, cls, wl, t, n, lost) && forall c :: c in lost ==> c in lost'
    ensures Core(f, cls, wl, t, n, lost')
  {
    SoundMore(f + lost, f + lost', cls, t, n);
  }

  /** One more clause is on record, already covered by what is stored. */
  lemma CoreRecord(f: Cnf, cls: Arena, wl: Lists, t: TrailState, n: nat, lost: Cnf, c: seq<Lit>)
    requires Core(f, cls, wl, t, n, lost)
    requires Tautology(c, n) || (exists l :: l in c && l in t.lits[..t.End(0)]) || Stored(cls, c)
    ensures Core(f + [c], cls, wl, t, n, lost)
  {
    SoundMore(f + lost, f + [c] + lost, cls, t, n);
  }

  // ---------- learning after a backjump ----------

  /** `x` is the literal of slot 0 of a new learned clause, the rest of which is false, unless a
      restart has undone that and the literal is lost. */
  lemma CoreAssertLearned(f: Cnf, cls: Arena, wl: Lists, t: TrailState, n: nat, lost: Cnf, c: Clause)
    requires Core(f, cls, wl, t, n, lost)
    requires c.Wf(n) && !c.deleted && Entails(f + lost, c.lits)
    requires !t.Defined(c.lits[0])
    requires (forall l :: l in c.lits[1..] ==> t.IsFalse(l)) || ([c.lits[0]] in lost && t.lims == [])
    ensures c.lits[0].v < n && c.lits[0].Not().Index() < |wl| && c.lits[1].Not().Index() < |wl|
    ensures t.Sized(n)
    ensures Core(f, cls + [c], Attached(wl, |cls|, c.lits), Assign(t, c.lits[0], FromClause(|cls|)), n, lost)
  {
    var x, b := c.lits[0], cls + [c];
    CoreLearn(f, cls, wl, t, n, lost, c);
    assert x in c.lits;
    if forall l :: l in c.lits[1..] ==> t.IsFalse(l) {
      forall l | l in c.lits ensures l == x || t.IsFalse(l) {
        assert l == x || l in c.lits[1..];
      }
      CorePropagate(f, b, Attached(wl, |cls|, c.lits), t, n, lost, |cls|, x);
    } else {
      OwnClause(f + lost, [x]);
      CoreAssertAtZero(f, b, Attached(wl, |cls|, c.lits), t, n, lost, x, FromClause(|cls|));
    }
  }

  // ---------- adding a clause at level 0 ----------

  /** The added clause `c` has one literal left that is not refuted at level 0. */
  lemma CoreAddUnit(f: Cnf, cls: Arena, wl: Lists, t: TrailState, n: nat, lost: Cnf, c: seq<Lit>, x: Lit)
    requires Core(f, cls, wl, t, n, lost) && t.lims == []
    requires x in c && x.v < n && !t.Defined(x) && forall l :: l in c ==> l == x || t.IsFalse(l)
    ensures Core(f + [c], cls, wl, Assign(t, x, Unit), n, lost)
  {
    hide Linked, ReasonsOk, ArenaWf, Sound;
    var u, g := Assign(t, x, Unit), f + [c];
    ReasonsAssign(cls, t, n, x, Unit);
    EndZeroAssign(t, n, x, Unit);
    assert t.lits[..t.End(0)] == t.lits;
    ExtendsRefl(cls);
    CoveredExtend(f, cls, cls, t, u, n);
    SoundAddUnit(f + lost, g + lost, cls, t, n, c, x);
  }

  lemma SoundAddUnit(f: Cnf, g: Cnf, cls: Arena, t: TrailState, n: nat, c: seq<Lit>, x: Lit)
    requires c in g && forall d :: d in f ==> d in g
    requires t.Wf(n) && t.lims == [] && Sound(f, cls, t, n) && x in c && x.v < n && !t.Defined(x)
    requires (forall l :: l in c ==> l == x || t.IsFalse(l)) && Assign(t, x, Unit).Wf(n)
    ensures Sound(g, cls, Assign(t, x, Unit), n)
  {
    hide Entails;
    EndZeroAssign(t, n, x, Unit);
    assert t.lits[..t.End(0)] == t.lits;
    SoundMore(f, g, cls, t, n);
    OwnClause(g, c);
    forall l | l in c && l != x ensures Entails(g, [l.Not()]) {
      assert l.Not() in t.lits[..t.End(0)];
    }
    UnitEntailed(g, c, x);
  }

  lemma OwnClause(g: Cnf, c: seq<Lit>)
    requires c in g
    ensures Entails(g, c)
  {
  }

  lemma SoundMore(f: Cnf, g: Cnf, cls: Arena, t: TrailState, n: nat)
    requires t.Wf(n) && Sound(f, cls, t, n) && forall c :: c in f ==> c in g
    ensures Sound(g, cls, t, n)
  {
    forall id | 0 <= id < |cls| ensures Entails(g, cls[id].lits) {
      EntailsMono(f, g, cls[id].lits, cls[id].lits);
    }
    forall l | l in t.lits[..t.End(0)] ensures Entails(g, [l]) {
      EntailsMono(f, g, [l], [l]);
    }
  }

  /** The added clause `c` is stored without the literals refuted at level 0. */
  lemma CoreAddStored(f: Cnf, cls: Arena, wl: Lists, t: TrailState, n: nat, lost: Cnf, c: seq<Lit>, s: Clause)
    requires Core(f, cls, wl, t, n, lost) && t.lims == []
    requires s.Wf(n) && !s.deleted && !s.learned
    requires forall l :: l in s.lits ==> l in c
    requires forall l :: l in c ==> l in s.lits || t.IsFalse(l)
    ensures s.lits[0].Not().Index() < |wl| && s.lits[1].Not().Index() < |wl|
    ensures Core(f + [c], cls + [s], Attached(wl, |cls|, s.lits), t, n, lost)
  {
    var g, b := f + [c], cls + [s];
    AttachLinked(cls, wl, n, s);
    assert Extends(cls, b);
    ReasonsExtend(cls, b, t, n);
    CoveredExtend(f, cls, b, t, t, n);
    assert Stored(b, c) by { assert Live(b, |cls|); }
    SoundMore(f + lost, g + lost, cls, t, n);
    assert t.lits[..t.End(0)] == t.lits;
    CleanedEntailed(g + lost, c, s.lits);
  }

  lemma CleanedEntailed(f: Cnf, c: seq<Lit>, d: seq<Lit>)
    requires c in f && forall l :: l in c ==> l in d || Entails(f, [l.Not()])
    ensures Entails(f, d)
  {
    forall m: Valuation | Models(m, f) ensures SatClause(m, d) {
      assert SatClause(m, c);
      var l :| l in c && Holds(m, l);
      assert l in d || SatClause(m, [l.Not()]);
    }
  }

  /** Every literal of the added clause is refuted at level 0. */
  lemma AddFalsified(f: Cnf, cls: Arena, wl: Lists, t: TrailState, n: nat, lost: Cnf, c: seq<Lit>)
    requires Core(f, cls, wl, t, n, lost) && t.lims == [] && forall l :: l in c ==> t.IsFalse(l)
    ensures Unsat(f + [c] + lost)
  {
    var g := f + [c] + lost;
    SoundMore(f + lost, g, cls, t, n);
    assert t.lits[..t.End(0)] == t.lits;
    assert c in g;
    AllRefuted(g, c);
  }

  /** One more variable. */
  lemma CoreGrow(f: Cnf, cls: Arena, wl: Lists, t: TrailState, n: nat, lost: Cnf, u: TrailState)
    requires Core(f, cls, wl, t, n, lost) && u.Wf(n + 1)
    requires u.lits == t.lits && u.lims == t.lims && t.data <= u.data
    ensures Core(f, cls, wl + [[], []], u, n + 1, lost)
  {
    var wl' := wl + [[], []];
    forall p: Lit | p.v < n + 1 ensures ListOk(cls, p, wl'[p.Index()]) {
      if p.v < n { assert ListOk(cls, p, wl[p.Index()]); }
    }
    forall id, l: Lit | Live(cls, id) && l.v < n + 1 && Watches(cls[id], l) ensures Listed(wl'[l.Not().Index()], id) {
      assert l in cls[id].lits;
      assert Listed(wl[l.Not().Index()], id);
    }
    forall i | u.End(0) <= i < |u.lits| ensures ReasonOk(cls, u, i) {
      assert ReasonOk(cls, t, i);
      assert t.lits[i] in t.lits;
    }
    ExtendsRefl(cls);
    CoveredGrow(f, cls, t, u, n);
  }

  lemma CoveredGrow(f: Cnf, cls: Arena, t: TrailState, u: TrailState, n: nat)
    requires t.Wf(n) && u.Wf(n + 1) && Covered(f, cls, t, n) && u.lits == t.lits && u.lims == t.lims
    ensures Covered(f, cls, u, n + 1)
  {
    assert u.End(0) == t.End(0);
  }

  lemma SettledGrow(cls: Arena, t: TrailState, n: nat, q: nat, u: TrailState)
    requires ArenaWf(cls, n) && t.Wf(n) && q <= |t.lits| && AllSettled(cls, t, n, q) && u.Wf(n + 1)
    requires u.lits == t.lits && t.data <= u.data
    ensures ArenaWf(cls, n + 1) && AllSettled(cls, u, n + 1, q)
  {
    forall id | Live(cls, id) ensures Settled(u, cls[id].lits, q) {
      assert Settled(t, cls[id].lits, q);
      assert forall l :: l in cls[id].lits ==> u.Level(l) == t.Level(l);
      assert cls[id].lits[0] in cls[id].lits && cls[id].lits[1] in cls[id].lits;
    }
  }

  lemma SettledNew(cls: Arena, t: TrailState, n: nat, q: nat, c: Clause)
    requires ArenaWf(cls, n) && t.Wf(n) && q <= |t.lits| && AllSettled(cls, t, n, q)
    requires c.Wf(n) && !t.IsFalse(c.lits[0])
    ensures ArenaWf(cls + [c], n) && AllSettled(cls + [c], t, n, q)
  {
    SettledByOpen(t, n, c, q, c.lits[0]);
    forall id | Live(cls + [c], id) ensures Settled(t, (cls + [c])[id].lits, q) {
      assert id < |cls| ==> Live(cls, id);
    }
  }

  /** A longer trail leaves no more variables unassigned. */
  lemma UnassignedShrink(t: TrailState, u: TrailState, n: nat)
    requires t.Wf(n) && u.Wf(n) && t.lits <= u.lits
    ensures forall v :: 0 <= v < n && u.assigns[v] == Undef ==> t.assigns[v] == Undef
  {
    forall v | 0 <= v < n && u.assigns[v] == Undef ensures t.assigns[v] == Undef {
      var x, y := Lit(v, false), Lit(v, true);
      assert x !in u.lits && y !in u.lits;
      assert x !in t.lits && y !in t.lits;
    }
  }

  // ---------- backjumping ----------

  lemma BacktrackTwice(t: TrailState, n: nat, k: nat, j: nat)
    requires t.Wf(n) && j <= k <= |t.lims|
    ensures Backtrack(Backtrack(t, k), j) == Backtrack(t, j)
  {
    if j < k < |t.lims| {
      var u := Backtrack(t, k);
      var a, b := Backtrack(u, j), Backtrack(t, j);
      assert u.lims[j] == t.lims[j] <= t.lims[k];
      assert a.lits == b.lits;
      forall v | 0 <= v < |a.assigns| ensures a.assigns[v] == b.assigns[v] {
        if exists i :: t.lims[j] <= i < |t.lits| && t.lits[i].v == v {
          var i :| t.lims[j] <= i < |t.lits| && t.lits[i].v == v;
          assert i < t.lims[k] ==> u.lits[i].v == v;
        }
      }
      assert a.assigns == b.assigns;
      assert a.lims == b.lims;
    }
  }

  // ---------- one visit to a watcher ----------

  /** The state of the search while the list of `p`, the last dequeued literal, is visited:
      `keep` is what the list has become so far and `pend` what is still to be visited. */
  ghost predicate Stage(f: Cnf, cls: Arena, wl: Lists, t: TrailState, n: nat, lost: Cnf,
                        p: Lit, keep: seq<Watcher>, pend: seq<Watcher>)
  {
    && p.v < n && |wl| == 2 * n
    && Core(f, cls, wl[p.Index() := keep + pend], t, n, lost)
    && 0 < t.qhead <= |t.lits| && t.lits[t.qhead - 1] == p
    && Visiting(cls, t, n, t.qhead - 1, pend)
  }

  /** The clause of the watcher visited next. */
  lemma StageClause(f: Cnf, cls: Arena, wl: Lists, t: TrailState, n: nat, lost: Cnf,
                    p: Lit, keep: seq<Watcher>, w: Watcher, rest: seq<Watcher>)
    requires Stage(f, cls, wl, t, n, lost, p, keep, [w] + rest)
    ensures t.Wf(n) && t.Sized(n) && |wl| == 2 * n
    ensures w.clause < |cls| && cls[w.clause].Wf(n)
    ensures !cls[w.clause].deleted ==>
      && (p.Not() == cls[w.clause].lits[0] || p.Not() == cls[w.clause].lits[1])
      && cls[w.clause].lits[0] != cls[w.clause].lits[1]
      && w.blocker in cls[w.clause].lits && w.blocker.v < n
      && !Listed(rest, w.clause)
    ensures forall l :: l in cls[w.clause].lits ==> l.v < n
    ensures p in t.lits && t.Level(p) == |t.lims|
  {
    var a := wl[p.Index() := keep + ([w] + rest)];
    assert keep + ([w] + rest) == keep + [w] + rest;
    assert ListOk(cls, p, a[p.Index()]);
    assert GoodWatcher(cls, p, w) by { assert (keep + [w] + rest)[|keep|] == w; }
    ListedOnce(cls, p, keep, w, rest);
    CurrentLevel(t, n, t.qhead - 1);
    var c := cls[w.clause].lits;
    assert c[0].v != c[1].v;
  }

  lemma StageSkip(f: Cnf, cls: Arena, wl: Lists, t: TrailState, n: nat, lost: Cnf,
                  p: Lit, keep: seq<Watcher>, w: Watcher, rest: seq<Watcher>)
    requires Stage(f, cls, wl, t, n, lost, p, keep, [w] + rest)
    requires w.clause < |cls| && cls[w.clause].deleted
    ensures Stage(f, cls, wl, t, n, lost, p, keep, rest)
  {
    assert keep + ([w] + rest) == keep + [w] + rest;
    SkipDeleted(cls, wl, n, p, keep, w, rest);
    ExtendsRefl(cls);
    CoreExtend(f, cls, cls, wl[p.Index() := keep + [w] + rest], wl[p.Index() := keep + rest], t, n, lost);
    forall id | Live(cls, id) && !Listed(rest, id) ensures Settled(t, cls[id].lits, t.qhead) {
      ListedAppend([w], rest, id);
    }
  }

  lemma CoreKeep(f: Cnf, cls: Arena, wl: Lists, t: TrailState, n: nat, lost: Cnf,
                 p: Lit, keep: seq<Watcher>, w: Watcher, w': Watcher, rest: seq<Watcher>)
    requires Stage(f, cls, wl, t, n, lost, p, keep, [w] + rest)
    requires Live(cls, w.clause) && w'.clause == w.clause && w'.blocker in cls[w.clause].lits
    ensures p.v < n && |wl| == 2 * n && 0 < t.qhead <= |t.lits|
    ensures Core(f, cls, wl[p.Index() := keep + [w'] + rest], t, n, lost)
    ensures AllSettled(cls, t, n, t.qhead - 1)
  {
    assert keep + ([w] + rest) == keep + [w] + rest;
    KeepWith(cls, wl, n, p, keep, w, w', rest);
    ExtendsRefl(cls);
    CoreExtend(f, cls, cls, wl[p.Index() := keep + [w] + rest], wl[p.Index() := keep + [w'] + rest], t, n, lost);
  }

  /** A clause with a true literal is kept, any of its literals serving as blocker. */
  lemma StageTrue(f: Cnf, cls: Arena, wl: Lists, t: TrailState, n: nat, lost: Cnf,
                  p: Lit, keep: seq<Watcher>, w: Watcher, w': Watcher, rest: seq<Watcher>, l: Lit)
    requires Stage(f, cls, wl, t, n, lost, p, keep, [w] + rest)
    requires Live(cls, w.clause) && w'.clause == w.clause && w'.blocker in cls[w.clause].lits
    requires l in cls[w.clause].lits && t.IsTrue(l)
    ensures Stage(f, cls, wl, t, n, lost, p, keep + [w'], rest)
  {
    CoreKeep(f, cls, wl, t, n, lost, p, keep, w, w', rest);
    StageClause(f, cls, wl, t, n, lost, p, keep, w, rest);
    SettledByTrue(t, n, cls[w.clause], t.qhead, p, l);
    PendingDone(cls, t, n, t.qhead - 1, w, rest);
  }

  /** A visited clause that ends up settled is no longer pending. */
  lemma PendingDone(cls: Arena, t: TrailState, n: nat, q: nat, w: Watcher, rest: seq<Watcher>)
    requires ArenaWf(cls, n) && t.Wf(n) && Visiting(cls, t, n, q, [w] + rest)
    requires w.clause < |cls| && Settled(t, cls[w.clause].lits, q + 1)
    ensures Visiting(cls, t, n, q, rest)
  {
    forall id | Live(cls, id) && !Listed(rest, id) ensures Settled(t, cls[id].lits, q + 1) {
      ListedAppend([w], rest, id);
    }
  }

  /** Bringing the false watched literal of the visited clause to slot 1. */
  lemma StageSwap(f: Cnf, cls: Arena, wl: Lists, t: TrailState, n: nat, lost: Cnf,
                  p: Lit, keep: seq<Watcher>, w: Watcher, rest: seq<Watcher>)
    requires Stage(f, cls, wl, t, n, lost, p, keep, [w] + rest)
    requires Live(cls, w.clause) && cls[w.clause].Wf(n)
    ensures Stage(f, cls[w.clause := cls[w.clause].(lits := Exchanged(cls[w.clause].lits, 0, 1))],
                  wl, t, n, lost, p, keep, [w] + rest)
  {
    hide Linked, ReasonsOk, Covered, Sound, Settled, Exchanged;
    var id := w.clause;
    var b := cls[id := cls[id].(lits := Exchanged(cls[id].lits, 0, 1))];
    var v := wl[p.Index() := keep + ([w] + rest)];
    SwapFirst(cls, v, n, id);
    ExchangeExtends(cls, id, 0, 1);
    CoreExtend(f, cls, b, v, v, t, n, lost);
    ExchangedMembers(cls[id].lits, 0, 1);
    var q := t.qhead - 1;
    forall k | Live(b, k) ensures Settled(t, b[k].lits, q) {
      assert Live(cls, k);
      SettledExchanged(t, cls[id].lits, q);
    }
    forall k | Live(b, k) && !Listed([w] + rest, k) ensures Settled(t, b[k].lits, q + 1) {
      assert Live(cls, k);
      SettledExchanged(t, cls[id].lits, q + 1);
    }
  }

  lemma SettledExchanged(t: TrailState, c: seq<Lit>, q: nat)
    requires |c| >= 2 && (forall l :: l in c ==> l.v < |t.data|) && q <= |t.lits|
    ensures forall l :: l in Exchanged(c, 0, 1) ==> l in c
    ensures Settled(t, c, q) ==> Settled(t, Exchanged(c, 0, 1), q)
  {
    ExchangedMembers(c, 0, 1);
  }

  /** Watching the literal at slot `i`, which is not false, instead of the one at slot 1. */
  lemma StageMove(f: Cnf, cls: Arena, wl: Lists, t: TrailState, n: nat, lost: Cnf,
                  p: Lit, keep: seq<Watcher>, w: Watcher, rest: seq<Watcher>, i: nat, blocker: Lit, wl': Lists)
    requires Stage(f, cls, wl, t, n, lost, p, keep, [w] + rest)
    requires Live(cls, w.clause) && 2 <= i < |cls[w.clause].lits| && cls[w.clause].lits[1] == p.Not()
    requires blocker in cls[w.clause].lits && !t.IsFalse(cls[w.clause].lits[i])
    requires var np := cls[w.clause].lits[i].Not().Index();
             np < |wl| && wl' == wl[np := wl[np] + [Watcher(w.clause, blocker)]]
    ensures Stage(f, Moved(cls, w.clause, i), wl', t, n, lost, p, keep, rest)
  {
    var id, c, q := w.clause, cls[w.clause].lits, t.qhead - 1;
    var b := Moved(cls, id, i);
    StageClause(f, cls, wl, t, n, lost, p, keep, w, rest);
    assert c[i] in c;
    assert keep + ([w] + rest) == keep + [w] + rest;
    MoveWatch(cls, wl, n, p, keep, w, rest, i, blocker, wl');
    ExchangeExtends(cls, id, 1, i);
    CoreExtend(f, cls, b, wl[p.Index() := keep + [w] + rest], wl'[p.Index() := keep + rest], t, n, lost);
    VisitingMove(cls, t, n, q, w, rest, i);
  }

  lemma VisitingMove(cls: Arena, t: TrailState, n: nat, q: nat, w: Watcher, rest: seq<Watcher>, i: nat)
    requires ArenaWf(cls, n) && t.Wf(n) && Visiting(cls, t, n, q, [w] + rest)
    requires Live(cls, w.clause) && 2 <= i < |cls[w.clause].lits| && !t.IsFalse(cls[w.clause].lits[i])
    requires ArenaWf(Moved(cls, w.clause, i), n)
    ensures Visiting(Moved(cls, w.clause, i), t, n, q, rest)
  {
    var id := w.clause;
    var c, b := cls[id].lits, Moved(cls, id, i);
    SettledByOpen(t, n, b[id], q, c[i]);
    SettledByOpen(t, n, b[id], q + 1, c[i]);
    forall k | Live(b, k) ensures Settled(t, b[k].lits, q) {
      assert Live(cls, k);
    }
    forall k | Live(b, k) && !Listed(rest, k) ensures Settled(t, b[k].lits, q + 1) {
      ListedAppend([w], rest, k);
      assert Live(cls, k);
      assert k == id || !Listed([w], k);
    }
  }

  /** The visited clause is unit: its only literal that is not false is assigned. */
  lemma StageUnit(f: Cnf, cls: Arena, wl: Lists, t: TrailState, n: nat, lost: Cnf,
                  p: Lit, keep: seq<Watcher>, w: Watcher, w': Watcher, rest: seq<Watcher>, x: Lit)
    requires Stage(f, cls, wl, t, n, lost, p, keep, [w] + rest)
    requires Live(cls, w.clause) && w'.clause == w.clause && w'.blocker in cls[w.clause].lits
    requires 2 <= |cls[w.clause].lits| && x == cls[w.clause].lits[0] && !t.Defined(x)
    requires forall l :: l in cls[w.clause].lits ==> l == x || t.IsFalse(l)
    requires x.v < |t.assigns| && x.v < |t.data| && x.v < |t.phase|
    ensures Stage(f, cls, wl, Assign(t, x, FromClause(w.clause)), n, lost, p, keep + [w'], rest)
  {
    hide Core, Visiting, ArenaWf;
    var id, q := w.clause, t.qhead - 1;
    var u := Assign(t, x, FromClause(id));
    assert x in cls[id].lits;
    StageWf(f, cls, wl, t, n, lost, p, keep, [w] + rest);
    CoreKeep(f, cls, wl, t, n, lost, p, keep, w, w', rest);
    CorePropagate(f, cls, wl[p.Index() := keep + [w'] + rest], t, n, lost, id, x);
    VisitingUnit(cls, t, n, q, w, rest, x);
    assert u.lits[q] == t.lits[q];
  }

  lemma StageWf(f: Cnf, cls: Arena, wl: Lists, t: TrailState, n: nat, lost: Cnf,
                   p: Lit, keep: seq<Watcher>, pend: seq<Watcher>)
    requires Stage(f, cls, wl, t, n, lost, p, keep, pend)
    ensures t.Wf(n) && ArenaWf(cls, n) && t.Sized(n)
  {
  }

  lemma VisitingUnit(cls: Arena, t: TrailState, n: nat, q: nat, w: Watcher, rest: seq<Watcher>, x: Lit)
    requires ArenaWf(cls, n) && t.Wf(n) && Visiting(cls, t, n, q, [w] + rest)
    requires Live(cls, w.clause) && x == cls[w.clause].lits[0] && !t.Defined(x) && x.v < n
    ensures Assign(t, x, FromClause(w.clause)).Wf(n)
    ensures Visiting(cls, Assign(t, x, FromClause(w.clause)), n, q, rest)
  {
    var id := w.clause;
    var u := Assign(t, x, FromClause(id));
    SettledAllAssign(cls, t, n, q, x, FromClause(id));
    SettledIfOpen(cls, t, n, x, id);
    forall k | Live(cls, k) && !Listed(rest, k) ensures Settled(u, cls[k].lits, q + 1) {
      ListedAppend([w], rest, k);
      if k != id {
        SettledAssign(t, n, cls[k], q + 1, x, FromClause(id));
      }
    }
  }

  lemma SettledIfOpen(cls: Arena, t: TrailState, n: nat, x: Lit, id: nat)
    requires t.Wf(n) && id < |cls| && cls[id].Wf(n) && x == cls[id].lits[0] && !t.Defined(x) && x.v < n
    ensures Assign(t, x, FromClause(id)).Wf(n)
    ensures forall q :: 0 <= q <= |t.lits| ==> Settled(Assign(t, x, FromClause(id)), cls[id].lits, q)
  {
    AssignWf(t, n, x, FromClause(id));
    var u := Assign(t, x, FromClause(id));
    forall q | 0 <= q <= |t.lits| ensures Settled(u, cls[id].lits, q) {
      assert u.lits[..q] == t.lits[..q];
      assert forall l :: l in t.lits[..q] ==> l in t.lits;
    }
  }

  /** When `p` is dequeued, the clauses that may become unsettled are those of its list. */
  lemma StageStart(f: Cnf, cls: Arena, wl: Lists, t: TrailState, n: nat, lost: Cnf, q: nat, p: Lit)
    requires Core(f, cls, wl, t, n, lost)
    requires q < |t.lits| && t.lits[q] == p && LimsBelow(t, q)
    requires AllSettled(cls, t, n, q)
    ensures p.v < n && |wl| == 2 * n
    ensures Stage(f, cls, wl[p.Index() := []], t.(qhead := q + 1), n, lost, p, [], wl[p.Index()])
  {
    var u := t.(qhead := q + 1);
    CoreQueue(f, cls, wl, t, n, lost, q + 1);
    assert p in t.lits;
    assert [] + wl[p.Index()] == wl[p.Index()];
    assert wl[p.Index() := []][p.Index() := wl[p.Index()]] == wl;
    forall id | Live(cls, id) && !Listed(wl[p.Index()], id) ensures Settled(u, cls[id].lits, q + 1) {
      assert !Watches(cls[id], p.Not()) by { assert p.Not().Not() == p; }
      SettledNext(t, n, cls[id], q);
    }
  }

  /** The whole list has been visited. */
  lemma StageEnd(f: Cnf, cls: Arena, wl: Lists, t: TrailState, n: nat, lost: Cnf, p: Lit, keep: seq<Watcher>)
    requires Stage(f, cls, wl, t, n, lost, p, keep, [])
    ensures t.Wf(n) && ArenaWf(cls, n) && p.v < n && |wl| == 2 * n
    ensures Core(f, cls, wl[p.Index() := keep], t, n, lost)
    ensures AllSettled(cls, t, n, t.qhead) && LimsBelow(t, t.qhead)
  {
    assert keep + [] == keep;
  }

  lemma ConflictFrom(f: Cnf, cls: Arena, wl: Lists, t: TrailState, n: nat, lost: Cnf, id: nat, p: Lit)
    requires Core(f, cls, wl, t, n, lost) && Falsified(cls, t, id) && p.Not() in cls[id].lits
    requires 0 < t.qhead <= |t.lits| && t.lits[t.qhead - 1] == p && LimsBelow(t, t.qhead - 1)
    requires AllSettled(cls, t, n, t.qhead - 1)
    ensures ConflictFound(cls, t, n, id, t.qhead - 1)
  {
    CurrentLevel(t, n, t.qhead - 1);
    assert t.Level(p.Not()) == t.Level(p);
  }

  lemma StageFacts(f: Cnf, cls: Arena, wl: Lists, t: TrailState, n: nat, lost: Cnf,
                   p: Lit, keep: seq<Watcher>, pend: seq<Watcher>)
    requires Stage(f, cls, wl, t, n, lost, p, keep, pend)
    ensures t.Wf(n) && ArenaWf(cls, n) && p.v < n && |wl| == 2 * n
    ensures 0 < t.qhead <= |t.lits| && t.lits[t.qhead - 1] == p && LimsBelow(t, t.qhead - 1)
    ensures p in t.lits && t.Level(p) == |t.lims|
  {
    CurrentLevel(t, n, t.qhead - 1);
  }

  ghost predicate Falsified(cls: Arena, t: TrailState, id: nat) {
    && Live(cls, id)
    && forall l :: l in cls[id].lits ==> t.IsFalse(l)
  }

  /** What propagation reports: a live falsified clause with a literal of the current level,
      every live clause being settled up to some position `q` of that level. */
  ghost predicate ConflictFound(cls: Arena, t: TrailState, n: nat, id: nat, q: nat) {
    && t.Wf(n) && ArenaWf(cls, n) && Falsified(cls, t, id)
    && (exists l :: l in cls[id].lits && t.Level(l) == |t.lims|)
    && q <= |t.lits| && LimsBelow(t, q) && AllSettled(cls, t, n, q)
  }
}
