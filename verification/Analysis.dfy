/** First-UIP conflict analysis: what the literals collected so far say about the models of
    the clause database. */
module ConflictAnalysis {
  import opened Lits
  import opened Trails
  import opened TwoWatched
  import opened SearchInvariant
  import opened SearchProgress

  /** A valuation that satisfies every stored clause and every literal of level 0. */
  ghost predicate ModelsDb(m: Valuation, cls: Arena, t: TrailState)
    requires t.End(0) <= |t.lits|
  {
    && (forall id :: 0 <= id < |cls| ==> SatClause(m, cls[id].lits))
    && (forall l :: l in t.lits[..t.End(0)] ==> Holds(m, l))
  }

  /** Where the current level starts. */
  ghost function Start(t: TrailState): nat { if t.lims == [] then 0 else t.lims[|t.lims| - 1] }

  /** The disjunction of the literals of `learned`, of the negations of the trail literals at the
      positions `open`, and of the literals of `rest`, holds in every model of the database. */
  ghost predicate Derived(cls: Arena, t: TrailState, learned: seq<Lit>, open: set<nat>, rest: seq<Lit>)
    requires t.End(0) <= |t.lits|
  {
    forall m: Valuation :: ModelsDb(m, cls, t) ==>
      (SatClause(m, learned) || SatClause(m, rest) || exists i :: i in open && i < |t.lits| && !Holds(m, t.lits[i]))
  }

  /** The literal is refuted at level 0, or is one of those that `Derived` speaks of. */
  ghost predicate Accounted(t: TrailState, l: Lit, learned: seq<Lit>, open: set<nat>, rest: seq<Lit>)
    requires t.End(0) <= |t.lits|
  {
    || l in learned || l in rest
    || l.Not() in t.lits[..t.End(0)]
    || exists i :: i in open && i < |t.lits| && t.lits[i] == l.Not()
  }

  lemma DerivedWeaken(cls: Arena, t: TrailState, learned: seq<Lit>, open: set<nat>, rest: seq<Lit>,
                      learned': seq<Lit>, open': set<nat>, rest': seq<Lit>)
    requires t.End(0) <= |t.lits| && Derived(cls, t, learned, open, rest)
    requires forall l :: l in learned || l in rest ==> Accounted(t, l, learned', open', rest')
    requires forall i :: i in open ==> i in open'
    ensures Derived(cls, t, learned', open', rest')
  {
    forall m: Valuation | ModelsDb(m, cls, t)
      ensures SatClause(m, learned') || SatClause(m, rest') || exists i :: i in open' && i < |t.lits| && !Holds(m, t.lits[i])
    {
      if SatClause(m, learned) {
        var x :| x in learned && Holds(m, x);
        AccountedHolds(cls, t, m, x, learned', open', rest');
      } else if SatClause(m, rest) {
        var x :| x in rest && Holds(m, x);
        AccountedHolds(cls, t, m, x, learned', open', rest');
      }
    }
  }

  lemma AccountedHolds(cls: Arena, t: TrailState, m: Valuation, l: Lit, learned: seq<Lit>, open: set<nat>, rest: seq<Lit>)
    requires t.End(0) <= |t.lits| && ModelsDb(m, cls, t) && Holds(m, l)
    requires Accounted(t, l, learned, open, rest)
    ensures SatClause(m, learned) || SatClause(m, rest) || exists i :: i in open && i < |t.lits| && !Holds(m, t.lits[i])
  {
    HoldsNot(m, l);
  }

  /** What the analysis knows between two resolution steps. `seen` marks the variables already
      collected, `open` the positions of the current level still to be resolved upon. */
  ghost predicate Collected(t: TrailState, n: nat, seen: seq<bool>, learned: seq<Lit>, open: set<nat>,
                            bl: nat, idx: nat)
    requires t.Wf(n)
  {
    && |seen| == n && idx <= |t.lits| && t.lims != []
    && OpenOk(t, n, seen, open, idx)
    && LowerMarked(t, n, seen, learned)
    && LearnedOk(t, n, seen, learned, bl)
  }

  ghost predicate OpenOk(t: TrailState, n: nat, seen: seq<bool>, open: set<nat>, idx: nat)
    requires t.Wf(n) && |seen| == n && idx <= |t.lits|
  {
    && (forall i :: i in open <==> Start(t) <= i < idx && seen[t.lits[i].v])
    && (forall i :: Start(t) <= i < |t.lits| && seen[t.lits[i].v] ==> i < idx)
  }

  /** Every marked literal of a level between 0 and the current one is in the learned clause. */
  ghost predicate LowerMarked(t: TrailState, n: nat, seen: seq<bool>, learned: seq<Lit>)
    requires t.Wf(n) && |seen| == n
  {
    forall l :: l in t.lits && seen[l.v] && 0 < t.Level(l) < |t.lims| ==> l.Not() in learned
  }

  ghost predicate LearnedOk(t: TrailState, n: nat, seen: seq<bool>, learned: seq<Lit>, bl: nat)
    requires t.Wf(n) && |seen| == n
  {
    && (forall l :: l in learned ==> l.v < n && seen[l.v] && t.IsFalse(l) && 0 < t.Level(l) <= bl)
    && (forall i, j :: 0 <= i < j < |learned| ==> learned[i].v != learned[j].v)
    && bl < |t.lims|
    && (0 < bl ==> exists l :: l in learned && t.Level(l) == bl)
    && (bl == 0 ==> learned == [])
  }

  /** All literals of `c` are false, and were so before position `idx`. */
  ghost predicate FalseBefore(t: TrailState, c: seq<Lit>, idx: nat)
    requires idx <= |t.lits|
  {
    forall l :: l in c ==> l.Not() in t.lits[..idx]
  }

  lemma LevelOfPosition(t: TrailState, n: nat, i: nat)
    requires t.Wf(n) && i < |t.lits|
    ensures t.lits[i].v < n && t.Level(t.lits[i]) <= |t.lims|
    ensures Start(t) <= i <==> t.Level(t.lits[i]) == |t.lims|
    ensures i < t.End(0) <==> t.Level(t.lits[i]) == 0
  {
    assert t.lits[i] in t.lits;
    assert t.AtLevel(i, t.data[t.lits[i].v].level);
  }

  /** The position of a literal false before `idx`, and what its level says. */
  lemma FalsePosition(t: TrailState, n: nat, l: Lit, idx: nat) returns (i: nat)
    requires t.Wf(n) && idx <= |t.lits| && l.Not() in t.lits[..idx]
    ensures t.Sized(n) && t.End(0) <= |t.lits|
    ensures i < idx && t.lits[i] == l.Not() && l.v < n && t.Level(l) == t.Level(t.lits[i]) && t.Level(l) <= |t.lims|
    ensures Start(t) <= i <==> t.Level(l) == |t.lims|
    ensures i < t.End(0) <==> t.Level(l) == 0
    ensures t.Level(l) == 0 ==> l.Not() in t.lits[..t.End(0)]
    ensures l.Not() in t.lits
    ensures forall j :: 0 <= j < |t.lits| && t.lits[j].v == l.v ==> j == i
    ensures forall x :: x in t.lits && x.v == l.v ==> x == l.Not()
    ensures forall x :: x in t.lits ==> x.v < n
    ensures forall j :: 0 <= j < |t.lits| ==> t.lits[j].v < n
  {
    i :| 0 <= i < idx && t.lits[i] == l.Not();
    LevelOfPosition(t, n, i);
    SameVar(t, n, i);
  }

  lemma SameVar(t: TrailState, n: nat, i: nat)
    requires t.Wf(n) && i < |t.lits|
    ensures forall j :: 0 <= j < |t.lits| && t.lits[j].v == t.lits[i].v ==> j == i
    ensures forall l :: l in t.lits && l.v == t.lits[i].v ==> l == t.lits[i]
    ensures forall l :: l in t.lits ==> l.v < n
    ensures forall j :: 0 <= j < |t.lits| ==> t.lits[j].v < n
  {
  }

  // ---------- collecting one literal ----------

  /** A literal whose variable is already marked adds nothing. */
  lemma CollectSeen(cls: Arena, t: TrailState, n: nat, seen: seq<bool>, learned: seq<Lit>, open: set<nat>,
                    bl: nat, idx: nat, l: Lit, rest: seq<Lit>)
    requires t.Wf(n) && Collected(t, n, seen, learned, open, bl, idx)
    requires l.v < n && seen[l.v] && l.Not() in t.lits[..idx]
    requires t.End(0) <= |t.lits| && Derived(cls, t, learned, open, [l] + rest)
    ensures Derived(cls, t, learned, open, rest)
    ensures t.Level(l) == |t.lims| ==> open != {}
  {
    hide TrailState.Wf, Derived;
    var i := FalsePosition(t, n, l, idx);
    assert t.lits[i] == l.Not() && l.Not().Not() == l && l.Not().v == l.v;
    if t.Level(l) == |t.lims| { assert i in open; }
    assert Accounted(t, l, learned, open, rest);
    DerivedWeaken(cls, t, learned, open, [l] + rest, learned, open, rest);
  }

  /** A literal of level 0 is refuted by the level-0 assignment. */
  lemma CollectZero(cls: Arena, t: TrailState, n: nat, seen: seq<bool>, learned: seq<Lit>, open: set<nat>,
                    bl: nat, idx: nat, l: Lit, rest: seq<Lit>)
    requires t.Wf(n) && Collected(t, n, seen, learned, open, bl, idx)
    requires l.v < n && l.Not() in t.lits[..idx] && t.Level(l) == 0
    requires t.End(0) <= |t.lits| && Derived(cls, t, learned, open, [l] + rest)
    ensures Derived(cls, t, learned, open, rest)
    ensures Collected(t, n, seen[l.v := true], learned, open, bl, idx)
  {
    hide TrailState.Wf, Derived;
    var i := FalsePosition(t, n, l, idx);
    assert Accounted(t, l, learned, open, rest);
    DerivedWeaken(cls, t, learned, open, [l] + rest, learned, open, rest);
  }

  /** A literal of the current level becomes an open position. */
  lemma CollectCurrent(cls: Arena, t: TrailState, n: nat, seen: seq<bool>, learned: seq<Lit>, open: set<nat>,
                       bl: nat, idx: nat, l: Lit, rest: seq<Lit>) returns (open': set<nat>)
    requires t.Wf(n) && Collected(t, n, seen, learned, open, bl, idx)
    requires l.v < n && !seen[l.v] && l.Not() in t.lits[..idx] && t.Level(l) == |t.lims|
    requires t.End(0) <= |t.lits| && Derived(cls, t, learned, open, [l] + rest)
    ensures Collected(t, n, seen[l.v := true], learned, open', bl, idx)
    ensures Derived(cls, t, learned, open', rest)
    ensures |open'| == |open| + 1
  {
    hide TrailState.Wf, Derived;
    var i := FalsePosition(t, n, l, idx);
    assert i !in open;
    open' := open + {i};
    assert i in open' && t.lits[i] == l.Not();
    assert Accounted(t, l, learned, open', rest);
    DerivedWeaken(cls, t, learned, open, [l] + rest, learned, open', rest);
  }

  /** A literal of a lower level joins the learned clause. */
  lemma CollectLower(cls: Arena, t: TrailState, n: nat, seen: seq<bool>, learned: seq<Lit>, open: set<nat>,
                     bl: nat, idx: nat, l: Lit, rest: seq<Lit>)
    requires t.Wf(n) && Collected(t, n, seen, learned, open, bl, idx)
    requires l.v < n && !seen[l.v] && l.Not() in t.lits[..idx] && 0 < t.Level(l) < |t.lims|
    requires t.End(0) <= |t.lits| && Derived(cls, t, learned, open, [l] + rest)
    ensures Collected(t, n, seen[l.v := true], learned + [l], open, if t.Level(l) > bl then t.Level(l) else bl, idx)
    ensures Derived(cls, t, learned + [l], open, rest)
  {
    hide TrailState.Wf, Derived, Collected;
    LowerCollected(t, n, seen, learned, open, bl, idx, l);
    DerivedWeaken(cls, t, learned, open, [l] + rest, learned + [l], open, rest);
  }

  lemma LowerCollected(t: TrailState, n: nat, seen: seq<bool>, learned: seq<Lit>, open: set<nat>, bl: nat, idx: nat, l: Lit)
    requires t.Wf(n) && Collected(t, n, seen, learned, open, bl, idx)
    requires l.v < n && !seen[l.v] && l.Not() in t.lits[..idx] && 0 < t.Level(l) < |t.lims|
    ensures Collected(t, n, seen[l.v := true], learned + [l], open, if t.Level(l) > bl then t.Level(l) else bl, idx)
  {
    hide TrailState.Wf, LowerMarked, LearnedOk;
    var i := FalsePosition(t, n, l, idx);
    LowerStillMarked(t, n, seen, learned, l);
    LearnedGrows(t, n, seen, learned, bl, l);
  }

  lemma LowerStillMarked(t: TrailState, n: nat, seen: seq<bool>, learned: seq<Lit>, l: Lit)
    requires t.Wf(n) && |seen| == n && LowerMarked(t, n, seen, learned) && l.v < n && l.Not() in t.lits
    ensures LowerMarked(t, n, seen[l.v := true], learned + [l])
  {
    var seen', c := seen[l.v := true], learned + [l];
    forall x | x in t.lits && seen'[x.v] && 0 < t.Level(x) < |t.lims| ensures x.Not() in c {
      if x.v == l.v {
        assert x == l.Not();
        assert x.Not() == l;
      } else {
        assert x.Not() in learned;
      }
    }
  }

  lemma LearnedGrows(t: TrailState, n: nat, seen: seq<bool>, learned: seq<Lit>, bl: nat, l: Lit)
    requires t.Wf(n) && |seen| == n && LearnedOk(t, n, seen, learned, bl)
    requires l.v < n && !seen[l.v] && t.IsFalse(l) && 0 < t.Level(l) < |t.lims|
    ensures LearnedOk(t, n, seen[l.v := true], learned + [l], if t.Level(l) > bl then t.Level(l) else bl)
  {
    var bl' := if t.Level(l) > bl then t.Level(l) else bl;
    var c := learned + [l];
    if bl' == t.Level(l) {
      assert l in c;
    } else {
      var x :| x in learned && t.Level(x) == bl;
      assert x in c;
    }
    forall i | 0 <= i < |learned| ensures learned[i].v != l.v {
      assert learned[i] in learned;
    }
  }

  // ---------- resolving on one position ----------

  /** Resolving on the last open position, whose reason clause supplies the new literals. */
  lemma Resolve(cls: Arena, t: TrailState, n: nat, seen: seq<bool>, learned: seq<Lit>, open: set<nat>, bl: nat, k: nat,
                cid: nat, others: seq<Lit>)
    requires t.Wf(n) && Collected(t, n, seen, learned, open, bl, k + 1)
    requires k in open && cid < |cls|
    requires forall l :: l in cls[cid].lits ==> l == t.lits[k] || l in others
    requires t.End(0) <= |t.lits| && Derived(cls, t, learned, open, [])
    ensures t.lits[k].v < n
    ensures Collected(t, n, seen[t.lits[k].v := false], learned, open - {k}, bl, k)
    ensures Derived(cls, t, learned, open - {k}, others)
  {
    hide TrailState.Wf;
    SameVar(t, n, k);
    LevelOfPosition(t, n, k);
    LevelOfLearned(t, n, seen, learned, open, bl, k);
    ResolveDerived(cls, t, learned, open, k, cid, others);
  }

  /** No literal of the learned clause has the variable of a current-level position. */
  lemma LevelOfLearned(t: TrailState, n: nat, seen: seq<bool>, learned: seq<Lit>, open: set<nat>, bl: nat, k: nat)
    requires t.Wf(n) && Collected(t, n, seen, learned, open, bl, k + 1) && k in open
    ensures t.Sized(n)
    ensures forall l :: l in learned ==> l.v != t.lits[k].v
  {
    LevelOfPosition(t, n, k);
    forall l | l in learned ensures l.v != t.lits[k].v {
      assert t.Level(l) <= bl;
    }
  }

  lemma ResolveDerived(cls: Arena, t: TrailState, learned: seq<Lit>, open: set<nat>, k: nat, cid: nat, others: seq<Lit>)
    requires t.End(0) <= |t.lits| && Derived(cls, t, learned, open, [])
    requires k < |t.lits| && cid < |cls|
    requires forall l :: l in cls[cid].lits ==> l == t.lits[k] || l in others
    ensures Derived(cls, t, learned, open - {k}, others)
  {
    forall m: Valuation | ModelsDb(m, cls, t)
      ensures SatClause(m, learned) || SatClause(m, others) || exists i :: i in open - {k} && i < |t.lits| && !Holds(m, t.lits[i])
    {
      assert !SatClause(m, []);
      if !SatClause(m, learned) {
        var i :| i in open && i < |t.lits| && !Holds(m, t.lits[i]);
        if i == k {
          var x :| x in cls[cid].lits && Holds(m, x);
          assert x in others;
        } else {
          assert i in open - {k};
        }
      }
    }
  }

  /** An open position that is not the only one has a clause as its reason, whose other literals
      are false before it. */
  lemma HasReason(cls: Arena, t: TrailState, n: nat, seen: seq<bool>, learned: seq<Lit>, open: set<nat>, bl: nat, k: nat)
    requires t.Wf(n) && Collected(t, n, seen, learned, open, bl, k + 1) && ReasonsOk(cls, t, n)
    requires k in open && |open| > 1
    ensures t.lits[k].v < |t.data|
    ensures var r := t.data[t.lits[k].v].reason;
      && r.FromClause? && r.cid < |cls| && t.lits[k] in cls[r.cid].lits
      && forall l :: l in cls[r.cid].lits ==> l == t.lits[k] || l.Not() in t.lits[..k]
  {
    LevelOfPosition(t, n, k);
    var j := AnotherOf(open, k);
    assert Start(t) <= j < k;
    assert t.End(0) <= Start(t);
    assert ReasonOk(cls, t, k);
  }

  lemma AnotherOf(s: set<nat>, k: nat) returns (j: nat)
    requires k in s && |s| > 1
    ensures j in s && j != k
  {
    assert |s - {k}| > 0;
    j :| j in s - {k};
  }

  /** The literals of `c` other than those of variable `v`. */
  function Without(c: seq<Lit>, v: nat): (r: seq<Lit>)
    ensures forall l :: l in r <==> l in c && l.v != v
  {
    if c == [] then [] else if c[0].v == v then Without(c[1..], v) else [c[0]] + Without(c[1..], v)
  }

  // ---------- the result ----------

  /** The clause that the analysis returns: entailed by the database, false under the trail, its
      first literal alone from the current level, the others from levels 1 up to `bl`. */
  ghost predicate Asserting(cls: Arena, t: TrailState, n: nat, learned: seq<Lit>, bl: nat)
    requires t.Wf(n)
  {
    && (forall m: Valuation :: ModelsDb(m, cls, t) ==> SatClause(m, learned))
    && learned != []
    && (forall l :: l in learned ==> l.v < n && t.IsFalse(l))
    && (forall i, j :: 0 <= i < j < |learned| ==> learned[i].v != learned[j].v)
    && t.Level(learned[0]) == |t.lims|
    && (forall l :: l in learned[1..] ==> 0 < t.Level(l) <= bl)
    && bl < |t.lims|
    && (|learned| == 1 <==> bl == 0)
    && (0 < bl ==> exists l :: l in learned[1..] && t.Level(l) == bl)
  }

  lemma UipFound(cls: Arena, t: TrailState, n: nat, seen: seq<bool>, learned: seq<Lit>, open: set<nat>, bl: nat, k: nat)
    requires t.Wf(n) && Collected(t, n, seen, learned, open, bl, k + 1)
    requires k in open && |open| == 1
    requires t.End(0) <= |t.lits| && Derived(cls, t, learned, open, [])
    ensures Asserting(cls, t, n, [t.lits[k].Not()] + learned, bl)
  {
    hide TrailState.Wf;
    var c := [t.lits[k].Not()] + learned;
    LevelOfPosition(t, n, k);
    assert c[1..] == learned;
    assert t.lits[k].Not().Not() == t.lits[k] && t.lits[k] in t.lits;
    LevelOfLearned(t, n, seen, learned, open, bl, k);
    forall i | i in open ensures i == k {
      SingletonOnly(open, i, k);
    }
    UipDerived(cls, t, learned, open, k);
  }

  lemma UipDerived(cls: Arena, t: TrailState, learned: seq<Lit>, open: set<nat>, k: nat)
    requires k < |t.lits| && t.End(0) <= |t.lits| && Derived(cls, t, learned, open, [])
    requires forall i :: i in open ==> i == k
    ensures forall m: Valuation :: ModelsDb(m, cls, t) ==> SatClause(m, [t.lits[k].Not()] + learned)
  {
    var c := [t.lits[k].Not()] + learned;
    forall m: Valuation | ModelsDb(m, cls, t) ensures SatClause(m, c) {
      assert !SatClause(m, []);
      if SatClause(m, learned) {
        var x :| x in learned && Holds(m, x);
        assert x in c;
      } else {
        HoldsNot(m, t.lits[k]);
        assert t.lits[k].Not() in c;
      }
    }
  }

  lemma SingletonOnly(s: set<nat>, i: nat, k: nat)
    requires i in s && k in s && |s| == 1
    ensures i == k
  {
    assert |s - {k}| == 0;
    assert i !in s - {k};
  }

  /** After the backjump the first literal of the learned clause is open, the others false. */
  lemma AssertingAfter(cls: Arena, t: TrailState, n: nat, learned: seq<Lit>, bl: nat, k: nat)
    requires t.Wf(n) && Asserting(cls, t, n, learned, bl) && k <= bl
    ensures Backtrack(t, k).Wf(n)
    ensures learned[0].v < n && !Backtrack(t, k).Defined(learned[0])
    ensures k == bl ==> forall l :: l in learned[1..] ==> Backtrack(t, k).IsFalse(l)
  {
    BacktrackWf(t, n, k);
    var u := Backtrack(t, k);
    assert learned[0] in learned;
    LevelPrefix(t, n, learned[0].Not(), k);
    assert learned[0] !in t.lits by {
      assert t.assigns[learned[0].v] == if learned[0].Not().neg then False else True;
    }
    forall l | l in u.lits ensures l in t.lits {}
    if k == bl {
      forall l | l in learned[1..] ensures u.IsFalse(l) {
        assert l in learned;
        LevelPrefix(t, n, l.Not(), k);
      }
    }
  }

  /** Some literal of `c` is of the current level. */
  ghost predicate HasCurrent(t: TrailState, c: seq<Lit>) {
    exists l :: l in c && l.v < |t.data| && t.Level(l) == |t.lims|
  }

  /** What collecting the literal `c[j]` needs to know about it. */
  lemma CollectFacts(t: TrailState, n: nat, seen: seq<bool>, learned: seq<Lit>, open: set<nat>, bl: nat, idx: nat,
                     c: seq<Lit>, j: nat)
    requires t.Wf(n) && Collected(t, n, seen, learned, open, bl, idx)
    requires FalseBefore(t, c, idx) && j < |c|
    ensures t.Sized(n) && c[j].v < n && |seen| == n && c[j].Not() in t.lits[..idx] && t.Level(c[j]) <= |t.lims|
    ensures HasCurrent(t, c[j..]) ==> HasCurrent(t, c[j + 1..]) || t.Level(c[j]) == |t.lims|
  {
    assert c[j] in c;
    var i := FalsePosition(t, n, c[j], idx);
    if HasCurrent(t, c[j..]) {
      var l :| l in c[j..] && l.v < |t.data| && t.Level(l) == |t.lims|;
      assert l == c[j] || l in c[j + 1..];
    }
  }

  /** The learned clause as a clause of the arena. */
  lemma AssertingWf(cls: Arena, t: TrailState, n: nat, learned: seq<Lit>, bl: nat, lbd: nat)
    requires t.Wf(n) && Asserting(cls, t, n, learned, bl)
    ensures learned != [] && bl < |t.lims| && (|learned| == 1 <==> bl == 0)
    ensures |learned| > 1 ==> Clause(learned, lbd, true, false).Wf(n)
    ensures t.Sized(n) && forall i :: 0 <= i < |learned| ==> learned[i].v < n
  {
  }

  lemma LowestOpen(t: TrailState, n: nat, seen: seq<bool>, learned: seq<Lit>, open: set<nat>, bl: nat, from: nat) returns (low: nat)
    requires t.Wf(n) && Collected(t, n, seen, learned, open, bl, from) && open != {}
    ensures low in open && low < from <= |t.lits| && t.lits[low].v < |seen| && seen[t.lits[low].v]
  {
    low :| low in open;
    assert t.lits[low] in t.lits;
  }

  lemma SeenInRange(t: TrailState, n: nat, seen: seq<bool>, learned: seq<Lit>, open: set<nat>, bl: nat, from: nat)
    requires t.Wf(n) && Collected(t, n, seen, learned, open, bl, from)
    ensures from <= |t.lits| && forall k :: 0 <= k < |t.lits| ==> t.lits[k].v < |seen|
  {
    forall k | 0 <= k < |t.lits| ensures t.lits[k].v < |seen| { assert t.lits[k] in t.lits; }
  }

  /** The last marked position is open, and the positions above it are done with. */
  lemma NextIsOpen(t: TrailState, n: nat, seen: seq<bool>, learned: seq<Lit>, open: set<nat>, bl: nat, from: nat, k: nat)
    requires t.Wf(n) && Collected(t, n, seen, learned, open, bl, from) && open != {} && k < from <= |t.lits|
    requires forall i :: 0 <= i < |t.lits| ==> t.lits[i].v < |seen|
    requires seen[t.lits[k].v] && forall i :: k < i < from ==> !seen[t.lits[i].v]
    requires exists low :: low in open && low <= k
    ensures k in open && Collected(t, n, seen, learned, open, bl, k + 1)
  {
    assert t.lits[k] in t.lits;
  }

  lemma InitCollected(cls: Arena, t: TrailState, n: nat, id: nat)
    requires t.Wf(n) && ArenaWf(cls, n) && t.lims != [] && Falsified(cls, t, id)
    ensures Collected(t, n, seq(n, _ => false), [], {}, 0, |t.lits|)
    ensures t.End(0) <= |t.lits| && Derived(cls, t, [], {}, cls[id].lits)
    ensures FalseBefore(t, cls[id].lits, |t.lits|)
    ensures (exists l :: l in cls[id].lits && t.Level(l) == |t.lims|) ==> HasCurrent(t, cls[id].lits)
  {
    assert t.lits[..|t.lits|] == t.lits;
  }

  /** The reason literals of position `k` that remain after resolution are false before `k`. */
  lemma OthersFalse(t: TrailState, n: nat, c: seq<Lit>, k: nat)
    requires t.Wf(n) && k < |t.lits|
    requires forall l :: l in c ==> l == t.lits[k] || l.Not() in t.lits[..k]
    ensures FalseBefore(t, Without(c, t.lits[k].v), k)
    ensures forall l :: l in c ==> l == t.lits[k] || l in Without(c, t.lits[k].v)
  {
    forall l | l in c && l != t.lits[k] ensures l.v != t.lits[k].v {
      var j :| 0 <= j < k && t.lits[j] == l.Not();
      assert t.lits[j].v != t.lits[k].v;
    }
  }

  /** Under a sound database the learned clause follows from the clauses added. */
  lemma LearnedEntailed(f: Cnf, cls: Arena, t: TrailState, n: nat, learned: seq<Lit>, bl: nat)
    requires t.Wf(n) && Sound(f, cls, t, n) && Asserting(cls, t, n, learned, bl)
    ensures Entails(f, learned)
  {
    forall m: Valuation | Models(m, f) ensures SatClause(m, learned) {
      forall l | l in t.lits[..t.End(0)] ensures Holds(m, l) {
        assert Entails(f, [l]);
        assert SatClause(m, [l]);
      }
      forall id | 0 <= id < |cls| ensures SatClause(m, cls[id].lits) {
        assert Entails(f, cls[id].lits);
      }
      assert ModelsDb(m, cls, t);
    }
  }

  /** The learned clause is ready to be stored and its first literal to be asserted. */
  ghost predicate Ready(f: Cnf, t: TrailState, n: nat, lost: Cnf, learned: seq<Lit>)
    requires t.Wf(n)
  {
    && learned != [] && learned[0].v < n && !t.Defined(learned[0])
    && Entails(f + lost, learned)
    && (|learned| == 1 ==> t.lims == [])
    && (|learned| > 1 ==> forall lbd: nat :: Clause(learned, lbd, true, false).Wf(n))
    && ((forall l :: l in learned[1..] ==> t.IsFalse(l)) || ([learned[0]] in lost && t.lims == []))
  }

  /** Jumping back to `bl`, or to level 0 at a restart, restores the invariant of the search. */
  lemma Unwind(f: Cnf, cls: Arena, wl: Lists, t: TrailState, n: nat, lost: Cnf, cid: nat,
               learned: seq<Lit>, bl: nat, k: nat, lost': Cnf)
    requires Core(f, cls, wl, t, n, lost) && LevelsFilled(t)
    requires exists q: nat :: ConflictFound(cls, t, n, cid, q)
    requires Asserting(cls, t, n, learned, bl)
    requires forall c :: c in lost ==> c in lost'
    requires k == bl || (k == 0 && [learned[0]] in lost')
    ensures Core(f, cls, wl, Backtrack(t, k), n, lost')
    ensures k < |t.lims| && Backtrack(t, k).lims == t.lims[..k] && |Backtrack(t, k).lits| == t.lims[k]
    ensures LevelsFilled(Backtrack(t, k)) && LimsBelow(Backtrack(t, k), Backtrack(t, k).qhead)
    ensures Backtrack(t, k).qhead <= |Backtrack(t, k).lits| && AllSettled(cls, Backtrack(t, k), n, Backtrack(t, k).qhead)
    ensures Ready(f, Backtrack(t, k), n, lost', learned)
  {
    hide Core, TrailState.Wf, AllSettled, ModelsDb, Entails;
    var q: nat :| ConflictFound(cls, t, n, cid, q);
    CoreFacts(f, cls, wl, t, n, lost);
    CoreBacktrack(f, cls, wl, t, n, lost, k);
    LearnedEntailed(f + lost, cls, t, n, learned, bl) by { CoreSound(f, cls, wl, t, n, lost); }
    EntailsMono(f + lost, f + lost', learned, learned);
    CoreLose(f, cls, wl, Backtrack(t, k), n, lost, lost');
    SettledAllBacktrack(cls, t, n, q, k);
    AssertingAfter(cls, t, n, learned, bl, k);
    assert |learned| > 1 ==> forall lbd: nat :: Clause(learned, lbd, true, false).Wf(n);
    LimsInside(t, n, k);
  }

  lemma LimsInside(t: TrailState, n: nat, k: nat)
    requires t.Wf(n) && k < |t.lims|
    ensures t.lims[k] <= |t.lits|
    ensures forall j :: 0 <= j < k ==> t.lims[j] <= t.lims[k]
  {
  }
}
