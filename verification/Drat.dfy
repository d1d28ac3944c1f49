/** The DRAT proof checker: reverse unit propagation over a changing clause database. */
module DratCheck {
  import opened Lits

  datatype Step = Add(lits: seq<Lit>) | Delete(lits: seq<Lit>)

  datatype Verdict = Valid | RupFailure(line: nat, clause: seq<Lit>) | MissingEmptyClause

  /** A partial assignment. */
  type Assignment = map<nat, bool>

  // ---------- unit propagation, independently of the checker's loop ----------

  ghost predicate TrueIn(a: Assignment, l: Lit) { l.v in a && a[l.v] != l.neg }

  ghost predicate FalseIn(a: Assignment, l: Lit) { l.v in a && a[l.v] == l.neg }

  /** `a` with the literal made true. */
  function Propagated(a: Assignment, l: Lit): Assignment { a[l.v := !l.neg] }

  /** Every literal is false. */
  ghost predicate Falsified(a: Assignment, c: seq<Lit>) {
    forall i :: 0 <= i < |c| ==> FalseIn(a, c[i])
  }

  /** The literal at position `i` is unassigned and every other position is false. */
  ghost predicate UnitAt(a: Assignment, c: seq<Lit>, i: nat) {
    i < |c| && c[i].v !in a && forall j :: 0 <= j < |c| && j != i ==> FalseIn(a, c[j])
  }

  /** Unit propagation from `a` reaches a falsified clause in at most `n` steps. */
  ghost predicate Refutes(f: Cnf, a: Assignment, n: nat)
    decreases n
  {
    || (exists c :: c in f && Falsified(a, c))
    || (n > 0 && exists c: seq<Lit>, i: nat :: c in f && UnitAt(a, c, i) && Refutes(f, Propagated(a, c[i]), n - 1))
  }

  /** No clause is falsified and none is unit. */
  ghost predicate Quiescent(f: Cnf, a: Assignment) {
    forall c :: c in f ==> !Falsified(a, c) && forall i: nat :: !UnitAt(a, c, i)
  }

  /** The assignment that makes every literal of `c` false, for a clause that is not valid. */
  ghost predicate Negates(a: Assignment, c: seq<Lit>) {
    && (forall l :: l in c ==> FalseIn(a, l))
    && (forall v :: v in a ==> exists l :: l in c && l.v == v)
  }

  /** Some literal occurs with both signs. */
  ghost predicate Clashes(c: seq<Lit>) { exists l :: l in c && l.Not() in c }

  /** Reverse unit propagation: the clause is valid, or negating it leads to a conflict. */
  ghost predicate Rup(f: Cnf, c: seq<Lit>) {
    Clashes(c) || exists a: Assignment, n: nat :: Negates(a, c) && Refutes(f, a, n)
  }

  ghost predicate Agrees(m: Valuation, a: Assignment) {
    forall v :: v in a ==> (v in m <==> a[v])
  }

  /** No model of `f` extends an assignment that propagation refutes. */
  lemma {:induction false} RefutesSound(f: Cnf, a: Assignment, n: nat, m: Valuation)
    requires Refutes(f, a, n) && Models(m, f)
    ensures !Agrees(m, a)
    decreases n
  {
    hide Falsified, Agrees, SatClause, Holds;
    if Agrees(m, a) {
      if exists c :: c in f && Falsified(a, c) {
        var c :| c in f && Falsified(a, c);
        FalsifiedNotSat(a, c, m);
      } else {
        var c: seq<Lit>, i: nat :| c in f && UnitAt(a, c, i) && Refutes(f, Propagated(a, c[i]), n - 1);
        UnitForced(a, c, i, m);
        RefutesSound(f, Propagated(a, c[i]), n - 1, m);
      }
    }
  }

  lemma FalsifiedNotSat(a: Assignment, c: seq<Lit>, m: Valuation)
    requires Falsified(a, c) && Agrees(m, a)
    ensures !SatClause(m, c)
  {
    forall l | l in c ensures !Holds(m, l) {
      assert FalseIn(a, l);
    }
  }

  /** A valuation that satisfies a unit clause and agrees so far makes its open literal true. */
  lemma UnitForced(a: Assignment, c: seq<Lit>, i: nat, m: Valuation)
    requires UnitAt(a, c, i) && Agrees(m, a) && SatClause(m, c)
    ensures Agrees(m, Propagated(a, c[i]))
  {
    var l :| l in c && Holds(m, l);
    var j :| 0 <= j < |c| && c[j] == l;
    assert j != i ==> FalseIn(a, l);
  }

  /** A clause with the RUP property follows from the database. */
  lemma RupSound(f: Cnf, c: seq<Lit>)
    requires Rup(f, c)
    ensures Entails(f, c)
  {
    forall m: Valuation | Models(m, f) ensures SatClause(m, c) {
      if Clashes(c) {
        var l :| l in c && l.Not() in c;
        HoldsNot(m, l);
      } else {
        var a: Assignment, n: nat :| Negates(a, c) && Refutes(f, a, n);
        RefutesSound(f, a, n, m);
        var v :| v in a && !(v in m <==> a[v]);
        var l :| l in c && l.v == v;
        assert FalseIn(a, l);
      }
    }
  }

  /** A quiescent assignment above `a` shows that propagation from `a` meets no conflict. */
  lemma {:induction false} QuiescentBlocks(f: Cnf, a: Assignment, b: Assignment, n: nat)
    requires Quiescent(f, b) && forall v :: v in a ==> v in b && b[v] == a[v]
    ensures !Refutes(f, a, n)
    decreases n
  {
    forall c | c in f ensures !Falsified(a, c) {
      assert !Falsified(b, c);
      var j :| 0 <= j < |c| && !FalseIn(b, c[j]);
      assert !FalseIn(a, c[j]);
    }
    if n > 0 {
      forall c: seq<Lit>, i: nat | c in f && UnitAt(a, c, i) ensures !Refutes(f, Propagated(a, c[i]), n - 1) {
        assert !UnitAt(b, c, i) && !Falsified(b, c);
        assert TrueIn(b, c[i]);
        QuiescentBlocks(f, Propagated(a, c[i]), b, n - 1);
      }
    }
  }

  /** A conflict found later is a conflict from the start: propagated literals can be replayed. */
  lemma RefutesStep(f: Cnf, a: Assignment, c: seq<Lit>, i: nat, n: nat)
    requires c in f && UnitAt(a, c, i) && Refutes(f, Propagated(a, c[i]), n)
    ensures Refutes(f, a, n + 1)
  {
  }

  lemma ClashIsRup(f: Cnf, c: seq<Lit>)
    requires Clashes(c)
    ensures Rup(f, c)
  {
  }

  /** `b` extends `a` by literals that `k` steps of unit propagation yield. */
  ghost predicate Reached(f: Cnf, a: Assignment, b: Assignment, k: nat) {
    && (forall v :: v in a ==> v in b && b[v] == a[v])
    && (forall n: nat :: Refutes(f, b, n) ==> Refutes(f, a, n + k))
  }

  lemma ReachedStart(f: Cnf, a: Assignment)
    ensures Reached(f, a, a, 0)
  {
  }

  /** A falsified clause met after `k` propagations from the negated candidate. */
  lemma ConflictIsRup(f: Cnf, a: Assignment, b: Assignment, c: seq<Lit>, k: nat)
    requires Negates(a, c) && Reached(f, a, b, k)
    requires exists d :: d in f && Falsified(b, d)
    ensures Rup(f, c)
  {
    assert Refutes(f, b, 0);
    assert Refutes(f, a, 0 + k);
  }

  /** One more propagation. */
  lemma UnitStep(f: Cnf, a: Assignment, b: Assignment, l: Lit, k: nat)
    requires exists c: seq<Lit>, i: nat :: c in f && UnitAt(b, c, i) && c[i] == l
    requires Reached(f, a, b, k)
    ensures Reached(f, a, Propagated(b, l), k + 1)
    ensures |Vars(f) - Propagated(b, l).Keys| < |Vars(f) - b.Keys|
  {
    var c: seq<Lit>, i: nat :| c in f && UnitAt(b, c, i) && c[i] == l;
    forall n: nat | Refutes(f, Propagated(b, l), n) ensures Refutes(f, a, n + (k + 1)) {
      RefutesStep(f, b, c, i, n);
      assert Refutes(f, a, (n + 1) + k);
    }
    UnassignedShrinks(f, b, c, l);
  }

  lemma NegatesUnique(a: Assignment, b: Assignment, c: seq<Lit>)
    requires Negates(a, c) && Negates(b, c)
    ensures a == b
  {
    forall v | v in a ensures v in b && b[v] == a[v] {
      var l :| l in c && l.v == v;
      assert FalseIn(a, l) && FalseIn(b, l);
    }
    forall v | v in b ensures v in a {
      var l :| l in c && l.v == v;
      assert FalseIn(a, l);
    }
  }

  /** A quiescent assignment above the one that negates `c`: the clause does not have the property. */
  lemma NotRup(f: Cnf, a: Assignment, b: Assignment, c: seq<Lit>)
    requires Negates(a, c) && Quiescent(f, b) && exists k: nat :: Reached(f, a, b, k)
    ensures !Rup(f, c)
  {
    forall l | l in c ensures l.Not() !in c {
      assert FalseIn(a, l);
      assert l.Not() in c ==> FalseIn(a, l.Not());
    }
    forall a': Assignment, n: nat | Negates(a', c) ensures !Refutes(f, a', n) {
      NegatesUnique(a, a', c);
      QuiescentBlocks(f, a, b, n);
    }
  }

  // ---------- deletion ----------

  /** The database without the clause at `pos`, whose place the last clause takes. */
  function SwapRemove(f: Cnf, pos: nat): Cnf
    requires pos < |f|
  {
    f[pos := f[|f| - 1]][..|f| - 1]
  }

  lemma SwapRemoveContents(f: Cnf, pos: nat)
    requires pos < |f|
    ensures multiset(SwapRemove(f, pos)) == multiset(f) - multiset{f[pos]}
  {
    var n := |f| - 1;
    var g := f[pos := f[n]];
    assert f == f[..n] + [f[n]];
    assert g == g[..n] + [f[n]];
    assert multiset(g) == multiset(g[..n]) + multiset{f[n]};
    assert multiset(g) == multiset(f) - multiset{f[pos]} + multiset{f[n]};
  }

  /** Sorted by the packed word of the literal, duplicates allowed. */
  ghost predicate Sorted(c: seq<Lit>) {
    forall i, j :: 0 <= i < j < |c| ==> c[i].Index() <= c[j].Index()
  }

  function Insert(l: Lit, c: seq<Lit>): (r: seq<Lit>)
    requires Sorted(c)
    ensures Sorted(r) && multiset(r) == multiset(c) + multiset{l}
  {
    if c == [] then [l]
    else if l.Index() <= c[0].Index() then
      SortedCons(l, c);
      [l] + c
    else
      var r := Insert(l, c[1..]);
      assert [c[0]] + c[1..] == c;
      SortedAfter(c, l, r);
      SortedCons(c[0], r);
      [c[0]] + r
  }

  lemma SortedCons(l: Lit, c: seq<Lit>)
    requires Sorted(c) && forall x :: x in c ==> l.Index() <= x.Index()
    ensures Sorted([l] + c) && multiset([l] + c) == multiset(c) + multiset{l}
  {
  }

  lemma SortedAfter(c: seq<Lit>, l: Lit, r: seq<Lit>)
    requires c != [] && Sorted(c) && c[0].Index() <= l.Index()
    requires multiset(r) == multiset(c[1..]) + multiset{l}
    ensures forall x :: x in r ==> c[0].Index() <= x.Index()
  {
    forall x | x in r ensures c[0].Index() <= x.Index() {
      assert x in multiset(r);
      assert x == l || x in c[1..];
    }
  }

  function Sort(c: seq<Lit>): (r: seq<Lit>)
    ensures Sorted(r) && multiset(r) == multiset(c)
  {
    if c == [] then []
    else
      assert c == [c[0]] + c[1..];
      Insert(c[0], Sort(c[1..]))
  }

  /** Sorting is a canonical form: two clauses have the same sorted form iff they are
      permutations of each other. */
  lemma SortCanonical(c: seq<Lit>, d: seq<Lit>)
    ensures Sort(c) == Sort(d) <==> multiset(c) == multiset(d)
  {
    if multiset(c) == multiset(d) { SortedUnique(Sort(c), Sort(d)); }
  }

  lemma {:induction false} SortedUnique(c: seq<Lit>, d: seq<Lit>)
    requires Sorted(c) && Sorted(d) && multiset(c) == multiset(d)
    ensures c == d
  {
    hide Sorted;
    if c == [] {
      assert |multiset(d)| == 0;
    } else {
      assert |multiset(c)| == |c| && |multiset(d)| == |d|;
      HeadsEqual(c, d);
      SortedTail(c);
      SortedTail(d);
      TailContents(c);
      TailContents(d);
      SortedUnique(c[1..], d[1..]);
    }
  }

  lemma TailContents(c: seq<Lit>)
    requires c != []
    ensures multiset(c[1..]) == multiset(c) - multiset{c[0]} && c == [c[0]] + c[1..]
  {
    assert [c[0]] + c[1..] == c;
  }

  lemma SortedTail(c: seq<Lit>)
    requires Sorted(c) && c != []
    ensures Sorted(c[1..])
  {
  }

  lemma HeadsEqual(c: seq<Lit>, d: seq<Lit>)
    requires Sorted(c) && Sorted(d) && multiset(c) == multiset(d) && c != [] && d != []
    ensures c[0] == d[0]
  {
    assert c[0] in multiset(c) && d[0] in multiset(d);
    var i :| 0 <= i < |d| && d[i] == c[0];
    var j :| 0 <= j < |c| && c[j] == d[0];
  }

  /** Position of the first clause from `k` on that is a permutation of `c`; the length if none. */
  ghost function FirstPermuted(f: Cnf, c: seq<Lit>, k: nat): (pos: nat)
    requires k <= |f|
    ensures k <= pos <= |f|
    decreases |f| - k
  {
    if k == |f| || multiset(f[k]) == multiset(c) then k else FirstPermuted(f, c, k + 1)
  }

  /** What deletion makes of the database: nothing if no permutation of the clause is there. */
  ghost function Without(f: Cnf, c: seq<Lit>): Cnf {
    var pos := FirstPermuted(f, c, 0);
    if pos < |f| then SwapRemove(f, pos) else f
  }

  lemma {:induction false} FirstPermutedIs(f: Cnf, c: seq<Lit>, k: nat)
    requires k <= |f|
    ensures var pos := FirstPermuted(f, c, k);
      && (pos < |f| ==> multiset(f[pos]) == multiset(c))
      && forall j :: k <= j < pos ==> multiset(f[j]) != multiset(c)
    decreases |f| - k
  {
    if k < |f| && multiset(f[k]) != multiset(c) { FirstPermutedIs(f, c, k + 1); }
  }

  /** Deletion takes out one permutation of the clause, the first; without one it does nothing. */
  lemma WithoutContents(f: Cnf, c: seq<Lit>)
    ensures (forall d :: d in f ==> multiset(d) != multiset(c)) ==> Without(f, c) == f
    ensures (exists d :: d in f && multiset(d) == multiset(c)) ==>
      var pos := FirstPermuted(f, c, 0);
      && pos < |f| && multiset(f[pos]) == multiset(c) && (forall j :: 0 <= j < pos ==> multiset(f[j]) != multiset(c))
      && multiset(Without(f, c)) == multiset(f) - multiset{f[pos]}
  {
    FirstPermutedIs(f, c, 0);
    var pos := FirstPermuted(f, c, 0);
    if pos < |f| {
      assert f[pos] in f;
      SwapRemoveContents(f, pos);
    }
  }

  // ---------- the database, whatever its order ----------

  /** The clauses without the order of their literals, and without their own order. */
  type Database = multiset<multiset<Lit>>

  ghost function Contents(f: Cnf): Database {
    if f == [] then multiset{} else Contents(f[..|f| - 1]) + multiset{multiset(f[|f| - 1])}
  }

  lemma ContentsAppend(f: Cnf, c: seq<Lit>)
    ensures Contents(f + [c]) == Contents(f) + multiset{multiset(c)}
  {
    assert (f + [c])[..|f|] == f;
  }

  lemma {:induction false} ContentsConcat(f: Cnf, g: Cnf)
    ensures Contents(f + g) == Contents(f) + Contents(g)
    decreases |g|
  {
    if g == [] {
      assert f + g == f;
    } else {
      var n := |g| - 1;
      assert f + g == (f + g[..n]) + [g[n]] && g == g[..n] + [g[n]];
      ContentsAppend(f + g[..n], g[n]);
      ContentsAppend(g[..n], g[n]);
      ContentsConcat(f, g[..n]);
    }
  }

  lemma {:induction false} InContents(f: Cnf, m: multiset<Lit>)
    ensures m in Contents(f) <==> exists d :: d in f && multiset(d) == m
  {
    if f != [] {
      var n := |f| - 1;
      InContents(f[..n], m);
      assert f == f[..n] + [f[n]];
      forall d | d in f ensures d in f[..n] || d == f[n] {}
      assert f[n] in f && forall d :: d in f[..n] ==> d in f;
    }
  }

  lemma ContentsMiddle(lo: Cnf, c: seq<Lit>, hi: Cnf)
    ensures Contents(lo + [c] + hi) == Contents(lo) + Contents(hi) + multiset{multiset(c)}
  {
    hide Contents;
    ContentsAppend(lo, c);
    ContentsConcat(lo + [c], hi);
  }

  lemma ContentsRemoved(f: Cnf, pos: nat)
    requires pos < |f|
    ensures Contents(SwapRemove(f, pos)) == Contents(f) - multiset{multiset(f[pos])}
  {
    hide Contents, SwapRemove;
    ContentsRest(f, pos);
    ContentsSplit(f, pos);
    PlusMinus(Contents(f[..pos]) + Contents(f[pos + 1..]), multiset(f[pos]));
  }

  lemma ContentsSplit(f: Cnf, pos: nat)
    requires pos < |f|
    ensures Contents(f) == Contents(f[..pos]) + Contents(f[pos + 1..]) + multiset{multiset(f[pos])}
  {
    hide Contents;
    assert f == f[..pos] + [f[pos]] + f[pos + 1..];
    ContentsMiddle(f[..pos], f[pos], f[pos + 1..]);
  }

  lemma ContentsRest(f: Cnf, pos: nat)
    requires pos < |f|
    ensures Contents(SwapRemove(f, pos)) == Contents(f[..pos]) + Contents(f[pos + 1..])
  {
    hide Contents;
    var n := |f| - 1;
    if pos == n {
      assert SwapRemove(f, pos) == f[..pos] + f[pos + 1..];
      ContentsConcat(f[..pos], f[pos + 1..]);
    } else {
      LastMoves(f, pos);
      ContentsAppend(f[pos + 1..n], f[n]);
      ContentsMiddle(f[..pos], f[n], f[pos + 1..n]);
      Associate(Contents(f[..pos]), Contents(f[pos + 1..n]), multiset(f[n]));
    }
  }

  lemma LastMoves(f: Cnf, pos: nat)
    requires pos < |f| - 1
    ensures f[pos + 1..] == f[pos + 1..|f| - 1] + [f[|f| - 1]]
    ensures SwapRemove(f, pos) == f[..pos] + [f[|f| - 1]] + f[pos + 1..|f| - 1]
  {
  }

  lemma PlusMinus(d: Database, m: multiset<Lit>)
    ensures d + multiset{m} - multiset{m} == d
  {
  }

  lemma Associate(d: Database, e: Database, m: multiset<Lit>)
    ensures d + (e + multiset{m}) == d + e + multiset{m}
  {
  }

  /** Deletion takes out one clause, or none when there is no permutation of it. */
  lemma ContentsWithout(f: Cnf, c: seq<Lit>)
    ensures Contents(Without(f, c)) == Contents(f) - multiset{multiset(c)}
  {
    hide Contents;
    WithoutContents(f, c);
    InContents(f, multiset(c));
    if exists d :: d in f && multiset(d) == multiset(c) {
      ContentsRemoved(f, FirstPermuted(f, c, 0));
    }
  }

  // ---------- propagation does not see the order ----------

  /** Every clause of `f` is a permutation of one of `g`. */
  ghost predicate Covers(f: Cnf, g: Cnf) {
    forall d :: d in f ==> exists e :: e in g && multiset(e) == multiset(d)
  }

  lemma PermutedFalse(a: Assignment, d: seq<Lit>, e: seq<Lit>)
    requires multiset(d) == multiset(e) && Falsified(a, d)
    ensures Falsified(a, e)
  {
    forall k | 0 <= k < |e| ensures FalseIn(a, e[k]) {
      assert e[k] in multiset(d);
      assert e[k] in d;
    }
  }

  function Others(d: seq<Lit>, i: nat): seq<Lit>
    requires i < |d|
  {
    d[..i] + d[i + 1..]
  }

  lemma OthersAre(d: seq<Lit>, i: nat)
    requires i < |d|
    ensures multiset(Others(d, i)) == multiset(d) - multiset{d[i]}
    ensures forall k :: 0 <= k < |d| && k != i ==> d[k] in Others(d, i)
    ensures forall l :: l in Others(d, i) ==> exists k :: 0 <= k < |d| && k != i && d[k] == l
  {
    assert d == d[..i] + [d[i]] + d[i + 1..];
    forall k | 0 <= k < |d| && k != i ensures d[k] in Others(d, i) {
      assert Others(d, i)[if k < i then k else k - 1] == d[k];
    }
  }

  lemma PermutedUnit(a: Assignment, d: seq<Lit>, i: nat, e: seq<Lit>) returns (j: nat)
    requires multiset(d) == multiset(e) && UnitAt(a, d, i)
    ensures UnitAt(a, e, j) && e[j] == d[i]
  {
    hide Others;
    assert d[i] in multiset(e);
    j :| j < |e| && e[j] == d[i];
    OthersAre(d, i);
    OthersAre(e, j);
    forall k | 0 <= k < |e| && k != j ensures FalseIn(a, e[k]) {
      assert e[k] in multiset(Others(e, j));
      assert e[k] in Others(d, i);
    }
  }

  lemma {:induction false} RefutesCovered(f: Cnf, g: Cnf, a: Assignment, n: nat)
    requires Covers(f, g) && Refutes(f, a, n)
    ensures Refutes(g, a, n)
    decreases n
  {
    hide Falsified;
    if exists c :: c in f && Falsified(a, c) {
      var c :| c in f && Falsified(a, c);
      var e :| e in g && multiset(e) == multiset(c);
      PermutedFalse(a, c, e);
    } else {
      var c: seq<Lit>, i: nat :| c in f && UnitAt(a, c, i) && Refutes(f, Propagated(a, c[i]), n - 1);
      var e :| e in g && multiset(e) == multiset(c);
      var j := PermutedUnit(a, c, i, e);
      RefutesCovered(f, g, Propagated(a, c[i]), n - 1);
    }
  }

  lemma RupCovered(f: Cnf, g: Cnf, c: seq<Lit>)
    requires Covers(f, g) && Rup(f, c)
    ensures Rup(g, c)
  {
    if !Clashes(c) {
      var a: Assignment, n: nat :| Negates(a, c) && Refutes(f, a, n);
      RefutesCovered(f, g, a, n);
    }
  }

  lemma SameContents(f: Cnf, g: Cnf)
    requires Contents(f) == Contents(g)
    ensures Covers(f, g)
  {
    forall d | d in f ensures exists e :: e in g && multiset(e) == multiset(d) {
      InContents(f, multiset(d));
      InContents(g, multiset(d));
    }
  }

  /** Negating the clause leads to a conflict in the clauses of the database, however they are ordered. */
  ghost predicate Follows(d: Database, c: seq<Lit>) {
    exists f: Cnf :: Contents(f) == d && Rup(f, c)
  }

  lemma FollowsHere(f: Cnf, c: seq<Lit>)
    ensures Follows(Contents(f), c) <==> Rup(f, c)
  {
    hide Contents, Rup;
    if Follows(Contents(f), c) {
      var g: Cnf :| Contents(g) == Contents(f) && Rup(g, c);
      SameContents(g, f);
      RupCovered(g, f, c);
    }
  }

  // ---------- whole proofs ----------

  /** The databases before, between and after the steps: an addition adds its clause, a deletion takes
      out one permutation of its clause if there is one. */
  ghost predicate Databases(f: Cnf, steps: seq<Step>, ds: seq<Database>) {
    |ds| == |steps| + 1 && ds[0] == Contents(f) && forall i :: 0 <= i < |steps| ==> ds[i + 1] == Stepped(ds[i], steps[i])
  }

  ghost function Stepped(d: Database, step: Step): Database {
    match step
    case Add(c) => d + multiset{multiset(c)}
    case Delete(c) => d - multiset{multiset(c)}
  }

  /** What step `i` adds, if it adds something, follows from the database it meets. */
  ghost predicate Accepted(steps: seq<Step>, ds: seq<Database>, i: nat)
    requires i < |steps| && |ds| == |steps| + 1
  {
    steps[i].Add? ==> Follows(ds[i], steps[i].lits)
  }

  /** The steps before `k` are accepted and do not add the empty clause. */
  ghost predicate Passed(steps: seq<Step>, ds: seq<Database>, k: nat)
    requires k <= |steps| && |ds| == |steps| + 1
  {
    forall i :: 0 <= i < k ==> Accepted(steps, ds, i) && steps[i] != Add([])
  }

  lemma PassedNext(steps: seq<Step>, ds: seq<Database>, k: nat)
    requires k < |steps| && |ds| == |steps| + 1 && Passed(steps, ds, k) && steps[k] != Add([])
    requires steps[k].Add? ==> Follows(ds[k], steps[k].lits)
    ensures Passed(steps, ds, k + 1)
  {
  }

  lemma NonePassed(steps: seq<Step>, ds: seq<Database>)
    requires |ds| == |steps| + 1
    ensures Passed(steps, ds, 0)
  {
  }

  lemma {:induction false} SomeDatabases(f: Cnf, steps: seq<Step>) returns (ds: seq<Database>)
    ensures Databases(f, steps, ds)
    decreases |steps|
  {
    hide Contents, Stepped;
    if steps == [] {
      ds := [Contents(f)];
    } else {
      var n := |steps| - 1;
      var before := SomeDatabases(f, steps[..n]);
      ds := before + [Stepped(before[n], steps[n])];
    }
  }

  /** What the verdict means: the first step that fails, the first accepted empty clause, or neither. */
  ghost predicate Judged(steps: seq<Step>, ds: seq<Database>, r: Verdict)
    requires |ds| == |steps| + 1
  {
    && (r == Valid <==> exists k :: 0 <= k < |steps| && steps[k] == Add([]) && forall i :: 0 <= i <= k ==> Accepted(steps, ds, i))
    && (forall i: nat, c :: r == RupFailure(i + 1, c) <==>
          i < |steps| && steps[i] == Add(c) && !Follows(ds[i], c) && Passed(steps, ds, i))
    && (r == MissingEmptyClause <==> Passed(steps, ds, |steps|))
    && (r.RupFailure? ==> 0 < r.line <= |steps|)
  }

  lemma JudgedFailure(steps: seq<Step>, ds: seq<Database>, k: nat, c: seq<Lit>)
    requires k < |steps| && |ds| == |steps| + 1 && Passed(steps, ds, k) && steps[k] == Add(c) && !Follows(ds[k], c)
    ensures Judged(steps, ds, RupFailure(k + 1, c))
  {
    hide Follows;
    assert !Accepted(steps, ds, k);
    forall j | 0 <= j < |steps| && steps[j] == Add([])
      ensures !(forall i :: 0 <= i <= j ==> Accepted(steps, ds, i))
    {
      if j < k { assert false; }
    }
    forall i: nat, d | i < |steps| && steps[i] == Add(d) && !Follows(ds[i], d) && Passed(steps, ds, i) ensures i == k {
      assert !Accepted(steps, ds, i);
    }
  }

  lemma JudgedValid(steps: seq<Step>, ds: seq<Database>, k: nat)
    requires k < |steps| && |ds| == |steps| + 1 && Passed(steps, ds, k) && steps[k] == Add([]) && Follows(ds[k], [])
    ensures Judged(steps, ds, Valid)
  {
    hide Follows;
    assert Accepted(steps, ds, k);
    forall i: nat, c | i < |steps| && steps[i] == Add(c) && !Follows(ds[i], c) ensures !Passed(steps, ds, i) {
      assert !Accepted(steps, ds, i);
      if i > k { assert steps[k] == Add([]); }
    }
  }

  lemma JudgedMissing(steps: seq<Step>, ds: seq<Database>)
    requires |ds| == |steps| + 1 && Passed(steps, ds, |steps|)
    ensures Judged(steps, ds, MissingEmptyClause)
  {
    hide Follows;
    forall i: nat, c | i < |steps| && steps[i] == Add(c) ensures Follows(ds[i], c) {
      assert Accepted(steps, ds, i);
    }
  }

  lemma WithoutShrinks(f: Cnf, c: seq<Lit>, d: seq<Lit>)
    requires d in Without(f, c)
    ensures d in f
  {
  }

  /** What is stored follows from the clauses of the beginning. */
  ghost predicate Stored(f: Cnf, g: Cnf) {
    forall d :: d in g ==> Entails(f, d)
  }

  lemma StoredStart(f: Cnf)
    ensures Stored(f, f)
  {
  }

  lemma StoredDelete(f: Cnf, g: Cnf, c: seq<Lit>)
    requires Stored(f, g)
    ensures Stored(f, Without(g, c))
  {
    hide Entails;
    forall d | d in Without(g, c) ensures Entails(f, d) { WithoutShrinks(g, c, d); }
  }

  lemma StoredAdd(f: Cnf, g: Cnf, c: seq<Lit>)
    requires Stored(f, g) && Rup(g, c)
    ensures Stored(f, g + [c]) && Entails(f, c)
  {
    hide Rup;
    RupSound(g, c);
    EntailsCut(f, g, c);
  }

  lemma EntailsCut(f: Cnf, g: Cnf, c: seq<Lit>)
    requires Entails(g, c) && forall x :: x in g ==> Entails(f, x)
    ensures Entails(f, c)
  {
    forall m: Valuation | Models(m, f) ensures SatClause(m, c) {
      forall x | x in g ensures SatClause(m, x) { assert Entails(f, x); }
      assert Models(m, g);
    }
  }

  // ---------- the checker ----------

  datatype Scan = Satisfied | Conflict | Unit(i: nat) | Open

  class DratChecker {
    var clauses: seq<seq<Lit>>

    constructor (originalClauses: seq<seq<Lit>>)
      ensures clauses == originalClauses
    {
      clauses := originalClauses;
    }

    /** Judges one clause under the assignment. */
    method ScanClause(c: seq<Lit>, a: Assignment) returns (r: Scan)
      ensures r == Conflict <==> Falsified(a, c)
      ensures r.Unit? ==> UnitAt(a, c, r.i)
      ensures !r.Unit? ==> forall i: nat :: !UnitAt(a, c, i)
    {
      var unassigned: seq<nat> := [];
      var falseCount := 0;
      for i := 0 to |c|
        invariant forall k :: 0 <= k < i ==> !TrueIn(a, c[k])
        invariant falseCount + |unassigned| == i
        invariant forall k :: 0 <= k < |unassigned| ==> unassigned[k] < i && c[unassigned[k]].v !in a
        invariant forall k, j :: 0 <= k < j < |unassigned| ==> unassigned[k] < unassigned[j]
        invariant forall k :: 0 <= k < i && k !in unassigned ==> FalseIn(a, c[k])
      {
        if c[i].v in a {
          if a[c[i].v] != c[i].neg {
            return Satisfied;
          }
          falseCount := falseCount + 1;
        } else {
          unassigned := unassigned + [i];
        }
      }
      if falseCount == |c| {
        return Conflict;
      }
      if |unassigned| == 1 && falseCount + 1 == |c| {
        return Unit(unassigned[0]);
      }
      forall i: nat ensures !UnitAt(a, c, i) {
        var u, w := unassigned[0], unassigned[1];
        assert u != i || w != i;
      }
      r := Open;
    }

    /** Negates the candidate, unless some literal occurs in it with both signs. */
    method NegateCandidate(candidate: seq<Lit>) returns (clash: bool, a: Assignment)
      ensures clash ==> Clashes(candidate)
      ensures !clash ==> Negates(a, candidate)
    {
      a := map[];
      for i := 0 to |candidate|
        invariant Negates(a, candidate[..i])
      {
        var l := candidate[i];
        if l.v in a {
          if a[l.v] != l.neg {
            var k :| k in candidate[..i] && k.v == l.v;
            assert FalseIn(a, k);
            assert k == l.Not() && k in candidate;
            return true, a;
          }
        } else {
          a := a[l.v := l.neg];
        }
        assert candidate[..i + 1] == candidate[..i] + [l];
        forall v | v in a ensures exists x :: x in candidate[..i + 1] && x.v == v {
          if v != l.v {
            var x :| x in candidate[..i] && x.v == v;
            assert x in candidate[..i + 1];
          }
        }
      }
      assert candidate[..|candidate|] == candidate;
      clash := false;
    }

    /** Whether the candidate has the RUP property, exactly. */
    method CheckRup(candidate: seq<Lit>) returns (r: bool)
      ensures r <==> Rup(clauses, candidate)
    {
      hide Refutes, Quiescent, Negates, Vars, Falsified, UnitAt, Rup, Clashes, Reached;
      var clash, a := NegateCandidate(candidate);
      if clash {
        ClashIsRup(clauses, candidate);
        return true;
      }
      ghost var a0, k := a, 0;
      ReachedStart(clauses, a);
      while true
        invariant Reached(clauses, a0, a, k)
        decreases |Vars(clauses) - a.Keys|
      {
        var conflict, unit := FindUnit(a);
        if conflict {
          ConflictIsRup(clauses, a0, a, candidate, k);
          return true;
        }
        if unit == None {
          NotRup(clauses, a0, a, candidate);
          return false;
        }
        var l := unit.value;
        UnitStep(clauses, a0, a, l, k);
        a := Propagated(a, l);
        k := k + 1;
      }
    }

    /** The first clause that is falsified or unit, if any. */
    method FindUnit(a: Assignment) returns (conflict: bool, unit: Option<Lit>)
      ensures conflict ==> exists c :: c in clauses && Falsified(a, c)
      ensures !conflict && unit.Some? ==> exists c: seq<Lit>, i: nat :: c in clauses && UnitAt(a, c, i) && c[i] == unit.value
      ensures !conflict && unit == None ==> Quiescent(clauses, a)
    {
      for i := 0 to |clauses|
        invariant forall j :: 0 <= j < i ==> !Falsified(a, clauses[j]) && forall p: nat :: !UnitAt(a, clauses[j], p)
      {
        var s := ScanClause(clauses[i], a);
        match s {
          case Satisfied =>
          case Conflict => return true, None;
          case Unit(p) => return false, Some(clauses[i][p]);
          case Open =>
        }
      }
      return false, None;
    }

    /** Deletes the first permutation of the clause, if there is one. */
    method DeleteClause(lits: seq<Lit>)
      modifies this
      ensures clauses == Without(old(clauses), lits)
    {
      var pos := Position(lits);
      if pos < |clauses| {
        clauses := SwapRemove(clauses, pos);
      }
    }

    method Position(lits: seq<Lit>) returns (pos: nat)
      ensures pos == FirstPermuted(clauses, lits, 0)
    {
      var sortedLits := Sort(lits);
      pos := 0;
      while pos < |clauses|
        invariant pos <= |clauses| && FirstPermuted(clauses, lits, 0) == FirstPermuted(clauses, lits, pos)
      {
        SortCanonical(clauses[pos], lits);
        if Sort(clauses[pos]) == sortedLits {
          return;
        }
        pos := pos + 1;
      }
    }

    /** Checks a whole proof: the verdict is that of the databases `ds` the steps lead through, and the
        clauses left are those of the last one reached. All of them follow from the clauses the checker
        started from, which have no model when the proof is valid. */
    method VerifyProof(steps: seq<Step>) returns (r: Verdict, ghost ds: seq<Database>, ghost last: nat)
      modifies this
      ensures Databases(old(clauses), steps, ds) && Judged(steps, ds, r)
      ensures last < |ds| && Contents(clauses) == ds[last] && Passed(steps, ds, last)
      ensures (r.RupFailure? ==> last == r.line - 1) && (r == MissingEmptyClause ==> last == |steps|)
      ensures r == Valid ==> last < |steps| && steps[last] == Add([])
      ensures Stored(old(clauses), clauses)
      ensures r == Valid ==> Unsat(old(clauses))
    {
      hide Contents, Follows, Rup, Without, Stored, Judged, Entails, Passed;
      ds := SomeDatabases(clauses, steps);
      StoredStart(clauses);
      NonePassed(steps, ds);
      last := 0;
      var i := 0;
      while i < |steps|
        invariant i == last <= |steps| && Contents(clauses) == ds[i] && Passed(steps, ds, i)
        invariant Stored(old(clauses), clauses)
      {
        match steps[i] {
          case Delete(lits) =>
            ContentsWithout(clauses, lits);
            StoredDelete(old(clauses), clauses, lits);
            DeleteClause(lits);
          case Add(lits) =>
            var rup := CheckRup(lits);
            FollowsHere(clauses, lits);
            if !rup {
              JudgedFailure(steps, ds, i, lits);
              return RupFailure(i + 1, lits), ds, i;
            }
            StoredAdd(old(clauses), clauses, lits);
            if lits == [] {
              EntailsEmpty(old(clauses));
              JudgedValid(steps, ds, i);
              return Valid, ds, i;
            }
            ContentsAppend(clauses, lits);
            clauses := clauses + [lits];
        }
        PassedNext(steps, ds, i);
        i := i + 1;
        last := i;
      }
      JudgedMissing(steps, ds);
      r := MissingEmptyClause;
    }
  }

  ghost function Vars(f: Cnf): set<nat> {
    set c, l | c in f && l in c :: l.v
  }

  lemma UnassignedShrinks(f: Cnf, a: Assignment, c: seq<Lit>, l: Lit)
    requires c in f && l in c && l.v !in a
    ensures |Vars(f) - Propagated(a, l).Keys| < |Vars(f) - a.Keys|
  {
    var x, y := Vars(f) - Propagated(a, l).Keys, Vars(f) - a.Keys;
    assert x == y - {l.v} && l.v in y;
  }
}
