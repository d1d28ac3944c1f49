/** What a search has been through: its conflicts, the clauses learned from them, and what its
    restarts have cost. */
module SearchHistory {
  import opened Lits
  import opened Trails
  import opened TwoWatched
  import opened SearchInvariant
  import opened ConflictAnalysis

  /** A conflict: the clauses, the trail and the number of variables it was met with, the false
      clause, what was learned, the level to jump back to, and whether a restart was asked for. */
  datatype Jump = Jump(cls: Arena, t: TrailState, n: nat, cid: nat, learned: seq<Lit>, bl: nat, restart: bool)

  /** The restart undoes levels that make the rest of the learned clause false. */
  predicate Loses(j: Jump) { j.restart && j.bl > 0 && j.learned != [] }

  /** A unit clause for every literal that a restart has asserted although nothing supports it. */
  function Lost(js: seq<Jump>): Cnf {
    if js == [] then [] else
      var j := js[|js| - 1];
      Lost(js[..|js| - 1]) + if Loses(j) then [[j.learned[0]]] else []
  }

  /** A conflict of a search whose clauses and level 0 follow from `g`, and its analysis. */
  ghost predicate Learns(g: Cnf, j: Jump) {
    && j.t.Wf(j.n) && ArenaWf(j.cls, j.n) && ReasonsOk(j.cls, j.t, j.n) && Sound(g, j.cls, j.t, j.n)
    && (exists q: nat :: ConflictFound(j.cls, j.t, j.n, j.cid, q))
    && Asserting(j.cls, j.t, j.n, j.learned, j.bl)
  }

  /** Each conflict is met with what follows from the added clauses and what was lost before it. */
  ghost predicate History(f: Cnf, js: seq<Jump>) {
    forall i :: 0 <= i < |js| ==> Learns(f + Lost(js[..i]), js[i])
  }

  // ---------- the answers of the restart heuristic ----------

  predicate Asked(plan: seq<bool>) { plan != [] && plan[0] }

  function Rest(plan: seq<bool>, k: nat): seq<bool> { if k <= |plan| then plan[k..] else [] }

  /** The conflicts were met with these answers, and with no restart once they were used up. */
  predicate Answered(js: seq<Jump>, plan: seq<bool>) {
    forall i :: 0 <= i < |js| ==> js[i].restart == (i < |plan| && plan[i])
  }

  /** The search went on from the first history to the second, and used up answers. */
  predicate Went(js: seq<Jump>, plan: seq<bool>, js': seq<Jump>, plan': seq<bool>) {
    js <= js' && Answered(js'[|js|..], plan) && plan' == Rest(plan, |js'| - |js|)
  }

  /** One conflict more. */
  ghost predicate Jumped(js: seq<Jump>, js': seq<Jump>, cls: Arena, t: TrailState, n: nat, cid: nat, plan: seq<bool>) {
    && |js'| == |js| + 1 && js <= js'
    && var j := js'[|js|]; j == Jump(cls, t, n, cid, j.learned, j.bl, Asked(plan))
  }

  lemma WentNowhere(js: seq<Jump>, plan: seq<bool>)
    ensures Went(js, plan, js, plan)
  {
  }

  lemma WentOn(js: seq<Jump>, plan: seq<bool>, js': seq<Jump>, plan': seq<bool>, js'': seq<Jump>, cls: Arena, t: TrailState, n: nat, cid: nat)
    requires Went(js, plan, js', plan') && Jumped(js', js'', cls, t, n, cid, plan')
    ensures Went(js, plan, js'', Rest(plan', 1))
  {
    var a, b := js'[|js|..], js''[|js|..];
    assert b == a + [js''[|js'|]];
    forall i | 0 <= i < |b| ensures b[i].restart == (i < |plan| && plan[i]) {
      if i < |a| { assert b[i] == a[i]; }
    }
  }

  lemma LostAppend(js: seq<Jump>, j: Jump)
    ensures Lost(js + [j]) == Lost(js) + if Loses(j) then [[j.learned[0]]] else []
  {
    assert (js + [j])[..|js|] == js;
  }

  lemma HistoryStart(f: Cnf)
    ensures History(f, []) && Lost([]) == []
  {
  }

  lemma HistoryAppend(f: Cnf, js: seq<Jump>, j: Jump)
    requires History(f, js) && Learns(f + Lost(js), j)
    ensures History(f, js + [j])
  {
    hide Learns, Lost;
    forall i | 0 <= i < |js + [j]| ensures Learns(f + Lost((js + [j])[..i]), (js + [j])[i]) {
      if i < |js| { assert (js + [j])[..i] == js[..i]; } else { assert (js + [j])[..i] == js; }
    }
  }

  /** The history of a solver stays one when a clause is added. */
  lemma HistoryMore(f: Cnf, c: seq<Lit>, js: seq<Jump>)
    requires History(f, js)
    ensures History(f + [c], js)
  {
    hide Lost;
    forall i | 0 <= i < |js| ensures Learns(f + [c] + Lost(js[..i]), js[i]) {
      hide Sound;
      assert Learns(f + Lost(js[..i]), js[i]);
      SoundMore(f + Lost(js[..i]), f + [c] + Lost(js[..i]), js[i].cls, js[i].t, js[i].n);
    }
  }

  lemma HistoryBefore(f: Cnf, js: seq<Jump>, k: nat)
    requires History(f, js) && k <= |js|
    ensures History(f, js[..k])
  {
    hide Learns, Lost;
    forall i | 0 <= i < k ensures Learns(f + Lost(js[..k][..i]), js[..k][i]) {
      assert js[..k][..i] == js[..i] && Learns(f + Lost(js[..i]), js[i]);
    }
  }

  /** The analysis of a conflict, as the search meets it. */
  lemma LearnsHere(f: Cnf, cls: Arena, wl: Lists, t: TrailState, n: nat, lost: Cnf, j: Jump)
    requires Core(f, cls, wl, t, n, lost) && j == Jump(cls, t, n, j.cid, j.learned, j.bl, j.restart)
    requires exists q: nat :: ConflictFound(cls, t, n, j.cid, q)
    requires t.Wf(n) && Asserting(cls, t, n, j.learned, j.bl)
    ensures Learns(f + lost, j)
  {
    hide Core, TrailState.Wf, AllSettled, Asserting, ConflictFound, Sound, ArenaWf, ReasonsOk;
    CoreFacts(f, cls, wl, t, n, lost);
    CoreSound(f, cls, wl, t, n, lost);
    CoreReasons(f, cls, wl, t, n, lost);
  }

  // ---------- what the history says ----------

  /** Every learned clause follows from the added clauses and what was lost before; it has distinct
      variables, and one literal exactly when the jump goes to level 0. */
  lemma LearnedFollows(f: Cnf, js: seq<Jump>, i: nat)
    requires History(f, js) && i < |js|
    ensures Entails(f + Lost(js[..i]), js[i].learned) && js[i].learned != []
    ensures |js[i].learned| == 1 <==> js[i].bl == 0
    ensures forall k, l :: 0 <= k < l < |js[i].learned| ==> js[i].learned[k].v != js[i].learned[l].v
  {
    hide Lost, Sound;
    assert Learns(f + Lost(js[..i]), js[i]);
    LearnedEntailed(f + Lost(js[..i]), js[i].cls, js[i].t, js[i].n, js[i].learned, js[i].bl);
  }

  /** A literal is lost only at a restart, and only the first one of a clause of two or more. */
  lemma {:induction false} LostAt(f: Cnf, js: seq<Jump>, c: seq<Lit>)
    requires History(f, js) && c in Lost(js)
    ensures exists i :: 0 <= i < |js| && js[i].restart && |js[i].learned| > 1 && c == [js[i].learned[0]]
  {
    hide Learns;
    var k: nat := |js| - 1;
    if c in Lost(js[..k]) {
      HistoryBefore(f, js, k);
      LostAt(f, js[..k], c);
      var i :| 0 <= i < k && js[..k][i].restart && |js[..k][i].learned| > 1 && c == [js[..k][i].learned[0]];
      assert js[i] == js[..k][i];
    } else {
      LearnedFollows(f, js, k);
    }
  }

  /** At most one literal for every restart. */
  lemma {:induction false} LostPerRestart(js: seq<Jump>)
    ensures |Lost(js)| <= |set i | 0 <= i < |js| && js[i].restart|
  {
    if js != [] {
      var k := |js| - 1;
      LostPerRestart(js[..k]);
      var a, b := set i | 0 <= i < k && js[..k][i].restart, set i | 0 <= i < |js| && js[i].restart;
      assert b == if js[k].restart then a + {k} else a;
    }
  }

  /** Nothing is lost as long as every restart comes with a unit clause. */
  lemma {:induction false} NothingLost(f: Cnf, js: seq<Jump>)
    requires History(f, js) && forall i :: 0 <= i < |js| ==> js[i].restart ==> |js[i].learned| == 1
    ensures Lost(js) == []
  {
    if Lost(js) != [] {
      var c := Lost(js)[0];
      LostAt(f, js, c);
      assert false;
    }
  }

  /** Nor is more lost when no restart is asked for. */
  lemma {:induction false} LostSame(js: seq<Jump>, js': seq<Jump>)
    requires js <= js' && forall i :: |js| <= i < |js'| ==> !js'[i].restart
    ensures Lost(js') == Lost(js)
    decreases |js'|
  {
    if |js'| > |js| {
      LostSame(js, js'[..|js'| - 1]);
    } else {
      assert js' == js;
    }
  }
}
