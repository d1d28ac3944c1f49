/** The CDCL solver: two-watched-literal propagation, first-UIP learning, backjumping,
    restarts and clause-database reduction. */
module Cdcl {
  import opened Lits
  import opened Trails
  import opened TwoWatched
  import opened SearchInvariant
  import opened SearchProgress
  import opened ConflictAnalysis
  import opened SearchHistory
  import opened VsidsHeap

  /** What a visit to one watcher asks for: forget the entry, keep it (perhaps with another
      blocker), or keep it and report a conflict. */
  datatype Visit = Drop | Keep(w: Watcher) | Conflict(w: Watcher)

  lemma DeletedIs(cls: Arena, id: nat)
    requires id < |cls|
    ensures Deleted(cls, id) == cls[id := cls[id].(deleted := true)]
  {
  }

  class SatSolver {
    var clauses: seq<Clause>
    var watches: seq<seq<Watcher>>
    const trail: Trail
    const vsids: Vsids
    var ok: bool
    var numVars: nat
    var conflicts: nat
    var propagations: nat
    var maxLearned: nat
    var maxConflicts: Option<nat>
    var maxPropagations: Option<nat>
    /** The answers the restart heuristic is going to give, conflict by conflict; it never asks
        for a restart once they are used up. */
    var restartPlan: seq<bool>
    var model: seq<LBool>
    /** Every clause ever passed to `AddClause`. */
    ghost var added: Cnf
    /** The conflicts met so far. */
    ghost var jumps: seq<Jump>
    /** A unit clause for every literal of a longer clause that a restart has asserted at level 0. */
    ghost var lost: Cnf

    ghost predicate SearchOk(wl: seq<seq<Watcher>>)
      reads this, trail
    {
      Core(added, clauses, wl, trail.State(), numVars, lost)
    }

    /** Each conflict is on record, and so is what restarts have cost. */
    ghost predicate Recorded()
      reads this`added, this`jumps, this`lost, this`conflicts
    {
      History(added, jumps) && lost == Lost(jumps) && |jumps| == conflicts
    }

    /** A budget is set, and used up. */
    predicate Exhausted()
      reads this`maxConflicts, this`maxPropagations, this`conflicts, this`propagations
    {
      || (maxConflicts.Some? && conflicts >= maxConflicts.value)
      || (maxPropagations.Some? && propagations >= maxPropagations.value)
    }

    ghost predicate HeapOk()
      reads this, trail, vsids
    {
      && vsids.Valid() && |vsids.activity| == numVars == |trail.assigns|
      && forall v :: 0 <= v < numVars && trail.assigns[v] == Undef ==> v in vsids.InHeap()
    }

    /** What a visit leaves behind, whatever its outcome. */
    ghost predicate VisitDone(p: Lit, keep: seq<Watcher>, rest: seq<Watcher>, o: Visit)
      reads this, trail
    {
      var t := trail.State();
      match o
      case Drop => Stage(added, clauses, watches, t, numVars, lost, p, keep, rest)
      case Keep(w) => Stage(added, clauses, watches, t, numVars, lost, p, keep + [w], rest)
      case Conflict(w) =>
        && p.v < numVars && |watches| == 2 * numVars
        && Core(added, clauses, watches[p.Index() := keep + [w] + rest], t, numVars, lost)
        && Falsified(clauses, t, w.clause) && p.Not() in clauses[w.clause].lits
        && 0 < t.qhead <= |t.lits| && AllSettled(clauses, t, numVars, t.qhead - 1)
    }

    /** The invariant between two calls. */
    ghost predicate Valid()
      reads this, trail, vsids
    {
      && trail.State().Wf(numVars) && HeapOk() && trail.trailLim == [] && Recorded()
      && (ok ==> SearchOk(watches) && AllSettled(clauses, trail.State(), numVars, trail.qhead))
      && (!ok ==> Unsat(added + lost))
    }

    /** The invariant at the head of the search loop. */
    ghost predicate Searching()
      reads this, trail, vsids
    {
      && SearchOk(watches) && HeapOk() && Recorded() && LevelsFilled(trail.State())
      && LimsBelow(trail.State(), trail.qhead)
      && AllSettled(clauses, trail.State(), numVars, trail.qhead)
    }

    constructor (restartPlan: seq<bool>, maxConflicts: Option<nat>, maxPropagations: Option<nat>)
      ensures fresh(trail) && fresh(vsids)
      ensures this.restartPlan == restartPlan
      ensures this.maxConflicts == maxConflicts && this.maxPropagations == maxPropagations
      ensures Valid() && numVars == 0 && added == [] && jumps == [] && ok
    {
      clauses, watches, ok, numVars, conflicts, propagations := [], [], true, 0, 0, 0;
      maxLearned, model := 4000, [];
      this.restartPlan, this.maxConflicts, this.maxPropagations := restartPlan, maxConflicts, maxPropagations;
      trail := new Trail();
      vsids := new Vsids();
      added, jumps, lost := [], [], [];
    }

    // ---------- propagation ----------

    /** Visits the watcher `w` on the list of the true literal `p`; `keep` and `rest` are the
        entries of that list already visited and still pending. */
    method Visit(p: Lit, w: Watcher, ghost keep: seq<Watcher>, ghost rest: seq<Watcher>) returns (o: Visit)
      requires Stage(added, clauses, watches, trail.State(), numVars, lost, p, keep, [w] + rest)
      modifies this`clauses, this`watches, trail`assigns, trail`phase, trail`varData, trail`trail
      ensures trail.trail == old(trail.trail) || (exists l: Lit :: trail.trail == old(trail.trail) + [l])
      ensures SameArena(old(clauses), clauses)
      ensures VisitDone(p, keep, rest, o)
      ensures o.Conflict? ==> trail.State() == old(trail.State())
    {
      hide Stage, Core, AllSettled, TrailState.Wf, SameArena;
      ghost var t, n := trail.State(), numVars;
      StageClause(added, clauses, watches, t, n, lost, p, keep, w, rest);
      SameArenaRefl(clauses);
      var cid := w.clause;
      if clauses[cid].deleted {
        StageSkip(added, clauses, watches, t, n, lost, p, keep, w, rest);
        return Drop;
      }
      if trail.LitValue(w.blocker) == True {
        StageTrue(added, clauses, watches, t, n, lost, p, keep, w, w, rest, w.blocker);
        return Keep(w);
      }
      var falseLit := p.Not();
      if clauses[cid].lits[0] == falseLit {
        StageSwap(added, clauses, watches, t, n, lost, p, keep, w, rest);
        SameArenaExchange(clauses, cid, 0, 1);
        var c := clauses[cid].lits;
        clauses := clauses[cid := clauses[cid].(lits := Exchanged(c, 0, 1))];
      }
      ghost var a := clauses;
      o := VisitFalsified(p, w, keep, rest);
      SameArenaTrans(old(clauses), a, clauses);
    }

    /** The part of a visit that follows once the false literal is in slot 1. */
    method VisitFalsified(p: Lit, w: Watcher, ghost keep: seq<Watcher>, ghost rest: seq<Watcher>) returns (o: Visit)
      requires Stage(added, clauses, watches, trail.State(), numVars, lost, p, keep, [w] + rest)
      requires Live(clauses, w.clause) && 2 <= |clauses[w.clause].lits| && clauses[w.clause].lits[1] == p.Not()
      modifies this`clauses, this`watches, trail`assigns, trail`phase, trail`varData, trail`trail
      ensures trail.trail == old(trail.trail) || (exists l: Lit :: trail.trail == old(trail.trail) + [l])
      ensures SameArena(old(clauses), clauses)
      ensures VisitDone(p, keep, rest, o)
      ensures o.Conflict? ==> trail.State() == old(trail.State())
    {
      hide Stage, Core, AllSettled, TrailState.Wf, SameArena;
      ghost var t, n := trail.State(), numVars;
      StageClause(added, clauses, watches, t, n, lost, p, keep, w, rest);
      SameArenaRefl(clauses);
      var cid := w.clause;
      var firstLit := clauses[cid].lits[0];
      assert firstLit in clauses[cid].lits;
      var w' := Watcher(cid, firstLit);
      if trail.LitValue(firstLit) == True {
        StageTrue(added, clauses, watches, t, n, lost, p, keep, w, w', rest, firstLit);
        return Keep(w');
      }
      var i := FindNewWatch(cid);
      if i < |clauses[cid].lits| {
        var np := clauses[cid].lits[i].Not().Index();
        assert clauses[cid].lits[i] in clauses[cid].lits;
        StageMove(added, clauses, watches, t, n, lost, p, keep, w, rest, i, firstLit,
                  watches[np := watches[np] + [Watcher(cid, firstLit)]]);
        SameArenaExchange(clauses, cid, 1, i);
        clauses := Moved(clauses, cid, i);
        watches := watches[np := watches[np] + [Watcher(cid, firstLit)]];
        return Drop;
      }
      if trail.LitValue(firstLit) == False {
        CoreKeep(added, clauses, watches, t, n, lost, p, keep, w, w', rest);
        return Conflict(w');
      }
      StageUnit(added, clauses, watches, t, n, lost, p, keep, w, w', rest, firstLit);
      trail.AssignLit(firstLit, FromClause(cid));
      o := Keep(w');
    }

    /** The first slot from 2 on whose literal is not false, or the length of the clause. */
    method FindNewWatch(cid: nat) returns (i: nat)
      requires cid < |clauses| && trail.State().Wf(numVars) && clauses[cid].Wf(numVars)
      ensures 2 <= i <= |clauses[cid].lits|
      ensures forall k :: 2 <= k < i ==> trail.State().IsFalse(clauses[cid].lits[k])
      ensures i < |clauses[cid].lits| ==> !trail.State().IsFalse(clauses[cid].lits[i])
      ensures i == |clauses[cid].lits| && trail.State().IsFalse(clauses[cid].lits[1]) ==>
        forall l :: l in clauses[cid].lits ==> l == clauses[cid].lits[0] || trail.State().IsFalse(l)
    {
      i := 2;
      while i < |clauses[cid].lits|
        invariant 2 <= i <= |clauses[cid].lits|
        invariant forall k :: 2 <= k < i ==> trail.State().IsFalse(clauses[cid].lits[k])
      {
        assert clauses[cid].lits[i] in clauses[cid].lits;
        if trail.LitValue(clauses[cid].lits[i]) != False {
          return;
        }
        i := i + 1;
      }
    }

    /** Dequeues one literal and visits its whole watch list. */
    method PropagateNext() returns (r: Option<nat>)
      requires SearchOk(watches)
      requires LimsBelow(trail.State(), trail.qhead) && trail.qhead < |trail.trail|
      requires AllSettled(clauses, trail.State(), numVars, trail.qhead)
      modifies this`clauses, this`watches, this`propagations, trail`assigns, trail`phase, trail`varData, trail`trail, trail`qhead
      ensures SearchOk(watches) && trail.qhead == old(trail.qhead) + 1
      ensures old(trail.trail) <= trail.trail
      ensures SameArena(old(clauses), clauses)
      ensures r == None ==> AllSettled(clauses, trail.State(), numVars, trail.qhead)
      ensures r.Some? ==> ConflictFound(clauses, trail.State(), numVars, r.value, old(trail.qhead))
    {
      hide Stage, Core, AllSettled, TrailState.Wf, SameArena, ConflictFound;
      ghost var q, n := trail.qhead, numVars;
      var p := trail.trail[trail.qhead];
      CoreFacts(added, clauses, watches, trail.State(), n, lost);
      StageStart(added, clauses, watches, trail.State(), n, lost, q, p);
      propagations := propagations + 1;
      var next := trail.NextUnpropagated();
      assert next == Some(p);
      var watchers := watches[p.Index()];
      watches := watches[p.Index() := []];
      r := VisitList(p, watchers);
    }

    /** Visits all of `watchers`, the former list of `p`, and stores what the list becomes. */
    method VisitList(p: Lit, watchers: seq<Watcher>) returns (r: Option<nat>)
      requires Stage(added, clauses, watches, trail.State(), numVars, lost, p, [], watchers)
      modifies this`clauses, this`watches, trail`assigns, trail`phase, trail`varData, trail`trail
      ensures SearchOk(watches)
      ensures old(trail.trail) <= trail.trail
      ensures SameArena(old(clauses), clauses)
      ensures r == None ==> AllSettled(clauses, trail.State(), numVars, trail.qhead) && LimsBelow(trail.State(), trail.qhead)
      ensures r.Some? ==> 0 < trail.qhead && ConflictFound(clauses, trail.State(), numVars, r.value, trail.qhead - 1)
    {
      hide Stage, Core, AllSettled, TrailState.Wf, SameArena, ConflictFound, Falsified;
      SameArenaRefl(clauses);
      var keep: seq<Watcher> := [];
      var i := 0;
      while i < |watchers|
        invariant i <= |watchers|
        invariant old(trail.trail) <= trail.trail
        invariant SameArena(old(clauses), clauses)
        invariant Stage(added, clauses, watches, trail.State(), numVars, lost, p, keep, watchers[i..])
      {
        ghost var rest := watchers[i + 1..];
        assert watchers[i..] == [watchers[i]] + rest;
        StageFacts(added, clauses, watches, trail.State(), numVars, lost, p, keep, watchers[i..]);
        ghost var a := clauses;
        var o := Visit(p, watchers[i], keep, rest);
        SameArenaTrans(old(clauses), a, clauses);
        match o
        case Drop =>
          i := i + 1;
        case Keep(w) =>
          keep := keep + [w];
          i := i + 1;
        case Conflict(w) =>
          keep := keep + [w] + watchers[i + 1..];
          ConflictFrom(added, clauses, watches[p.Index() := keep], trail.State(), numVars, lost, w.clause, p);
          watches := watches[p.Index() := keep];
          return Some(w.clause);
      }
      assert watchers[i..] == [];
      StageEnd(added, clauses, watches, trail.State(), numVars, lost, p, keep);
      watches := watches[p.Index() := keep];
      r := None;
    }

    /** Propagates the queue. Returns the identifier of a falsified clause, if one is met. */
    method Bcp() returns (r: Option<nat>)
      requires SearchOk(watches)
      requires LimsBelow(trail.State(), trail.qhead)
      requires AllSettled(clauses, trail.State(), numVars, trail.qhead)
      modifies this`clauses, this`watches, this`propagations, trail`assigns, trail`phase, trail`varData, trail`trail, trail`qhead
      ensures SearchOk(watches)
      ensures old(trail.trail) <= trail.trail
      ensures SameArena(old(clauses), clauses)
      ensures r == None ==> trail.qhead == |trail.trail| && AllSettled(clauses, trail.State(), numVars, trail.qhead)
      ensures r.Some? ==> exists q: nat :: ConflictFound(clauses, trail.State(), numVars, r.value, q)
    {
      while trail.qhead < |trail.trail|
        invariant SearchOk(watches)
        invariant LimsBelow(trail.State(), trail.qhead)
        invariant AllSettled(clauses, trail.State(), numVars, trail.qhead)
        invariant old(trail.trail) <= trail.trail
        invariant SameArena(old(clauses), clauses)
        decreases numVars - trail.qhead
      {
        TrailFits(trail.State(), numVars);
        ghost var a := clauses;
        r := PropagateNext();
        SameArenaTrans(old(clauses), a, clauses);
        if r.Some? {
          return;
        }
      }
      r := None;
    }

    // ---------- conflict analysis ----------

    /** First-UIP analysis of a falsified clause met above level 0. */
    method AnalyzeConflict(cid: nat) returns (learned: seq<Lit>, bl: nat, lbd: nat)
      requires SearchOk(watches) && HeapOk() && trail.trailLim != []
      requires exists q: nat :: ConflictFound(clauses, trail.State(), numVars, cid, q)
      modifies this`conflicts, vsids
      ensures HeapOk() && conflicts == old(conflicts) + 1
      ensures Asserting(clauses, trail.State(), numVars, learned, bl)
      ensures lbd >= 1
    {
      hide Core, TrailState.Wf, Derived, Collected, AllSettled, Asserting, FalseBefore, HasCurrent;
      hide Vsids.Valid;
      ghost var t, n, cls := trail.State(), numVars, clauses;
      CoreFacts(added, clauses, watches, t, n, lost);
      InitCollected(cls, t, n, cid);
      conflicts := conflicts + 1;
      // slot 0 is reserved for the asserting literal
      learned := [Lit(0, false)];
      ghost var tail: seq<Lit>, open: set<nat> := [], {};
      var seen := seq(numVars, _ => false);
      var pathCount := 0;
      bl := 0;
      var currentLits := clauses[cid].lits;
      var trailIdx: nat := |trail.trail|;
      while true
        invariant trail.State() == t && clauses == cls && HeapOk() && conflicts == old(conflicts) + 1
        invariant trailIdx <= |t.lits| && t.End(0) <= |t.lits|
        invariant |learned| >= 1 && learned[1..] == tail
        invariant Collected(t, n, seen, tail, open, bl, trailIdx)
        invariant FalseBefore(t, currentLits, trailIdx)
        invariant Derived(cls, t, tail, open, currentLits)
        invariant pathCount == |open|
        invariant open != {} || HasCurrent(t, currentLits)
        decreases trailIdx
      {
        seen, learned, pathCount, bl, open, tail := Collect(currentLits, seen, learned, pathCount, bl, trailIdx, open, tail);
        var k := NextSeen(seen, trailIdx, open, tail, bl);
        trailIdx := k;
        var lit := trail.trail[k];
        var v := lit.v;
        pathCount := pathCount - 1;
        if pathCount == 0 {
          UipFound(cls, t, n, seen, tail, open, bl, k);
          learned := learned[0 := lit.Not()];
          assert learned == [lit.Not()] + tail;
          break;
        }
        CoreReasons(added, clauses, watches, t, n, lost);
        currentLits := Antecedent(k, seen, tail, open, bl);
        seen := seen[v := false];
        open := open - {k};
      }
      lbd := BlockDistance(learned) by { AssertingWf(cls, t, n, learned, bl, 0); }
      vsids.Decay();
    }

    /** The other literals of the reason clause at trail position `k`. A marked position with another
        open one has a reason clause: the two ways to give up here are never taken. */
    method Antecedent(k: nat, ghost seen: seq<bool>, ghost tail: seq<Lit>, ghost open: set<nat>, ghost bl: nat)
      returns (others: seq<Lit>)
      requires trail.State().Wf(numVars) && ReasonsOk(clauses, trail.State(), numVars)
      requires Collected(trail.State(), numVars, seen, tail, open, bl, k + 1) && k in open && |open| > 1
      requires trail.State().End(0) <= |trail.trail| && Derived(clauses, trail.State(), tail, open, [])
      ensures k < |trail.trail| && trail.trail[k].v < numVars == |seen|
      ensures Collected(trail.State(), numVars, seen[trail.trail[k].v := false], tail, open - {k}, bl, k)
      ensures Derived(clauses, trail.State(), tail, open - {k}, others) && FalseBefore(trail.State(), others, k)
      ensures open - {k} != {}
    {
      hide TrailState.Wf, Derived, FalseBefore, ReasonsOk;
      ghost var t := trail.State();
      var v := trail.trail[k].v;
      HasReason(clauses, t, numVars, seen, tail, open, bl, k);
      match trail.varData[v].reason {
        case FromClause(rid) =>
          OthersFalse(t, numVars, clauses[rid].lits, k);
          Resolve(clauses, t, numVars, seen, tail, open, bl, k, rid, Without(clauses[rid].lits, v));
          others := Without(clauses[rid].lits, v);
          ghost var other := AnotherOf(open, k);
          assert other in open - {k};
        case _ =>
          assert false;
      }
    }

    /** Literal block distance: the number of distinct levels in the learned clause. */
    function BlockDistance(learned: seq<Lit>): (lbd: nat)
      requires forall i :: 0 <= i < |learned| ==> learned[i].v < |trail.varData|
      reads this, trail
      ensures lbd >= 1
    {
      var levels := set i | 0 <= i < |learned| :: trail.varData[learned[i].v].level;
      if |levels| > 1 then |levels| else 1
    }

    /** Marks the variables of `lits`: those of the current level become open positions, those of
        lower levels above 0 join the learned clause. */
    method Collect(lits: seq<Lit>, seen0: seq<bool>, learned0: seq<Lit>, pathCount0: nat, bl0: nat, trailIdx: nat,
                   ghost open0: set<nat>, ghost tail0: seq<Lit>)
      returns (seen: seq<bool>, learned: seq<Lit>, pathCount: nat, bl: nat, ghost open: set<nat>, ghost tail: seq<Lit>)
      requires trail.State().Wf(numVars) && HeapOk() && trailIdx <= |trail.trail| && trail.State().End(0) <= |trail.trail|
      requires |learned0| >= 1 && learned0[1..] == tail0 && pathCount0 == |open0|
      requires Collected(trail.State(), numVars, seen0, tail0, open0, bl0, trailIdx)
      requires FalseBefore(trail.State(), lits, trailIdx)
      requires Derived(clauses, trail.State(), tail0, open0, lits)
      requires open0 != {} || HasCurrent(trail.State(), lits)
      modifies vsids
      ensures HeapOk()
      ensures |learned| >= 1 && learned[1..] == tail && pathCount == |open|
      ensures Collected(trail.State(), numVars, seen, tail, open, bl, trailIdx)
      ensures Derived(clauses, trail.State(), tail, open, [])
      ensures open != {}
    {
      hide TrailState.Wf, Derived, Collected, FalseBefore;
      ghost var t, n := trail.State(), numVars;
      seen, learned, pathCount, bl, open, tail := seen0, learned0, pathCount0, bl0, open0, tail0;
      var j := 0;
      while j < |lits|
        invariant j <= |lits|
        invariant trail.State() == t && HeapOk()
        invariant |learned| >= 1 && learned[1..] == tail
        invariant Collected(t, n, seen, tail, open, bl, trailIdx)
        invariant Derived(clauses, t, tail, open, lits[j..])
        invariant pathCount == |open|
        invariant open != {} || HasCurrent(t, lits[j..])
      {
        var l := lits[j];
        ghost var rest := lits[j + 1..];
        assert lits[j..] == [l] + rest;
        CollectFacts(t, n, seen, tail, open, bl, trailIdx, lits, j);
        if !seen[l.v] {
          vsids.BumpVar(l.v);
          var lvl := trail.varData[l.v].level;
          if lvl == trail.DecisionLevel() {
            open := CollectCurrent(clauses, t, n, seen, tail, open, bl, trailIdx, l, rest);
            pathCount := pathCount + 1;
          } else if lvl > 0 {
            CollectLower(clauses, t, n, seen, tail, open, bl, trailIdx, l, rest);
            assert (learned + [l])[1..] == learned[1..] + [l];
            learned := learned + [l];
            tail := tail + [l];
            if lvl > bl {
              bl := lvl;
            }
          } else {
            CollectZero(clauses, t, n, seen, tail, open, bl, trailIdx, l, rest);
          }
          seen := seen[l.v := true];
        } else {
          CollectSeen(clauses, t, n, seen, tail, open, bl, trailIdx, l, rest);
        }
        j := j + 1;
      }
      assert lits[j..] == [];
    }

    /** The last marked trail position below `from`; the search cannot run off the trail. */
    method NextSeen(seen: seq<bool>, from: nat, ghost open: set<nat>, ghost tail: seq<Lit>, ghost bl: nat) returns (k: nat)
      requires trail.State().Wf(numVars) && Collected(trail.State(), numVars, seen, tail, open, bl, from) && open != {}
      ensures k < from && k in open && Collected(trail.State(), numVars, seen, tail, open, bl, k + 1)
    {
      hide Collected, TrailState.Wf;
      ghost var low := LowestOpen(trail.State(), numVars, seen, tail, open, bl, from);
      SeenInRange(trail.State(), numVars, seen, tail, open, bl, from);
      k := from;
      while true
        invariant low < k <= from && forall i :: k <= i < from ==> !seen[trail.trail[i].v]
        decreases k
      {
        k := k - 1;
        if seen[trail.trail[k].v] {
          NextIsOpen(trail.State(), numVars, seen, tail, open, bl, from, k);
          return;
        }
      }
    }

    // ---------- backjumping and learning ----------

    method BacktrackTo(level: nat)
      requires trail.State().Wf(numVars) && HeapOk()
      modifies trail`assigns, trail`trail, trail`qhead, trail`trailLim, vsids`heap, vsids`heapPos
      ensures trail.State() == Backtrack(old(trail.State()), level)
      ensures trail.State().Wf(numVars) && HeapOk()
    {
      trail.BacktrackToWith(level, vsids);
    }

    /** Undoes levels one at a time down to `level`. */
    method BacktrackStepwise(level: nat)
      requires trail.State().Wf(numVars) && HeapOk() && level <= |trail.trailLim|
      modifies trail`assigns, trail`trail, trail`qhead, trail`trailLim, vsids`heap, vsids`heapPos
      ensures trail.State() == Backtrack(old(trail.State()), level)
      ensures trail.State().Wf(numVars) && HeapOk()
    {
      hide TrailState.Wf;
      ghost var t := trail.State();
      while trail.DecisionLevel() > level
        invariant level <= |trail.trailLim| <= |t.lims|
        invariant trail.State().Wf(numVars) && HeapOk()
        invariant trail.State() == Backtrack(t, |trail.trailLim|)
        decreases |trail.trailLim|
      {
        BacktrackTwice(t, numVars, |trail.trailLim|, |trail.trailLim| - 1);
        BacktrackTo(trail.DecisionLevel() - 1);
      }
    }

    /** The stored learned clauses of more than two literals. */
    method Candidates() returns (learnedCids: seq<nat>)
      ensures multiset(learnedCids) == multiset(Learned(clauses, |clauses|))
    {
      learnedCids := [];
      for id := 0 to |clauses|
        invariant multiset(learnedCids) == multiset(Learned(clauses, id))
      {
        LearnedStep(clauses, id);
        if clauses[id].learned && !clauses[id].deleted && |clauses[id].lits| > 2 {
          learnedCids := learnedCids + [id];
        }
      }
    }

    /** Deletes one clause unless its block distance is low or it is a reason of the trail. */
    method Evict(cid: nat) returns (removed: bool)
      requires Searching() && cid < |clauses| && clauses[cid].learned && |clauses[cid].lits| > 2
      modifies this`clauses
      ensures Searching()
      ensures removed <==> old(clauses)[cid].lbd > 2 && !Justifies(trail.State(), old(clauses)[cid], cid)
      ensures clauses == if removed then Deleted(old(clauses), cid) else old(clauses)
    {
      hide Core, TrailState.Wf, AllSettled, ArenaWf, Deleted, Vsids.Valid, Vsids.InHeap, Recorded;
      CoreFacts(added, clauses, watches, trail.State(), numVars, lost);
      if clauses[cid].lbd > 2 && !IsReason(cid) {
        CoreDelete(added, clauses, watches, trail.State(), numVars, lost, cid);
        SettledDelete(clauses, trail.State(), numVars, trail.qhead, cid);
        DeletedIs(clauses, cid);
        clauses := Deleted(clauses, cid);
        return true;
      }
      removed := false;
    }

    /** Below the limit on stored learned clauses nothing happens. Otherwise, visited in an
        arbitrary order, half of them go, or all that may go if these are fewer: never binary
        clauses, clauses of low block distance or reasons of the trail. */
    method ReduceDb() returns (ghost gone: set<nat>)
      requires Searching()
      modifies this`clauses, this`maxLearned
      ensures Searching()
      ensures Evicted(old(clauses), clauses, gone) && gone <= Dispensable(old(clauses), trail.State())
      ensures
        var stored := |Learned(old(clauses), |old(clauses)|)|;
        if stored < old(maxLearned) then gone == {} && maxLearned == old(maxLearned)
        else |gone| == Min(stored / 2, |Dispensable(old(clauses), trail.State())|) && maxLearned == old(maxLearned) + 500
    {
      hide Core, TrailState.Wf, AllSettled, ArenaWf, Vsids.Valid, Vsids.InHeap, Evicted, Dispensable, Learned, Deleted, Recorded;
      hide Justifies, Reducing;
      ghost var cls, t := clauses, trail.State();
      var learnedCids := Candidates();
      NoneEvicted(cls, t, learnedCids);
      gone := {};
      if |learnedCids| < maxLearned {
        return;
      }
      var order: seq<nat> :| multiset(order) == multiset(learnedCids);
      var toRemove := |learnedCids| / 2;
      var removed := 0;
      ghost var seen := 0;
      NoneVisited(cls, t, order);
      for k := 0 to |order|
        invariant Searching() && trail.State() == t && maxLearned == old(maxLearned)
        invariant seen == k && removed <= toRemove && Reducing(cls, clauses, t, order, k, gone, removed)
      {
        if removed >= toRemove {
          break;
        }
        var cid := order[k];
        EvictedKeeps(cls, clauses, t, order, k, gone, removed);
        ghost var before := clauses;
        var evicted := Evict(cid);
        EvictedStep(cls, before, clauses, t, order, k, gone, removed, evicted);
        if evicted {
          removed := removed + 1;
          gone := gone + {cid};
        }
        seen := k + 1;
      }
      EvictedEnough(cls, clauses, t, order, seen, gone, removed, toRemove);
      maxLearned := maxLearned + 500;
    }

    /** Learns from a conflict above level 0: analyzes it, jumps back, perhaps restarts, evicts
        clauses and asserts the first literal of the learned clause. */
    method HandleConflict(cid: nat)
      requires SearchOk(watches) && HeapOk() && Recorded() && LevelsFilled(trail.State()) && trail.trailLim != []
      requires exists q: nat :: ConflictFound(clauses, trail.State(), numVars, cid, q)
      modifies this`clauses, this`watches, this`conflicts, this`maxLearned, this`restartPlan, this`jumps, this`lost
      modifies trail`assigns, trail`phase, trail`varData, trail`trail, trail`qhead, trail`trailLim, vsids
      ensures Searching() && restartPlan == Rest(old(restartPlan), 1)
      ensures Jumped(old(jumps), jumps, old(clauses), old(trail.State()), numVars, cid, old(restartPlan))
      ensures old(restartPlan) == [] ==> Backjumped(old(trail.State()), trail.State())
    {
      hide Core, TrailState.Wf, AllSettled, ConflictFound, LevelsFilled, LimsBelow, Ready, Recorded, Jumped;
      var learned, lbd := Unwound(cid);
      var _ := ReduceDb();
      CoreFacts(added, clauses, watches, trail.State(), numVars, lost);
      AssertLearned(learned, lbd);
    }

    /** Analyzes the conflict, jumps back, perhaps to level 0, and returns the learned clause. */
    method Unwound(cid: nat) returns (learned: seq<Lit>, lbd: nat)
      requires SearchOk(watches) && HeapOk() && Recorded() && LevelsFilled(trail.State()) && trail.trailLim != []
      requires exists q: nat :: ConflictFound(clauses, trail.State(), numVars, cid, q)
      modifies this`conflicts, this`restartPlan, this`jumps, this`lost
      modifies trail`assigns, trail`trail, trail`qhead, trail`trailLim, vsids
      ensures Searching() && trail.State().Wf(numVars) && Ready(added, trail.State(), numVars, lost, learned)
      ensures restartPlan == Rest(old(restartPlan), 1)
      ensures Jumped(old(jumps), jumps, clauses, old(trail.State()), numVars, cid, old(restartPlan))
      ensures old(restartPlan) == [] ==> exists bl: nat ::
        (bl < |old(trail.trailLim)| && trail.trailLim == old(trail.trailLim)[..bl] && |trail.trail| == old(trail.trailLim)[bl])
    {
      hide Core, TrailState.Wf, AllSettled, ConflictFound, Asserting, LevelsFilled, LimsBelow, Ready, History, Learns, Lost;
      ghost var t, cls, n, lost0 := trail.State(), clauses, numVars, lost;
      CoreFacts(added, clauses, watches, t, n, lost);
      var bl;
      learned, bl, lbd := AnalyzeConflict(cid);
      AssertingWf(cls, t, n, learned, bl, lbd);
      BacktrackStepwise(bl);
      ghost var level := bl;
      var restart := false;
      if restartPlan != [] {
        restart := restartPlan[0];
        restartPlan := restartPlan[1..];
      }
      if restart {
        BacktrackTwice(t, n, bl, 0);
        BacktrackStepwise(0);
        level := 0;
      }
      LearnsHere(added, cls, watches, t, n, lost, Jump(cls, t, n, cid, learned, bl, restart));
      Record(Jump(cls, t, n, cid, learned, bl, restart));
      Unwind(added, clauses, watches, t, n, lost0, cid, learned, bl, level, lost);
    }

    /** Puts a conflict on record. When a restart undoes more than the backjump would, slot 0 is about
        to be asserted although the other literals may no longer be false. */
    ghost method Record(j: Jump)
      requires History(added, jumps) && lost == Lost(jumps) && |jumps| + 1 == conflicts && Learns(added + lost, j)
      modifies this`jumps, this`lost
      ensures Recorded() && jumps == old(jumps) + [j]
      ensures lost == old(lost) + if Loses(j) then [[j.learned[0]]] else []
    {
      hide History, Lost, Learns;
      HistoryAppend(added, jumps, j);
      LostAppend(jumps, j);
      jumps, lost := jumps + [j], lost + if Loses(j) then [[j.learned[0]]] else [];
    }

    method AssertLearned(learned: seq<Lit>, lbd: nat)
      requires Searching() && trail.State().Wf(numVars) && Ready(added, trail.State(), numVars, lost, learned)
      modifies this`clauses, this`watches, trail`assigns, trail`phase, trail`varData, trail`trail
      ensures Searching()
      ensures trail.trail == old(trail.trail) + [learned[0]]
    {
      hide Core, TrailState.Wf, AllSettled, Entails, Clause.Wf, Recorded;
      ghost var t, n := trail.State(), numVars;
      CoreFacts(added, clauses, watches, t, n, lost);
      if |learned| == 1 {
        assert learned == [learned[0]];
        CoreAssertAtZero(added, clauses, watches, t, n, lost, learned[0], Unit);
        SettledAllAssign(clauses, t, n, trail.qhead, learned[0], Unit);
        UnassignedAssign(t, n, learned[0], Unit);
        trail.AssignLit(learned[0], Unit);
      } else {
        AddLearned(learned, lbd);
      }
    }

    /** Stores the learned clause, watches its first two literals and asserts the first. */
    method AddLearned(learned: seq<Lit>, lbd: nat)
      requires Searching() && trail.State().Wf(numVars) && Ready(added, trail.State(), numVars, lost, learned)
      requires |learned| > 1
      modifies this`clauses, this`watches, trail`assigns, trail`phase, trail`varData, trail`trail
      ensures Searching()
      ensures trail.State() == Assign(old(trail.State()), learned[0], FromClause(old(|clauses|)))
    {
      hide Core, TrailState.Wf, AllSettled, Entails, Clause.Wf, Recorded;
      ghost var t, n := trail.State(), numVars;
      var c := Clause(learned, lbd, true, false);
      var cid := |clauses|;
      CoreFacts(added, clauses, watches, t, n, lost);
      CoreAssertLearned(added, clauses, watches, t, n, lost, c);
      SettledNew(clauses, t, n, trail.qhead, c);
      SettledAllAssign(clauses + [c], t, n, trail.qhead, learned[0], FromClause(cid));
      clauses := clauses + [c];
      watches := Attached(watches, cid, learned);
      UnassignedAssign(t, n, learned[0], FromClause(cid));
      trail.AssignLit(learned[0], FromClause(cid));
    }

    /** Whether the clause is the reason of its first literal. */
    predicate IsReason(cid: nat)
      requires cid < |clauses| && clauses[cid].lits != []
      reads this, trail
    {
      var v := clauses[cid].lits[0].v;
      v < |trail.assigns| && v < |trail.varData| && trail.assigns[v] != Undef && trail.varData[v].reason == FromClause(cid)
    }

    // ---------- adding variables and clauses ----------

    method NewVar() returns (v: nat)
      requires Valid()
      modifies this`numVars, this`watches, trail, vsids
      ensures Valid() && v == old(numVars) && numVars == v + 1
      ensures old(ok) ==> trail.trail == old(trail.trail)
    {
      hide Core, AllSettled, Recorded;
      ghost var t, n := trail.State(), numVars;
      v := numVars;
      numVars := numVars + 1;
      if |watches| < 2 * numVars {
        watches := watches + seq(2 * numVars - |watches|, _ => []);
      }
      trail.EnsureVar(numVars);
      vsids.EnsureVar(numVars);
      if ok {
        CoreFacts(added, clauses, old(watches), t, n, lost);
        assert watches == old(watches) + [[], []];
        CoreGrow(added, clauses, old(watches), t, n, lost, trail.State());
        SettledGrow(clauses, t, n, t.qhead, trail.State());
      }
    }

    method EnsureVars(lits: seq<Lit>)
      requires Valid()
      modifies this`numVars, this`watches, trail, vsids
      ensures Valid()
      ensures forall l :: l in lits ==> l.v < numVars
    {
      hide Core, AllSettled, Recorded;
      for i := 0 to |lits|
        invariant Valid() && forall k :: 0 <= k < i ==> lits[k].v < numVars
      {
        while lits[i].v >= numVars
          invariant Valid() && forall k :: 0 <= k < i ==> lits[k].v < numVars
          decreases lits[i].v - numVars
        {
          var v := NewVar();
        }
      }
    }

    /** Adds a clause between two searches. It returns false exactly when the solver has found
        the clauses added so far contradictory. */
    method AddClause(lits: seq<Lit>) returns (r: bool)
      requires Valid()
      modifies this, trail, vsids
      ensures Valid() && added == old(added) + [lits]
      ensures r == ok && jumps == old(jumps)
      ensures !old(ok) ==> !ok
      ensures restartPlan == old(restartPlan) && maxConflicts == old(maxConflicts) && maxPropagations == old(maxPropagations)
    {
      hide Core, AllSettled, TrailState.Wf, Entails, Unsat, Tautology, Vsids.Valid, History, Lost;
      if !ok {
        HistoryMore(added, lits, jumps);
        UnsatMore(added, lits, lost);
        added := added + [lits];
        return false;
      }
      EnsureVars(lits);
      r := Insert(lits);
    }

    /** Adds a clause whose variables exist. */
    method Insert(lits: seq<Lit>) returns (r: bool)
      requires Valid() && ok && forall l :: l in lits ==> l.v < numVars
      modifies this, trail, vsids
      ensures Valid() && added == old(added) + [lits]
      ensures r == ok && jumps == old(jumps)
      ensures restartPlan == old(restartPlan) && maxConflicts == old(maxConflicts) && maxPropagations == old(maxPropagations)
    {
      hide Core, AllSettled, TrailState.Wf, Entails, Unsat, Tautology, Vsids.Valid, Recorded;
      var satisfied, cleaned := Clean(SortDedup(lits));
      if satisfied {
        CleanedAway(lits, SortDedup(lits), trail.State(), numVars);
        InsertSatisfied(lits);
        r := true;
      } else if cleaned == [] {
        InsertFalsified(lits);
        r := false;
      } else if |cleaned| == 1 {
        assert cleaned[0] in cleaned;
        r := AddUnit(lits, cleaned[0]);
      } else {
        Store(lits, cleaned);
        r := true;
      }
    }

    /** Records a clause that is valid, or true already. */
    method InsertSatisfied(lits: seq<Lit>)
      requires Valid() && ok
      requires Tautology(lits, numVars) || exists l :: l in lits && l in trail.State().lits[..trail.State().End(0)]
      modifies this`added
      ensures Valid() && ok && added == old(added) + [lits]
    {
      hide Core, AllSettled, TrailState.Wf, Tautology, Vsids.Valid, History, Lost;
      CoreRecord(added, clauses, watches, trail.State(), numVars, lost, lits);
      HistoryMore(added, lits, jumps);
      added := added + [lits];
    }

    /** Records a clause all of whose literals are false at level 0. */
    method InsertFalsified(lits: seq<Lit>)
      requires Valid() && ok && forall l :: l in lits ==> trail.State().IsFalse(l)
      modifies this`added, this`ok
      ensures Valid() && !ok && added == old(added) + [lits]
    {
      hide Core, AllSettled, TrailState.Wf, Unsat, Vsids.Valid, History, Lost;
      AddFalsified(added, clauses, watches, trail.State(), numVars, lost, lits);
      HistoryMore(added, lits, jumps);
      added := added + [lits];
      ok := false;
    }

    /** Stores what is left of an added clause and watches its first two literals. */
    method Store(lits: seq<Lit>, cleaned: seq<Lit>)
      requires Valid() && ok && |cleaned| > 1
      requires forall l :: l in cleaned ==> l in lits && l.v < numVars && !trail.State().Defined(l)
      requires forall l :: l in lits ==> l in cleaned || trail.State().IsFalse(l)
      requires forall i, j :: 0 <= i < j < |cleaned| ==> cleaned[i].v != cleaned[j].v
      modifies this`clauses, this`watches, this`added
      ensures Valid() && added == old(added) + [lits]
    {
      hide Core, AllSettled, TrailState.Wf, Entails, Unsat, History, Lost;
      ghost var t, n := trail.State(), numVars;
      var c := Clause(cleaned, 0, false, false);
      assert cleaned[0] in cleaned;
      CoreFacts(added, clauses, watches, t, n, lost);
      CoreAddStored(added, clauses, watches, t, n, lost, lits, c);
      SettledNew(clauses, t, n, trail.qhead, c);
      watches := Attached(watches, |clauses|, cleaned);
      clauses := clauses + [c];
      HistoryMore(added, lits, jumps);
      added := added + [lits];
    }

    /** Drops the literals false at level 0; stops when one is true or the clause is valid. */
    method Clean(lits: seq<Lit>) returns (satisfied: bool, cleaned: seq<Lit>)
      requires trail.State().Wf(numVars) && StrictlySorted(lits) && forall l :: l in lits ==> l.v < numVars
      ensures satisfied ==> Tautology(lits, numVars) || exists l :: l in lits && trail.State().IsTrue(l)
      ensures !satisfied ==>
        && (forall l :: l in cleaned ==> l in lits && !trail.State().Defined(l))
        && (forall l :: l in lits ==> l in cleaned || trail.State().IsFalse(l))
        && (forall i, j :: 0 <= i < j < |cleaned| ==> cleaned[i].v != cleaned[j].v)
    {
      cleaned := [];
      for i := 0 to |lits|
        invariant forall l :: l in cleaned ==> l in lits[..i] && !trail.State().Defined(l)
        invariant forall k :: 0 <= k < i ==> lits[k] in cleaned || trail.State().IsFalse(lits[k])
        invariant forall k, j :: 0 <= k < j < |cleaned| ==> cleaned[k].v != cleaned[j].v
      {
        var l := lits[i];
        assert l in lits;
        var value := trail.LitValue(l);
        if value == True {
          return true, cleaned;
        }
        if value != False {
          if l.Not() in cleaned {
            assert l.Not() in lits;
            return true, cleaned;
          }
          forall k | 0 <= k < |cleaned| ensures cleaned[k].v != l.v {
            assert cleaned[k] in cleaned;
            assert cleaned[k] == l || cleaned[k] == l.Not() || cleaned[k].v != l.v;
          }
          cleaned := cleaned + [l];
        }
        assert lits[..i + 1] == lits[..i] + [l];
      }
      assert lits[..|lits|] == lits;
      satisfied := false;
    }

    /** Assigns the one literal that is left of an added clause, and propagates. */
    method AddUnit(lits: seq<Lit>, unit: Lit) returns (r: bool)
      requires Valid() && ok
      requires unit in lits && unit.v < numVars && !trail.State().Defined(unit)
      requires forall l :: l in lits ==> l == unit || trail.State().IsFalse(l)
      modifies this`clauses, this`watches, this`propagations, this`ok, this`added
      modifies trail`assigns, trail`phase, trail`varData, trail`trail, trail`qhead
      ensures Valid() && added == old(added) + [lits]
      ensures r == ok && jumps == old(jumps)
    {
      hide Core, AllSettled, Entails, ConflictFound, History, Lost;
      ghost var t, n := trail.State(), numVars;
      CoreFacts(added, clauses, watches, t, n, lost);
      CoreAddUnit(added, clauses, watches, t, n, lost, lits, unit);
      SettledAllAssign(clauses, t, n, trail.qhead, unit, Unit);
      UnassignedAssign(t, n, unit, Unit);
      HistoryMore(added, lits, jumps);
      added := added + [lits];
      trail.AssignLit(unit, Unit);
      r := PropagateAtZero();
    }

    /** Propagation at level 0; a conflict there is final. */
    method PropagateAtZero() returns (r: bool)
      requires Valid() && ok
      modifies this`clauses, this`watches, this`propagations, this`ok
      modifies trail`assigns, trail`phase, trail`varData, trail`trail, trail`qhead
      ensures Valid() && r == ok
    {
      hide Core, AllSettled, Entails, Recorded;
      ghost var t := trail.State();
      CoreFacts(added, clauses, watches, t, numVars, lost);
      var conflict := Bcp();
      CoreFacts(added, clauses, watches, trail.State(), numVars, lost);
      UnassignedShrink(t, trail.State(), numVars);
      if conflict.Some? {
        ConflictAtZero(added, clauses, watches, trail.State(), numVars, lost, conflict.value);
        ok := false;
        return false;
      }
      r := true;
    }

    // ---------- searching ----------

    method SolveInternal() returns (r: LBool)
      requires Valid() && ok
      modifies this`clauses, this`watches, this`propagations, this`conflicts, this`maxLearned, this`restartPlan
      modifies this`jumps, this`lost, this`ok, trail, vsids
      ensures r == True ==> Searching() && ok && trail.qhead == |trail.trail|
      ensures r == True ==> forall v :: 0 <= v < numVars ==> trail.assigns[v] != Undef
      ensures r == False ==> Valid() && !ok
      ensures r == Undef ==> Searching() && ok && Exhausted()
      ensures Went(old(jumps), old(restartPlan), jumps, restartPlan)
    {
      hide Core, AllSettled, TrailState.Wf, ConflictFound, HeapOk, LevelsFilled, LimsBelow, Slack, Backjumped, Unsat, Recorded, Went, Jumped;
      StartSearch();
      WentNowhere(jumps, restartPlan);
      while true
        invariant Searching() && ok
        invariant Went(old(jumps), old(restartPlan), jumps, restartPlan)
        decreases |restartPlan|, Slack(trail.State(), numVars)
      {
        if maxConflicts.Some? && conflicts >= maxConflicts.value {
          return Undef;
        }
        if maxPropagations.Some? && propagations >= maxPropagations.value {
          return Undef;
        }
        ghost var t := trail.State();
        CoreFacts(added, clauses, watches, t, numVars, lost);
        var conflict := Propagate();
        ghost var t1 := trail.State();
        CoreFacts(added, clauses, watches, t1, numVars, lost);
        if conflict.Some? {
          if trail.DecisionLevel() == 0 {
            FinalConflict(conflict.value);
            return False;
          }
          ghost var js, cls, plan := jumps, clauses, restartPlan;
          Recover(conflict.value, t);
          WentOn(old(jumps), old(restartPlan), js, plan, jumps, cls, t1, numVars, conflict.value);
        } else {
          var branched := Branch();
          if !branched {
            return True;
          }
          CoreFacts(added, clauses, watches, trail.State(), numVars, lost);
          DecisionProgress(t, t1, trail.State(), numVars);
        }
      }
    }

    /** Learns from a conflict, closer to the end: a restart answer is used up, or the levels have
        grown. */
    method Recover(cid: nat, ghost t: TrailState)
      requires SearchOk(watches) && HeapOk() && Recorded() && LevelsFilled(trail.State()) && trail.trailLim != []
      requires exists q: nat :: ConflictFound(clauses, trail.State(), numVars, cid, q)
      requires t.Wf(numVars) && LevelsFilled(t) && trail.State().lims == t.lims && t.lits <= trail.State().lits
      modifies this`clauses, this`watches, this`conflicts, this`maxLearned, this`restartPlan, this`jumps, this`lost
      modifies trail`assigns, trail`phase, trail`varData, trail`trail, trail`qhead, trail`trailLim, vsids
      ensures Searching() && restartPlan == Rest(old(restartPlan), 1)
      ensures Jumped(old(jumps), jumps, old(clauses), old(trail.State()), numVars, cid, old(restartPlan))
      ensures old(restartPlan) == [] ==> 0 <= Slack(trail.State(), numVars) < Slack(t, numVars)
    {
      hide Core, AllSettled, TrailState.Wf, ConflictFound, LevelsFilled, LimsBelow, Slack, Backjumped, Recorded, Jumped;
      ghost var t1 := trail.State();
      CoreFacts(added, clauses, watches, t1, numVars, lost);
      ghost var noPlan := restartPlan == [];
      HandleConflict(cid);
      CoreFacts(added, clauses, watches, trail.State(), numVars, lost);
      if noPlan {
        JumpProgress(t, t1, trail.State(), numVars);
      }
    }

    ghost method StartSearch()
      requires Valid() && ok
      ensures Searching()
    {
      hide Core, AllSettled;
      CoreFacts(added, clauses, watches, trail.State(), numVars, lost);
    }

    method Propagate() returns (conflict: Option<nat>)
      requires Searching()
      modifies this`clauses, this`watches, this`propagations
      modifies trail`assigns, trail`phase, trail`varData, trail`trail, trail`qhead
      ensures SearchOk(watches) && HeapOk() && Recorded() && LevelsFilled(trail.State())
      ensures old(trail.trail) <= trail.trail
      ensures conflict == None ==> Searching() && trail.qhead == |trail.trail|
      ensures conflict.Some? ==> exists q: nat :: ConflictFound(clauses, trail.State(), numVars, conflict.value, q)
    {
      hide Core, AllSettled, TrailState.Wf, ConflictFound, Recorded;
      ghost var t := trail.State();
      CoreFacts(added, clauses, watches, t, numVars, lost);
      conflict := Bcp();
      CoreFacts(added, clauses, watches, trail.State(), numVars, lost);
      UnassignedShrink(t, trail.State(), numVars);
      LevelsStayFilled(t, trail.State());
      LimsBelowEnd(trail.State(), numVars);
    }

    /** A conflict at level 0: the solver gives up for good. */
    method FinalConflict(cid: nat)
      requires SearchOk(watches) && HeapOk() && Recorded() && trail.trailLim == []
      requires exists q: nat :: ConflictFound(clauses, trail.State(), numVars, cid, q)
      modifies this`ok
      ensures Valid() && !ok
    {
      hide Core, Unsat, AllSettled, Recorded;
      CoreFacts(added, clauses, watches, trail.State(), numVars, lost);
      ConflictAtZero(added, clauses, watches, trail.State(), numVars, lost, cid);
      ok := false;
    }

    /** Decides on a variable of greatest activity, unless all are assigned. */
    method Branch() returns (branched: bool)
      requires Searching() && trail.qhead == |trail.trail|
      modifies trail, vsids
      ensures Searching()
      ensures branched ==> trail.State().lims == old(trail.State()).lims + [|old(trail.trail)|]
      ensures branched ==> |trail.trail| == |old(trail.trail)| + 1
      ensures !branched ==> trail.qhead == |trail.trail| && forall v :: 0 <= v < numVars ==> trail.assigns[v] != Undef
    {
      hide Core, AllSettled, TrailState.Wf, Recorded;
      var next := vsids.SelectDecisionVar(trail.assigns);
      match next {
        case None =>
          branched := false;
        case Some(v) =>
          Decide(v);
          branched := true;
      }
    }

    /** Opens a level with the saved phase of `v`. */
    method Decide(v: nat)
      requires SearchOk(watches) && Recorded() && vsids.Valid() && |vsids.activity| == numVars == |trail.assigns|
      requires LevelsFilled(trail.State()) && LimsBelow(trail.State(), trail.qhead)
      requires trail.qhead == |trail.trail| && AllSettled(clauses, trail.State(), numVars, trail.qhead)
      requires v < numVars && trail.assigns[v] == Undef
      requires forall u :: 0 <= u < numVars && trail.assigns[u] == Undef ==> u in vsids.InHeap() || u == v
      modifies trail
      ensures Searching()
      ensures trail.State().lims == old(trail.State()).lims + [|old(trail.trail)|]
      ensures |trail.trail| == |old(trail.trail)| + 1
    {
      hide Core, AllSettled, Vsids.Valid, Vsids.InHeap, Recorded;
      ghost var t, n := trail.State(), numVars;
      CoreFacts(added, clauses, watches, t, n, lost);
      var lit := Lit(v, trail.phase[v]);
      assert !t.Defined(lit) by { assert lit.Not().v == v; }
      trail.NewDecisionLevel();
      Decided(added, clauses, watches, t, n, lost, lit);
      trail.AssignLit(lit, Decision);
    }

    /** Decides the clauses added so far. A model is returned by `True`; `False` means that there is
        none in which the literals that restarts have asserted unsupported are true; `Undef` only
        reports an exhausted budget. */
    method Solve() returns (r: LBool)
      requires Valid()
      modifies this, trail, vsids
      ensures Valid() && added == old(added) && numVars == old(numVars)
      ensures r == True ==> |model| == numVars && Models(ModelOf(model), added)
      ensures r == False ==> !ok && Unsat(added + Lost(jumps))
      ensures r == Undef ==> Exhausted()
      ensures maxConflicts == old(maxConflicts) && maxPropagations == old(maxPropagations)
      ensures History(added, jumps) && Went(old(jumps), old(restartPlan), jumps, restartPlan)
    {
      hide Core, AllSettled, TrailState.Wf, Searching, Unsat, Models, HeapOk, SearchOk, Went, History, Lost;
      WentNowhere(jumps, restartPlan);
      if !ok {
        return False;
      }
      Rewind();
      var quiet := PropagateAtZero();
      if !quiet {
        return False;
      }
      r := SolveInternal();
      if r == False {
        ClearModel();
      } else {
        Finish(r);
      }
    }

    method ClearModel()
      requires Valid()
      modifies this`model
      ensures Valid()
    {
      hide Core, AllSettled, TrailState.Wf, Vsids.Valid, Recorded;
      model := [];
    }

    /** Between two calls there is no level to undo. */
    method Rewind()
      requires Valid()
      modifies trail`assigns, trail`trail, trail`qhead, trail`trailLim, vsids`heap, vsids`heapPos
      ensures Valid() && trail.State() == old(trail.State())
    {
      hide Core, AllSettled, Recorded;
      BacktrackTo(0);
    }

    /** Stores the model, if there is one, and returns to level 0. */
    method Finish(r: LBool)
      requires Searching() && ok
      requires r == True ==> trail.qhead == |trail.trail| && forall v :: 0 <= v < numVars ==> trail.assigns[v] != Undef
      modifies this`model, trail`assigns, trail`trail, trail`qhead, trail`trailLim, vsids`heap, vsids`heapPos
      ensures Valid()
      ensures r == True ==> |model| == numVars && Models(ModelOf(model), added)
    {
      hide Core, AllSettled, Models, Recorded;
      ghost var t, n := trail.State(), numVars;
      CoreFacts(added, clauses, watches, t, n, lost);
      if r == True {
        FullTrailSatisfies(added, clauses, watches, t, n, lost);
        model := trail.assigns;
      } else {
        model := [];
      }
      CoreBacktrack(added, clauses, watches, t, n, lost, 0);
      if t.lims != [] {
        SettledAllBacktrack(clauses, t, n, t.qhead, 0);
      }
      BacktrackTo(0);
    }
  }

  // ---------- reducing the clause database ----------

  function Min(a: nat, b: nat): nat { if a <= b then a else b }

  /** The ids below `k` of stored learned clauses of more than two literals. */
  ghost function Learned(cls: seq<Clause>, k: nat): set<nat>
    requires k <= |cls|
  {
    set id: nat | id < k && cls[id].learned && !cls[id].deleted && |cls[id].lits| > 2
  }

  /** The clause is the recorded reason of its first literal. */
  ghost predicate Justifies(t: TrailState, c: Clause, id: nat)
    requires c.lits != []
  {
    var v := c.lits[0].v;
    v < |t.assigns| && v < |t.data| && t.assigns[v] != Undef && t.data[v].reason == FromClause(id)
  }

  /** The stored clauses that may go: of high block distance and no reason of the trail. */
  ghost function Dispensable(cls: seq<Clause>, t: TrailState): set<nat> {
    set id <- Learned(cls, |cls|) | cls[id].lbd > 2 && !Justifies(t, cls[id], id)
  }

  /** The clauses are those of before with the ids in `gone` marked deleted. */
  ghost predicate Evicted(old_: seq<Clause>, new_: seq<Clause>, gone: set<nat>) {
    && |new_| == |old_|
    && forall id :: 0 <= id < |new_| ==> new_[id] == if id in gone then old_[id].(deleted := true) else old_[id]
  }

  ghost function Visited(order: seq<nat>, k: nat): set<nat>
    requires k <= |order|
  {
    set id <- order[..k]
  }

  lemma LearnedStep(cls: seq<Clause>, k: nat)
    requires k < |cls|
    ensures k !in Learned(cls, k)
    ensures Learned(cls, k + 1) ==
      if cls[k].learned && !cls[k].deleted && |cls[k].lits| > 2 then Learned(cls, k) + {k} else Learned(cls, k)
  {
  }

  /** The first `k` ids of `order` have been visited, and those of them that may go are gone. */
  ghost predicate Reducing(cls: seq<Clause>, now: seq<Clause>, t: TrailState, order: seq<nat>, k: nat,
                           gone: set<nat>, removed: nat)
  {
    && k <= |order| && multiset(order) == multiset(Learned(cls, |cls|))
    && Evicted(cls, now, gone) && gone == Visited(order, k) * Dispensable(cls, t) && |gone| == removed
  }

  lemma NoneEvicted(cls: seq<Clause>, t: TrailState, ids: seq<nat>)
    requires multiset(ids) == multiset(Learned(cls, |cls|))
    ensures Evicted(cls, cls, {}) && {} <= Dispensable(cls, t) && |ids| == |Learned(cls, |cls|)|
  {
    assert |multiset(ids)| == |ids| && |multiset(Learned(cls, |cls|))| == |Learned(cls, |cls|)|;
  }

  lemma NoneVisited(cls: seq<Clause>, t: TrailState, order: seq<nat>)
    requires multiset(order) == multiset(Learned(cls, |cls|))
    ensures Reducing(cls, cls, t, order, 0, {}, 0)
  {
  }

  /** A clause that is visited has not been visited before, and is as it was. */
  lemma EvictedKeeps(cls: seq<Clause>, now: seq<Clause>, t: TrailState, order: seq<nat>, k: nat,
                     gone: set<nat>, removed: nat)
    requires Reducing(cls, now, t, order, k, gone, removed) && k < |order|
    ensures order[k] in Learned(cls, |cls|) && order[k] !in Visited(order, k)
    ensures order[k] < |cls| == |now| && now[order[k]] == cls[order[k]]
    ensures cls[order[k]].learned && |cls[order[k]].lits| > 2
  {
    var id := order[k];
    assert id in multiset(order);
    assert order == order[..k] + [id] + order[k + 1..];
    assert multiset(order) == multiset(order[..k]) + multiset([id]) + multiset(order[k + 1..]);
    assert multiset(order)[id] == 1;
    assert id !in multiset(order[..k]);
  }

  lemma EvictedStep(cls: seq<Clause>, before: seq<Clause>, now: seq<Clause>, t: TrailState, order: seq<nat>, k: nat,
                    gone: set<nat>, removed: nat, evicted: bool)
    requires Reducing(cls, before, t, order, k, gone, removed) && k < |order|
    requires order[k] in Learned(cls, |cls|) && order[k] !in Visited(order, k) && cls[order[k]].lits != []
    requires evicted <==> cls[order[k]].lbd > 2 && !Justifies(t, cls[order[k]], order[k])
    requires order[k] < |before| && now == if evicted then Deleted(before, order[k]) else before
    ensures if evicted then Reducing(cls, now, t, order, k + 1, gone + {order[k]}, removed + 1)
      else Reducing(cls, now, t, order, k + 1, gone, removed)
  {
    hide Dispensable, Learned, Justifies, Evicted, Deleted;
    var id := order[k];
    VisitedStep(order, k);
    MayGo(cls, t, id);
    if evicted {
      EvictedOne(cls, before, gone, id);
      assert gone + {id} == Visited(order, k + 1) * Dispensable(cls, t);
    } else {
      assert gone == Visited(order, k + 1) * Dispensable(cls, t);
    }
  }

  lemma VisitedStep(order: seq<nat>, k: nat)
    requires k < |order|
    ensures Visited(order, k + 1) == Visited(order, k) + {order[k]}
  {
    assert order[..k + 1] == order[..k] + [order[k]];
  }

  lemma MayGo(cls: seq<Clause>, t: TrailState, id: nat)
    requires id in Learned(cls, |cls|)
    ensures cls[id].lits != [] && (id in Dispensable(cls, t) <==> cls[id].lbd > 2 && !Justifies(t, cls[id], id))
  {
  }

  lemma EvictedOne(cls: seq<Clause>, before: seq<Clause>, gone: set<nat>, id: nat)
    requires Evicted(cls, before, gone) && id < |before|
    ensures Evicted(cls, Deleted(before, id), gone + {id})
  {
  }

  lemma SubsetSize(a: set<nat>, b: set<nat>)
    requires a <= b
    ensures |a| <= |b|
  {
    assert b == a + (b - a);
  }

  /** Either enough have gone, or every clause has been visited. */
  lemma EvictedEnough(cls: seq<Clause>, now: seq<Clause>, t: TrailState, order: seq<nat>, k: nat,
                      gone: set<nat>, removed: nat, toRemove: nat)
    requires Reducing(cls, now, t, order, k, gone, removed) && removed <= toRemove
    requires removed == toRemove || k == |order|
    ensures Evicted(cls, now, gone) && gone <= Dispensable(cls, t)
    ensures |gone| == Min(toRemove, |Dispensable(cls, t)|)
  {
    SubsetSize(gone, Dispensable(cls, t));
    if k == |order| {
      forall id | id in Dispensable(cls, t) ensures id in gone {
        assert id in multiset(order);
        assert order[..|order|] == order;
      }
      assert gone == Dispensable(cls, t);
    }
  }

  /** The heuristic never asks for a restart. */
  predicate NoRestart(plan: seq<bool>) { forall k :: 0 <= k < |plan| ==> !plan[k] }

  /** Opening a level with a decision keeps the invariant. */
  lemma Decided(f: Cnf, cls: seq<Clause>, wl: seq<seq<Watcher>>, t: TrailState, n: nat, lost: Cnf, x: Lit)
    requires Core(f, cls, wl, t, n, lost) && x.v < n && !t.Defined(x) && LevelsFilled(t) && t.qhead == |t.lits|
    requires t.(lims := t.lims + [|t.lits|]).Wf(n) && AllSettled(cls, t, n, t.qhead)
    ensures
      var u := Assign(t.(lims := t.lims + [|t.lits|]), x, Decision);
      && Core(f, cls, wl, u, n, lost) && LevelsFilled(u) && AllSettled(cls, u, n, t.qhead)
      && u.lims == t.lims + [|t.lits|] && |u.lits| == |t.lits| + 1 && u.qhead == t.qhead && |u.assigns| == |t.assigns|
      && (forall v :: 0 <= v < n && u.assigns[v] == Undef ==> t.assigns[v] == Undef && v != x.v)
  {
    hide Core, AllSettled, ArenaWf;
    var s := t.(lims := t.lims + [|t.lits|]);
    CoreFacts(f, cls, wl, t, n, lost);
    CoreDecide(f, cls, wl, t, n, lost, x);
    SettledLevel(cls, t, n, t.qhead, s);
    SettledAllAssign(cls, s, n, t.qhead, x, Decision);
    UnassignedAssign(s, n, x, Decision);
  }

  lemma UnsatMore(f: Cnf, c: seq<Lit>, lost: Cnf)
    ensures Unsat(f + lost) ==> Unsat(f + [c] + lost)
  {
    forall m: Valuation ensures Models(m, f + [c] + lost) ==> Models(m, f + lost) {
    }
  }

  /** A whole run: a new solver, all the clauses of `f`, one search, with the answers that the
      restart heuristic gives after each conflict; because these are finitely many, the run ends with
      an answer. `True` comes with a model of `f`. `False` means that there is none in which the
      literals that restarts have asserted unsupported are true: they are on record with the
      conflicts of the run. Without them, hence when no answer asks for a restart, there is none. */
  method DecideCnf(f: Cnf, restartPlan: seq<bool>) returns (r: LBool, model: seq<LBool>, ghost jumps: seq<Jump>)
    ensures r == True || r == False
    ensures r == True ==> Models(ModelOf(model), f)
    ensures r == False ==> Unsat(f + Lost(jumps))
    ensures History(f, jumps) && Answered(jumps, restartPlan)
    ensures Lost(jumps) == [] ==> (r == False <==> Unsat(f))
    ensures NoRestart(restartPlan) ==> Lost(jumps) == []
  {
    hide History, Lost, Models;
    var solver := new SatSolver(restartPlan, None, None);
    for i := 0 to |f|
      invariant solver.Valid() && fresh(solver) && fresh(solver.trail) && fresh(solver.vsids)
      invariant solver.added == f[..i] && solver.jumps == []
      invariant solver.restartPlan == restartPlan && solver.maxConflicts == None && solver.maxPropagations == None
    {
      var b := solver.AddClause(f[i]);
      assert f[..i + 1] == f[..i] + [f[i]];
    }
    assert f[..|f|] == f;
    r := solver.Solve();
    model, jumps := solver.model, solver.jumps;
    assert jumps[0..] == jumps;
    if NoRestart(restartPlan) { LostSame([], jumps); HistoryStart(f); }
    if Lost(jumps) == [] { assert f + Lost(jumps) == f; }
  }
}
