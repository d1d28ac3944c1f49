/** The assignment trail: assigned literals in order, decision levels, reasons and the
    propagation queue. */
module Trails {
  import opened Lits
  import opened VsidsHeap

  /** Theory reasons are not part of this model. */
  datatype Reason = Decision | Unit | FromClause(cid: nat)

  datatype VarData = VarData(level: nat, reason: Reason)

  /** The trail as a value. */
  datatype TrailState = TrailState(
    assigns: seq<LBool>, data: seq<VarData>, phase: seq<bool>, lits: seq<Lit>, lims: seq<nat>, qhead: nat)
  {
    /** Level `k` ends at position `End(k)`. */
    ghost function End(k: nat): nat { if k < |lims| then lims[k] else |lits| }

    ghost predicate IsTrue(l: Lit) { l in lits }

    ghost predicate IsFalse(l: Lit) { l.Not() in lits }

    ghost predicate Defined(l: Lit) { IsTrue(l) || IsFalse(l) }

    function Level(l: Lit): nat
      requires l.v < |data|
    {
      data[l.v].level
    }

    ghost predicate Sized(n: nat) {
      |assigns| == n && |data| == n && |phase| == n
    }

    ghost predicate Wf(n: nat) {
      && Sized(n)
      && qhead <= |lits|
      && (forall l :: l in lits ==> l.v < n)
      && (forall i, j :: 0 <= i < j < |lits| ==> lits[i].v != lits[j].v)
      && (forall l: Lit :: l.v < n ==>
        (l in lits <==> assigns[l.v] == if l.neg then False else True))
      && (forall j, k :: 0 <= j <= k < |lims| ==> lims[j] <= lims[k])
      && (forall k :: 0 <= k < |lims| ==> lims[k] <= |lits|)
      && (forall i :: 0 <= i < |lits| ==> AtLevel(i, data[lits[i].v].level))
    }

    /** Position `i` lies in the stretch of level `k`. */
    ghost predicate AtLevel(i: nat, k: nat) {
      k <= |lims| && (0 < k ==> lims[k - 1] <= i) && i < End(k)
    }
  }

  function Assign(t: TrailState, l: Lit, reason: Reason): TrailState
    requires l.v < |t.assigns| && l.v < |t.data| && l.v < |t.phase|
  {
    t.(assigns := t.assigns[l.v := if l.neg then False else True],
       phase := t.phase[l.v := l.neg],
       data := t.data[l.v := VarData(|t.lims|, reason)],
       lits := t.lits + [l])
  }

  lemma AssignWf(t: TrailState, n: nat, l: Lit, reason: Reason)
    requires t.Wf(n) && l.v < n && !t.Defined(l)
    ensures Assign(t, l, reason).Wf(n)
  {
    var u := Assign(t, l, reason);
    forall x | x in t.lits ensures x.v != l.v {
      assert x == l || x == l.Not() || x.v != l.v;
    }
    forall x: Lit | x.v < n
      ensures x in u.lits <==> u.assigns[x.v] == if x.neg then False else True
    {
      assert x in u.lits <==> x in t.lits || x == l;
      if x.v == l.v { assert x == l || x == l.Not(); }
    }
    forall i | 0 <= i < |u.lits| ensures u.AtLevel(i, u.data[u.lits[i].v].level) {
      if i < |t.lits| {
        assert t.lits[i] in t.lits;
        assert t.AtLevel(i, t.data[t.lits[i].v].level);
      }
    }
  }

  lemma UnassignedAssign(t: TrailState, n: nat, l: Lit, reason: Reason)
    requires t.Wf(n) && l.v < n
    ensures t.Sized(n)
    ensures forall v :: 0 <= v < n && Assign(t, l, reason).assigns[v] == Undef ==> t.assigns[v] == Undef
  {
  }

  /** Undoes every assignment above `level`. The saved phases and the per-variable data stay. */
  ghost function Backtrack(t: TrailState, level: nat): TrailState
  {
    if level < |t.lims| && t.lims[level] <= |t.lits| then
      t.(assigns := seq(|t.assigns|, v requires 0 <= v < |t.assigns| =>
           if exists i :: t.lims[level] <= i < |t.lits| && t.lits[i].v == v then Undef else t.assigns[v]),
         lits := t.lits[..t.lims[level]], lims := t.lims[..level], qhead := t.lims[level])
    else t
  }

  /** Position of a literal of the trail. */
  ghost function Pos(t: TrailState, l: Lit): (i: nat)
    requires l in t.lits
    ensures i < |t.lits| && t.lits[i] == l
  {
    var i :| 0 <= i < |t.lits| && t.lits[i] == l; i
  }

  lemma InPrefix(t: TrailState, n: nat, l: Lit, q: nat)
    requires t.Wf(n) && l in t.lits && q <= |t.lits|
    ensures l in t.lits[..q] <==> Pos(t, l) < q
  {
    if l in t.lits[..q] {
      var j :| 0 <= j < q && t.lits[j] == l;
      assert j == Pos(t, l);
    } else {
      assert forall j :: 0 <= j < q ==> t.lits[j] in t.lits[..q];
    }
  }

  /** The literals of levels up to `k` are exactly those before the end of level `k`. */
  lemma LevelPrefix(t: TrailState, n: nat, l: Lit, k: nat)
    requires t.Wf(n) && l in t.lits && k <= |t.lims|
    ensures t.Level(l) <= |t.lims|
    ensures t.Level(l) <= k <==> l in t.lits[..t.End(k)]
  {
    var i := Pos(t, l);
    assert t.AtLevel(i, t.Level(l));
    InPrefix(t, n, l, t.End(k));
  }

  lemma BacktrackWf(t: TrailState, n: nat, level: nat)
    requires t.Wf(n)
    ensures Backtrack(t, level).Wf(n)
  {
    if level < |t.lims| {
      var u := Backtrack(t, level);
      var e := t.lims[level];
      forall x: Lit | x.v < n
        ensures x in u.lits <==> u.assigns[x.v] == if x.neg then False else True
      {
        if x in t.lits {
          InPrefix(t, n, x, e);
          assert t.assigns[x.v] == if x.neg then False else True;
        } else {
          assert x !in u.lits;
        }
      }
      forall i | 0 <= i < |u.lits| ensures u.AtLevel(i, u.data[u.lits[i].v].level) {
        assert t.lits[i] in t.lits;
        assert t.AtLevel(i, t.data[t.lits[i].v].level);
      }
      forall x | x in u.lits ensures x.v < n { assert x in t.lits; }
    }
  }

  /** The variables of the literals from `from` on are unassigned, the others are as they were. */
  ghost predicate Cleared(t: TrailState, assigns: seq<LBool>, from: nat) {
    && |assigns| == |t.assigns|
    && forall v :: 0 <= v < |assigns| ==>
      (assigns[v] == if exists i :: from <= i < |t.lits| && t.lits[i].v == v then Undef else t.assigns[v])
  }

  lemma ClearedNone(t: TrailState)
    ensures Cleared(t, t.assigns, |t.lits|)
  {
  }

  lemma ClearedStep(t: TrailState, n: nat, assigns: seq<LBool>, from: nat)
    requires t.Wf(n) && 0 < from <= |t.lits| && Cleared(t, assigns, from)
    ensures t.lits[from - 1].v < n == |assigns|
    ensures Cleared(t, assigns[t.lits[from - 1].v := Undef], from - 1)
  {
    assert t.lits[from - 1] in t.lits;
  }

  lemma ClearedAll(t: TrailState, level: nat, assigns: seq<LBool>)
    requires level < |t.lims| <= |t.lims| && Cleared(t, assigns, t.lims[level])
    ensures assigns == Backtrack(t, level).assigns
  {
  }

  lemma WfBounds(t: TrailState, n: nat)
    requires t.Wf(n)
    ensures |t.assigns| == n && forall k :: 0 <= k < |t.lims| ==> t.lims[k] <= |t.lits|
  {
  }

  class Trail {
    var assigns: seq<LBool>
    var varData: seq<VarData>
    var phase: seq<bool>
    var trail: seq<Lit>
    var trailLim: seq<nat>
    var qhead: nat

    ghost function State(): TrailState
      reads this
    {
      TrailState(assigns, varData, phase, trail, trailLim, qhead)
    }

    constructor ()
      ensures State() == TrailState([], [], [], [], [], 0) && State().Wf(0)
    {
      assigns, varData, phase, trail, trailLim, qhead := [], [], [], [], [], 0;
    }

    method EnsureVar(count: nat)
      requires State().Wf(|assigns|) && |assigns| <= count
      modifies this
      ensures State().Wf(count)
      ensures State().lits == old(State().lits) && State().lims == old(State().lims) && State().qhead == old(State().qhead)
      ensures old(State().data) <= State().data && old(assigns) <= assigns
      ensures forall v :: old(|assigns|) <= v < count ==> assigns[v] == Undef
    {
      var n := |assigns|;
      if n < count {
        assigns := assigns + seq(count - n, _ => Undef);
        varData := varData + seq(count - n, _ => VarData(0, Unit));
        phase := phase + seq(count - n, _ => false);
        ghost var t, u := old(State()), State();
        forall i | 0 <= i < |u.lits| ensures u.AtLevel(i, u.data[u.lits[i].v].level) {
          assert u.lits[i] in t.lits;
          assert t.AtLevel(i, t.data[t.lits[i].v].level);
        }
      }
    }

    function DecisionLevel(): nat
      reads this
    {
      |trailLim|
    }

    function LitValue(l: Lit): (r: LBool)
      requires l.v < |assigns|
      reads this
      ensures State().Wf(|assigns|) ==> (r == True <==> State().IsTrue(l)) && (r == False <==> State().IsFalse(l))
    {
      if l.neg then assigns[l.v].Not() else assigns[l.v]
    }

    method NewDecisionLevel()
      requires State().Wf(|assigns|)
      modifies this`trailLim
      ensures State() == old(State()).(lims := old(State()).lims + [|trail|])
      ensures State().Wf(|assigns|)
    {
      trailLim := trailLim + [|trail|];
      ghost var t, u := old(State()), State();
      forall i | 0 <= i < |u.lits| ensures u.AtLevel(i, u.data[u.lits[i].v].level) {
        assert t.AtLevel(i, t.data[t.lits[i].v].level);
      }
    }

    method AssignLit(l: Lit, reason: Reason)
      requires State().Wf(|assigns|) && l.v < |assigns| && !State().Defined(l)
      modifies this`assigns, this`phase, this`varData, this`trail
      ensures State() == Assign(old(State()), l, reason)
      ensures State().Wf(|assigns|)
    {
      assert assigns[l.v] == Undef by {
        assert l.Not().v == l.v;
      }
      AssignWf(State(), |assigns|, l, reason);
      assigns := assigns[l.v := if l.neg then False else True];
      phase := phase[l.v := l.neg];
      varData := varData[l.v := VarData(DecisionLevel(), reason)];
      trail := trail + [l];
    }

    /** Backtracks to `level`, handing each unassigned variable back to the decision heap. */
    method BacktrackToWith(level: nat, vsids: Vsids)
      requires State().Wf(|assigns|) && vsids.Valid() && |vsids.activity| == |assigns|
      modifies this`assigns, this`trail, this`qhead, this`trailLim, vsids`heap, vsids`heapPos
      ensures State() == Backtrack(old(State()), level)
      ensures State().Wf(|assigns|)
      ensures vsids.Valid() && |vsids.heapPos| == old(|vsids.heapPos|)
      ensures old(vsids.InHeap()) <= vsids.InHeap()
      ensures forall v :: 0 <= v < |assigns| && assigns[v] == Undef && old(assigns)[v] != Undef ==> v in vsids.InHeap()
    {
      hide TrailState.Wf, Vsids.Valid, Vsids.InHeap, Cleared;
      ghost var t := State();
      BacktrackWf(t, |assigns|, level);
      WfBounds(t, |assigns|);
      ClearedNone(t);
      if DecisionLevel() > level {
        var target := trailLim[level];
        while |trail| > target
          invariant target <= |trail| <= |t.lits| && trail == t.lits[..|trail|]
          invariant |assigns| == |t.assigns| && trailLim == t.lims && qhead == t.qhead
          invariant Cleared(t, assigns, |trail|)
          invariant vsids.Valid() && |vsids.heapPos| == old(|vsids.heapPos|)
          invariant old(vsids.InHeap()) <= vsids.InHeap()
          invariant forall v :: 0 <= v < |assigns| && assigns[v] == Undef && old(assigns)[v] != Undef ==> v in vsids.InHeap()
        {
          var l := trail[|trail| - 1];
          ClearedStep(t, |assigns|, assigns, |trail|);
          trail := trail[..|trail| - 1];
          assigns := assigns[l.v := Undef];
          vsids.Insert(l.v);
        }
        qhead := target;
        trailLim := trailLim[..level];
        ClearedAll(t, level, assigns);
      }
    }

    method NextUnpropagated() returns (r: Option<Lit>)
      modifies this`qhead
      ensures old(qhead) < |trail| ==> r == Some(trail[old(qhead)]) && qhead == old(qhead) + 1
      ensures old(qhead) >= |trail| ==> r == None && qhead == old(qhead)
    {
      if qhead < |trail| {
        r := Some(trail[qhead]);
        qhead := qhead + 1;
      } else {
        r := None;
      }
    }
  }
}
