/** The VSIDS decision heap: an indexed binary max-heap over variable activities. */
module VsidsHeap {
  import opened Lits

  const ABSENT: int := -1
  const RESCALE_LIMIT: real := 10000000000000000000000000000000000000000000000000000000000000000000000000000000000000000000000000000.0
  const VAR_DECAY: real := 0.95

  function Parent(i: int): int { (i - 1) / 2 }

  // ---------- the heap as values ----------

  /** `heap` and `pos` are inverse to each other. */
  ghost predicate Indexed(heap: seq<nat>, pos: seq<int>) {
    && (forall i :: 0 <= i < |heap| ==> heap[i] < |pos| && pos[heap[i]] == i)
    && (forall v :: 0 <= v < |pos| && pos[v] != ABSENT ==> 0 <= pos[v] < |heap| && heap[pos[v]] == v)
  }

  ghost predicate InRange(heap: seq<nat>, act: seq<real>) {
    forall i :: 0 <= i < |heap| ==> heap[i] < |act|
  }

  /** Parent activity at least child activity, everywhere but at the edge above `hole`. */
  ghost predicate OrderedAbove(heap: seq<nat>, act: seq<real>, hole: int)
    requires InRange(heap, act)
  {
    && (forall i :: 0 < i < |heap| && i != hole ==> act[heap[Parent(i)]] >= act[heap[i]])
    && (forall i :: 0 < i < |heap| && Parent(i) == hole && 0 < hole ==> act[heap[Parent(hole)]] >= act[heap[i]])
  }

  /** Parent activity at least child activity, everywhere but at the edges below `hole`. */
  ghost predicate OrderedBelow(heap: seq<nat>, act: seq<real>, hole: int)
    requires InRange(heap, act)
  {
    && (forall i :: 0 < i < |heap| && Parent(i) != hole ==> act[heap[Parent(i)]] >= act[heap[i]])
    && (forall i :: 0 < i < |heap| && Parent(i) == hole && 0 < hole < |heap| ==> act[heap[Parent(hole)]] >= act[heap[i]])
  }

  ghost predicate Ordered(heap: seq<nat>, act: seq<real>)
    requires InRange(heap, act)
  {
    forall i :: 0 < i < |heap| ==> act[heap[Parent(i)]] >= act[heap[i]]
  }

  /** The root of an ordered heap has the greatest activity. */
  lemma {:induction false} RootIsMax(heap: seq<nat>, act: seq<real>, i: nat)
    requires InRange(heap, act) && Ordered(heap, act)
    requires i < |heap|
    ensures act[heap[0]] >= act[heap[i]]
    decreases i
  {
    if i > 0 { RootIsMax(heap, act, Parent(i)); }
  }

  function Swapped(heap: seq<nat>, i: nat, j: nat): seq<nat>
    requires i < |heap| && j < |heap|
  {
    heap[i := heap[j]][j := heap[i]]
  }

  lemma SiftUpStep(heap: seq<nat>, act: seq<real>, pos: nat)
    requires InRange(heap, act) && 0 < pos < |heap| && OrderedAbove(heap, act, pos)
    requires act[heap[pos]] > act[heap[Parent(pos)]]
    ensures InRange(Swapped(heap, pos, Parent(pos)), act)
    ensures OrderedAbove(Swapped(heap, pos, Parent(pos)), act, Parent(pos))
  {
    hide Parent;
    ParentBelow();
    var h, hole := Swapped(heap, pos, Parent(pos)), Parent(pos);
    forall i | 0 < i < |h| && i != hole ensures act[h[Parent(i)]] >= act[h[i]] {
      if i != pos && Parent(i) != pos && Parent(i) != hole {
        assert act[heap[Parent(i)]] >= act[heap[i]];
      } else if Parent(i) == hole && i != pos {
        assert act[heap[hole]] >= act[heap[i]];
      }
    }
    forall i | 0 < i < |h| && Parent(i) == hole && 0 < hole ensures act[h[Parent(hole)]] >= act[h[i]] {
      assert act[heap[Parent(hole)]] >= act[heap[hole]];
      if i != pos { assert act[heap[hole]] >= act[heap[i]]; }
    }
  }

  lemma SiftUpStop(heap: seq<nat>, act: seq<real>, pos: nat)
    requires InRange(heap, act) && pos < |heap| && OrderedAbove(heap, act, pos)
    requires pos == 0 || act[heap[pos]] <= act[heap[Parent(pos)]]
    ensures Ordered(heap, act)
  {
    forall i | 0 < i < |heap| ensures act[heap[Parent(i)]] >= act[heap[i]] {}
  }

  lemma SiftDownStop(heap: seq<nat>, act: seq<real>, pos: nat)
    requires InRange(heap, act) && pos < |heap| && OrderedBelow(heap, act, pos)
    requires forall i :: 0 < i < |heap| && Parent(i) == pos ==> act[heap[i]] <= act[heap[pos]]
    ensures Ordered(heap, act)
  {
    forall i | 0 < i < |heap| ensures act[heap[Parent(i)]] >= act[heap[i]] {}
  }

  lemma LeafStop(heap: seq<nat>, act: seq<real>, pos: nat)
    requires InRange(heap, act) && pos < |heap| <= 2 * pos + 1 && OrderedBelow(heap, act, pos)
    ensures Ordered(heap, act)
  {
    forall i | 0 < i < |heap| ensures Parent(i) != pos { ChildrenOf(pos, i); }
  }

  lemma ParentBelow()
    ensures forall i :: i > 0 ==> 0 <= Parent(i) < i
  {
  }

  /** The children of a position. */
  lemma ChildrenOf(pos: nat, i: int)
    ensures 0 < i && Parent(i) == pos <==> i == 2 * pos + 1 || i == 2 * pos + 2
  {
  }

  lemma SiftDownStep(heap: seq<nat>, act: seq<real>, pos: nat, best: nat)
    requires InRange(heap, act) && pos < |heap| && best < |heap| && OrderedBelow(heap, act, pos)
    requires 0 < best && Parent(best) == pos && act[heap[best]] > act[heap[pos]]
    requires forall i :: 0 < i < |heap| && Parent(i) == pos ==> act[heap[best]] >= act[heap[i]]
    ensures InRange(Swapped(heap, pos, best), act)
    ensures OrderedBelow(Swapped(heap, pos, best), act, best)
  {
    hide Parent;
    ParentBelow();
    var h := Swapped(heap, pos, best);
    forall i | 0 < i < |h| && Parent(i) == best ensures act[h[Parent(best)]] >= act[h[i]] {
      assert act[heap[Parent(i)]] >= act[heap[i]];
    }
    forall i | 0 < i < |h| && Parent(i) != best
      ensures act[h[Parent(i)]] >= act[h[i]]
    {
      if Parent(i) == pos {
        assert act[heap[best]] >= act[heap[i]];
      } else if i == pos {
        assert act[heap[Parent(pos)]] >= act[heap[best]];
      } else {
        assert act[heap[Parent(i)]] >= act[heap[i]];
      }
    }
  }

  class Vsids {
    var activity: seq<real>
    var varInc: real
    var heap: seq<nat>
    var heapPos: seq<int>

    ghost predicate Shape()
      reads this
    {
      && |heapPos| == |activity|
      && varInc > 0.0
      && Indexed(heap, heapPos)
      && InRange(heap, activity)
    }

    ghost predicate Valid()
      reads this
    {
      Shape() && Ordered(heap, activity)
    }

    /** The variables currently in the heap. */
    ghost function InHeap(): (s: set<nat>)
      reads this
    {
      set v | 0 <= v < |heapPos| && heapPos[v] != ABSENT
    }

    constructor ()
      ensures Valid() && activity == [] && InHeap() == {}
    {
      activity, varInc, heap, heapPos := [], 1.0, [], [];
    }

    method EnsureVar(count: nat)
      requires Valid()
      modifies this
      ensures Valid()
      ensures |activity| == if count > |old(activity)| then count else |old(activity)|
      ensures old(activity) <= activity
      ensures forall v :: v in InHeap() <==> v in old(InHeap()) || |old(activity)| <= v < count
    {
      var oldCount := |activity|;
      if oldCount < count {
        activity := activity + seq(count - oldCount, _ => 0.0);
        heapPos := heapPos + seq(count - oldCount, _ => ABSENT);
        assert InHeap() == old(InHeap());
        for v := oldCount to count
          invariant Valid() && |activity| == count
          invariant old(activity) <= activity
          invariant forall u :: u in InHeap() <==> u in old(InHeap()) || oldCount <= u < v
        {
          Insert(v);
        }
      }
    }

    method Insert(v: nat)
      requires Valid() && v < |activity|
      modifies this`heap, this`heapPos
      ensures Valid() && |heapPos| == old(|heapPos|)
      ensures InHeap() == old(InHeap()) + {v}
    {
      if heapPos[v] == ABSENT {
        var pos := |heap|;
        heap := heap + [v];
        heapPos := heapPos[v := pos];
        assert InHeap() == old(InHeap()) + {v};
        SiftUp(pos);
      }
    }

    /** Raises one activity; past the limit, all activities and the increment are scaled down. */
    method BumpVar(v: nat)
      requires Valid() && v < |activity|
      modifies this
      ensures Valid() && InHeap() == old(InHeap()) && |heapPos| == old(|heapPos|)
      ensures var bumped := old(activity)[v := old(activity)[v] + old(varInc)];
              if bumped[v] > RESCALE_LIMIT then activity == Scaled(bumped) && varInc == old(varInc) / RESCALE_LIMIT
              else activity == bumped && varInc == old(varInc)
    {
      hide Ordered, OrderedAbove, Indexed, Scaled;
      ShapeAt(v);
      BumpOrdered(heap, heapPos, activity, v, activity[v] + varInc);
      activity := activity[v := activity[v] + varInc];
      if activity[v] > RESCALE_LIMIT {
        Rescale(v);
      }
      var pos := heapPos[v];
      if pos != ABSENT {
        SiftUp(pos);
      } else {
        AboveAbsent(heap, activity);
      }
    }

    lemma ShapeAt(v: nat)
      requires Shape() && v < |activity|
      ensures heapPos[v] == ABSENT || (0 <= heapPos[v] < |heap| && heap[heapPos[v]] == v)
    {
    }

    /** Divides every activity and the increment by the limit; the order is unaffected. */
    method Rescale(ghost hole: nat)
      requires Shape() && hole < |activity|
      requires OrderedAbove(heap, activity, heapPos[hole])
      modifies this`activity, this`varInc
      ensures Shape() && activity == Scaled(old(activity)) && varInc == old(varInc) / RESCALE_LIMIT
      ensures OrderedAbove(heap, activity, heapPos[hole])
    {
      ScaledOrder(heap, activity, heapPos[hole]);
      var acts := activity;
      activity := seq(|acts|, i requires 0 <= i < |acts| => acts[i] / RESCALE_LIMIT);
      assert activity == Scaled(acts);
      varInc := varInc / RESCALE_LIMIT;
    }

    method Decay()
      requires Valid()
      modifies this`varInc
      ensures Valid() && varInc == old(varInc) / VAR_DECAY && varInc > old(varInc)
    {
      varInc := varInc / VAR_DECAY;
    }

    /** Picks an unassigned variable of greatest activity among those in the heap; when every
        unassigned variable is in the heap, greatest among all of them. */
    method SelectDecisionVar(assigns: seq<LBool>) returns (r: Option<nat>)
      requires Valid() && |assigns| == |activity|
      modifies this
      ensures Valid() && activity == old(activity)
      ensures r == None <==> forall v :: 0 <= v < |assigns| ==> assigns[v] != Undef
      ensures r.Some? ==> r.value < |assigns| && assigns[r.value] == Undef
      ensures r.Some? && (forall v :: 0 <= v < |assigns| && assigns[v] == Undef ==> v in old(InHeap())) ==>
        forall v :: 0 <= v < |assigns| && assigns[v] == Undef ==> activity[v] <= activity[r.value]
      ensures forall v :: v in old(InHeap()) && v !in InHeap() ==> r == Some(v) || assigns[v] != Undef
    {
      var top := PopMax();
      while top.Some?
        invariant Valid() && activity == old(activity)
        invariant top == None ==> heap == []
        invariant top.Some? ==> top.value < |activity| && top.value !in InHeap() && top.value in old(InHeap())
        invariant top.Some? ==> forall v :: v in InHeap() ==> activity[v] <= activity[top.value]
        invariant InHeap() <= old(InHeap())
        invariant forall v :: v in old(InHeap()) && v !in InHeap() ==> top == Some(v) || assigns[v] != Undef
        decreases |heap|, if top.Some? then 1 else 0
      {
        if assigns[top.value] == Undef {
          return top;
        }
        top := PopMax();
      }
      assert InHeap() == {};
      for v := 0 to |activity|
        invariant Valid() && activity == old(activity) && InHeap() == {}
        invariant forall u :: 0 <= u < v ==> assigns[u] != Undef
      {
        if assigns[v] == Undef {
          Insert(v);
          r := PopMax();
          return;
        }
      }
      r := None;
    }

    method PopMax() returns (r: Option<nat>)
      requires Valid()
      modifies this`heap, this`heapPos
      ensures Valid() && |heapPos| == old(|heapPos|)
      ensures r == None <==> old(heap) == []
      ensures r == None ==> InHeap() == old(InHeap()) == {} && heap == []
      ensures r.Some? ==> r.value in old(InHeap()) && InHeap() == old(InHeap()) - {r.value}
      ensures r.Some? ==> |heap| == old(|heap|) - 1
      ensures r.Some? ==> forall v :: v in old(InHeap()) ==> activity[v] <= activity[r.value]
    {
      if |heap| == 0 {
        return None;
      }
      var maxVar := heap[0];
      forall v | v in InHeap() ensures activity[v] <= activity[maxVar] {
        RootIsMax(heap, activity, heapPos[v]);
      }
      heapPos := heapPos[maxVar := ABSENT];
      if |heap| == 1 {
        heap := [];
        return Some(maxVar);
      }
      var last := heap[|heap| - 1];
      heap := heap[..|heap| - 1];
      heap := heap[0 := last];
      heapPos := heapPos[last := 0];
      assert InHeap() == old(InHeap()) - {maxVar};
      SiftDown(0);
      r := Some(maxVar);
    }

    method SiftUp(start: nat)
      requires Shape() && start < |heap| && OrderedAbove(heap, activity, start)
      modifies this`heap, this`heapPos
      ensures Valid() && |heapPos| == old(|heapPos|)
      ensures InHeap() == old(InHeap())
    {
      hide Ordered, OrderedAbove, Indexed;
      var pos: nat := start;
      while pos > 0
        invariant Shape() && pos < |heap| && OrderedAbove(heap, activity, pos)
        invariant |heapPos| == old(|heapPos|) && InHeap() == old(InHeap())
      {
        var parent := Parent(pos);
        if activity[heap[pos]] > activity[heap[parent]] {
          SiftUpStep(heap, activity, pos);
          Swap(pos, parent);
          pos := parent;
        } else {
          SiftUpStop(heap, activity, pos);
          return;
        }
      }
      SiftUpStop(heap, activity, pos);
    }

    method SiftDown(start: nat)
      requires Shape() && start < |heap| && OrderedBelow(heap, activity, start)
      modifies this`heap, this`heapPos
      ensures Valid() && |heapPos| == old(|heapPos|) && |heap| == old(|heap|)
      ensures InHeap() == old(InHeap())
    {
      hide Ordered, OrderedBelow, Indexed;
      var pos: nat := start;
      var len := |heap|;
      while 2 * pos + 1 < len
        invariant Shape() && pos < |heap| == len && OrderedBelow(heap, activity, pos)
        invariant |heapPos| == old(|heapPos|) && InHeap() == old(InHeap())
        decreases len - pos
      {
        var best := pos;
        var left := 2 * pos + 1;
        var right := left + 1;
        if activity[heap[left]] > activity[heap[best]] {
          best := left;
        }
        if right < len && activity[heap[right]] > activity[heap[best]] {
          best := right;
        }
        forall i | 0 < i < |heap| && Parent(i) == pos ensures activity[heap[best]] >= activity[heap[i]] {
          ChildrenOf(pos, i);
        }
        if best != pos {
          ChildrenOf(pos, best);
          SiftDownStep(heap, activity, pos, best);
          Swap(pos, best);
          pos := best;
        } else {
          SiftDownStop(heap, activity, pos);
          return;
        }
      }
      LeafStop(heap, activity, pos);
    }

    method Swap(i: nat, j: nat)
      requires Shape() && i < |heap| && j < |heap| && i != j
      modifies this`heap, this`heapPos
      ensures Shape() && heap == Swapped(old(heap), i, j)
      ensures |heapPos| == old(|heapPos|)
      ensures InHeap() == old(InHeap())
    {
      var a, b := heap[i], heap[j];
      heap := heap[i := b][j := a];
      heapPos := heapPos[a := j][b := i];
    }
  }

  function Scaled(act: seq<real>): (r: seq<real>)
    ensures |r| == |act|
  {
    seq(|act|, i requires 0 <= i < |act| => act[i] / RESCALE_LIMIT)
  }

  /** Scaling keeps the heap order. */
  lemma ScaledOrder(heap: seq<nat>, act: seq<real>, hole: int)
    requires InRange(heap, act) && OrderedAbove(heap, act, hole)
    ensures OrderedAbove(heap, Scaled(act), hole)
  {
    forall i | 0 < i < |heap| && i != hole ensures Scaled(act)[heap[Parent(i)]] >= Scaled(act)[heap[i]] {
      DivKeepsOrder(act[heap[Parent(i)]], act[heap[i]]);
    }
    forall i | 0 < i < |heap| && Parent(i) == hole && 0 < hole ensures Scaled(act)[heap[Parent(hole)]] >= Scaled(act)[heap[i]] {
      DivKeepsOrder(act[heap[Parent(hole)]], act[heap[i]]);
    }
  }

  /** A raised activity can only break the order above its own position. */
  lemma BumpOrdered(heap: seq<nat>, pos: seq<int>, act: seq<real>, v: nat, x: real)
    requires InRange(heap, act) && Ordered(heap, act) && Indexed(heap, pos) && |pos| == |act| && v < |act| && x >= act[v]
    ensures InRange(heap, act[v := x]) && OrderedAbove(heap, act[v := x], pos[v])
  {
    var act' := act[v := x];
    forall i | 0 < i < |heap| && i != pos[v] ensures act'[heap[Parent(i)]] >= act'[heap[i]] {
      assert act[heap[Parent(i)]] >= act[heap[i]];
    }
    forall i | 0 < i < |heap| && Parent(i) == pos[v] && 0 < pos[v] ensures act'[heap[Parent(pos[v])]] >= act'[heap[i]] {
      assert act[heap[Parent(i)]] >= act[heap[i]];
      assert act[heap[Parent(pos[v])]] >= act[heap[pos[v]]];
    }
  }

  lemma AboveAbsent(heap: seq<nat>, act: seq<real>)
    requires InRange(heap, act) && OrderedAbove(heap, act, ABSENT)
    ensures Ordered(heap, act)
  {
  }

  lemma DivKeepsOrder(x: real, y: real)
    ensures x / RESCALE_LIMIT >= y / RESCALE_LIMIT <==> x >= y
  {
  }
}
