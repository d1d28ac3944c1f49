/** Building terms in hash-consed arenas: what interning keeps, and the smart constructors. */
module TermBuilder {
  import opened BinaryFormat
  import opened Arenas
  import opened TermSemantics
  import BV = BitVectors
  import NB = NaturalBits

  // ---------- arenas that terms can be built in ----------

  /** Terms of an operator without a fixed meaning have one sort for arguments of the same sorts. */
  ghost predicate Signatures(sorts: Sorts, terms: Terms)
    requires ArenaOk(sorts, terms)
  {
    forall a, b ::
      (&& 0 <= a < |terms| && 0 <= b < |terms| && !Interpreted(terms[a].op) && terms[b].op == terms[a].op
       && ArgSorts(sorts, terms, terms[b].args) == ArgSorts(sorts, terms, terms[a].args)) ==>
      terms[a].sort == terms[b].sort
  }

  ghost predicate SortsUnique(sorts: Sorts) {
    forall a, b :: 0 <= a < |sorts| && 0 <= b < |sorts| && sorts[a] == sorts[b] ==> a == b
  }

  /** The arenas start with the sorts Bool, Int and Real and the terms true and false. */
  ghost predicate Based(sorts: Sorts, terms: Terms) {
    && |sorts| >= 3 && sorts[0] == Sort.Bool && sorts[1] == Sort.Int && sorts[2] == Sort.Real
    && |terms| >= 2 && terms[0] == TermData(Op.True, [], 0) && terms[1] == TermData(Op.False, [], 0)
  }

  ghost predicate Buildable(sorts: Sorts, terms: Terms) {
    && ArenaOk(sorts, terms) && Signatures(sorts, terms) && SortsUnique(sorts) && HashConsed(terms) && Based(sorts, terms)
  }

  ghost predicate Grows(sorts: Sorts, terms: Terms, sorts': Sorts, terms': Terms) {
    sorts <= sorts' && terms <= terms'
  }

  /** `r` means in the grown arenas what `id` meant, and has circuits for its operators if `id` had. */
  ghost predicate Keeps(sorts: Sorts, terms: Terms, id: nat, sorts': Sorts, terms': Terms, r: nat) {
    && ArenaOk(sorts, terms) && ArenaOk(sorts', terms') && id < |terms| && r < |terms'|
    && SortOf(sorts', terms', r) == SortOf(sorts, terms, id)
    && (Pure(sorts, terms, id) ==> Pure(sorts', terms', r))
    && forall i: Interp :: Fits(i) ==> Eval(sorts', terms', r, i) == Eval(sorts, terms, id, i)
  }

  lemma KeepsLater(sorts: Sorts, terms: Terms, id: nat, sorts': Sorts, terms': Terms, r: nat, sorts'': Sorts, terms'': Terms)
    requires Keeps(sorts, terms, id, sorts', terms', r) && ArenaOk(sorts'', terms'') && Grows(sorts', terms', sorts'', terms'')
    ensures Keeps(sorts, terms, id, sorts'', terms'', r)
  {
    hide ArenaOk, SortOf, Eval, Pure;
    assert ArenaOk(sorts, terms);
    SortStable(sorts', terms', sorts'', terms'', r);
    PureStable(sorts', terms', sorts'', terms'', r);
    forall i: Interp | Fits(i) ensures Eval(sorts'', terms'', r, i) == Eval(sorts, terms, id, i) {
      EvalStable(sorts', terms', sorts'', terms'', r, i);
    }
  }

  lemma SortStable(sorts: Sorts, terms: Terms, sorts': Sorts, terms': Terms, id: nat)
    requires ArenaOk(sorts, terms) && ArenaOk(sorts', terms') && Grows(sorts, terms, sorts', terms') && id < |terms|
    ensures SortOf(sorts, terms, id) == SortOf(sorts', terms', id)
  {
    hide TermSorted;
    assert terms'[id] == terms[id];
  }

  lemma KeepsItself(sorts: Sorts, terms: Terms, id: nat)
    requires ArenaOk(sorts, terms) && id < |terms|
    ensures Keeps(sorts, terms, id, sorts, terms, id)
  {
  }

  lemma KeepsTrans(sorts: Sorts, terms: Terms, id: nat, sorts': Sorts, terms': Terms, r: nat, sorts'': Sorts, terms'': Terms, q: nat)
    requires Keeps(sorts, terms, id, sorts', terms', r) && Keeps(sorts', terms', r, sorts'', terms'', q)
    ensures Keeps(sorts, terms, id, sorts'', terms'', q)
  {
    hide ArenaOk, SortOf, Eval, Pure;
  }

  // ---------- nodes ----------

  /** A node that could be added to the arena. */
  ghost predicate Fitting(sorts: Sorts, terms: Terms, node: TermData) {
    && ArenaOk(sorts, terms) && node.sort < |sorts| && (forall k :: 0 <= k < |node.args| ==> node.args[k] < |terms|)
    && GoodSort(sorts[node.sort]) && NodeSorted(node.op, ArgSorts(sorts, terms, node.args), sorts[node.sort])
  }

  ghost predicate SignatureFits(sorts: Sorts, terms: Terms, node: TermData)
    requires Fitting(sorts, terms, node)
  {
    !Interpreted(node.op) ==>
      forall b :: (0 <= b < |terms| && terms[b].op == node.op && ArgSorts(sorts, terms, terms[b].args) == ArgSorts(sorts, terms, node.args)) ==>
        terms[b].sort == node.sort
  }

  /** Adding a fitting node keeps the arena well-sorted. */
  lemma AddNode(sorts: Sorts, terms: Terms, node: TermData)
    requires Fitting(sorts, terms, node)
    ensures ArenaOk(sorts, terms + [node])
    ensures SortOf(sorts, terms + [node], |terms|) == sorts[node.sort]
    ensures ArgSorts(sorts, terms + [node], node.args) == ArgSorts(sorts, terms, node.args)
  {
    hide NodeSorted, GoodSort;
    var more := terms + [node];
    assert Linked(sorts, more) by {
      forall id | 0 <= id < |more| ensures more[id].sort < |sorts| && forall k :: 0 <= k < |more[id].args| ==> more[id].args[k] < id {
        if id < |terms| { assert more[id] == terms[id]; }
      }
    }
    assert more[|terms|] == node;
    assert ArgSorts(sorts, more, node.args) == ArgSorts(sorts, terms, node.args);
    forall id | 0 <= id < |more| ensures TermSorted(sorts, more, id) {
      if id < |terms| {
        assert TermSorted(sorts, terms, id);
        assert more[id] == terms[id];
        assert ArgSorts(sorts, more, terms[id].args) == ArgSorts(sorts, terms, terms[id].args);
      }
    }
  }

  /** What the node means. */
  ghost function NodeValue(sorts: Sorts, terms: Terms, node: TermData, i: Interp): Value
    requires Fitting(sorts, terms, node) && Fits(i)
  {
    AddNode(sorts, terms, node);
    Eval(sorts, terms + [node], |terms|, i)
  }

  ghost predicate PureNode(sorts: Sorts, terms: Terms, node: TermData)
    requires ArenaOk(sorts, terms)
  {
    HandledOp(sorts, terms, node.op, node.args) && AllPure(sorts, terms, node.args)
  }

  /** The term has circuits for its operators if the node has. */
  ghost predicate PureFrom(sorts: Sorts, terms: Terms, node: TermData, sorts': Sorts, terms': Terms, r: nat) {
    ArenaOk(sorts, terms) && ArenaOk(sorts', terms') && r < |terms'| && (PureNode(sorts, terms, node) ==> Pure(sorts', terms', r))
  }

  /** So have the truth values, and the arguments of the node. */
  lemma PureKnown(sorts: Sorts, terms: Terms, node: TermData, r: nat)
    requires ArenaOk(sorts, terms) && r < |terms| && ((r < 2 && Based(sorts, terms)) || r in node.args || OnNumbers(node.op))
    ensures PureFrom(sorts, terms, node, sorts, terms, r)
  {
    hide ArenaOk, Comparable;
  }

  /** `r` means in the grown arenas what the node means. */
  ghost predicate Stands(sorts: Sorts, terms: Terms, node: TermData, sorts': Sorts, terms': Terms, r: nat) {
    && Fitting(sorts, terms, node) && ArenaOk(sorts', terms') && r < |terms'|
    && SortOf(sorts', terms', r) == sorts[node.sort] && PureFrom(sorts, terms, node, sorts', terms', r)
    && forall i: Interp :: Fits(i) ==> Eval(sorts', terms', r, i) == NodeValue(sorts, terms, node, i)
  }

  /** A node means its operator applied to the values of its arguments. */
  lemma NodeMeaning(sorts: Sorts, terms: Terms, node: TermData, i: Interp)
    requires Fitting(sorts, terms, node) && Fits(i)
    ensures NodeValue(sorts, terms, node, i) ==
      Meaning(node.op, ArgSorts(sorts, terms, node.args), sorts[node.sort], EvalAll(sorts, terms, node.args, i), i)
  {
    hide Meaning, NodeSorted, ArenaOk, Eval;
    AddNode(sorts, terms, node);
    var more := terms + [node];
    assert more[|terms|] == node;
    EvalIs(sorts, more, |terms|, i);
    assert EvalAll(sorts, more, node.args, i) == EvalAll(sorts, terms, node.args, i) by {
      forall k | 0 <= k < |node.args| ensures Eval(sorts, more, node.args[k], i) == Eval(sorts, terms, node.args[k], i) {
        EvalStable(sorts, terms, sorts, more, node.args[k], i);
      }
    }
  }

  lemma InternedPure(sorts: Sorts, terms: Terms, node: TermData, terms': Terms, id: nat)
    requires Fitting(sorts, terms, node) && ArenaOk(sorts, terms') && terms <= terms' && id < |terms'|
    requires terms'[id].op == node.op && terms'[id].args == node.args
    ensures PureFrom(sorts, terms, node, sorts, terms', id)
  {
    hide ArenaOk, NodeSorted;
    FittingInside(sorts, terms, node);
    LinkedOk(sorts, terms);
    LinkedOk(sorts, terms');
    forall k | 0 <= k < |node.args|
      ensures Pure(sorts, terms, node.args[k]) ==> Pure(sorts, terms', node.args[k])
      ensures SortOf(sorts, terms', node.args[k]) == SortOf(sorts, terms, node.args[k])
    {
      PureStable(sorts, terms, sorts, terms', node.args[k]);
      SortStable(sorts, terms, sorts, terms', node.args[k]);
    }
  }

  lemma FittingInside(sorts: Sorts, terms: Terms, node: TermData)
    requires Fitting(sorts, terms, node)
    ensures ArenaOk(sorts, terms) && forall k :: 0 <= k < |node.args| ==> node.args[k] < |terms|
  {
  }

  /** An interned node means what the node means. */
  lemma InternedStands(sorts: Sorts, terms: Terms, node: TermData, terms': Terms, id: nat)
    requires Fitting(sorts, terms, node) && ArenaOk(sorts, terms') && terms <= terms' && id < |terms'|
    requires terms'[id].op == node.op && terms'[id].args == node.args && terms'[id].sort == node.sort
    ensures Stands(sorts, terms, node, sorts, terms', id)
  {
    hide Meaning, NodeSorted, ArenaOk, Eval, PureFrom;
    InternedPure(sorts, terms, node, terms', id);
    assert SortOf(sorts, terms', id) == sorts[node.sort] by { LinkedOk(sorts, terms'); }
    forall i: Interp | Fits(i) ensures Eval(sorts, terms', id, i) == NodeValue(sorts, terms, node, i) {
      NodeMeaning(sorts, terms, node, i);
      EvalIs(sorts, terms', id, i);
      ArgsStable(sorts, terms, sorts, terms', node.args, i);
    }
  }

  lemma LinkedOk(sorts: Sorts, terms: Terms)
    requires ArenaOk(sorts, terms)
    ensures Linked(sorts, terms)
  {
  }

  lemma ArgsStable(sorts: Sorts, terms: Terms, sorts': Sorts, terms': Terms, args: seq<nat>, i: Interp)
    requires ArenaOk(sorts, terms) && ArenaOk(sorts', terms') && Grows(sorts, terms, sorts', terms') && Fits(i)
    requires forall k :: 0 <= k < |args| ==> args[k] < |terms|
    ensures ArgSorts(sorts', terms', args) == ArgSorts(sorts, terms, args)
    ensures EvalAll(sorts', terms', args, i) == EvalAll(sorts, terms, args, i)
  {
    hide ArenaOk, Eval;
    LinkedOk(sorts, terms);
    LinkedOk(sorts', terms');
    forall k | 0 <= k < |args|
      ensures Eval(sorts', terms', args[k], i) == Eval(sorts, terms, args[k], i)
      ensures SortOf(sorts', terms', args[k]) == SortOf(sorts, terms, args[k])
    {
      EvalStable(sorts, terms, sorts', terms', args[k], i);
    }
  }

  // ---------- interning ----------

  /** One operator on arguments of the same sorts has one result sort, except for operators without a
      fixed meaning. */
  lemma ResultSort(op: Op, ss: seq<Sort>, s: Sort, t: Sort)
    requires Interpreted(op) && NodeSorted(op, ss, s) && NodeSorted(op, ss, t)
    ensures s == t
  {
    hide NodeSorted, Interpreted;
    InterpretedIsNoVar(op);
    SortGiven(op, ss, s);
    SortGiven(op, ss, t);
  }

  /** The sort that the operator and its arguments determine. */
  ghost function GivenSort(op: Op, ss: seq<Sort>): Sort
    requires OnWord(op) ==> |ss| == 1 && ss[0].BitVec?
    requires op.BvConcat? ==> |ss| == 2 && ss[0].BitVec? && ss[1].BitVec?
  {
    if op.BvConst? then BitVec(op.width)
    else if op.IntConst? || OnNumbers(op) then Sort.Int
    else if OnWords(op) && |ss| > 0 then ss[0]
    else if op.Ite? && |ss| > 1 then ss[1]
    else if OnWord(op) then BitVec(WidthOf(op, ss[0].width))
    else if op.BvConcat? then BitVec(ss[0].width + ss[1].width)
    else Sort.Bool
  }

  ghost predicate GivenFits(op: Op, ss: seq<Sort>, s: Sort) {
    && (OnWord(op) ==> |ss| == 1 && ss[0].BitVec?)
    && (op.BvConcat? ==> |ss| == 2 && ss[0].BitVec? && ss[1].BitVec?)
    && s == GivenSort(op, ss)
  }

  lemma GivenConstant(op: Op, ss: seq<Sort>, s: Sort)
    requires Constant(op) && ConstantSorted(op, s)
    ensures GivenFits(op, ss, s)
  {
  }

  lemma GivenTruth(op: Op, ss: seq<Sort>, s: Sort)
    requires (OnTruths(op) || ComparesWords(op) || ComparesNumbers(op)) && s == Sort.Bool
    ensures GivenFits(op, ss, s)
  {
  }

  lemma GivenPolymorphic(op: Op, ss: seq<Sort>, s: Sort)
    requires Polymorphic(op) && PolymorphicSorted(op, ss, s)
    ensures GivenFits(op, ss, s)
  {
  }

  lemma GivenWords(op: Op, ss: seq<Sort>, s: Sort)
    requires OnWords(op) && ss == [s, s]
    ensures GivenFits(op, ss, s)
  {
    assert ss[0] == s;
  }

  lemma GivenWord(op: Op, ss: seq<Sort>, s: Sort)
    requires OnWord(op) && |ss| == 1 && ss[0].BitVec? && s == BitVec(WidthOf(op, ss[0].width))
    ensures GivenFits(op, ss, s)
  {
    hide WidthOf;
  }

  lemma GivenRest(op: Op, ss: seq<Sort>, s: Sort)
    requires (op.BvConcat? && |ss| == 2 && ss[0].BitVec? && ss[1].BitVec? && s == BitVec(ss[0].width + ss[1].width))
      || (OnNumbers(op) && s == Sort.Int)
    ensures GivenFits(op, ss, s)
  {
  }

  lemma SortGiven(op: Op, ss: seq<Sort>, s: Sort)
    requires Interpreted(op) && !op.Var? && NodeSorted(op, ss, s)
    ensures GivenFits(op, ss, s)
  {
    hide GivenFits, OnWords, OnWord, Constant, OnTruths, Polymorphic, ComparesWords, ComparesNumbers, OnNumbers, WidthOf,
      ConstantSorted, PolymorphicSorted;
    if Constant(op) {
      GivenConstant(op, ss, s);
    } else if OnTruths(op) {
      GivenTruth(op, ss, s);
    } else if Polymorphic(op) {
      GivenPolymorphic(op, ss, s);
    } else if OnWords(op) {
      GivenWords(op, ss, s);
    } else if OnWord(op) {
      GivenWord(op, ss, s);
    } else if op.BvConcat? || OnNumbers(op) {
      if !op.BvConcat? && ComparesWords(op) { GivenTruth(op, ss, s); } else { GivenRest(op, ss, s); }
    } else {
      GivenTruth(op, ss, s);
    }
  }

  lemma InterpretedIsNoVar(op: Op)
    requires Interpreted(op)
    ensures !op.Var?
  {
  }

  lemma SameKeySameSort(sorts: Sorts, terms: Terms, node: TermData, b: nat)
    requires Buildable(sorts, terms) && Fitting(sorts, terms, node) && SignatureFits(sorts, terms, node)
    requires b < |terms| && terms[b].op == node.op && terms[b].args == node.args
    ensures terms[b].sort == node.sort
  {
    hide NodeSorted, HashConsed, Based;
    if Interpreted(node.op) {
      NodeOk(sorts, terms, b);
      ResultSort(node.op, ArgSorts(sorts, terms, node.args), sorts[node.sort], sorts[terms[b].sort]);
    }
  }

  lemma HashConsedMore(terms: Terms, node: TermData)
    requires HashConsed(terms) && !HasKey(terms, node.op, node.args)
    ensures HashConsed(terms + [node])
  {
    var more := terms + [node];
    assert forall k :: 0 <= k < |terms| ==> more[k] == terms[k];
    assert forall k :: 0 <= k < |terms| ==> !(terms[k].op == node.op && terms[k].args == node.args);
  }

  lemma NewNodeBuildable(sorts: Sorts, terms: Terms, node: TermData)
    requires Buildable(sorts, terms) && Fitting(sorts, terms, node) && SignatureFits(sorts, terms, node)
    requires !HasKey(terms, node.op, node.args)
    ensures Buildable(sorts, terms + [node])
  {
    hide ArenaOk, NodeSorted, GoodSort, Interpreted;
    AddNode(sorts, terms, node);
    var more := terms + [node];
    HashConsedMore(terms, node);
    NewSignatures(sorts, terms, node);
  }

  lemma NewSignatures(sorts: Sorts, terms: Terms, node: TermData)
    requires Buildable(sorts, terms) && Fitting(sorts, terms, node) && SignatureFits(sorts, terms, node)
    requires ArenaOk(sorts, terms + [node])
    ensures Signatures(sorts, terms + [node])
  {
    hide ArenaOk, NodeSorted, GoodSort, Interpreted, HashConsed;
    var more := terms + [node];
    LinkedOk(sorts, terms);
    LinkedOk(sorts, more);
    forall a | 0 <= a < |more|
      ensures a < |terms| ==> more[a] == terms[a] && ArgSorts(sorts, more, more[a].args) == ArgSorts(sorts, terms, terms[a].args)
      ensures a == |terms| ==> ArgSorts(sorts, more, more[a].args) == ArgSorts(sorts, terms, node.args)
    {
      if a < |terms| {
        assert more[a] == terms[a];
        assert ArgSorts(sorts, more, more[a].args) == ArgSorts(sorts, terms, terms[a].args);
      } else {
        assert ArgSorts(sorts, more, more[a].args) == ArgSorts(sorts, terms, node.args);
      }
    }
  }

  // ---------- terms that no identity applies to ----------

  predicate ZeroWord(terms: Terms, a: nat) { a < |terms| && terms[a].op.BvConst? && terms[a].op.value == 0 }

  predicate ZeroNumber(terms: Terms, a: nat) { a < |terms| && terms[a].op == IntConst(0) }

  /** None of the two words is zero. */
  predicate NoZeros(terms: Terms, args: seq<nat>) { forall k :: 0 <= k < |args| ==> !ZeroWord(terms, args[k]) }

  /** No Distinct, no operation on equal arguments that gives one of them or a constant, and none with a
      zero that gives the other argument or zero. */
  predicate NodeSettled(terms: Terms, op: Op, args: seq<nat>) {
    && !op.Distinct?
    && (|args| == 2 && (op.Eq? || op.BvSub? || op.BvXor? || op.BvAnd? || op.BvOr? || op.Sub?) ==> args[0] != args[1])
    && (|args| == 2 && (op.BvAdd? || op.BvXor? || op.BvAnd? || op.BvOr?) ==> NoZeros(terms, args))
    && (|args| == 2 && op.BvSub? ==> !ZeroWord(terms, args[1]))
    && (|args| == 2 && op.Sub? ==> !ZeroNumber(terms, args[1]))
    && (op.Add? ==> |args| >= 2 && forall k :: 0 <= k < |args| ==> !ZeroNumber(terms, args[k]))
  }

  ghost predicate Settled(terms: Terms, id: nat)
    decreases id
  {
    && id < |terms| && NodeSettled(terms, terms[id].op, terms[id].args)
    && forall k :: 0 <= k < |terms[id].args| ==> terms[id].args[k] < id && Settled(terms, terms[id].args[k])
  }

  lemma NodeSettledLater(terms: Terms, terms': Terms, op: Op, args: seq<nat>)
    requires terms <= terms' && forall k :: 0 <= k < |args| ==> args[k] < |terms|
    ensures NodeSettled(terms, op, args) <==> NodeSettled(terms', op, args)
  {
    assert forall k :: 0 <= k < |args| ==> terms'[args[k]] == terms[args[k]];
  }

  ghost predicate AllSettled(terms: Terms, ids: seq<nat>) { forall k :: 0 <= k < |ids| ==> Settled(terms, ids[k]) }

  lemma {:induction false} SettledLater(terms: Terms, terms': Terms, id: nat)
    requires terms <= terms' && Settled(terms, id)
    ensures Settled(terms', id)
    decreases id
  {
    assert terms'[id] == terms[id];
    NodeSettledLater(terms, terms', terms[id].op, terms[id].args);
    forall k | 0 <= k < |terms[id].args| ensures Settled(terms', terms[id].args[k]) { SettledLater(terms, terms', terms[id].args[k]); }
  }

  lemma AllSettledLater(terms: Terms, terms': Terms, ids: seq<nat>)
    requires terms <= terms' && AllSettled(terms, ids)
    ensures AllSettled(terms', ids)
  {
    forall k | 0 <= k < |ids| ensures Settled(terms', ids[k]) { SettledLater(terms, terms', ids[k]); }
  }

  lemma SettledInside(terms: Terms, ids: seq<nat>)
    requires AllSettled(terms, ids)
    ensures forall k :: 0 <= k < |ids| ==> ids[k] < |terms|
  {
    forall k | 0 <= k < |ids| ensures ids[k] < |terms| { assert Settled(terms, ids[k]); }
  }

  lemma SettledNode(sorts: Sorts, terms: Terms, r: nat)
    requires Linked(sorts, terms) && r < |terms| && NodeSettled(terms, terms[r].op, terms[r].args) && AllSettled(terms, terms[r].args)
    ensures Settled(terms, r)
  {
  }

  lemma BaseSettled(sorts: Sorts, terms: Terms)
    requires Based(sorts, terms)
    ensures Settled(terms, 0) && Settled(terms, 1)
  {
  }

  /** A term for the node. */
  method InternNode(sorts: SortArena, terms: TermArena, node: TermData) returns (r: nat)
    requires sorts.Valid() && terms.Valid() && Buildable(sorts.sorts, terms.terms)
    requires Fitting(sorts.sorts, terms.terms, node) && SignatureFits(sorts.sorts, terms.terms, node)
    modifies terms
    ensures terms.Valid() && Buildable(sorts.sorts, terms.terms) && Grows(sorts.sorts, old(terms.terms), sorts.sorts, terms.terms)
    ensures Stands(sorts.sorts, old(terms.terms), node, sorts.sorts, terms.terms, r)
    ensures r < |terms.terms| && terms.terms[r].op == node.op && terms.terms[r].args == node.args
    ensures NodeSettled(old(terms.terms), node.op, node.args) && AllSettled(old(terms.terms), node.args) ==> Settled(terms.terms, r)
    ensures forall id :: 0 <= id < |old(terms.terms)| && old(terms.terms)[id].op == node.op && old(terms.terms)[id].args == node.args ==>
      r == id && terms.terms == old(terms.terms)
  {
    hide TermArena.Valid, SortArena.Valid, Buildable, Fitting, SignatureFits, Stands, AllSettled, Settled, NodeSettled;
    ghost var ts := terms.terms;
    r := terms.Intern(node.op, node.args, node.sort);
    forall id | 0 <= id < |ts| && ts[id].op == node.op && ts[id].args == node.args ensures r == id { terms.Unique(r, id); }
    if HasKey(ts, node.op, node.args) {
      SameKeySameSort(sorts.sorts, ts, node, r);
    } else {
      NewNodeBuildable(sorts.sorts, ts, node);
      assert terms.terms == ts + [node];
      NewestOnly(ts, node, r);
    }
    BuildableFacts(sorts.sorts, terms.terms);
    InternedStands(sorts.sorts, ts, node, terms.terms, r);
    if NodeSettled(ts, node.op, node.args) && AllSettled(ts, node.args) {
      LinkedOk(sorts.sorts, terms.terms);
      SettledInside(ts, node.args);
      NodeSettledLater(ts, terms.terms, node.op, node.args);
      AllSettledLater(ts, terms.terms, node.args);
      SettledNode(sorts.sorts, terms.terms, r);
    }
  }

  lemma BuildableFacts(sorts: Sorts, terms: Terms)
    requires Buildable(sorts, terms)
    ensures ArenaOk(sorts, terms) && HashConsed(terms) && Based(sorts, terms) && SortsUnique(sorts)
  {
  }

  lemma NewestOnly(terms: Terms, node: TermData, r: nat)
    requires r < |terms| + 1 && (terms + [node])[r].op == node.op && (terms + [node])[r].args == node.args
    requires !HasKey(terms, node.op, node.args)
    ensures r == |terms|
  {
    assert forall k :: 0 <= k < |terms| ==> (terms + [node])[k] == terms[k];
  }

  // ---------- the values of nodes ----------

  /** The node as a term of the arena that it is added to. */
  lemma AsTerm(sorts: Sorts, terms: Terms, node: TermData, i: Interp)
    requires Fitting(sorts, terms, node) && Fits(i)
    ensures ArenaOk(sorts, terms + [node]) && (terms + [node])[|terms|] == node
    ensures SortOf(sorts, terms + [node], |terms|) == sorts[node.sort]
    ensures NodeValue(sorts, terms, node, i) == Eval(sorts, terms + [node], |terms|, i)
    ensures forall k :: 0 <= k < |node.args| ==>
      && Eval(sorts, terms + [node], node.args[k], i) == Eval(sorts, terms, node.args[k], i)
      && SortOf(sorts, terms + [node], node.args[k]) == SortOf(sorts, terms, node.args[k])
      && (IsTrue(sorts, terms + [node], node.args[k], i) <==> IsTrue(sorts, terms, node.args[k], i))
  {
    hide Eval, NodeSorted;
    AddNode(sorts, terms, node);
    forall k | 0 <= k < |node.args|
      ensures Eval(sorts, terms + [node], node.args[k], i) == Eval(sorts, terms, node.args[k], i)
      ensures SortOf(sorts, terms + [node], node.args[k]) == SortOf(sorts, terms, node.args[k])
    {
      EvalStable(sorts, terms, sorts, terms + [node], node.args[k], i);
    }
  }

  ghost predicate NodeTrue(sorts: Sorts, terms: Terms, node: TermData, i: Interp)
    requires Fitting(sorts, terms, node) && Fits(i)
  {
    NodeValue(sorts, terms, node, i) == Truth(true)
  }

  lemma NodeTruths(sorts: Sorts, terms: Terms, node: TermData, i: Interp)
    requires Fitting(sorts, terms, node) && Fits(i) && OnTruths(node.op)
    ensures
      var args, op := node.args, node.op;
      && sorts[node.sort] == Sort.Bool && NodeValue(sorts, terms, node, i).Truth?
      && (forall k :: 0 <= k < |args| ==> SortOf(sorts, terms, args[k]) == Sort.Bool)
      && (op.Not? ==> |args| == 1 && (NodeTrue(sorts, terms, node, i) <==> !IsTrue(sorts, terms, args[0], i)))
      && (op.And? ==> (NodeTrue(sorts, terms, node, i) <==> forall k :: 0 <= k < |args| ==> IsTrue(sorts, terms, args[k], i)))
      && (op.Or? ==> (NodeTrue(sorts, terms, node, i) <==> exists k :: 0 <= k < |args| && IsTrue(sorts, terms, args[k], i)))
      && (op.Xor? ==> |args| == 2 && (NodeTrue(sorts, terms, node, i) <==> IsTrue(sorts, terms, args[0], i) != IsTrue(sorts, terms, args[1], i)))
      && (op.Implies? ==> |args| == 2 && (NodeTrue(sorts, terms, node, i) <==> (IsTrue(sorts, terms, args[0], i) ==> IsTrue(sorts, terms, args[1], i))))
  {
    hide ArenaOk, Eval, NodeSorted, GoodSort;
    AsTerm(sorts, terms, node, i);
    EvalTruths(sorts, terms + [node], |terms|, i);
  }

  lemma NodePolymorphic(sorts: Sorts, terms: Terms, node: TermData, i: Interp)
    requires Fitting(sorts, terms, node) && Fits(i) && Polymorphic(node.op)
    ensures
      var args, op := node.args, node.op;
      && (op.Ite? ==> |args| == 3 && SortOf(sorts, terms, args[0]) == Sort.Bool)
      && (op.Ite? ==> SortOf(sorts, terms, args[1]) == sorts[node.sort] && SortOf(sorts, terms, args[2]) == sorts[node.sort])
      && (op.Ite? && IsTrue(sorts, terms, args[0], i) ==> NodeValue(sorts, terms, node, i) == Eval(sorts, terms, args[1], i))
      && (op.Ite? && !IsTrue(sorts, terms, args[0], i) ==> NodeValue(sorts, terms, node, i) == Eval(sorts, terms, args[2], i))
      && (op.Eq? ==> |args| == 2 && sorts[node.sort] == Sort.Bool && SortOf(sorts, terms, args[0]) == SortOf(sorts, terms, args[1]))
      && (op.Eq? ==> (NodeTrue(sorts, terms, node, i) <==> Eval(sorts, terms, args[0], i) == Eval(sorts, terms, args[1], i)))
      && (op.Distinct? ==> sorts[node.sort] == Sort.Bool && forall k :: 0 <= k < |args| ==> SortOf(sorts, terms, args[k]) == SortOf(sorts, terms, args[0]))
      && (op.Distinct? ==> (NodeTrue(sorts, terms, node, i) <==>
           forall j, k :: 0 <= j < k < |args| ==> Eval(sorts, terms, args[j], i) != Eval(sorts, terms, args[k], i)))
      && (!op.Ite? ==> NodeValue(sorts, terms, node, i).Truth?)
  {
    hide ArenaOk, Eval, NodeSorted, GoodSort;
    AsTerm(sorts, terms, node, i);
    PolymorphicShape(sorts, terms + [node], |terms|);
    EvalPolymorphic(sorts, terms + [node], |terms|, i);
  }

  lemma NodeWords(sorts: Sorts, terms: Terms, node: TermData, i: Interp)
    requires Fitting(sorts, terms, node) && Fits(i) && OnWords(node.op)
    ensures
      var args, s := node.args, sorts[node.sort];
      && s.BitVec? && 0 < s.width <= MAX_BV_WIDTH && |args| == 2 && SortOf(sorts, terms, args[0]) == s && SortOf(sorts, terms, args[1]) == s
      && NodeValue(sorts, terms, node, i) ==
         Word(WordsFrom(node.op, Eval(sorts, terms, args[0], i).bits, Eval(sorts, terms, args[1], i).bits))
  {
    hide ArenaOk, Eval, NodeSorted, WordsFrom;
    AsTerm(sorts, terms, node, i);
    EvalOnWords(sorts, terms + [node], |terms|, i);
  }

  lemma NodeWord(sorts: Sorts, terms: Terms, node: TermData, i: Interp)
    requires Fitting(sorts, terms, node) && Fits(i) && OnWord(node.op)
    ensures
      var args, s, op := node.args, sorts[node.sort], node.op;
      && s.BitVec? && 0 < s.width <= MAX_BV_WIDTH && |args| == 1
      && SortOf(sorts, terms, args[0]).BitVec? && SortOf(sorts, terms, args[0]).width > 0
      && s.width == WidthOf(op, SortOf(sorts, terms, args[0]).width)
      && (op.BvExtract? ==> op.low <= op.high < SortOf(sorts, terms, args[0]).width)
      && NodeValue(sorts, terms, node, i) == Word(WordFrom(op, Eval(sorts, terms, args[0], i).bits))
  {
    hide ArenaOk, Eval, NodeSorted, WordFrom, WidthOf;
    AsTerm(sorts, terms, node, i);
    OnWordShape(sorts, terms + [node], |terms|);
    EvalOnWord(sorts, terms + [node], |terms|, i);
  }

  lemma NodeConcat(sorts: Sorts, terms: Terms, node: TermData, i: Interp)
    requires Fitting(sorts, terms, node) && Fits(i) && node.op.BvConcat?
    ensures
      var args, s := node.args, sorts[node.sort];
      && s.BitVec? && 0 < s.width <= MAX_BV_WIDTH && |args| == 2
      && SortOf(sorts, terms, args[0]).BitVec? && SortOf(sorts, terms, args[1]).BitVec?
      && s.width == SortOf(sorts, terms, args[0]).width + SortOf(sorts, terms, args[1]).width
      && NodeValue(sorts, terms, node, i) == Word(Eval(sorts, terms, args[1], i).bits + Eval(sorts, terms, args[0], i).bits)
  {
    hide ArenaOk, Eval, NodeSorted;
    AsTerm(sorts, terms, node, i);
    ConcatShape(sorts, terms + [node], |terms|);
    EvalConcat(sorts, terms + [node], |terms|, i);
  }

  lemma NodeComparesWords(sorts: Sorts, terms: Terms, node: TermData, i: Interp)
    requires Fitting(sorts, terms, node) && Fits(i) && ComparesWords(node.op)
    ensures
      var args := node.args;
      && sorts[node.sort] == Sort.Bool && |args| == 2
      && SortOf(sorts, terms, args[0]).BitVec? && SortOf(sorts, terms, args[0]).width > 0
      && SortOf(sorts, terms, args[1]) == SortOf(sorts, terms, args[0])
      && NodeValue(sorts, terms, node, i) ==
         Truth(WordsCompare(node.op, Eval(sorts, terms, args[0], i).bits, Eval(sorts, terms, args[1], i).bits))
  {
    hide ArenaOk, Eval, NodeSorted, WordsCompare;
    AsTerm(sorts, terms, node, i);
    EvalComparesWords(sorts, terms + [node], |terms|, i);
  }

  lemma NodeNumbers(sorts: Sorts, terms: Terms, node: TermData, i: Interp)
    requires Fitting(sorts, terms, node) && Fits(i) && OnNumbers(node.op)
    ensures
      var args := node.args;
      && sorts[node.sort] == Sort.Int && |args| > 0
      && (forall k :: 0 <= k < |args| ==> SortOf(sorts, terms, args[k]) == Sort.Int)
      && NodeValue(sorts, terms, node, i) == Number(NumbersFrom(node.op, NumbersAt(sorts, terms, args, i)))
  {
    hide ArenaOk, Eval, NodeSorted, NumbersFrom;
    AsTerm(sorts, terms, node, i);
    EvalNumbers(sorts, terms + [node], |terms|, i);
    assert NumbersAt(sorts, terms + [node], node.args, i) == NumbersAt(sorts, terms, node.args, i);
  }

  lemma NodeComparesNumbers(sorts: Sorts, terms: Terms, node: TermData, i: Interp)
    requires Fitting(sorts, terms, node) && Fits(i) && ComparesNumbers(node.op)
    ensures
      var args := node.args;
      && sorts[node.sort] == Sort.Bool && |args| == 2
      && SortOf(sorts, terms, args[0]) == Sort.Int && SortOf(sorts, terms, args[1]) == Sort.Int
      && NodeValue(sorts, terms, node, i) ==
         Truth(NumbersCompare(node.op, Eval(sorts, terms, args[0], i).n, Eval(sorts, terms, args[1], i).n))
  {
    hide ArenaOk, Eval, NodeSorted, NumbersCompare;
    AsTerm(sorts, terms, node, i);
    EvalComparesNumbers(sorts, terms + [node], |terms|, i);
  }

  // ---------- smart constructors ----------

  /** Arenas that are ready for interning. */
  ghost predicate Open(sorts: SortArena, terms: TermArena)
    reads sorts, terms
  {
    sorts.Valid() && terms.Valid() && Buildable(sorts.sorts, terms.terms)
  }

  /** The terms true and false. */
  lemma BaseValues(sorts: Sorts, terms: Terms, i: Interp)
    requires Buildable(sorts, terms) && Fits(i)
    ensures ArenaOk(sorts, terms) && |terms| >= 2
    ensures SortOf(sorts, terms, 0) == Sort.Bool && SortOf(sorts, terms, 1) == Sort.Bool
    ensures IsTrue(sorts, terms, 0, i) && !IsTrue(sorts, terms, 1, i)
    ensures Eval(sorts, terms, 0, i) == Truth(true) && Eval(sorts, terms, 1, i) == Truth(false)
  {
    hide Signatures, HashConsed, TermSorted;
    EvalConstant(sorts, terms, 0, i);
    EvalConstant(sorts, terms, 1, i);
  }

  lemma ExistingStands(sorts: Sorts, terms: Terms, node: TermData, r: nat)
    requires Fitting(sorts, terms, node) && r < |terms| && SortOf(sorts, terms, r) == sorts[node.sort]
    requires forall i: Interp :: Fits(i) ==> Eval(sorts, terms, r, i) == NodeValue(sorts, terms, node, i)
    requires PureFrom(sorts, terms, node, sorts, terms, r)
    ensures Stands(sorts, terms, node, sorts, terms, r)
  {
    hide PureFrom;
  }

  /** One more sort changes nothing for the terms there are. */
  lemma MoreSorts(sorts: Sorts, terms: Terms, s: Sort)
    requires Buildable(sorts, terms) && s !in sorts
    ensures Buildable(sorts + [s], terms)
  {
    hide NodeSorted, GoodSort, HashConsed, Interpreted;
    var more := sorts + [s];
    assert Linked(more, terms);
    forall id | 0 <= id < |terms|
      ensures TermSorted(more, terms, id) && ArgSorts(more, terms, terms[id].args) == ArgSorts(sorts, terms, terms[id].args)
    {
      assert TermSorted(sorts, terms, id);
      assert ArgSorts(more, terms, terms[id].args) == ArgSorts(sorts, terms, terms[id].args);
    }
    assert ArenaOk(more, terms);
    assert SortsUnique(more);
  }

  lemma ConstantFits(sorts: Sorts, terms: Terms, node: TermData)
    requires Buildable(sorts, terms) && Constant(node.op) && node.args == [] && node.sort < |sorts|
    requires ConstantSorted(node.op, sorts[node.sort]) && GoodSort(sorts[node.sort])
    ensures Fitting(sorts, terms, node) && SignatureFits(sorts, terms, node)
  {
    hide ArenaOk, Signatures, HashConsed;
  }

  /** A term for a bit-vector constant, cut down to its width. */
  method MakeBvConst(sorts: SortArena, terms: TermArena, value: nat, width: nat) returns (r: nat)
    requires Open(sorts, terms) && 0 < width <= MAX_BV_WIDTH
    modifies sorts, terms
    ensures Open(sorts, terms) && Grows(old(sorts.sorts), old(terms.terms), sorts.sorts, terms.terms)
    ensures r < |terms.terms| && SortOf(sorts.sorts, terms.terms, r) == BitVec(width)
    ensures forall i: Interp :: Fits(i) ==> Eval(sorts.sorts, terms.terms, r, i) == Word(BV.LowBits(value, width))
    ensures terms.terms[r].op.BvConst? && Settled(terms.terms, r)
  {
    hide SortArena.Valid, TermArena.Valid, Buildable, BV.Pow2, Stands, ArenaOk, Fitting, SignatureFits, Settled;
    NB.Masked(value, width);
    ghost var ss := sorts.sorts;
    var s := sorts.Intern(BitVec(width));
    if BitVec(width) !in ss { MoreSorts(ss, terms.terms, BitVec(width)); }
    var node := TermData(BvConst(width, NB.Bitwise(NB.AndGate, value, NB.Mask(width))), [], s);
    ConstantFits(sorts.sorts, terms.terms, node);
    ghost var ts := terms.terms;
    r := InternNode(sorts, terms, node);
    ConstantValueOf(sorts.sorts, ts, node, terms.terms, r);
    BV.ValueInjective(BV.ToBits(value % BV.Pow2(width), width), BV.LowBits(value, width));
  }

  /** What a term that stands for a constant is. */
  lemma ConstantValueOf(sorts: Sorts, terms: Terms, node: TermData, terms': Terms, r: nat)
    requires Stands(sorts, terms, node, sorts, terms', r) && Constant(node.op)
    ensures ArenaOk(sorts, terms') && r < |terms'| && SortOf(sorts, terms', r) == sorts[node.sort]
    ensures ConstantSorted(node.op, sorts[node.sort])
    ensures forall i: Interp :: Fits(i) ==> Eval(sorts, terms', r, i) == ConstantValue(node.op)
  {
    hide ArenaOk, Eval, ConstantValue;
    NodeConstant(sorts, terms, node);
    forall i: Interp | Fits(i) ensures Eval(sorts, terms', r, i) == ConstantValue(node.op) {
      NodeMeaning(sorts, terms, node, i);
    }
  }

  lemma NodeConstant(sorts: Sorts, terms: Terms, node: TermData)
    requires Fitting(sorts, terms, node) && Constant(node.op)
    ensures ConstantSorted(node.op, sorts[node.sort]) && node.args == []
  {
    hide ArenaOk;
  }

  lemma IntegerFits(sorts: Sorts, terms: Terms, value: int)
    requires Buildable(sorts, terms)
    ensures 1 < |sorts| && sorts[1] == Sort.Int && ConstantValue(IntConst(value)) == Number(value)
    ensures Fitting(sorts, terms, TermData(IntConst(value), [], 1)) && SignatureFits(sorts, terms, TermData(IntConst(value), [], 1))
  {
    hide ArenaOk, Signatures, HashConsed, Fitting, SignatureFits;
    ConstantFits(sorts, terms, TermData(IntConst(value), [], 1));
  }

  method MakeIntConst(sorts: SortArena, terms: TermArena, value: int) returns (r: nat)
    requires Open(sorts, terms)
    modifies terms
    ensures Open(sorts, terms) && Grows(sorts.sorts, old(terms.terms), sorts.sorts, terms.terms)
    ensures r < |terms.terms| && SortOf(sorts.sorts, terms.terms, r) == Sort.Int
    ensures forall i: Interp :: Fits(i) ==> Eval(sorts.sorts, terms.terms, r, i) == Number(value)
    ensures terms.terms[r].op == IntConst(value) && Settled(terms.terms, r)
  {
    hide SortArena.Valid, TermArena.Valid, Buildable, Stands, ArenaOk, Fitting, SignatureFits, Settled, Eval;
    hide ConstantValue, ConstantSorted, Based, Signatures, HashConsed;
    var node := TermData(IntConst(value), [], 1);
    IntegerFits(sorts.sorts, terms.terms, value);
    ghost var ts := terms.terms;
    r := InternNode(sorts, terms, node);
    ConstantValueOf(sorts.sorts, ts, node, terms.terms, r);
  }

  lemma TruthFits(sorts: Sorts, terms: Terms, node: TermData)
    requires Buildable(sorts, terms) && node.sort == 0 && forall k :: 0 <= k < |node.args| ==> node.args[k] < |terms|
    requires
      || (OnTruths(node.op) && (node.op.Not? ==> |node.args| == 1) && (node.op.Xor? || node.op.Implies? ==> |node.args| == 2)
          && forall k :: 0 <= k < |node.args| ==> SortOf(sorts, terms, node.args[k]) == Sort.Bool)
      || (node.op.Eq? && |node.args| == 2 && SortOf(sorts, terms, node.args[0]) == SortOf(sorts, terms, node.args[1]))
    ensures Fitting(sorts, terms, node) && SignatureFits(sorts, terms, node)
  {
    hide TermSorted, Signatures, HashConsed;
    var ss := ArgSorts(sorts, terms, node.args);
    assert forall k :: 0 <= k < |ss| ==> ss[k] == SortOf(sorts, terms, node.args[k]);
  }

  /** The negation of a truth value, folded for constants. */
  method MakeNot(sorts: SortArena, terms: TermArena, a: nat) returns (r: nat)
    requires Open(sorts, terms) && a < |terms.terms| && SortOf(sorts.sorts, terms.terms, a) == Sort.Bool
    modifies terms
    ensures Open(sorts, terms) && Grows(sorts.sorts, old(terms.terms), sorts.sorts, terms.terms)
    ensures Stands(sorts.sorts, old(terms.terms), TermData(Op.Not, [a], 0), sorts.sorts, terms.terms, r)
    ensures Settled(old(terms.terms), a) ==> Settled(terms.terms, r)
  {
    hide SortArena.Valid, TermArena.Valid, TermSorted, Signatures, HashConsed, Stands, Fitting, SignatureFits, Settled;
    BaseSettled(sorts.sorts, terms.terms);
    var node := TermData(Op.Not, [a], terms.terms[a].sort);
    BoolIsFirst(sorts.sorts, terms.terms, a);
    TruthFits(sorts.sorts, terms.terms, node);
    if a == 0 {
      NotConstant(sorts.sorts, terms.terms, 0);
      return 1;
    }
    if a == 1 {
      NotConstant(sorts.sorts, terms.terms, 1);
      return 0;
    }
    r := InternNode(sorts, terms, node);
  }

  lemma BoolIsFirst(sorts: Sorts, terms: Terms, a: nat)
    requires Buildable(sorts, terms) && a < |terms| && SortOf(sorts, terms, a) == Sort.Bool
    ensures terms[a].sort == 0
  {
    hide TermSorted, Signatures, HashConsed;
  }

  lemma NotConstant(sorts: Sorts, terms: Terms, a: nat)
    requires Buildable(sorts, terms) && a < 2
    ensures Stands(sorts, terms, TermData(Op.Not, [a], 0), sorts, terms, 1 - a)
  {
    hide ArenaOk, Fitting, SignatureFits, Signatures, HashConsed, Eval, IsTrue, NodeValue;
    var node := TermData(Op.Not, [a], 0);
    assert |terms| >= 2;
    assert ArenaOk(sorts, terms);
    LinkedOk(sorts, terms);
    assert SortOf(sorts, terms, a) == Sort.Bool && SortOf(sorts, terms, 1 - a) == Sort.Bool;
    TruthFits(sorts, terms, node);
    forall i: Interp | Fits(i) ensures Eval(sorts, terms, 1 - a, i) == NodeValue(sorts, terms, node, i) {
      BaseValues(sorts, terms, i);
      NodeTruths(sorts, terms, node, i);
    }
    PureKnown(sorts, terms, node, 1 - a);
    ExistingStands(sorts, terms, node, 1 - a);
  }

  /** Equality, true for a term and itself. */
  method MakeEq(sorts: SortArena, terms: TermArena, a: nat, b: nat) returns (r: nat)
    requires Open(sorts, terms) && a < |terms.terms| && b < |terms.terms|
    requires SortOf(sorts.sorts, terms.terms, a) == SortOf(sorts.sorts, terms.terms, b)
    modifies terms
    ensures Open(sorts, terms) && Grows(sorts.sorts, old(terms.terms), sorts.sorts, terms.terms)
    ensures Stands(sorts.sorts, old(terms.terms), TermData(Op.Eq, [a, b], 0), sorts.sorts, terms.terms, r)
    ensures Settled(old(terms.terms), a) && Settled(old(terms.terms), b) ==> Settled(terms.terms, r)
  {
    hide SortArena.Valid, TermArena.Valid, TermSorted, Signatures, HashConsed, Stands, Fitting, SignatureFits, Settled;
    BaseSettled(sorts.sorts, terms.terms);
    var node := TermData(Op.Eq, [a, b], 0);
    TruthFits(sorts.sorts, terms.terms, node);
    if a == b {
      EqItself(sorts.sorts, terms.terms, node);
      return 0;
    }
    r := InternNode(sorts, terms, node);
  }

  lemma EqItself(sorts: Sorts, terms: Terms, node: TermData)
    requires Buildable(sorts, terms) && Fitting(sorts, terms, node) && node.op.Eq? && |node.args| == 2 && node.args[0] == node.args[1]
    ensures Stands(sorts, terms, node, sorts, terms, 0)
  {
    hide ArenaOk, Fitting, SignatureFits, Signatures, HashConsed, Eval, IsTrue, NodeValue, Based;
    BuildableFacts(sorts, terms);
    EqSort(sorts, terms, node);
    forall i: Interp | Fits(i) ensures Eval(sorts, terms, 0, i) == NodeValue(sorts, terms, node, i) {
      BaseValues(sorts, terms, i);
      NodePolymorphic(sorts, terms, node, i);
    }
    PureKnown(sorts, terms, node, 0);
    ExistingStands(sorts, terms, node, 0);
  }

  lemma EqSort(sorts: Sorts, terms: Terms, node: TermData)
    requires Buildable(sorts, terms) && Fitting(sorts, terms, node)
    requires OnTruths(node.op) || node.op.Eq? || node.op.Distinct? || ComparesWords(node.op) || ComparesNumbers(node.op)
    ensures sorts[node.sort] == Sort.Bool && node.sort == 0 && Linked(sorts, terms) && |terms| >= 2
    ensures SortOf(sorts, terms, 0) == Sort.Bool && SortOf(sorts, terms, 1) == Sort.Bool
  {
    hide TermSorted, Signatures, HashConsed;
  }

  /** The arguments other than `x`. */
  function Without(args: seq<nat>, x: nat): (r: seq<nat>)
    ensures forall a :: a in r <==> a in args && a != x
    ensures |r| <= |args|
  {
    if args == [] then []
    else
      var rest := Without(args[..|args| - 1], x);
      var last := args[|args| - 1];
      assert args == args[..|args| - 1] + [last];
      if last == x then rest else rest + [last]
  }

  lemma MembersAre(sorts: Sorts, terms: Terms, args: seq<nat>, i: Interp)
    requires ArenaOk(sorts, terms) && Fits(i) && forall k :: 0 <= k < |args| ==> args[k] < |terms|
    ensures forall a :: a in args ==> a < |terms|
    ensures (forall k :: 0 <= k < |args| ==> IsTrue(sorts, terms, args[k], i)) <==> (forall a :: a in args ==> IsTrue(sorts, terms, a, i))
    ensures (exists k :: 0 <= k < |args| && IsTrue(sorts, terms, args[k], i)) <==> (exists a :: a in args && IsTrue(sorts, terms, a, i))
  {
    hide ArenaOk, IsTrue;
    forall a | a in args ensures exists k :: 0 <= k < |args| && args[k] == a {
      var k :| 0 <= k < |args| && args[k] == a;
    }
    if exists k :: 0 <= k < |args| && IsTrue(sorts, terms, args[k], i) {
      var k :| 0 <= k < |args| && IsTrue(sorts, terms, args[k], i);
      assert args[k] in args;
    }
    forall k | 0 <= k < |args| ensures args[k] in args {}
  }

  /** A conjunction or a disjunction with other arguments of the same weight. */
  lemma SameJunction(sorts: Sorts, terms: Terms, node: TermData, args: seq<nat>, i: Interp)
    requires Buildable(sorts, terms) && Fitting(sorts, terms, node) && (node.op.And? || node.op.Or?)
    requires args == Without(node.args, if node.op.And? then 0 else 1) && Fits(i)
    ensures node.sort == 0 && Fitting(sorts, terms, TermData(node.op, args, 0)) && SignatureFits(sorts, terms, TermData(node.op, args, 0))
    ensures NodeTrue(sorts, terms, TermData(node.op, args, 0), i) <==> NodeTrue(sorts, terms, node, i)
  {
    hide ArenaOk, Eval, IsTrue, Signatures, HashConsed, NodeValue, NodeTrue, Based, Fitting, SignatureFits;
    BuildableFacts(sorts, terms);
    EqSort(sorts, terms, node);
    FittingArgs(sorts, terms, node);
    NodeTruths(sorts, terms, node, i);
    forall k | 0 <= k < |args| ensures args[k] < |terms| && SortOf(sorts, terms, args[k]) == Sort.Bool {
      assert args[k] in args;
      assert args[k] in node.args;
    }
    var other := TermData(node.op, args, 0);
    TruthFits(sorts, terms, other);
    NodeTruths(sorts, terms, other, i);
    MembersAre(sorts, terms, args, i);
    MembersAre(sorts, terms, node.args, i);
    BaseValues(sorts, terms, i);
  }

  lemma FittingArgs(sorts: Sorts, terms: Terms, node: TermData)
    requires Fitting(sorts, terms, node)
    ensures ArenaOk(sorts, terms) && Linked(sorts, terms) && node.sort < |sorts| && GoodSort(sorts[node.sort])
    ensures forall k :: 0 <= k < |node.args| ==> node.args[k] < |terms|
  {
    hide NodeSorted, GoodSort, TermSorted;
  }

  /** What decides the connective alone, and what it can do without. */
  function Absorbing(op: Op): nat { if op.And? then 1 else 0 }

  function Neutral(op: Op): nat { if op.And? then 0 else 1 }

  lemma JunctionAbsorbed(sorts: Sorts, terms: Terms, node: TermData)
    requires Buildable(sorts, terms) && Fitting(sorts, terms, node) && (node.op.And? || node.op.Or?)
    requires Absorbing(node.op) in node.args
    ensures Stands(sorts, terms, node, sorts, terms, Absorbing(node.op))
  {
    hide ArenaOk, Eval, IsTrue, Signatures, HashConsed, NodeValue, Based, Fitting;
    BuildableFacts(sorts, terms);
    EqSort(sorts, terms, node);
    FittingArgs(sorts, terms, node);
    var z := Absorbing(node.op);
    forall i: Interp | Fits(i) ensures Eval(sorts, terms, z, i) == NodeValue(sorts, terms, node, i) {
      NodeTruths(sorts, terms, node, i);
      MembersAre(sorts, terms, node.args, i);
      BaseValues(sorts, terms, i);
    }
    PureKnown(sorts, terms, node, z);
    ExistingStands(sorts, terms, node, z);
  }

  lemma StandsSame(sorts: Sorts, terms: Terms, node: TermData, other: TermData, sorts': Sorts, terms': Terms, r: nat)
    requires Stands(sorts, terms, other, sorts', terms', r) && Fitting(sorts, terms, node) && sorts[node.sort] == sorts[other.sort]
    requires forall i: Interp :: Fits(i) ==> NodeValue(sorts, terms, node, i) == NodeValue(sorts, terms, other, i)
    requires ArenaOk(sorts, terms) && (PureNode(sorts, terms, node) ==> PureNode(sorts, terms, other))
    ensures Stands(sorts, terms, node, sorts', terms', r)
  {
    hide ArenaOk, Eval, Fitting, NodeValue, PureNode, Pure;
  }

  lemma JunctionShort(sorts: Sorts, terms: Terms, node: TermData, rest: seq<nat>)
    requires Buildable(sorts, terms) && Fitting(sorts, terms, node) && (node.op.And? || node.op.Or?)
    requires rest == Without(node.args, Neutral(node.op)) && |rest| <= 1
    ensures Stands(sorts, terms, node, sorts, terms, if rest == [] then Neutral(node.op) else rest[0])
  {
    hide ArenaOk, Eval, IsTrue, Signatures, HashConsed, NodeValue, Based, Fitting, SignatureFits;
    BuildableFacts(sorts, terms);
    EqSort(sorts, terms, node);
    FittingArgs(sorts, terms, node);
    var r := if rest == [] then Neutral(node.op) else rest[0];
    var other := TermData(node.op, rest, 0);
    SomeInterp();
    var i0: Interp :| Fits(i0);
    SameJunction(sorts, terms, node, rest, i0);
    FittingArgs(sorts, terms, other);
    NodeTruths(sorts, terms, other, i0);
    forall i: Interp | Fits(i) ensures Eval(sorts, terms, r, i) == NodeValue(sorts, terms, node, i) {
      SameJunction(sorts, terms, node, rest, i);
      NodeTruths(sorts, terms, node, i);
      NodeTruths(sorts, terms, other, i);
      BaseValues(sorts, terms, i);
      if rest != [] { TruthValue(sorts, terms, rest[0], i); }
    }
    PureKnown(sorts, terms, node, r);
    ExistingStands(sorts, terms, node, r);
  }

  /** There are interpretations. */
  lemma SomeInterp()
    ensures exists i: Interp :: Fits(i)
  {
    var i := Interp((n: seq<byte>, s: Sort) => DefaultValue(s), (op: Op, s: Sort, vs: seq<Value>) => DefaultValue(s));
    assert Fits(i);
  }

  lemma JunctionLong(sorts: Sorts, terms: Terms, node: TermData, rest: seq<nat>)
    requires Buildable(sorts, terms) && Fitting(sorts, terms, node) && (node.op.And? || node.op.Or?)
    requires rest == Without(node.args, Neutral(node.op))
    ensures node.sort == 0 && Fitting(sorts, terms, TermData(node.op, rest, 0)) && SignatureFits(sorts, terms, TermData(node.op, rest, 0))
    ensures forall i: Interp :: Fits(i) ==> NodeValue(sorts, terms, node, i) == NodeValue(sorts, terms, TermData(node.op, rest, 0), i)
    ensures ArenaOk(sorts, terms) && (PureNode(sorts, terms, node) ==> PureNode(sorts, terms, TermData(node.op, rest, 0)))
  {
    hide ArenaOk, Eval, IsTrue, Signatures, HashConsed, NodeValue, Based, Fitting, SignatureFits, PureNode;
    var other := TermData(node.op, rest, 0);
    BuildableFacts(sorts, terms);
    FewerPure(sorts, terms, node, rest);
    SomeInterp();
    var i0: Interp :| Fits(i0);
    SameJunction(sorts, terms, node, rest, i0);
    forall i: Interp | Fits(i) ensures NodeValue(sorts, terms, node, i) == NodeValue(sorts, terms, other, i) {
      SameJunction(sorts, terms, node, rest, i);
      NodeTruths(sorts, terms, node, i);
      NodeTruths(sorts, terms, other, i);
    }
  }

  lemma FewerPure(sorts: Sorts, terms: Terms, node: TermData, rest: seq<nat>)
    requires ArenaOk(sorts, terms) && OnTruths(node.op) && forall a :: a in rest ==> a in node.args
    ensures PureNode(sorts, terms, node) ==> PureNode(sorts, terms, TermData(node.op, rest, 0))
  {
    hide ArenaOk, Pure, Comparable;
    forall k | 0 <= k < |rest| ensures PureNode(sorts, terms, node) ==> rest[k] < |terms| && Pure(sorts, terms, rest[k]) {
      assert rest[k] in node.args;
    }
  }

  lemma RestFree(terms: Terms, args: seq<nat>, x: nat)
    ensures AllSettled(terms, args) ==> AllSettled(terms, Without(args, x))
  {
    hide Settled;
    var rest := Without(args, x);
    forall k | 0 <= k < |rest| && AllSettled(terms, args) ensures Settled(terms, rest[k]) { assert rest[k] in rest; }
  }

  /** A conjunction or disjunction of what is left after dropping the neutral arguments. */
  method Junction(sorts: SortArena, terms: TermArena, node: TermData, rest: seq<nat>) returns (r: nat)
    requires Open(sorts, terms) && Fitting(sorts.sorts, terms.terms, node) && (node.op.And? || node.op.Or?)
    requires rest == Without(node.args, Neutral(node.op))
    modifies terms
    ensures Open(sorts, terms) && Grows(sorts.sorts, old(terms.terms), sorts.sorts, terms.terms)
    ensures Stands(sorts.sorts, old(terms.terms), node, sorts.sorts, terms.terms, r)
    ensures rest == [] ==> r == Neutral(node.op)
    ensures AllSettled(old(terms.terms), node.args) ==> Settled(terms.terms, r)
  {
    hide SortArena.Valid, TermArena.Valid, Buildable, Stands, Fitting, SignatureFits, Settled;
    BuildableFacts(sorts.sorts, terms.terms);
    BaseSettled(sorts.sorts, terms.terms);
    RestFree(terms.terms, node.args, Neutral(node.op));
    if |rest| <= 1 {
      JunctionShort(sorts.sorts, terms.terms, node, rest);
      return if rest == [] then Neutral(node.op) else rest[0];
    }
    JunctionLong(sorts.sorts, terms.terms, node, rest);
    ghost var ts := terms.terms;
    r := InternNode(sorts, terms, TermData(node.op, rest, 0));
    StandsSame(sorts.sorts, ts, node, TermData(node.op, rest, 0), sorts.sorts, terms.terms, r);
  }

  /** A conjunction: false as soon as an argument is, without the arguments that are true. */
  method MakeAnd(sorts: SortArena, terms: TermArena, args: seq<nat>) returns (r: nat)
    requires Open(sorts, terms) && Fitting(sorts.sorts, terms.terms, TermData(Op.And, args, 0))
    modifies terms
    ensures Open(sorts, terms) && Grows(sorts.sorts, old(terms.terms), sorts.sorts, terms.terms)
    ensures Stands(sorts.sorts, old(terms.terms), TermData(Op.And, args, 0), sorts.sorts, terms.terms, r)
    ensures AllSettled(old(terms.terms), args) ==> Settled(terms.terms, r)
  {
    hide SortArena.Valid, TermArena.Valid, Buildable, Stands, Fitting, SignatureFits, Settled, AllSettled;
    BuildableFacts(sorts.sorts, terms.terms);
    BaseSettled(sorts.sorts, terms.terms);
    ghost var node := TermData(Op.And, args, 0);
    var flat: seq<nat> := [];
    for k := 0 to |args|
      invariant flat == Without(args[..k], 0) && 1 !in args[..k]
    {
      assert args[..k + 1][..k] == args[..k];
      if args[k] == 1 {
        JunctionAbsorbed(sorts.sorts, terms.terms, node);
        return 1;
      }
      if args[k] != 0 { flat := flat + [args[k]]; }
    }
    assert args[..|args|] == args;
    r := Junction(sorts, terms, TermData(Op.And, args, 0), flat);
  }

  // ---------- constants among the terms ----------

  lemma BvConstValue(sorts: Sorts, terms: Terms, id: nat, i: Interp)
    requires ArenaOk(sorts, terms) && id < |terms| && Fits(i) && terms[id].op.BvConst?
    ensures terms[id].op.value < BV.Pow2(terms[id].op.width) && 0 < terms[id].op.width <= MAX_BV_WIDTH
    ensures SortOf(sorts, terms, id) == BitVec(terms[id].op.width)
    ensures Eval(sorts, terms, id, i) == Word(BV.ToBits(terms[id].op.value, terms[id].op.width))
  {
    EvalConstant(sorts, terms, id, i);
    NodeOk(sorts, terms, id);
  }

  lemma IntConstValue(sorts: Sorts, terms: Terms, id: nat, i: Interp)
    requires ArenaOk(sorts, terms) && id < |terms| && Fits(i) && terms[id].op.IntConst?
    ensures SortOf(sorts, terms, id) == Sort.Int && Eval(sorts, terms, id, i) == Number(terms[id].op.int_)
  {
    EvalConstant(sorts, terms, id, i);
  }

  lemma PositiveConstant(sorts: Sorts, terms: Terms, id: nat)
    requires ArenaOk(sorts, terms) && id < |terms| && terms[id].op.BvConst?
    ensures 0 < terms[id].op.width <= MAX_BV_WIDTH && SortOf(sorts, terms, id) == BitVec(terms[id].op.width)
  {
    hide ArenaOk;
    SomeInterp();
    var i: Interp :| Fits(i);
    BvConstValue(sorts, terms, id, i);
  }

  // ---------- truth-valued nodes ----------

  ghost predicate TruthNode(op: Op) {
    OnTruths(op) || op.Eq? || op.Distinct? || ComparesWords(op) || ComparesNumbers(op)
  }

  lemma TruthNodeValue(sorts: Sorts, terms: Terms, node: TermData, i: Interp)
    requires Fitting(sorts, terms, node) && Fits(i) && TruthNode(node.op)
    ensures NodeValue(sorts, terms, node, i) == Truth(NodeTrue(sorts, terms, node, i))
  {
    hide ArenaOk, Eval, NodeSorted, NodeValue, Fitting;
    if OnTruths(node.op) {
      NodeTruths(sorts, terms, node, i);
    } else if node.op.Eq? || node.op.Distinct? {
      NodePolymorphic(sorts, terms, node, i);
    } else if ComparesWords(node.op) {
      NodeComparesWords(sorts, terms, node, i);
    } else {
      NodeComparesNumbers(sorts, terms, node, i);
    }
  }

  /** A node that is always true, or always false. */
  lemma KnownStands(sorts: Sorts, terms: Terms, node: TermData, b: bool)
    requires Buildable(sorts, terms) && Fitting(sorts, terms, node) && TruthNode(node.op)
    requires forall i: Interp :: Fits(i) ==> (NodeTrue(sorts, terms, node, i) <==> b)
    ensures Stands(sorts, terms, node, sorts, terms, if b then 0 else 1)
  {
    hide ArenaOk, Eval, IsTrue, Signatures, HashConsed, NodeValue, NodeTrue, Based, Fitting;
    BuildableFacts(sorts, terms);
    EqSort(sorts, terms, node);
    var r := if b then 0 else 1;
    forall i: Interp | Fits(i) ensures Eval(sorts, terms, r, i) == NodeValue(sorts, terms, node, i) {
      TruthNodeValue(sorts, terms, node, i);
      BaseValues(sorts, terms, i);
    }
    PureKnown(sorts, terms, node, r);
    ExistingStands(sorts, terms, node, r);
  }

  /** A node that is true exactly when a term is. */
  lemma AliasStands(sorts: Sorts, terms: Terms, node: TermData, a: nat)
    requires Buildable(sorts, terms) && Fitting(sorts, terms, node) && TruthNode(node.op)
    requires a < |terms| && SortOf(sorts, terms, a) == Sort.Bool
    requires forall i: Interp :: Fits(i) ==> (NodeTrue(sorts, terms, node, i) <==> IsTrue(sorts, terms, a, i))
    requires PureFrom(sorts, terms, node, sorts, terms, a)
    ensures Stands(sorts, terms, node, sorts, terms, a)
  {
    hide PureFrom, ArenaOk, Eval, IsTrue, Signatures, HashConsed, NodeValue, NodeTrue, Based, Fitting;
    EqSort(sorts, terms, node);
    forall i: Interp | Fits(i) ensures Eval(sorts, terms, a, i) == NodeValue(sorts, terms, node, i) {
      TruthNodeValue(sorts, terms, node, i);
      TruthValue(sorts, terms, a, i);
    }
    ExistingStands(sorts, terms, node, a);
  }

  // ---------- the shapes of nodes ----------

  /** The shape of a Boolean node. */
  lemma TruthArgs(sorts: Sorts, terms: Terms, node: TermData)
    requires Fitting(sorts, terms, node) && OnTruths(node.op)
    ensures (node.op.Not? ==> |node.args| == 1) && (node.op.Xor? || node.op.Implies? ==> |node.args| == 2)
    ensures ArenaOk(sorts, terms) && forall k :: 0 <= k < |node.args| ==> node.args[k] < |terms| && SortOf(sorts, terms, node.args[k]) == Sort.Bool
  {
    hide Eval, NodeSorted, NodeValue, IsTrue;
    SomeInterp();
    var i: Interp :| Fits(i);
    NodeTruths(sorts, terms, node, i);
  }

  lemma IteArgs(sorts: Sorts, terms: Terms, node: TermData)
    requires Fitting(sorts, terms, node) && node.op.Ite?
    ensures |node.args| == 3 && ArenaOk(sorts, terms) && forall k :: 0 <= k < 3 ==> node.args[k] < |terms|
    ensures SortOf(sorts, terms, node.args[1]) == sorts[node.sort] && SortOf(sorts, terms, node.args[2]) == sorts[node.sort]
  {
    hide Eval, NodeSorted, NodeValue, IsTrue;
    SomeInterp();
    var i: Interp :| Fits(i);
    NodePolymorphic(sorts, terms, node, i);
  }

  lemma EqArgs(sorts: Sorts, terms: Terms, node: TermData)
    requires Fitting(sorts, terms, node) && node.op.Eq?
    ensures |node.args| == 2 && ArenaOk(sorts, terms) && node.args[0] < |terms| && node.args[1] < |terms|
    ensures SortOf(sorts, terms, node.args[0]) == SortOf(sorts, terms, node.args[1])
  {
    hide Eval, NodeSorted, NodeValue, IsTrue;
    SomeInterp();
    var i: Interp :| Fits(i);
    NodePolymorphic(sorts, terms, node, i);
  }

  lemma WordsArgs(sorts: Sorts, terms: Terms, node: TermData)
    requires Fitting(sorts, terms, node) && OnWords(node.op)
    ensures |node.args| == 2 && ArenaOk(sorts, terms) && node.args[0] < |terms| && node.args[1] < |terms|
    ensures sorts[node.sort].BitVec? && 0 < sorts[node.sort].width <= MAX_BV_WIDTH
    ensures SortOf(sorts, terms, node.args[0]) == sorts[node.sort] && SortOf(sorts, terms, node.args[1]) == sorts[node.sort]
  {
    hide Eval, NodeSorted, NodeValue, IsTrue;
    SomeInterp();
    var i: Interp :| Fits(i);
    NodeWords(sorts, terms, node, i);
  }

  lemma WordArgs(sorts: Sorts, terms: Terms, node: TermData)
    requires Fitting(sorts, terms, node) && OnWord(node.op)
    ensures |node.args| == 1 && ArenaOk(sorts, terms) && node.args[0] < |terms|
    ensures sorts[node.sort].BitVec? && 0 < sorts[node.sort].width <= MAX_BV_WIDTH && SortOf(sorts, terms, node.args[0]).BitVec?
    ensures sorts[node.sort].width == WidthOf(node.op, SortOf(sorts, terms, node.args[0]).width)
    ensures node.op.BvExtract? ==> node.op.low <= node.op.high < SortOf(sorts, terms, node.args[0]).width
  {
    hide Eval, NodeSorted, NodeValue, IsTrue;
    SomeInterp();
    var i: Interp :| Fits(i);
    NodeWord(sorts, terms, node, i);
  }

  lemma ConcatArgs(sorts: Sorts, terms: Terms, node: TermData)
    requires Fitting(sorts, terms, node) && node.op.BvConcat?
    ensures |node.args| == 2 && ArenaOk(sorts, terms) && node.args[0] < |terms| && node.args[1] < |terms|
    ensures SortOf(sorts, terms, node.args[0]).BitVec? && SortOf(sorts, terms, node.args[1]).BitVec? && sorts[node.sort].BitVec?
    ensures sorts[node.sort].width == SortOf(sorts, terms, node.args[0]).width + SortOf(sorts, terms, node.args[1]).width
    ensures 0 < sorts[node.sort].width <= MAX_BV_WIDTH
  {
    hide Eval, NodeSorted, NodeValue, IsTrue;
    SomeInterp();
    var i: Interp :| Fits(i);
    NodeConcat(sorts, terms, node, i);
  }

  lemma CompareArgs(sorts: Sorts, terms: Terms, node: TermData)
    requires Fitting(sorts, terms, node) && (ComparesWords(node.op) || ComparesNumbers(node.op))
    ensures |node.args| == 2 && ArenaOk(sorts, terms) && node.args[0] < |terms| && node.args[1] < |terms|
    ensures SortOf(sorts, terms, node.args[0]) == SortOf(sorts, terms, node.args[1])
  {
    hide Eval, NodeSorted, NodeValue, IsTrue;
    SomeInterp();
    var i: Interp :| Fits(i);
    if ComparesWords(node.op) {
      NodeComparesWords(sorts, terms, node, i);
    } else {
      NodeComparesNumbers(sorts, terms, node, i);
    }
  }

  lemma NumberArgs(sorts: Sorts, terms: Terms, node: TermData)
    requires Fitting(sorts, terms, node) && OnNumbers(node.op)
    ensures |node.args| > 0 && ArenaOk(sorts, terms) && sorts[node.sort] == Sort.Int
    ensures forall k :: 0 <= k < |node.args| ==> node.args[k] < |terms| && SortOf(sorts, terms, node.args[k]) == Sort.Int
  {
    hide Eval, NodeSorted, NodeValue, IsTrue;
    SomeInterp();
    var i: Interp :| Fits(i);
    NodeNumbers(sorts, terms, node, i);
  }

  // ---------- constants that stand for nodes ----------

  lemma ConstantPure(sorts: Sorts, terms: Terms, r: nat)
    requires ArenaOk(sorts, terms) && r < |terms| && terms[r].op.BvConst?
    ensures Pure(sorts, terms, r)
  {
    hide ArenaOk, Eval;
    SomeInterp();
    var i: Interp :| Fits(i);
    EvalConstant(sorts, terms, r, i);
  }

  /** A constant that has the node's value. */
  lemma ConstantStands(sorts: Sorts, terms: Terms, node: TermData, sorts': Sorts, terms': Terms, r: nat, v: nat, w: nat)
    requires Fitting(sorts, terms, node) && ArenaOk(sorts', terms') && r < |terms'|
    requires sorts[node.sort] == BitVec(w) && SortOf(sorts', terms', r) == BitVec(w)
    requires forall i: Interp :: Fits(i) ==> Eval(sorts', terms', r, i) == Word(BV.LowBits(v, w))
    requires forall i: Interp :: Fits(i) ==> NodeValue(sorts, terms, node, i) == Word(BV.LowBits(v, w))
    requires terms'[r].op.BvConst?
    ensures Stands(sorts, terms, node, sorts', terms', r)
  {
    hide ArenaOk, Eval, NodeValue, NodeSorted, PureNode, Pure;
    ConstantPure(sorts', terms', r);
  }

  lemma NumberStands(sorts: Sorts, terms: Terms, node: TermData, sorts': Sorts, terms': Terms, r: nat, v: int)
    requires Fitting(sorts, terms, node) && ArenaOk(sorts', terms') && r < |terms'|
    requires sorts[node.sort] == Sort.Int && SortOf(sorts', terms', r) == Sort.Int
    requires forall i: Interp :: Fits(i) ==> Eval(sorts', terms', r, i) == Number(v)
    requires forall i: Interp :: Fits(i) ==> NodeValue(sorts, terms, node, i) == Number(v)
    requires OnNumbers(node.op)
    ensures Stands(sorts, terms, node, sorts', terms', r)
  {
    hide ArenaOk, Eval, NodeValue, NodeSorted, AllPure;
  }

  // ---------- replacing arguments ----------

  lemma OriginalSorts(sorts: Sorts, terms: Terms, id: nat, sorts': Sorts, terms': Terms)
    requires ArenaOk(sorts, terms) && ArenaOk(sorts', terms') && Grows(sorts, terms, sorts', terms') && id < |terms|
    ensures terms'[id] == terms[id] && forall k :: 0 <= k < |terms[id].args| ==> terms[id].args[k] < |terms|
    ensures ArgSorts(sorts', terms', terms[id].args) == ArgSorts(sorts, terms, terms[id].args)
  {
    hide TermSorted;
    forall k | 0 <= k < |terms[id].args| ensures SortOf(sorts', terms', terms[id].args[k]) == SortOf(sorts, terms, terms[id].args[k]) {
      SortStable(sorts, terms, sorts', terms', terms[id].args[k]);
    }
  }

  lemma ReplacedPure(sorts: Sorts, terms: Terms, id: nat, sorts': Sorts, terms': Terms, replaced: seq<nat>)
    requires ArenaOk(sorts, terms) && ArenaOk(sorts', terms') && id < |terms|
    requires |replaced| == |terms[id].args| && forall k :: 0 <= k < |replaced| ==> Keeps(sorts, terms, terms[id].args[k], sorts', terms', replaced[k])
    ensures Pure(sorts, terms, id) ==> PureNode(sorts', terms', TermData(terms[id].op, replaced, terms[id].sort))
  {
    hide ArenaOk, Eval;
    LinkedOk(sorts, terms);
    LinkedOk(sorts', terms');
    if Pure(sorts, terms, id) {
      PureArgs(sorts, terms, id);
      forall k | 0 <= k < |replaced|
        ensures Pure(sorts', terms', replaced[k]) && SortOf(sorts', terms', replaced[k]) == SortOf(sorts, terms, terms[id].args[k])
      {
        assert Keeps(sorts, terms, terms[id].args[k], sorts', terms', replaced[k]);
      }
    }
  }

  /** A node of replaced arguments means what the term with the original arguments means. */
  lemma ReplacedNode(sorts: Sorts, terms: Terms, id: nat, sorts': Sorts, terms': Terms, replaced: seq<nat>)
    requires ArenaOk(sorts, terms) && Buildable(sorts', terms') && Grows(sorts, terms, sorts', terms') && id < |terms|
    requires |replaced| == |terms[id].args| && forall k :: 0 <= k < |replaced| ==> Keeps(sorts, terms, terms[id].args[k], sorts', terms', replaced[k])
    ensures
      var node := TermData(terms[id].op, replaced, terms[id].sort);
      && Fitting(sorts', terms', node) && SignatureFits(sorts', terms', node) && sorts'[node.sort] == SortOf(sorts, terms, id)
      && ArenaOk(sorts', terms') && (Pure(sorts, terms, id) ==> PureNode(sorts', terms', node))
      && forall i: Interp :: Fits(i) ==> NodeValue(sorts', terms', node, i) == Eval(sorts, terms, id, i)
  {
    hide ArenaOk, Meaning, NodeSorted, GoodSort, HashConsed, Interpreted, Eval, Based, Pure, PureNode;
    ReplacedPure(sorts, terms, id, sorts', terms', replaced);
    var node := TermData(terms[id].op, replaced, terms[id].sort);
    LinkedOk(sorts, terms);
    LinkedOk(sorts', terms');
    NodeOk(sorts, terms, id);
    assert terms'[id] == terms[id];
    var args := terms[id].args;
    assert ArgSorts(sorts', terms', replaced) == ArgSorts(sorts, terms, args);
    OriginalSorts(sorts, terms, id, sorts', terms');
    forall i: Interp | Fits(i) ensures NodeValue(sorts', terms', node, i) == Eval(sorts, terms, id, i) {
      NodeMeaning(sorts', terms', node, i);
      EvalIs(sorts, terms, id, i);
      assert EvalAll(sorts', terms', replaced, i) == EvalAll(sorts, terms, args, i);
    }
  }

  lemma KeepsFromNode(sorts: Sorts, terms: Terms, id: nat, sorts1: Sorts, terms1: Terms, node: TermData, sorts2: Sorts, terms2: Terms, r: nat)
    requires ArenaOk(sorts, terms) && id < |terms| && Stands(sorts1, terms1, node, sorts2, terms2, r)
    requires sorts1[node.sort] == SortOf(sorts, terms, id)
    requires forall i: Interp :: Fits(i) ==> NodeValue(sorts1, terms1, node, i) == Eval(sorts, terms, id, i)
    requires ArenaOk(sorts1, terms1) && (Pure(sorts, terms, id) ==> PureNode(sorts1, terms1, node))
    ensures Keeps(sorts, terms, id, sorts2, terms2, r)
  {
    hide ArenaOk, Eval, Fitting, NodeValue, Pure, PureNode;
  }

  lemma LaterKeeps(sorts: Sorts, terms: Terms, id: nat, sorts1: Sorts, terms1: Terms, sorts2: Sorts, terms2: Terms, r: nat)
    requires ArenaOk(sorts, terms) && id < |terms| && Grows(sorts, terms, sorts1, terms1)
    requires Keeps(sorts1, terms1, id, sorts2, terms2, r)
    ensures Keeps(sorts, terms, id, sorts2, terms2, r)
  {
    hide ArenaOk, Eval, SortOf, Pure;
    SortStable(sorts, terms, sorts1, terms1, id);
    PureStable(sorts, terms, sorts1, terms1, id);
    forall i: Interp | Fits(i) ensures Eval(sorts, terms, id, i) == Eval(sorts1, terms1, id, i) {
      EvalStable(sorts, terms, sorts1, terms1, id, i);
    }
  }

  // ---------- how long a visit takes ----------

  /** Operators that neither the folder nor the rewriter has a rule for. */
  predicate NoRule(op: Op) {
    && !OnTruths(op) && !Polymorphic(op) && !OnWords(op) && !op.BvNot? && !op.BvExtract? && !op.BvConcat?
    && !op.BvUlt? && !op.BvUle? && !op.BvUgt? && !op.BvUge? && !OnNumbers(op) && !ComparesNumbers(op)
  }

  /** Such an operator, or the negation of a term that is neither constant nor a negation. */
  ghost predicate InertNode(terms: Terms, node: TermData) {
    NoRule(node.op) || (node.op.Not? && |node.args| == 1 && 1 < node.args[0] < |terms| && !terms[node.args[0]].op.Not?)
  }

  /** No rule applies anywhere in the term. */
  ghost predicate Inert(terms: Terms, id: nat)
    decreases id
  {
    && id < |terms| && InertNode(terms, terms[id])
    && forall k :: 0 <= k < |terms[id].args| ==> terms[id].args[k] < id && Inert(terms, terms[id].args[k])
  }

  /** How many nodes the term has when written out as a tree. */
  ghost function TreeSize(sorts: Sorts, terms: Terms, id: nat): (n: nat)
    requires Linked(sorts, terms) && id < |terms|
    ensures n > 0
    decreases id, |terms[id].args| + 1
  {
    1 + ArgsSize(sorts, terms, id, |terms[id].args|)
  }

  /** The nodes of the first `k` arguments. */
  ghost function ArgsSize(sorts: Sorts, terms: Terms, id: nat, k: nat): nat
    requires Linked(sorts, terms) && id < |terms| && k <= |terms[id].args|
    decreases id, k
  {
    if k == 0 then 0 else ArgsSize(sorts, terms, id, k - 1) + TreeSize(sorts, terms, terms[id].args[k - 1])
  }

  lemma {:induction false} TreeSizeStable(sorts: Sorts, terms: Terms, sorts': Sorts, terms': Terms, id: nat)
    requires Linked(sorts, terms) && Linked(sorts', terms') && terms <= terms' && id < |terms|
    ensures TreeSize(sorts, terms, id) == TreeSize(sorts', terms', id)
    decreases id, |terms[id].args| + 1
  {
    assert terms'[id] == terms[id];
    ArgsSizeStable(sorts, terms, sorts', terms', id, |terms[id].args|);
  }

  lemma {:induction false} ArgsSizeStable(sorts: Sorts, terms: Terms, sorts': Sorts, terms': Terms, id: nat, k: nat)
    requires Linked(sorts, terms) && Linked(sorts', terms') && terms <= terms' && id < |terms| && k <= |terms[id].args|
    ensures terms'[id] == terms[id] && ArgsSize(sorts, terms, id, k) == ArgsSize(sorts', terms', id, k)
    decreases id, k
  {
    if k > 0 {
      ArgsSizeStable(sorts, terms, sorts', terms', id, k - 1);
      TreeSizeStable(sorts, terms, sorts', terms', terms[id].args[k - 1]);
    }
  }

  lemma {:induction false} SizeWithin(sorts: Sorts, terms: Terms, id: nat, k: nat)
    requires Linked(sorts, terms) && id < |terms| && k < |terms[id].args|
    ensures ArgsSize(sorts, terms, id, k + 1) == ArgsSize(sorts, terms, id, k) + TreeSize(sorts, terms, terms[id].args[k])
    ensures 1 + ArgsSize(sorts, terms, id, k + 1) <= TreeSize(sorts, terms, id)
    decreases |terms[id].args| - k
  {
    if k + 1 < |terms[id].args| { SizeWithin(sorts, terms, id, k + 1); }
  }

  lemma NoArgs(sorts: Sorts, terms: Terms, id: nat)
    requires Linked(sorts, terms) && id < |terms|
    ensures ArgsSize(sorts, terms, id, 0) == 0
  {
  }

  /** What visiting the next argument, in the grown arena, takes. */
  lemma NextArg(sorts: Sorts, terms: Terms, sorts1: Sorts, terms1: Terms, id: nat, k: nat)
    requires ArenaOk(sorts, terms) && ArenaOk(sorts1, terms1) && Grows(sorts, terms, sorts1, terms1)
    requires Linked(sorts, terms) && id < |terms| && k < |terms[id].args|
    ensures Linked(sorts1, terms1) && terms[id].args[k] < |terms1|
    ensures ArgsSize(sorts, terms, id, k + 1) == ArgsSize(sorts, terms, id, k) + TreeSize(sorts1, terms1, terms[id].args[k])
    ensures ArgsSize(sorts, terms, id, k + 1) <= ArgsSize(sorts, terms, id, |terms[id].args|)
  {
    hide ArenaOk;
    LinkedOk(sorts1, terms1);
    TreeSizeStable(sorts, terms, sorts1, terms1, terms[id].args[k]);
    SizeWithin(sorts, terms, id, k);
  }
}
