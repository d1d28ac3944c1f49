/** Algebraic rewriting: identities, one order for the arguments of commutative operators, and
    distinctness as pairwise disequality. */
module AlgebraicRewriting {
  import opened Lits
  import opened BinaryFormat
  import opened Arenas
  import opened TermSemantics
  import opened TermBuilder
  import opened ArgumentPairs
  import BV = BitVectors

  predicate Commutative(op: Op) {
    || op.And? || op.Or? || op.Xor? || op.Eq? || op.Distinct? || op.BvAdd? || op.BvMul? || op.BvAnd? || op.BvOr?
    || op.BvXor? || op.Add? || op.Mul?
  }

  // ---------- sorting the arguments ----------

  function InsertId(a: nat, ids: seq<nat>): (r: seq<nat>)
    ensures multiset(r) == multiset(ids) + multiset{a}
  {
    if ids == [] then [a]
    else if a <= ids[0] then [a] + ids
    else
      assert ids == [ids[0]] + ids[1..];
      [ids[0]] + InsertId(a, ids[1..])
  }

  ghost predicate Increasing(ids: seq<nat>) { forall j, k :: 0 <= j < k < |ids| ==> ids[j] <= ids[k] }

  lemma InsertAbove(a: nat, ids: seq<nat>, x: nat)
    requires x <= a && forall k :: 0 <= k < |ids| ==> x <= ids[k]
    ensures forall k :: 0 <= k < |InsertId(a, ids)| ==> x <= InsertId(a, ids)[k]
  {
    hide InsertId;
    var r := InsertId(a, ids);
    forall k | 0 <= k < |r| ensures x <= r[k] {
      assert r[k] in multiset(r);
      assert r[k] == a || r[k] in ids;
    }
  }

  lemma {:induction false} InsertIncreasing(a: nat, ids: seq<nat>)
    requires Increasing(ids)
    ensures Increasing(InsertId(a, ids))
    decreases |ids|
  {
    if ids != [] && ids[0] < a {
      InsertIncreasing(a, ids[1..]);
      InsertAbove(a, ids[1..], ids[0]);
      ConsIncreasing(ids[0], InsertId(a, ids[1..]));
    } else {
      ConsIncreasing(a, ids);
    }
  }

  lemma ConsIncreasing(x: nat, ids: seq<nat>)
    requires Increasing(ids) && forall k :: 0 <= k < |ids| ==> x <= ids[k]
    ensures Increasing([x] + ids)
  {
  }

  /** The ids in increasing order. */
  function SortIds(ids: seq<nat>): (r: seq<nat>)
    ensures multiset(r) == multiset(ids) && |r| == |ids|
  {
    if ids == [] then []
    else
      assert ids == [ids[0]] + ids[1..];
      var r := InsertId(ids[0], SortIds(ids[1..]));
      assert |multiset(r)| == |r| && |multiset(ids)| == |ids|;
      r
  }

  lemma {:induction false} SortedIncreasing(ids: seq<nat>)
    ensures Increasing(SortIds(ids))
    decreases |ids|
  {
    if ids != [] {
      SortedIncreasing(ids[1..]);
      InsertIncreasing(ids[0], SortIds(ids[1..]));
    }
  }

  lemma DropLast<T>(a: seq<T>)
    requires a != []
    ensures multiset(a) == multiset(a[..|a| - 1]) + multiset{a[|a| - 1]}
  {
    assert a == a[..|a| - 1] + [a[|a| - 1]];
  }

  lemma DropAt<T>(b: seq<T>, k: nat)
    requires k < |b|
    ensures multiset(b) == multiset(b[..k] + b[k + 1..]) + multiset{b[k]}
  {
    assert b == b[..k] + [b[k]] + b[k + 1..];
  }

  lemma Cancel<T>(a: seq<T>, b: seq<T>, x: T)
    requires multiset(a) + multiset{x} == multiset(b) + multiset{x}
    ensures multiset(a) == multiset(b)
  {
    assert multiset(a) == multiset(a) + multiset{x} - multiset{x};
    assert multiset(b) == multiset(b) + multiset{x} - multiset{x};
  }

  lemma SameMembers(a: seq<nat>, b: seq<nat>)
    requires multiset(a) == multiset(b)
    ensures |a| == |b| && forall x :: x in a <==> x in b
  {
    assert |multiset(a)| == |a| && |multiset(b)| == |b|;
    forall x ensures x in a <==> x in b {
      assert x in a <==> x in multiset(a);
      assert x in b <==> x in multiset(b);
    }
  }

  lemma TwoSwapped(a: seq<nat>, b: seq<nat>)
    requires multiset(a) == multiset(b) && |a| == 2
    ensures |b| == 2 && (b == a || b == [a[1], a[0]])
  {
    SameMembers(a, b);
    assert a == [a[0], a[1]] && b == [b[0], b[1]];
    assert multiset(a) == multiset{a[0], a[1]} && multiset(b) == multiset{b[0], b[1]};
    assert b[0] in a && b[1] in a;
    assert multiset(a)[a[0]] == multiset(b)[a[0]] && multiset(a)[a[1]] == multiset(b)[a[1]];
  }

  // ---------- permuted arguments ----------

  /** No position repeats what an earlier one has. */
  lemma DifferByMembers(a: seq<nat>, b: seq<nat>, differ: (nat, nat) -> bool)
    requires multiset(a) == multiset(b) && (forall x, y :: differ(x, y) ==> differ(y, x)) && (forall x :: !differ(x, x))
    requires forall j, k :: 0 <= j < k < |a| ==> differ(a[j], a[k])
    ensures forall j, k :: 0 <= j < k < |b| ==> differ(b[j], b[k])
  {
    SameMembers(a, b);
    forall j, k | 0 <= j < k < |b| ensures differ(b[j], b[k]) {
      assert b[j] in a && b[k] in a;
      var x :| 0 <= x < |a| && a[x] == b[j];
      var y :| 0 <= y < |a| && a[y] == b[k];
      if b[j] == b[k] {
        RepeatedTwice(b, j, k);
        OnceEach(a, b[j], differ);
      }
      if x < y { assert differ(a[x], a[y]); } else if y < x { assert differ(a[y], a[x]); }
    }
  }

  lemma RepeatedTwice(b: seq<nat>, j: nat, k: nat)
    requires j < k < |b| && b[j] == b[k]
    ensures multiset(b)[b[j]] >= 2
  {
    assert b == b[..j] + [b[j]] + b[j + 1..k] + [b[k]] + b[k + 1..];
  }

  lemma {:induction false} OnceEach(a: seq<nat>, x: nat, differ: (nat, nat) -> bool)
    requires (forall y :: !differ(y, y)) && forall j, k :: 0 <= j < k < |a| ==> differ(a[j], a[k])
    ensures multiset(a)[x] <= 1
  {
    if a != [] {
      var n := |a| - 1;
      assert a == a[..n] + [a[n]];
      OnceEach(a[..n], x, differ);
      if a[n] == x {
        forall k | 0 <= k < n ensures a[k] != x { assert differ(a[k], a[n]); }
        assert x !in multiset(a[..n]);
      }
    }
  }

  lemma Appended(ns: seq<int>, x: int)
    ensures Total(ns + [x]) == Total(ns) + x && Product(ns + [x]) == Product(ns) * x
  {
    assert (ns + [x])[..|ns|] == ns;
  }

  lemma Swapped(a: int, b: int, c: int)
    ensures a * b * c == a * c * b
  {
  }

  lemma {:induction false} TotalRemove(ns: seq<int>, k: nat)
    requires k < |ns|
    ensures Total(ns) == Total(ns[..k] + ns[k + 1..]) + ns[k]
    ensures Product(ns) == Product(ns[..k] + ns[k + 1..]) * ns[k]
    decreases |ns|
  {
    hide Total, Product;
    var n := |ns| - 1;
    var init, x := ns[..n], ns[n];
    assert ns == init + [x];
    Appended(init, x);
    if k == n {
      assert ns[..k] + ns[k + 1..] == init;
    } else {
      TotalRemove(init, k);
      var cut := init[..k] + init[k + 1..];
      assert ns[..k] + ns[k + 1..] == cut + [x];
      Appended(cut, x);
      Swapped(Product(cut), ns[k], x);
    }
  }

  /** Sums and products do not depend on the order. */
  lemma {:induction false} TotalPermuted(ns: seq<int>, ms: seq<int>)
    requires multiset(ns) == multiset(ms)
    ensures Total(ns) == Total(ms) && Product(ns) == Product(ms)
    decreases |ns|
  {
    if ns == [] {
      assert |multiset(ms)| == 0;
      assert ms == [];
    } else {
      var n := |ns| - 1;
      assert ns[n] in multiset(ns);
      assert ns[n] in ms;
      var k :| 0 <= k < |ms| && ms[k] == ns[n];
      DropLast(ns);
      DropAt(ms, k);
      Cancel(ns[..n], ms[..k] + ms[k + 1..], ns[n]);
      TotalPermuted(ns[..n], ms[..k] + ms[k + 1..]);
      TotalRemove(ms, k);
    }
  }

  ghost predicate Numeric(sorts: Sorts, terms: Terms, args: seq<nat>)
    requires ArenaOk(sorts, terms)
  {
    forall k :: 0 <= k < |args| ==> args[k] < |terms| && SortOf(sorts, terms, args[k]) == Sort.Int
  }

  ghost function Images(f: nat -> int, ids: seq<nat>): (r: seq<int>)
    ensures |r| == |ids| && forall k :: 0 <= k < |ids| ==> r[k] == f(ids[k])
  {
    seq(|ids|, k requires 0 <= k < |ids| => f(ids[k]))
  }

  lemma {:induction false} ImagesPermuted(f: nat -> int, a: seq<nat>, b: seq<nat>)
    requires multiset(a) == multiset(b)
    ensures multiset(Images(f, a)) == multiset(Images(f, b))
    decreases |a|
  {
    SameMembers(a, b);
    if a != [] {
      var n := |a| - 1;
      assert a[n] in b;
      var k :| 0 <= k < |b| && b[k] == a[n];
      var rest := b[..k] + b[k + 1..];
      DropLast(a);
      DropAt(b, k);
      Cancel(a[..n], rest, a[n]);
      ImagesPermuted(f, a[..n], rest);
      DropLast(Images(f, a));
      DropAt(Images(f, b), k);
      assert Images(f, a)[..n] == Images(f, a[..n]);
      assert Images(f, b)[..k] + Images(f, b)[k + 1..] == Images(f, rest);
    }
  }

  ghost function NumberOf(sorts: Sorts, terms: Terms, i: Interp): nat -> int
    requires ArenaOk(sorts, terms) && Fits(i)
  {
    (x: nat) => if x < |terms| && Eval(sorts, terms, x, i).Number? then Eval(sorts, terms, x, i).n else 0
  }

  lemma NumbersAreImages(sorts: Sorts, terms: Terms, a: seq<nat>, i: Interp)
    requires ArenaOk(sorts, terms) && Fits(i) && Numeric(sorts, terms, a)
    ensures NumbersAt(sorts, terms, a, i) == Images(NumberOf(sorts, terms, i), a)
  {
    hide ArenaOk, Eval, SortOf;
  }

  lemma NumbersPermuted(sorts: Sorts, terms: Terms, a: seq<nat>, b: seq<nat>, i: Interp)
    requires ArenaOk(sorts, terms) && Fits(i) && multiset(a) == multiset(b)
    requires Numeric(sorts, terms, a) && Numeric(sorts, terms, b)
    ensures multiset(NumbersAt(sorts, terms, a, i)) == multiset(NumbersAt(sorts, terms, b, i))
  {
    hide ArenaOk, Eval, SortOf;
    NumbersAreImages(sorts, terms, a, i);
    NumbersAreImages(sorts, terms, b, i);
    ImagesPermuted(NumberOf(sorts, terms, i), a, b);
  }

  /** All arguments of a commutative operator have one sort. */
  lemma OneSort(sorts: Sorts, terms: Terms, node: TermData)
    requires Fitting(sorts, terms, node) && Commutative(node.op)
    ensures Linked(sorts, terms) && forall k :: 0 <= k < |node.args| ==> node.args[k] < |terms|
    ensures forall k :: 0 <= k < |node.args| ==> SortOf(sorts, terms, node.args[k]) == SortOf(sorts, terms, node.args[0])
  {
    hide Eval, NodeSorted, NodeValue, IsTrue, ArenaOk;
    FittingArgs(sorts, terms, node);
    SomeInterp();
    var i: Interp :| Fits(i);
    if OnTruths(node.op) {
      NodeTruths(sorts, terms, node, i);
    } else if node.op.Eq? || node.op.Distinct? {
      NodePolymorphic(sorts, terms, node, i);
    } else if OnWords(node.op) {
      NodeWords(sorts, terms, node, i);
    } else {
      NodeNumbers(sorts, terms, node, i);
    }
  }

  lemma CommutativeIsInterpreted(op: Op)
    requires Commutative(op)
    ensures Interpreted(op)
  {
  }

  lemma PermutedFits(sorts: Sorts, terms: Terms, node: TermData, args: seq<nat>)
    requires Fitting(sorts, terms, node) && Commutative(node.op) && multiset(args) == multiset(node.args)
    ensures Fitting(sorts, terms, TermData(node.op, args, node.sort))
    ensures SignatureFits(sorts, terms, TermData(node.op, args, node.sort))
  {
    hide NodeSorted, ArenaOk, GoodSort, Interpreted, Commutative;
    CommutativeIsInterpreted(node.op);
    OneSort(sorts, terms, node);
    SameMembers(args, node.args);
    forall k | 0 <= k < |args| ensures args[k] < |terms| && SortOf(sorts, terms, args[k]) == SortOf(sorts, terms, node.args[0]) {
      assert args[k] in node.args;
    }
    assert ArgSorts(sorts, terms, args) == ArgSorts(sorts, terms, node.args);
  }

  lemma PermutedJunction(sorts: Sorts, terms: Terms, node: TermData, args: seq<nat>, i: Interp)
    requires Fitting(sorts, terms, node) && Fitting(sorts, terms, TermData(node.op, args, node.sort)) && Fits(i)
    requires (node.op.And? || node.op.Or?) && multiset(args) == multiset(node.args)
    ensures NodeValue(sorts, terms, node, i) == NodeValue(sorts, terms, TermData(node.op, args, node.sort), i)
  {
    hide NodeSorted, ArenaOk, Fitting, Eval, IsTrue, NodeValue;
    var other := TermData(node.op, args, node.sort);
    FittingArgs(sorts, terms, node);
    FittingArgs(sorts, terms, other);
    SameMembers(args, node.args);
    NodeTruths(sorts, terms, node, i);
    NodeTruths(sorts, terms, other, i);
    MembersAre(sorts, terms, args, i);
    MembersAre(sorts, terms, node.args, i);
  }

  lemma WordsCommute(op: Op, a: seq<bool>, b: seq<bool>)
    requires |a| == |b| > 0 && (op.BvAdd? || op.BvMul? || op.BvAnd? || op.BvOr? || op.BvXor?)
    ensures WordsFrom(op, a, b) == WordsFrom(op, b, a)
  {
    hide BV.Value, BV.Pow2, BV.LowBits;
    if op.BvMul? { TimesCommute(BV.Value(a), BV.Value(b)); }
  }

  lemma TimesCommute(x: int, y: int)
    ensures x * y == y * x
  {
  }

  lemma PermutedPair(sorts: Sorts, terms: Terms, node: TermData, args: seq<nat>, i: Interp)
    requires Fitting(sorts, terms, node) && Fitting(sorts, terms, TermData(node.op, args, node.sort)) && Fits(i)
    requires Commutative(node.op) && (node.op.Xor? || node.op.Eq? || OnWords(node.op)) && multiset(args) == multiset(node.args)
    ensures NodeValue(sorts, terms, node, i) == NodeValue(sorts, terms, TermData(node.op, args, node.sort), i)
  {
    hide NodeSorted, ArenaOk, Fitting, Eval, IsTrue, NodeValue, WordsFrom;
    var other := TermData(node.op, args, node.sort);
    if node.op.Xor? {
      NodeTruths(sorts, terms, node, i);
      NodeTruths(sorts, terms, other, i);
      TwoSwapped(node.args, args);
    } else if node.op.Eq? {
      NodePolymorphic(sorts, terms, node, i);
      NodePolymorphic(sorts, terms, other, i);
      TwoSwapped(node.args, args);
    } else {
      NodeWords(sorts, terms, node, i);
      NodeWords(sorts, terms, other, i);
      TwoSwapped(node.args, args);
      FittingArgs(sorts, terms, node);
      WordsLength(sorts, terms, node.args[0], node.args[1], i);
      WordsCommute(node.op, Eval(sorts, terms, node.args[0], i).bits, Eval(sorts, terms, node.args[1], i).bits);
    }
  }

  lemma WordsLength(sorts: Sorts, terms: Terms, a: nat, b: nat, i: Interp)
    requires ArenaOk(sorts, terms) && Fits(i) && a < |terms| && b < |terms|
    requires SortOf(sorts, terms, a).BitVec? && SortOf(sorts, terms, b) == SortOf(sorts, terms, a)
    ensures Eval(sorts, terms, a, i).Word? && Eval(sorts, terms, b, i).Word? && GoodSort(SortOf(sorts, terms, a))
    ensures |Eval(sorts, terms, a, i).bits| == |Eval(sorts, terms, b, i).bits| == SortOf(sorts, terms, a).width
  {
    hide NodeSorted;
    assert TermSorted(sorts, terms, a);
  }

  ghost function Differ(sorts: Sorts, terms: Terms, i: Interp): (nat, nat) -> bool
    requires ArenaOk(sorts, terms) && Fits(i)
  {
    (x: nat, y: nat) => x < |terms| && y < |terms| && Eval(sorts, terms, x, i) != Eval(sorts, terms, y, i)
  }

  lemma DistinctIs(sorts: Sorts, terms: Terms, node: TermData, i: Interp)
    requires Fitting(sorts, terms, node) && Fits(i) && node.op.Distinct?
    ensures ArenaOk(sorts, terms)
    ensures NodeTrue(sorts, terms, node, i) <==>
      forall j, k :: 0 <= j < k < |node.args| ==> Differ(sorts, terms, i)(node.args[j], node.args[k])
  {
    hide NodeSorted, ArenaOk, Fitting, Eval, IsTrue, NodeTrue;
    FittingArgs(sorts, terms, node);
    NodePolymorphic(sorts, terms, node, i);
  }

  lemma PermutedDistinct(sorts: Sorts, terms: Terms, node: TermData, args: seq<nat>, i: Interp)
    requires Fitting(sorts, terms, node) && Fitting(sorts, terms, TermData(node.op, args, node.sort)) && Fits(i)
    requires node.op.Distinct? && multiset(args) == multiset(node.args)
    ensures NodeValue(sorts, terms, node, i) == NodeValue(sorts, terms, TermData(node.op, args, node.sort), i)
  {
    hide NodeSorted, ArenaOk, Fitting, Eval, IsTrue, NodeValue, NodeTrue;
    var other := TermData(node.op, args, node.sort);
    DistinctIs(sorts, terms, node, i);
    DistinctIs(sorts, terms, other, i);
    var d := Differ(sorts, terms, i);
    if NodeTrue(sorts, terms, node, i) { DifferByMembers(node.args, args, d); }
    if NodeTrue(sorts, terms, other, i) { DifferByMembers(args, node.args, d); }
    TruthNodeValue(sorts, terms, node, i);
    TruthNodeValue(sorts, terms, other, i);
  }

  lemma PermutedNumbers(sorts: Sorts, terms: Terms, node: TermData, args: seq<nat>, i: Interp)
    requires Fitting(sorts, terms, node) && Fitting(sorts, terms, TermData(node.op, args, node.sort)) && Fits(i)
    requires (node.op.Add? || node.op.Mul?) && multiset(args) == multiset(node.args)
    ensures NodeValue(sorts, terms, node, i) == NodeValue(sorts, terms, TermData(node.op, args, node.sort), i)
  {
    hide NodeSorted, ArenaOk, Fitting, Eval, IsTrue, NodeValue;
    var other := TermData(node.op, args, node.sort);
    FittingArgs(sorts, terms, node);
    FittingArgs(sorts, terms, other);
    NodeNumbers(sorts, terms, node, i);
    NodeNumbers(sorts, terms, other, i);
    NumbersPermuted(sorts, terms, node.args, args, i);
    TotalPermuted(NumbersAt(sorts, terms, node.args, i), NumbersAt(sorts, terms, args, i));
  }

  /** A commutative node means the same in any order of its arguments. */
  lemma PermutedValue(sorts: Sorts, terms: Terms, node: TermData, args: seq<nat>, i: Interp)
    requires Fitting(sorts, terms, node) && Fitting(sorts, terms, TermData(node.op, args, node.sort)) && Fits(i)
    requires Commutative(node.op) && multiset(args) == multiset(node.args)
    ensures NodeValue(sorts, terms, node, i) == NodeValue(sorts, terms, TermData(node.op, args, node.sort), i)
  {
    hide NodeSorted, ArenaOk, Fitting, Eval, IsTrue, NodeValue;
    if node.op.And? || node.op.Or? {
      PermutedJunction(sorts, terms, node, args, i);
    } else if node.op.Distinct? {
      PermutedDistinct(sorts, terms, node, args, i);
    } else if node.op.Add? || node.op.Mul? {
      PermutedNumbers(sorts, terms, node, args, i);
    } else {
      PermutedPair(sorts, terms, node, args, i);
    }
  }

  // ---------- identities of words ----------

  datatype Outcome = First | Second | Zero | NoRule

  /** What an operator on two words simplifies to, given whether the arguments are one term and which
      of them is the constant zero. */
  function WordRule(op: Op, same: bool, aZero: bool, bZero: bool): Outcome {
    match op
    case BvAdd => if aZero then Second else if bZero then First else NoRule
    case BvSub => if same then Zero else if bZero then First else NoRule
    case BvXor => if same then Zero else if aZero then Second else if bZero then First else NoRule
    case BvAnd => if same then First else if aZero || bZero then Zero else NoRule
    case BvOr => if same then First else if aZero then Second else if bZero then First else NoRule
    case _ => NoRule
  }

  lemma AddZero(a: seq<bool>, b: seq<bool>)
    requires |a| == |b| > 0 && BV.Value(b) == 0
    ensures WordsFrom(BvAdd, a, b) == a && WordsFrom(BvAdd, b, a) == a && WordsFrom(BvSub, a, b) == a
  {
    hide BV.Pow2;
    var w, v := |a|, BV.Value(a);
    BV.SmallMod(v, BV.Pow2(w));
    BV.LowBitsOfValue(a, v);
  }

  lemma SubItself(a: seq<bool>)
    requires |a| > 0
    ensures WordsFrom(BvSub, a, a) == BV.LowBits(0, |a|)
  {
    hide BV.Pow2, BV.Value, BV.LowBits;
    BV.SmallMod(0, BV.Pow2(|a|));
  }

  lemma ZeroBitsFalse(a: seq<bool>)
    requires BV.Value(a) == 0
    ensures (forall k :: 0 <= k < |a| ==> !a[k]) && a == BV.LowBits(0, |a|)
  {
    BV.ValueAllFalse(a);
    BV.LowBitsOfValue(a, 0);
  }

  lemma BitwiseZero(a: seq<bool>, b: seq<bool>)
    requires |a| == |b| > 0 && BV.Value(b) == 0
    ensures WordsFrom(BvXor, a, b) == a && WordsFrom(BvXor, b, a) == a && WordsFrom(BvOr, a, b) == a && WordsFrom(BvOr, b, a) == a
    ensures WordsFrom(BvAnd, a, b) == BV.LowBits(0, |a|) && WordsFrom(BvAnd, b, a) == BV.LowBits(0, |a|)
  {
    hide BV.Pow2, BV.Value, BV.LowBits;
    ZeroBitsFalse(b);
  }

  lemma BitwiseItself(a: seq<bool>)
    requires |a| > 0
    ensures WordsFrom(BvAnd, a, a) == a && WordsFrom(BvOr, a, a) == a && WordsFrom(BvXor, a, a) == BV.LowBits(0, |a|)
  {
    hide BV.Pow2, BV.Value, BV.LowBits;
    var x := WordsFrom(BvXor, a, a);
    ZeroIsZero(x);
    ZeroBitsFalse(x);
  }

  lemma ZeroIsZero(x: seq<bool>)
    requires forall k :: 0 <= k < |x| ==> !x[k]
    ensures BV.Value(x) == 0
  {
    BV.ValueAllFalse(x);
  }

  lemma WordRuleRight(op: Op, a: seq<bool>, b: seq<bool>, same: bool, aZero: bool, bZero: bool)
    requires OnWords(op) && |a| == |b| > 0
    requires (same ==> a == b) && (aZero ==> BV.Value(a) == 0) && (bZero ==> BV.Value(b) == 0)
    ensures
      var out := WordRule(op, same, aZero, bZero);
      && (out.First? ==> WordsFrom(op, a, b) == a) && (out.Second? ==> WordsFrom(op, a, b) == b)
      && (out.Zero? ==> WordsFrom(op, a, b) == BV.LowBits(0, |a|))
  {
    hide BV.Pow2, BV.Value, BV.LowBits, WordsFrom;
    if aZero {
      AddZero(b, a);
      BitwiseZero(b, a);
    }
    if bZero {
      AddZero(a, b);
      BitwiseZero(a, b);
    }
    if same {
      SubItself(a);
      BitwiseItself(a);
    }
  }

  predicate IsBvZero(terms: Terms, id: nat)
    requires id < |terms|
  {
    terms[id].op.BvConst? && terms[id].op.value == 0
  }

  predicate IsIntZero(terms: Terms, id: nat)
    requires id < |terms|
  {
    terms[id].op == IntConst(0)
  }

  /** The width of a word, 1 for anything else. */
  function BvWidth(sorts: Sorts, terms: Terms, id: nat): nat
    requires Linked(sorts, terms) && id < |terms|
  {
    match SortOf(sorts, terms, id)
    case BitVec(w) => w
    case _ => 1
  }

  lemma WordIdentity(sorts: Sorts, terms: Terms, node: TermData, out: Outcome, i: Interp)
    requires Fitting(sorts, terms, node) && OnWords(node.op) && Fits(i) && |node.args| == 2
    requires node.args[0] < |terms| && node.args[1] < |terms|
    requires out == WordRule(node.op, node.args[0] == node.args[1], IsBvZero(terms, node.args[0]), IsBvZero(terms, node.args[1]))
    ensures ArenaOk(sorts, terms) && sorts[node.sort].BitVec?
    ensures out.First? ==> NodeValue(sorts, terms, node, i) == Eval(sorts, terms, node.args[0], i)
    ensures out.Second? ==> NodeValue(sorts, terms, node, i) == Eval(sorts, terms, node.args[1], i)
    ensures out.Zero? ==> NodeValue(sorts, terms, node, i) == Word(BV.LowBits(0, sorts[node.sort].width))
  {
    hide NodeSorted, ArenaOk, Fitting, Eval, NodeValue, WordsFrom, BV.Pow2, BV.Value, BV.LowBits, BV.ToBits, WordRule;
    FittingArgs(sorts, terms, node);
    var a, b := node.args[0], node.args[1];
    NodeWords(sorts, terms, node, i);
    WordsLength(sorts, terms, a, b, i);
    if IsBvZero(terms, a) { BvConstValue(sorts, terms, a, i); }
    if IsBvZero(terms, b) { BvConstValue(sorts, terms, b, i); }
    WordRuleRight(node.op, Eval(sorts, terms, a, i).bits, Eval(sorts, terms, b, i).bits, a == b, IsBvZero(terms, a), IsBvZero(terms, b));
  }

  method RewriteWords(sorts: SortArena, terms: TermArena, node: TermData) returns (r: Option<nat>)
    requires Open(sorts, terms) && Fitting(sorts.sorts, terms.terms, node) && OnWords(node.op)
    modifies sorts, terms
    ensures Open(sorts, terms) && Grows(old(sorts.sorts), old(terms.terms), sorts.sorts, terms.terms)
    ensures r.Some? ==> Stands(old(sorts.sorts), old(terms.terms), node, sorts.sorts, terms.terms, r.value)
    ensures r.None? ==> sorts.sorts == old(sorts.sorts) && terms.terms == old(terms.terms)
    ensures r.Some? && AllSettled(old(terms.terms), node.args) ==> Settled(terms.terms, r.value)
    ensures r.None? ==> NodeSettled(terms.terms, node.op, node.args)
  {
    hide SortArena.Valid, TermArena.Valid, Buildable, ArenaOk, Stands, Fitting, BV.LowBits, BV.Pow2, OnWords, WordRule, NodeValue, Eval,
      Settled, NodeSettled;
    ghost var ss, ts := sorts.sorts, terms.terms;
    FittingArgs(ss, ts, node);
    WordsArgs(ss, ts, node);
    var a, b := node.args[0], node.args[1];
    var out := WordRule(node.op, a == b, IsBvZero(terms.terms, a), IsBvZero(terms.terms, b));
    forall i: Interp | Fits(i)
      ensures out.First? ==> NodeValue(ss, ts, node, i) == Eval(ss, ts, a, i)
      ensures out.Second? ==> NodeValue(ss, ts, node, i) == Eval(ss, ts, b, i)
      ensures out.Zero? ==> NodeValue(ss, ts, node, i) == Word(BV.LowBits(0, ss[node.sort].width))
    {
      WordIdentity(ss, ts, node, out, i);
    }
    match out {
      case First =>
        ExistingStands(ss, ts, node, a);
        r := Some(a);
      case Second =>
        ExistingStands(ss, ts, node, b);
        r := Some(b);
      case Zero =>
        LinkedOk(ss, ts);
        var w := BvWidth(sorts.sorts, terms.terms, a);
        var c := MakeBvConst(sorts, terms, 0, w);
        BuildableFacts(sorts.sorts, terms.terms);
        ConstantStands(ss, ts, node, sorts.sorts, terms.terms, c, 0, w);
        r := Some(c);
      case NoRule =>
        NoWordRule(terms.terms, node.op, node.args);
        r := None;
    }
  }

  lemma NoWordRule(terms: Terms, op: Op, args: seq<nat>)
    requires OnWords(op) && |args| == 2 && args[0] < |terms| && args[1] < |terms|
    requires WordRule(op, args[0] == args[1], IsBvZero(terms, args[0]), IsBvZero(terms, args[1])).NoRule?
    ensures NodeSettled(terms, op, args)
  {
  }

  // ---------- sums and differences ----------

  /** The arguments that are not the constant zero. */
  function NonZero(terms: Terms, args: seq<nat>): (r: seq<nat>)
    requires forall k :: 0 <= k < |args| ==> args[k] < |terms|
    ensures forall k :: 0 <= k < |r| ==> r[k] in args
    ensures |r| <= |args|
  {
    if args == [] then []
    else
      var n := |args| - 1;
      var rest := NonZero(terms, args[..n]);
      assert forall k :: 0 <= k < |rest| ==> rest[k] in args[..n];
      if IsIntZero(terms, args[n]) then rest else rest + [args[n]]
  }

  lemma NonZeroNumeric(sorts: Sorts, terms: Terms, args: seq<nat>)
    requires ArenaOk(sorts, terms) && Numeric(sorts, terms, args)
    ensures Numeric(sorts, terms, NonZero(terms, args))
  {
    hide TermSorted;
    var r := NonZero(terms, args);
    forall k | 0 <= k < |r| ensures r[k] < |terms| && SortOf(sorts, terms, r[k]) == Sort.Int {
      assert r[k] in args;
    }
  }

  lemma {:induction false} NonZeroTotal(sorts: Sorts, terms: Terms, args: seq<nat>, i: Interp)
    requires ArenaOk(sorts, terms) && Fits(i) && Numeric(sorts, terms, args) && Numeric(sorts, terms, NonZero(terms, args))
    ensures Total(NumbersAt(sorts, terms, NonZero(terms, args), i)) == Total(NumbersAt(sorts, terms, args, i))
    decreases |args|
  {
    hide ArenaOk, Eval, SortOf;
    if args != [] {
      var n := |args| - 1;
      var init := args[..n];
      assert Numeric(sorts, terms, init);
      NonZeroNumeric(sorts, terms, init);
      NonZeroTotal(sorts, terms, init, i);
      LastNumber(sorts, terms, args, i);
      if IsIntZero(terms, args[n]) {
        IntConstValue(sorts, terms, args[n], i);
      } else {
        var r := NonZero(terms, args);
        assert r[..|r| - 1] == NonZero(terms, init);
        LastNumber(sorts, terms, r, i);
      }
    }
  }

  lemma LastNumber(sorts: Sorts, terms: Terms, args: seq<nat>, i: Interp)
    requires ArenaOk(sorts, terms) && Fits(i) && Numeric(sorts, terms, args) && args != []
    ensures Numeric(sorts, terms, args[..|args| - 1])
    ensures Total(NumbersAt(sorts, terms, args, i)) ==
      Total(NumbersAt(sorts, terms, args[..|args| - 1], i)) + NumbersAt(sorts, terms, args, i)[|args| - 1]
    ensures Eval(sorts, terms, args[|args| - 1], i) == Number(NumbersAt(sorts, terms, args, i)[|args| - 1])
  {
    hide ArenaOk, Eval, SortOf;
    var n := |args| - 1;
    assert NumbersAt(sorts, terms, args, i)[..n] == NumbersAt(sorts, terms, args[..n], i);
  }

  /** A sum without its zeros. */
  lemma SumWithoutZeros(sorts: Sorts, terms: Terms, node: TermData, rest: seq<nat>)
    requires Fitting(sorts, terms, node) && node.op.Add? && (forall k :: 0 <= k < |node.args| ==> node.args[k] < |terms|)
    requires rest == NonZero(terms, node.args)
    ensures ArenaOk(sorts, terms) && sorts[node.sort] == Sort.Int && Numeric(sorts, terms, rest)
    ensures forall i: Interp :: Fits(i) ==> NodeValue(sorts, terms, node, i) == Number(Total(NumbersAt(sorts, terms, rest, i)))
  {
    hide NodeSorted, ArenaOk, Fitting, Eval, NodeValue;
    NumberArgs(sorts, terms, node);
    NonZeroNumeric(sorts, terms, node.args);
    forall i: Interp | Fits(i) ensures NodeValue(sorts, terms, node, i) == Number(Total(NumbersAt(sorts, terms, rest, i))) {
      NodeNumbers(sorts, terms, node, i);
      NonZeroTotal(sorts, terms, node.args, i);
    }
  }

  lemma SumFits(sorts: Sorts, terms: Terms, node: TermData, rest: seq<nat>)
    requires ArenaOk(sorts, terms) && node.sort < |sorts| && sorts[node.sort] == Sort.Int && node.op.Add?
    requires Numeric(sorts, terms, rest) && rest != []
    ensures Fitting(sorts, terms, TermData(Op.Add, rest, node.sort)) && SignatureFits(sorts, terms, TermData(Op.Add, rest, node.sort))
    ensures forall i: Interp :: Fits(i) ==>
      NodeValue(sorts, terms, TermData(Op.Add, rest, node.sort), i) == Number(Total(NumbersAt(sorts, terms, rest, i)))
  {
    hide TermSorted, Eval, NodeValue;
    var other := TermData(Op.Add, rest, node.sort);
    var ss := ArgSorts(sorts, terms, rest);
    assert AllAre(ss, Sort.Int);
    assert Fitting(sorts, terms, other);
    forall i: Interp | Fits(i) ensures NodeValue(sorts, terms, other, i) == Number(Total(NumbersAt(sorts, terms, rest, i))) {
      NodeNumbers(sorts, terms, other, i);
    }
  }

  lemma SingleTotal(sorts: Sorts, terms: Terms, a: nat, i: Interp)
    requires ArenaOk(sorts, terms) && Fits(i) && a < |terms| && Numeric(sorts, terms, [a])
    ensures Number(Total(NumbersAt(sorts, terms, [a], i))) == Eval(sorts, terms, a, i)
  {
    hide ArenaOk, Eval, SortOf;
    var ns := NumbersAt(sorts, terms, [a], i);
    assert ns[..0] == [];
    assert Total(ns) == Total(ns[..0]) + ns[0];
    assert Eval(sorts, terms, [a][0], i) == Number(ns[0]);
  }

  lemma NonZeroSettled(terms: Terms, args: seq<nat>)
    requires forall k :: 0 <= k < |args| ==> args[k] < |terms|
    ensures AllSettled(terms, args) ==> AllSettled(terms, NonZero(terms, args))
  {
    hide Settled;
    var r := NonZero(terms, args);
    forall k | 0 <= k < |r| && AllSettled(terms, args) ensures Settled(terms, r[k]) { assert r[k] in args; }
  }

  lemma {:induction false} NoneZero(terms: Terms, args: seq<nat>)
    requires forall k :: 0 <= k < |args| ==> args[k] < |terms|
    ensures forall k :: 0 <= k < |NonZero(terms, args)| ==> !ZeroNumber(terms, NonZero(terms, args)[k])
  {
    if args != [] { NoneZero(terms, args[..|args| - 1]); }
  }

  method RewriteSum(sorts: SortArena, terms: TermArena, node: TermData) returns (r: nat)
    requires Open(sorts, terms) && Fitting(sorts.sorts, terms.terms, node) && node.op.Add?
    modifies terms
    ensures Open(sorts, terms) && Grows(sorts.sorts, old(terms.terms), sorts.sorts, terms.terms)
    ensures Stands(sorts.sorts, old(terms.terms), node, sorts.sorts, terms.terms, r)
    ensures AllSettled(old(terms.terms), node.args) ==> Settled(terms.terms, r)
  {
    hide SortArena.Valid, TermArena.Valid, Buildable, ArenaOk, Stands, Fitting, SignatureFits, NodeValue, Eval, Numeric, NonZero,
      Settled;
    ghost var ss, ts := sorts.sorts, terms.terms;
    FittingArgs(ss, ts, node);
    var nonZero := NonZero(terms.terms, node.args);
    SumWithoutZeros(ss, ts, node, nonZero);
    NonZeroSettled(ts, node.args);
    if nonZero == [] {
      r := MakeIntConst(sorts, terms, 0);
      BuildableFacts(sorts.sorts, terms.terms);
      NumberStands(ss, ts, node, sorts.sorts, terms.terms, r, 0);
      return;
    }
    if |nonZero| == 1 {
      OneStands(ss, ts, node, nonZero);
      return nonZero[0];
    }
    SumFits(ss, ts, node, nonZero);
    NoneZero(ts, node.args);
    r := InternNode(sorts, terms, TermData(Op.Add, nonZero, node.sort));
    StandsSame(ss, ts, node, TermData(Op.Add, nonZero, node.sort), sorts.sorts, terms.terms, r);
  }

  lemma OneStands(sorts: Sorts, terms: Terms, node: TermData, rest: seq<nat>)
    requires Fitting(sorts, terms, node) && ArenaOk(sorts, terms) && Numeric(sorts, terms, rest) && |rest| == 1
    requires sorts[node.sort] == Sort.Int && OnNumbers(node.op)
    requires forall i: Interp :: Fits(i) ==> NodeValue(sorts, terms, node, i) == Number(Total(NumbersAt(sorts, terms, rest, i)))
    ensures Stands(sorts, terms, node, sorts, terms, rest[0])
  {
    hide ArenaOk, Eval, Fitting, NodeValue, PureFrom;
    PureKnown(sorts, terms, node, rest[0]);
    assert rest == [rest[0]];
    forall i: Interp | Fits(i) ensures Eval(sorts, terms, rest[0], i) == NodeValue(sorts, terms, node, i) {
      SingleTotal(sorts, terms, rest[0], i);
    }
    ExistingStands(sorts, terms, node, rest[0]);
  }

  lemma DifferenceIs(sorts: Sorts, terms: Terms, node: TermData, i: Interp)
    requires Fitting(sorts, terms, node) && Fits(i) && node.op.Sub? && |node.args| == 2
    ensures ArenaOk(sorts, terms) && sorts[node.sort] == Sort.Int && node.args[0] < |terms| && node.args[1] < |terms|
    ensures SortOf(sorts, terms, node.args[0]) == Sort.Int && SortOf(sorts, terms, node.args[1]) == Sort.Int
    ensures Eval(sorts, terms, node.args[0], i).Number? && Eval(sorts, terms, node.args[1], i).Number?
    ensures NodeValue(sorts, terms, node, i) ==
      Number(Eval(sorts, terms, node.args[0], i).n - Eval(sorts, terms, node.args[1], i).n)
  {
    hide ArenaOk, Eval, Fitting, NodeValue, NodeSorted;
    NumberArgs(sorts, terms, node);
    NodeNumbers(sorts, terms, node, i);
    var ns := NumbersAt(sorts, terms, node.args, i);
    var one := ns[1..];
    assert |one| == 1 && one[0] == ns[1] && one[..0] == [];
    assert Total(one) == Total(one[..0]) + one[0];
  }

  method RewriteDifference(sorts: SortArena, terms: TermArena, node: TermData) returns (r: Option<nat>)
    requires Open(sorts, terms) && Fitting(sorts.sorts, terms.terms, node) && node.op.Sub?
    modifies terms
    ensures Open(sorts, terms) && Grows(sorts.sorts, old(terms.terms), sorts.sorts, terms.terms)
    ensures r.Some? ==> Stands(sorts.sorts, old(terms.terms), node, sorts.sorts, terms.terms, r.value)
    ensures r.None? ==> terms.terms == old(terms.terms) && NodeSettled(terms.terms, node.op, node.args)
    ensures r.Some? && AllSettled(old(terms.terms), node.args) ==> Settled(terms.terms, r.value)
  {
    hide SortArena.Valid, TermArena.Valid, Buildable, ArenaOk, Stands, Fitting, NodeValue, Eval, Settled;
    ghost var ss, ts := sorts.sorts, terms.terms;
    if |node.args| != 2 { return None; }
    NumberArgs(ss, ts, node);
    var a, b := node.args[0], node.args[1];
    if a == b {
      forall i: Interp | Fits(i) ensures NodeValue(ss, ts, node, i) == Number(0) { DifferenceIs(ss, ts, node, i); }
      var c := MakeIntConst(sorts, terms, 0);
      BuildableFacts(sorts.sorts, terms.terms);
      NumberStands(ss, ts, node, sorts.sorts, terms.terms, c, 0);
      return Some(c);
    }
    if IsIntZero(terms.terms, b) {
      forall i: Interp | Fits(i) ensures Eval(ss, ts, a, i) == NodeValue(ss, ts, node, i) {
        DifferenceIs(ss, ts, node, i);
        IntConstValue(ss, ts, b, i);
      }
      ExistingStands(ss, ts, node, a);
      return Some(a);
    }
    r := None;
  }

  // ---------- distinctness ----------

  /** The term says that the two terms differ. */
  ghost predicate SaysApart(sorts: Sorts, terms: Terms, d: nat, a: nat, b: nat) {
    && ArenaOk(sorts, terms) && d < |terms| && a < |terms| && b < |terms| && SortOf(sorts, terms, d) == Sort.Bool
    && (Comparable(sorts, terms, a) && Pure(sorts, terms, a) && Pure(sorts, terms, b) ==> Pure(sorts, terms, d))
    && forall i: Interp :: Fits(i) ==> (IsTrue(sorts, terms, d, i) <==> Eval(sorts, terms, a, i) != Eval(sorts, terms, b, i))
  }

  lemma SaysApartLater(sorts: Sorts, terms: Terms, terms': Terms, d: nat, a: nat, b: nat)
    requires SaysApart(sorts, terms, d, a, b) && ArenaOk(sorts, terms') && terms <= terms'
    ensures SaysApart(sorts, terms', d, a, b)
  {
    hide ArenaOk, Eval, SortOf, Pure;
    SortStable(sorts, terms, sorts, terms', d);
    SortStable(sorts, terms, sorts, terms', a);
    PureStable(sorts, terms, sorts, terms', a);
    PureStable(sorts, terms, sorts, terms', b);
    PureStable(sorts, terms, sorts, terms', d);
    forall i: Interp | Fits(i)
      ensures IsTrue(sorts, terms', d, i) <==> Eval(sorts, terms', a, i) != Eval(sorts, terms', b, i)
    {
      EvalStable(sorts, terms, sorts, terms', d, i);
      EvalStable(sorts, terms, sorts, terms', a, i);
      EvalStable(sorts, terms, sorts, terms', b, i);
    }
  }

  lemma ApartPure(sorts: Sorts, terms: Terms, a: nat, b: nat, terms1: Terms, eq: nat, terms2: Terms, d: nat)
    requires PureFrom(sorts, terms, TermData(Op.Eq, [a, b], 0), sorts, terms1, eq)
    requires PureFrom(sorts, terms1, TermData(Op.Not, [eq], 0), sorts, terms2, d) && terms <= terms1 <= terms2
    requires a < |terms| && b < |terms|
    ensures Comparable(sorts, terms2, a) && Pure(sorts, terms2, a) && Pure(sorts, terms2, b) ==> Pure(sorts, terms2, d)
  {
    hide ArenaOk, Pure;
    LinkedOk(sorts, terms);
    LinkedOk(sorts, terms2);
    SortStable(sorts, terms, sorts, terms2, a);
    PureStable(sorts, terms, sorts, terms2, a);
    PureStable(sorts, terms, sorts, terms2, b);
  }

  /** What the disequality of two terms is made of. */
  lemma ApartSays(sorts: Sorts, terms: Terms, a: nat, b: nat, terms1: Terms, eq: nat, terms2: Terms, d: nat)
    requires Stands(sorts, terms, TermData(Op.Eq, [a, b], 0), sorts, terms1, eq)
    requires Stands(sorts, terms1, TermData(Op.Not, [eq], 0), sorts, terms2, d) && terms <= terms1 <= terms2
    requires a < |terms| && b < |terms|
    ensures SaysApart(sorts, terms2, d, a, b)
  {
    hide ArenaOk, Eval, NodeValue, Fitting, IsTrue, PureFrom, Pure, Comparable;
    ApartPure(sorts, terms, a, b, terms1, eq, terms2, d);
    var eqNode, notNode := TermData(Op.Eq, [a, b], 0), TermData(Op.Not, [eq], 0);
    FittingArgs(sorts, terms, eqNode);
    FittingArgs(sorts, terms1, notNode);
    LinkedOk(sorts, terms2);
    SomeInterp();
    var i0: Interp :| Fits(i0);
    NodeTruths(sorts, terms1, notNode, i0);
    forall i: Interp | Fits(i)
      ensures IsTrue(sorts, terms2, d, i) <==> Eval(sorts, terms2, a, i) != Eval(sorts, terms2, b, i)
    {
      NodeTruths(sorts, terms1, notNode, i);
      NodePolymorphic(sorts, terms, eqNode, i);
      StandsTruth(sorts, terms1, notNode, terms2, d, i);
      StandsTruth(sorts, terms, eqNode, terms1, eq, i);
      EvalStable(sorts, terms, sorts, terms2, a, i);
      EvalStable(sorts, terms, sorts, terms2, b, i);
    }
  }

  lemma StandsTruth(sorts: Sorts, terms: Terms, node: TermData, terms': Terms, r: nat, i: Interp)
    requires Stands(sorts, terms, node, sorts, terms', r) && Fits(i)
    ensures IsTrue(sorts, terms', r, i) <==> NodeTrue(sorts, terms, node, i)
  {
    hide ArenaOk, Eval, NodeValue, Fitting;
  }

  /** A term that says that two terms of one sort differ. */
  method MakeApart(sorts: SortArena, terms: TermArena, a: nat, b: nat) returns (d: nat)
    requires Open(sorts, terms) && a < |terms.terms| && b < |terms.terms|
    requires SortOf(sorts.sorts, terms.terms, a) == SortOf(sorts.sorts, terms.terms, b)
    modifies terms
    ensures Open(sorts, terms) && Grows(sorts.sorts, old(terms.terms), sorts.sorts, terms.terms)
    ensures SaysApart(sorts.sorts, terms.terms, d, a, b)
    ensures Settled(old(terms.terms), a) && Settled(old(terms.terms), b) ==> Settled(terms.terms, d)
  {
    hide SortArena.Valid, TermArena.Valid, Signatures, HashConsed, TermSorted, Stands, Fitting, NodeValue, Eval, Settled;
    ghost var ss, ts := sorts.sorts, terms.terms;
    var eq := MakeEq(sorts, terms, a, b);
    ghost var ts1 := terms.terms;
    EqIsBool(ss, ts, a, b, ts1, eq);
    d := MakeNot(sorts, terms, eq);
    ApartSays(ss, ts, a, b, ts1, eq, terms.terms, d);
  }

  lemma EqIsBool(sorts: Sorts, terms: Terms, a: nat, b: nat, terms1: Terms, eq: nat)
    requires Stands(sorts, terms, TermData(Op.Eq, [a, b], 0), sorts, terms1, eq) && Based(sorts, terms)
    ensures ArenaOk(sorts, terms1) && eq < |terms1| && SortOf(sorts, terms1, eq) == Sort.Bool
  {
    hide ArenaOk, Eval, NodeValue, Fitting;
  }

  ghost predicate AllApart(sorts: Sorts, terms: Terms, ds: seq<nat>, pairs: seq<(nat, nat)>) {
    |ds| == |pairs| && forall k :: 0 <= k < |ds| ==> SaysApart(sorts, terms, ds[k], pairs[k].0, pairs[k].1)
  }

  lemma AllApartLater(sorts: Sorts, terms: Terms, terms': Terms, ds: seq<nat>, pairs: seq<(nat, nat)>)
    requires AllApart(sorts, terms, ds, pairs) && ArenaOk(sorts, terms') && terms <= terms'
    ensures AllApart(sorts, terms', ds, pairs)
  {
    hide ArenaOk, SaysApart;
    forall k | 0 <= k < |ds| ensures SaysApart(sorts, terms', ds[k], pairs[k].0, pairs[k].1) {
      SaysApartLater(sorts, terms, terms', ds[k], pairs[k].0, pairs[k].1);
    }
  }

  /** The conjunction of the disequalities of all pairs is distinctness. */
  lemma PairsStand(sorts: Sorts, terms: Terms, node: TermData, terms1: Terms, ds: seq<nat>, pairs: seq<(nat, nat)>, i: Interp)
    requires Fitting(sorts, terms, node) && node.op.Distinct? && node.sort == 0 && terms <= terms1 && Fits(i)
    requires ArenaOk(sorts, terms1) && AllApart(sorts, terms1, ds, pairs) && Paired(node.args, pairs, |node.args|, 0)
    requires Fitting(sorts, terms1, TermData(Op.And, ds, 0))
    ensures NodeTrue(sorts, terms, node, i) <==> NodeTrue(sorts, terms1, TermData(Op.And, ds, 0), i)
  {
    hide ArenaOk, Eval, NodeValue, NodeTrue, Fitting, Paired, IsTrue;
    FittingArgs(sorts, terms, node);
    var d := Differ(sorts, terms, i);
    var p := (q: (nat, nat)) => d(q.0, q.1);
    DistinctIs(sorts, terms, node, i);
    NodeTruths(sorts, terms1, TermData(Op.And, ds, 0), i);
    PairsCover(node.args, pairs, p);
    PairsInside(node.args, pairs, |terms|);
    forall k | 0 <= k < |ds| ensures IsTrue(sorts, terms1, ds[k], i) <==> p(pairs[k]) {
      assert SaysApart(sorts, terms1, ds[k], pairs[k].0, pairs[k].1);
      EvalStable(sorts, terms, sorts, terms1, pairs[k].0, i);
      EvalStable(sorts, terms, sorts, terms1, pairs[k].1, i);
    }
    assert forall x, y :: 0 <= x < y < |node.args| ==> (p((node.args[x], node.args[y])) <==> d(node.args[x], node.args[y]));
  }

  lemma PairsInside(args: seq<nat>, pairs: seq<(nat, nat)>, n: nat)
    requires Paired(args, pairs, |args|, 0) && forall k :: 0 <= k < |args| ==> args[k] < n
    ensures forall k :: 0 <= k < |pairs| ==> pairs[k].0 < n && pairs[k].1 < n
  {
    forall k | 0 <= k < |pairs| ensures pairs[k].0 < n && pairs[k].1 < n { assert IsPair(args, pairs[k]); }
  }

  lemma ApartFits(sorts: Sorts, terms: Terms, ds: seq<nat>, pairs: seq<(nat, nat)>)
    requires Buildable(sorts, terms) && AllApart(sorts, terms, ds, pairs)
    ensures Fitting(sorts, terms, TermData(Op.And, ds, 0))
  {
    hide TermSorted, Signatures, HashConsed, Eval;
    forall k | 0 <= k < |ds| ensures ds[k] < |terms| && SortOf(sorts, terms, ds[k]) == Sort.Bool {
      assert SaysApart(sorts, terms, ds[k], pairs[k].0, pairs[k].1);
    }
    TruthFits(sorts, terms, TermData(Op.And, ds, 0));
  }

  lemma DistinctArgs(sorts: Sorts, terms: Terms, node: TermData)
    requires Buildable(sorts, terms) && Fitting(sorts, terms, node) && node.op.Distinct?
    ensures node.sort == 0 && ArenaOk(sorts, terms) && forall k :: 0 <= k < |node.args| ==> node.args[k] < |terms|
    ensures forall j, k :: 0 <= j < |node.args| && 0 <= k < |node.args| ==> SortOf(sorts, terms, node.args[j]) == SortOf(sorts, terms, node.args[k])
  {
    hide ArenaOk, NodeSorted, Signatures, HashConsed;
    OneSort(sorts, terms, node);
    EqSort(sorts, terms, node);
    FittingArgs(sorts, terms, node);
  }

  lemma FewDistinct(sorts: Sorts, terms: Terms, node: TermData)
    requires Buildable(sorts, terms) && Fitting(sorts, terms, node) && node.op.Distinct? && |node.args| <= 1
    ensures Stands(sorts, terms, node, sorts, terms, 0)
  {
    hide ArenaOk, Fitting, Buildable, NodeTrue, Eval;
    forall i: Interp | Fits(i) ensures NodeTrue(sorts, terms, node, i) { DistinctIs(sorts, terms, node, i); }
    KnownStands(sorts, terms, node, true);
  }

  lemma TwoPure(sorts: Sorts, terms: Terms, node: TermData, terms1: Terms, d: nat)
    requires Buildable(sorts, terms) && Fitting(sorts, terms, node) && node.op.Distinct? && |node.args| == 2
    requires terms <= terms1 && SaysApart(sorts, terms1, d, node.args[0], node.args[1])
    ensures PureFrom(sorts, terms, node, sorts, terms1, d)
  {
    hide ArenaOk, Buildable, Fitting, Pure, Eval, IsTrue;
    BuildableFacts(sorts, terms);
    DistinctArgs(sorts, terms, node);
    LinkedOk(sorts, terms);
    LinkedOk(sorts, terms1);
    SortStable(sorts, terms, sorts, terms1, node.args[0]);
    PureStable(sorts, terms, sorts, terms1, node.args[0]);
    PureStable(sorts, terms, sorts, terms1, node.args[1]);
  }

  lemma PairsAre(args: seq<nat>, pairs: seq<(nat, nat)>)
    requires Paired(args, pairs, |args|, 0)
    ensures forall k :: 0 <= k < |pairs| ==> IsPair(args, pairs[k])
  {
  }

  /** The disequalities of pure terms that can be compared are pure. */
  lemma ManyPure(sorts: Sorts, terms: Terms, node: TermData, terms1: Terms, ds: seq<nat>, pairs: seq<(nat, nat)>, terms2: Terms, r: nat)
    requires Buildable(sorts, terms) && Fitting(sorts, terms, node) && node.op.Distinct? && terms <= terms1 && |node.args| >= 2
    requires ArenaOk(sorts, terms1) && AllApart(sorts, terms1, ds, pairs) && Paired(node.args, pairs, |node.args|, 0)
    requires PureFrom(sorts, terms1, TermData(Op.And, ds, 0), sorts, terms2, r)
    ensures PureFrom(sorts, terms, node, sorts, terms2, r)
  {
    hide ArenaOk, Buildable, Fitting, Pure, Eval, IsTrue, Paired, IsPair, Comparable;
    BuildableFacts(sorts, terms);
    DistinctArgs(sorts, terms, node);
    PairsAre(node.args, pairs);
    if PureNode(sorts, terms, node) {
      forall k | 0 <= k < |ds| ensures ds[k] < |terms1| && Pure(sorts, terms1, ds[k]) {
        assert SaysApart(sorts, terms1, ds[k], pairs[k].0, pairs[k].1);
        PairPure(sorts, terms, node, terms1, pairs[k]);
      }
    }
  }

  lemma PairPure(sorts: Sorts, terms: Terms, node: TermData, terms1: Terms, p: (nat, nat))
    requires Buildable(sorts, terms) && Fitting(sorts, terms, node) && node.op.Distinct? && terms <= terms1 && |node.args| >= 2
    requires ArenaOk(sorts, terms) && ArenaOk(sorts, terms1) && IsPair(node.args, p) && PureNode(sorts, terms, node)
    ensures p.0 < |terms| && p.1 < |terms|
    ensures Comparable(sorts, terms1, p.0) && Pure(sorts, terms1, p.0) && Pure(sorts, terms1, p.1)
  {
    hide ArenaOk, Buildable, Fitting, Pure;
    DistinctArgs(sorts, terms, node);
    LinkedOk(sorts, terms);
    LinkedOk(sorts, terms1);
    assert p.0 in node.args && p.1 in node.args;
    SortStable(sorts, terms, sorts, terms1, p.0);
    PureStable(sorts, terms, sorts, terms1, p.0);
    PureStable(sorts, terms, sorts, terms1, p.1);
  }

  lemma TwoDistinct(sorts: Sorts, terms: Terms, node: TermData, terms1: Terms, d: nat)
    requires Buildable(sorts, terms) && Fitting(sorts, terms, node) && node.op.Distinct? && |node.args| == 2
    requires terms <= terms1 && SaysApart(sorts, terms1, d, node.args[0], node.args[1])
    ensures Stands(sorts, terms, node, sorts, terms1, d)
  {
    hide ArenaOk, Fitting, NodeValue, NodeTrue, Eval, IsTrue, Signatures, HashConsed, Based, PureFrom, Pure, Comparable;
    TwoPure(sorts, terms, node, terms1, d);
    EqSort(sorts, terms, node);
    DistinctArgs(sorts, terms, node);
    var a, b := node.args[0], node.args[1];
    forall i: Interp | Fits(i) ensures Eval(sorts, terms1, d, i) == NodeValue(sorts, terms, node, i) {
      NodePolymorphic(sorts, terms, node, i);
      TruthNodeValue(sorts, terms, node, i);
      EvalStable(sorts, terms, sorts, terms1, a, i);
      EvalStable(sorts, terms, sorts, terms1, b, i);
      TruthValue(sorts, terms1, d, i);
    }
  }

  lemma ManyDistinct(sorts: Sorts, terms: Terms, node: TermData, terms1: Terms, ds: seq<nat>, pairs: seq<(nat, nat)>, terms2: Terms, r: nat)
    requires Buildable(sorts, terms) && Fitting(sorts, terms, node) && node.op.Distinct? && terms <= terms1
    requires ArenaOk(sorts, terms1) && AllApart(sorts, terms1, ds, pairs) && Paired(node.args, pairs, |node.args|, 0)
    requires Stands(sorts, terms1, TermData(Op.And, ds, 0), sorts, terms2, r) && |node.args| >= 2
    ensures Stands(sorts, terms, node, sorts, terms2, r)
  {
    hide ArenaOk, Fitting, NodeValue, NodeTrue, Eval, IsTrue, Signatures, HashConsed, Based, AllApart, Paired, PureFrom;
    ManyPure(sorts, terms, node, terms1, ds, pairs, terms2, r);
    EqSort(sorts, terms, node);
    var conj := TermData(Op.And, ds, 0);
    forall i: Interp | Fits(i) ensures Eval(sorts, terms2, r, i) == NodeValue(sorts, terms, node, i) {
      PairsStand(sorts, terms, node, terms1, ds, pairs, i);
      TruthNodeValue(sorts, terms, node, i);
      TruthNodeValue(sorts, terms1, conj, i);
    }
  }

  /** Distinctness as the disequalities of all pairs; at most one argument is always distinct. */
  method RewriteDistinct(sorts: SortArena, terms: TermArena, node: TermData) returns (r: nat)
    requires Open(sorts, terms) && Fitting(sorts.sorts, terms.terms, node) && node.op.Distinct?
    modifies terms
    ensures Open(sorts, terms) && Grows(sorts.sorts, old(terms.terms), sorts.sorts, terms.terms)
    ensures Stands(sorts.sorts, old(terms.terms), node, sorts.sorts, terms.terms, r)
    ensures AllSettled(old(terms.terms), node.args) ==> Settled(terms.terms, r)
  {
    hide SortArena.Valid, TermArena.Valid, Buildable, ArenaOk, Stands, Fitting, SaysApart, AllApart, Paired, SortOf, Settled;
    ghost var ss, ts := sorts.sorts, terms.terms;
    DistinctArgs(ss, ts, node);
    BuildableFacts(ss, ts);
    BaseSettled(ss, ts);
    var args := node.args;
    if |args| <= 1 {
      FewDistinct(ss, ts, node);
      return 0;
    }
    if |args| == 2 {
      r := MakeApart(sorts, terms, args[0], args[1]);
      TwoDistinct(ss, ts, node, terms.terms, r);
      return;
    }
    var diffs;
    ghost var pairs;
    diffs, pairs := Disequalities(sorts, terms, args);
    ghost var ts1 := terms.terms;
    BuildableFacts(ss, ts1);
    ApartFits(ss, ts1, diffs, pairs);
    r := MakeAnd(sorts, terms, diffs);
    ManyDistinct(ss, ts, node, ts1, diffs, pairs, terms.terms, r);
  }

  ghost predicate OneSorted(sorts: Sorts, terms: Terms, args: seq<nat>) {
    && ArenaOk(sorts, terms) && (forall k :: 0 <= k < |args| ==> args[k] < |terms|)
    && forall j, k :: 0 <= j < |args| && 0 <= k < |args| ==> SortOf(sorts, terms, args[j]) == SortOf(sorts, terms, args[k])
  }

  lemma NoneSettled(terms: Terms)
    ensures AllSettled(terms, [])
  {
  }

  lemma PairSettled(terms: Terms, terms1: Terms, args: seq<nat>, i: nat, j: nat)
    requires terms <= terms1 && i < |args| && j < |args|
    ensures AllSettled(terms, args) ==> Settled(terms1, args[i]) && Settled(terms1, args[j])
  {
    hide Settled;
    if AllSettled(terms, args) { AllSettledLater(terms, terms1, args); }
  }

  lemma OneMoreSettled(terms: Terms, terms1: Terms, ds: seq<nat>, d: nat)
    requires terms <= terms1 && AllSettled(terms, ds) && Settled(terms1, d)
    ensures AllSettled(terms1, ds + [d])
  {
    hide Settled;
    AllSettledLater(terms, terms1, ds);
  }

  /** A disequality per pair of argument positions. */
  method Disequalities(sorts: SortArena, terms: TermArena, args: seq<nat>) returns (diffs: seq<nat>, ghost pairs: seq<(nat, nat)>)
    requires Open(sorts, terms) && OneSorted(sorts.sorts, terms.terms, args)
    modifies terms
    ensures Open(sorts, terms) && Grows(sorts.sorts, old(terms.terms), sorts.sorts, terms.terms)
    ensures AllApart(sorts.sorts, terms.terms, diffs, pairs) && Paired(args, pairs, |args|, 0)
    ensures AllSettled(old(terms.terms), args) ==> AllSettled(terms.terms, diffs)
  {
    hide SortArena.Valid, TermArena.Valid, Buildable, ArenaOk, AllApart, SaysApart, Paired, OneSorted, Settled, AllSettled;
    ghost var ss, ts := sorts.sorts, terms.terms;
    diffs, pairs := [], [];
    NonePaired(ss, ts, args);
    NoneSettled(ts);
    for i := 0 to |args|
      invariant Open(sorts, terms) && ts <= terms.terms
      invariant AllApart(ss, terms.terms, diffs, pairs) && Paired(args, pairs, i, 0)
      invariant AllSettled(ts, args) ==> AllSettled(terms.terms, diffs)
    {
      PairedStart(args, pairs, i);
      for j := i + 1 to |args|
        invariant Open(sorts, terms) && ts <= terms.terms
        invariant AllApart(ss, terms.terms, diffs, pairs) && Paired(args, pairs, i, j)
        invariant AllSettled(ts, args) ==> AllSettled(terms.terms, diffs)
      {
        ghost var ts1 := terms.terms;
        StillOneSorted(ss, ts, ts1, args, i, j);
        PairSettled(ts, ts1, args, i, j);
        var d := MakeApart(sorts, terms, args[i], args[j]);
        BuildableFacts(ss, terms.terms);
        AllApartLater(ss, ts1, terms.terms, diffs, pairs);
        OneMoreApart(ss, terms.terms, diffs, pairs, d, args[i], args[j]);
        if AllSettled(ts, args) { OneMoreSettled(ts1, terms.terms, diffs, d); }
        PairedNext(args, pairs, i, j);
        diffs, pairs := diffs + [d], pairs + [(args[i], args[j])];
      }
      PairedRow(args, pairs, i);
    }
  }

  lemma StillOneSorted(sorts: Sorts, terms: Terms, terms1: Terms, args: seq<nat>, i: nat, j: nat)
    requires OneSorted(sorts, terms, args) && terms <= terms1 && Buildable(sorts, terms1) && i < |args| && j < |args|
    ensures args[i] < |terms1| && args[j] < |terms1| && Linked(sorts, terms1)
    ensures SortOf(sorts, terms1, args[i]) == SortOf(sorts, terms1, args[j])
  {
    hide ArenaOk, Signatures, HashConsed;
    LinkedOk(sorts, terms1);
    SortStable(sorts, terms, sorts, terms1, args[i]);
    SortStable(sorts, terms, sorts, terms1, args[j]);
  }

  lemma NonePaired(sorts: Sorts, terms: Terms, args: seq<nat>)
    ensures AllApart(sorts, terms, [], []) && Paired(args, [], 0, 0)
  {
  }

  lemma OneMoreApart(sorts: Sorts, terms: Terms, ds: seq<nat>, pairs: seq<(nat, nat)>, d: nat, a: nat, b: nat)
    requires AllApart(sorts, terms, ds, pairs) && SaysApart(sorts, terms, d, a, b)
    ensures AllApart(sorts, terms, ds + [d], pairs + [(a, b)])
  {
    hide SaysApart;
  }

  // ---------- rewriting a term ----------

  /** The rules for one node whose arguments are rewritten and sorted. */
  method RewriteNode(sorts: SortArena, terms: TermArena, node: TermData) returns (r: Option<nat>)
    requires Open(sorts, terms) && Fitting(sorts.sorts, terms.terms, node)
    modifies sorts, terms
    ensures Open(sorts, terms) && Grows(old(sorts.sorts), old(terms.terms), sorts.sorts, terms.terms)
    ensures r.Some? ==> Stands(old(sorts.sorts), old(terms.terms), node, sorts.sorts, terms.terms, r.value)
    ensures r.None? ==> sorts.sorts == old(sorts.sorts) && terms.terms == old(terms.terms)
    ensures r.Some? && AllSettled(old(terms.terms), node.args) ==> Settled(terms.terms, r.value)
    ensures r.None? ==> NodeSettled(terms.terms, node.op, node.args)
    ensures old(InertNode(terms.terms, node)) ==> r.None?
  {
    hide SortArena.Valid, TermArena.Valid, Buildable, Stands, Fitting, ArenaOk, Settled, AllSettled;
    if node.op.Eq? {
      BuildableFacts(sorts.sorts, terms.terms);
      BaseSettled(sorts.sorts, terms.terms);
      EqArgs(sorts.sorts, terms.terms, node);
      if node.args[0] == node.args[1] {
        EqItself(sorts.sorts, terms.terms, node);
        return Some(0);
      }
      r := None;
    } else if OnWords(node.op) {
      r := RewriteWords(sorts, terms, node);
    } else if node.op.Add? {
      var s := RewriteSum(sorts, terms, node);
      r := Some(s);
    } else if node.op.Sub? {
      r := RewriteDifference(sorts, terms, node);
    } else if node.op.Distinct? {
      var d := RewriteDistinct(sorts, terms, node);
      r := Some(d);
    } else {
      r := None;
    }
  }

  /** The arguments of inert terms keep their order. */
  lemma InertOrder(terms: Terms, id: nat)
    ensures Inert(terms, id) ==> !Commutative(terms[id].op)
  {
  }

  class Rewriter {
    const terms: TermArena
    const sorts: SortArena
    var steps: nat
    const maxSteps: nat

    constructor (terms: TermArena, sorts: SortArena, maxSteps: nat)
      ensures this.terms == terms && this.sorts == sorts && this.maxSteps == maxSteps && steps == 0
    {
      this.terms, this.sorts, this.maxSteps := terms, sorts, maxSteps;
      steps := 0;
    }

    /** A rewritten form of the term: it means the same under every interpretation, however early the
        step budget cuts the rewriting short. When the budget suffices, no identity applies to any part of
        it, and no Distinct is left. */
    method Rewrite(id: nat) returns (r: nat)
      requires Open(sorts, terms) && id < |terms.terms|
      modifies this, sorts, terms
      ensures Open(sorts, terms) && Grows(old(sorts.sorts), old(terms.terms), sorts.sorts, terms.terms)
      ensures Keeps(old(sorts.sorts), old(terms.terms), id, sorts.sorts, terms.terms, r)
      ensures Linked(old(sorts.sorts), old(terms.terms))
      ensures old(steps) + TreeSize(old(sorts.sorts), old(terms.terms), id) <= maxSteps ==>
        steps == old(steps) + TreeSize(old(sorts.sorts), old(terms.terms), id) && Settled(terms.terms, r)
      ensures Inert(old(terms.terms), id) ==> r == id && sorts.sorts == old(sorts.sorts) && terms.terms == old(terms.terms)
      decreases id, 1
    {
      hide SortArena.Valid, TermArena.Valid, Buildable, Keeps, Fitting, SignatureFits, Stands, Commutative, NodeValue, ArgsSize,
        ArenaOk, Eval, Settled, AllSettled, InertNode, Pure, PureNode;
      ghost var ss, ts := sorts.sorts, terms.terms;
      BuildableFacts(ss, ts);
      LinkedOk(ss, ts);
      steps := steps + 1;
      if steps > maxSteps {
        KeepsItself(ss, ts, id);
        return id;
      }
      var term := terms.terms[id];
      var rewrittenArgs := RewriteArgs(id);
      ghost var ss1, ts1 := sorts.sorts, terms.terms;
      ReplacedNode(ss, ts, id, ss1, ts1, rewrittenArgs);
      var sorted := if Commutative(term.op) && |rewrittenArgs| >= 2 then SortIds(rewrittenArgs) else rewrittenArgs;
      SortedNode(ss1, ts1, TermData(term.op, rewrittenArgs, term.sort), sorted);
      SortedSettled(ts1, rewrittenArgs, sorted);
      InertOrder(ts, id);
      var node := TermData(term.op, sorted, term.sort);
      var s := RewriteNode(sorts, terms, node);
      if s.Some? {
        KeepsFromNode(ss, ts, id, ss1, ts1, node, sorts.sorts, terms.terms, s.value);
        return s.value;
      }
      r := InternNode(sorts, terms, node);
      KeepsFromNode(ss, ts, id, ss1, ts1, node, sorts.sorts, terms.terms, r);
    }

    /** The arguments, rewritten in order. */
    method RewriteArgs(id: nat) returns (rewrittenArgs: seq<nat>)
      requires Open(sorts, terms) && id < |terms.terms|
      modifies this, sorts, terms
      ensures Open(sorts, terms) && Grows(old(sorts.sorts), old(terms.terms), sorts.sorts, terms.terms)
      ensures Linked(old(sorts.sorts), old(terms.terms)) && |rewrittenArgs| == |old(terms.terms)[id].args|
      ensures forall k :: 0 <= k < |rewrittenArgs| ==>
        Keeps(old(sorts.sorts), old(terms.terms), old(terms.terms)[id].args[k], sorts.sorts, terms.terms, rewrittenArgs[k])
      ensures old(steps) + ArgsSize(old(sorts.sorts), old(terms.terms), id, |rewrittenArgs|) <= maxSteps ==>
        && steps == old(steps) + ArgsSize(old(sorts.sorts), old(terms.terms), id, |rewrittenArgs|)
        && AllSettled(terms.terms, rewrittenArgs)
      ensures Inert(old(terms.terms), id) ==>
        rewrittenArgs == old(terms.terms)[id].args && sorts.sorts == old(sorts.sorts) && terms.terms == old(terms.terms)
      decreases id, 0
    {
      hide SortArena.Valid, TermArena.Valid, Buildable, Keeps, ArgsSize, TreeSize, ArenaOk, Settled, AllSettled, InertNode;
      ghost var ss, ts := sorts.sorts, terms.terms;
      BuildableFacts(ss, ts);
      LinkedOk(ss, ts);
      var args := terms.terms[id].args;
      ghost var enough := old(steps) + ArgsSize(ss, ts, id, |args|) <= maxSteps;
      NoArgs(ss, ts, id);
      NoneSettled(ts);
      rewrittenArgs := [];
      for k := 0 to |args|
        invariant Open(sorts, terms) && Grows(ss, ts, sorts.sorts, terms.terms) && |rewrittenArgs| == k
        invariant forall j :: 0 <= j < k ==> Keeps(ss, ts, args[j], sorts.sorts, terms.terms, rewrittenArgs[j])
        invariant enough ==> steps == old(steps) + ArgsSize(ss, ts, id, k) && AllSettled(terms.terms, rewrittenArgs)
        invariant Inert(ts, id) ==> rewrittenArgs == args[..k] && sorts.sorts == ss && terms.terms == ts
      {
        ghost var ss1, ts1 := sorts.sorts, terms.terms;
        BuildableFacts(ss1, ts1);
        NextArg(ss, ts, ss1, ts1, id, k);
        var a := Rewrite(args[k]);
        BuildableFacts(sorts.sorts, terms.terms);
        forall j | 0 <= j < k ensures Keeps(ss, ts, args[j], sorts.sorts, terms.terms, rewrittenArgs[j]) {
          KeepsLater(ss, ts, args[j], ss1, ts1, rewrittenArgs[j], sorts.sorts, terms.terms);
        }
        LaterKeeps(ss, ts, args[k], ss1, ts1, sorts.sorts, terms.terms, a);
        if enough { OneMoreSettled(ts1, terms.terms, rewrittenArgs, a); }
        rewrittenArgs := rewrittenArgs + [a];
      }
    }
  }

  lemma SortedSettled(terms: Terms, args: seq<nat>, sorted: seq<nat>)
    requires sorted == args || sorted == SortIds(args)
    ensures AllSettled(terms, args) ==> AllSettled(terms, sorted)
  {
    hide Settled, SortIds;
    forall k | 0 <= k < |sorted| && AllSettled(terms, args) ensures Settled(terms, sorted[k]) {
      assert sorted[k] in multiset(sorted);
      assert sorted[k] in args;
    }
  }

  lemma SortedPure(sorts: Sorts, terms: Terms, node: TermData, args: seq<nat>)
    requires Fitting(sorts, terms, node)
    requires args == node.args || (Commutative(node.op) && args == SortIds(node.args))
    ensures ArenaOk(sorts, terms) && (PureNode(sorts, terms, node) ==> PureNode(sorts, terms, TermData(node.op, args, node.sort)))
  {
    hide ArenaOk, NodeSorted, Pure, SortIds;
    FittingInside(sorts, terms, node);
    if args != node.args && PureNode(sorts, terms, node) {
      SameMembers(node.args, args);
      forall k | 0 <= k < |args| ensures args[k] < |terms| && Pure(sorts, terms, args[k]) { assert args[k] in node.args; }
      if node.op.Eq? || (node.op.Distinct? && |args| > 1) {
        OneSort(sorts, terms, node);
        assert args[0] in node.args;
      }
    }
  }

  lemma SortedNode(sorts: Sorts, terms: Terms, node: TermData, args: seq<nat>)
    requires Fitting(sorts, terms, node) && SignatureFits(sorts, terms, node)
    requires args == node.args || (Commutative(node.op) && args == SortIds(node.args))
    ensures Fitting(sorts, terms, TermData(node.op, args, node.sort)) && SignatureFits(sorts, terms, TermData(node.op, args, node.sort))
    ensures forall i: Interp :: Fits(i) ==> NodeValue(sorts, terms, TermData(node.op, args, node.sort), i) == NodeValue(sorts, terms, node, i)
    ensures ArenaOk(sorts, terms) && (PureNode(sorts, terms, node) ==> PureNode(sorts, terms, TermData(node.op, args, node.sort)))
  {
    hide Fitting, SignatureFits, NodeValue, Commutative, PureNode;
    var other := TermData(node.op, args, node.sort);
    SortedPure(sorts, terms, node, args);
    if args == node.args {
      assert other == node;
    } else {
      PermutedFits(sorts, terms, node, args);
      forall i: Interp | Fits(i) ensures NodeValue(sorts, terms, other, i) == NodeValue(sorts, terms, node, i) {
        PermutedValue(sorts, terms, node, args, i);
      }
    }
  }
}
