/** Concrete values, models of the variables, and the interpretation that a model stands for. */
module ConcreteValues {
  import opened BinaryFormat
  import opened TermSemantics
  import BV = BitVectors
  import NB = NaturalBits

  datatype ModelValue = BoolValue(b: bool) | BitVecValue(value: nat, width: nat) | IntValue(n: int)

  type Model = map<seq<byte>, ModelValue>

  /** A bit-vector value, masked to its width. */
  function NewBv(v: nat, width: nat): ModelValue { BitVecValue(NB.Bitwise(NB.AndGate, v, NB.Mask(width)), width) }

  ghost function Denotes(v: ModelValue): Value {
    match v
    case BoolValue(b) => Truth(b)
    case BitVecValue(value, width) => Word(BV.LowBits(value, width))
    case IntValue(n) => Number(n)
  }

  /** The value that stands for an element of a sort without values of its own. */
  const ELEMENT := BoolValue(false)

  /** A value of the sort, words being below two to their width. */
  ghost predicate Typed(v: ModelValue, s: Sort) {
    match s
    case Bool => v.BoolValue?
    case BitVec(w) => v.BitVecValue? && v.width == w && v.value < BV.Pow2(w)
    case Int => v.IntValue?
    case _ => v == ELEMENT
  }

  ghost function ValueAs(v: ModelValue, s: Sort): (x: Value)
    requires Typed(v, s)
    ensures HasSort(x, s)
  {
    if s.Bool? || s.BitVec? || s.Int? then Denotes(v) else Element(0)
  }

  /** On values of one sort, being equal is denoting the same. */
  lemma SameValue(v: ModelValue, w: ModelValue, s: Sort)
    requires Typed(v, s) && Typed(w, s)
    ensures v == w <==> ValueAs(v, s) == ValueAs(w, s)
  {
    if s.BitVec? && ValueAs(v, s) == ValueAs(w, s) {
      assert BV.Value(BV.LowBits(v.value, v.width)) == v.value;
      assert BV.Value(BV.LowBits(w.value, w.width)) == w.value;
    }
  }

  function DefaultFor(s: Sort): ModelValue {
    match s
    case Bool => BoolValue(false)
    case BitVec(w) => BitVecValue(0, w)
    case Int => IntValue(0)
    case _ => ELEMENT
  }

  lemma DefaultTyped(s: Sort)
    ensures Typed(DefaultFor(s), s) && ValueAs(DefaultFor(s), s) == DefaultValue(s)
  {
    if s.BitVec? {
      var zeros := BV.Fill(s.width, false);
      BV.ValueAllFalse(zeros);
      BV.LowBitsOfValue(zeros, 0);
    }
  }

  /** Variables have their value in the model or else the default one, and functions are constant. */
  ghost function InterpFrom(model: Model): (i: Interp)
    ensures Fits(i)
  {
    Interp((n: seq<byte>, s: Sort) => if n in model && Typed(model[n], s) then ValueAs(model[n], s) else DefaultValue(s),
           (op: Op, s: Sort, vs: seq<Value>) => DefaultValue(s))
  }

  /** Every variable of the arena that is in the model has a value of its sort. */
  ghost predicate ModelTyped(sorts: Sorts, terms: Terms, model: Model)
    requires Linked(sorts, terms)
  {
    forall id :: 0 <= id < |terms| && terms[id].op.Var? && terms[id].op.name in model ==>
      Typed(model[terms[id].op.name], SortOf(sorts, terms, id))
  }
}
