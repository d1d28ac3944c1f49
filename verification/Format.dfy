/** The layout of the binary format, as a table of its own: which byte stands where. */
module FormatLayout {
  import opened Lits
  import opened BinaryFormat
  import opened BinaryCodec
  import opened Arenas
  import opened BitVectors

  function Power256(k: nat): (p: nat)
    ensures p >= 1
  {
    if k == 0 then 1 else 256 * Power256(k - 1)
  }

  // ---------- numbers and strings ----------

  /** From the offset on stand the n low digits of v in base 256, the lowest first. */
  ghost predicate DigitsAt(bytes: seq<byte>, at: nat, n: nat, v: nat) {
    at + n <= |bytes| && forall k :: 0 <= k < n ==> bytes[at + k] == (v / Power256(k)) % 256
  }

  /** The length in four bytes, then the bytes of the string. */
  ghost predicate StringAt(bytes: seq<byte>, at: nat, s: seq<byte>) {
    DigitsAt(bytes, at, 4, |s|) && At(bytes, at + 4, s)
  }

  /** As many digits as a number needs, and one for zero. */
  ghost predicate DigitCount(v: nat, n: nat) {
    n > 0 && v < Power256(n) && (n > 1 ==> v >= Power256(n - 1))
  }

  /** The count of digits in four bytes, then the digits. */
  ghost predicate NumberAt(bytes: seq<byte>, at: nat, v: nat, n: int) {
    n > 0 && DigitCount(v, n) && DigitsAt(bytes, at, 4, n) && DigitsAt(bytes, at + 4, n, v)
  }

  /** 0 for a negative number, 1 for zero, 2 for a positive one, then the magnitude. */
  ghost predicate SignedAt(bytes: seq<byte>, at: nat, i: int, n: int) {
    && at < |bytes| && (i < 0 ==> bytes[at] == 0) && (i == 0 ==> bytes[at] == 1) && (i > 0 ==> bytes[at] == 2)
    && NumberAt(bytes, at + 1, if i < 0 then -i else i, n)
  }

  lemma U32Digits(x: nat)
    ensures DigitsAt(EncodeU32(x), 0, 4, x)
  {
    assert Power256(1) == 256 && Power256(2) == 65536 && Power256(3) == 16777216 by {
      assert Power256(1) == 256 * Power256(0);
      assert Power256(2) == 256 * Power256(1);
      assert Power256(3) == 256 * Power256(2);
    }
    var e := EncodeU32(x);
    forall k | 0 <= k < 4 ensures e[0 + k] == (x / Power256(k)) % 256 {
      assert k == 0 || k == 1 || k == 2 || k == 3;
    }
  }

  lemma DivideTwice(v: nat, p: nat)
    requires p >= 1
    ensures (v / 256) / p == v / (256 * p)
  {
    var a := v / 256;
    var q := a / p;
    assert a == p * q + a % p;
    assert 256 * (p * q) == (256 * p) * q;
    assert a % p <= p - 1;
    DivModUnique(v, 256 * p, v / (256 * p), v % (256 * p), q, v % 256 + 256 * (a % p));
  }

  /** The digits of a number are its quotients by the powers of 256, and no fewer would do. */
  lemma {:induction false} NumberDigits(v: nat)
    ensures DigitsAt(BytesOf(v), 0, |BytesOf(v)|, v) && DigitCount(v, |BytesOf(v)|)
    decreases v
  {
    var b := BytesOf(v);
    if v < 256 {
      assert Power256(1) == 256 * Power256(0);
    } else {
      NumberDigits(v / 256);
      var rest := BytesOf(v / 256);
      forall k | 0 <= k < |b| ensures b[0 + k] == (v / Power256(k)) % 256 {
        if k > 0 {
          assert b[k] == rest[0 + (k - 1)];
          DivideTwice(v, Power256(k - 1));
        }
      }
      assert v < Power256(|b|) by { assert Power256(|b|) == 256 * Power256(|rest|); }
      if |rest| == 1 {
        assert Power256(1) == 256 * Power256(0);
      } else {
        assert Power256(|rest|) == 256 * Power256(|rest| - 1);
      }
    }
  }

  // ---------- what stands inside a longer list of bytes ----------

  lemma DigitsInside(pre: seq<byte>, b: seq<byte>, post: seq<byte>, at: nat, n: nat, v: nat)
    requires DigitsAt(b, at, n, v)
    ensures DigitsAt(pre + b + post, |pre| + at, n, v)
  {
    var all := pre + b + post;
    forall k | 0 <= k < n ensures all[|pre| + at + k] == (v / Power256(k)) % 256 {
      assert all[|pre| + at + k] == b[at + k];
    }
  }

  lemma U32Inside(pre: seq<byte>, x: nat, post: seq<byte>)
    ensures DigitsAt(pre + EncodeU32(x) + post, |pre|, 4, x)
  {
    U32Digits(x);
    DigitsInside(pre, EncodeU32(x), post, 0, 4, x);
  }

  lemma Inside(pre: seq<byte>, b: seq<byte>, post: seq<byte>)
    ensures At(pre + b + post, |pre|, b)
  {
  }

  lemma StringInside(pre: seq<byte>, s: seq<byte>, post: seq<byte>)
    ensures StringAt(pre + EncodeString(s) + post, |pre|, s)
  {
    hide EncodeU32, DigitsAt, At;
    var e := EncodeU32(|s|);
    U32Inside(pre, |s|, s + post);
    Inside(pre + e, s, post);
    assert pre + e + (s + post) == pre + EncodeString(s) + post;
    assert pre + e + s + post == pre + EncodeString(s) + post;
  }

  lemma NumberInside(pre: seq<byte>, v: nat, post: seq<byte>)
    ensures NumberAt(pre + EncodeNat(v) + post, |pre|, v, |BytesOf(v)|)
    ensures |EncodeNat(v)| == 4 + |BytesOf(v)|
  {
    hide EncodeU32, DigitsAt, DigitCount;
    var d := BytesOf(v);
    var e := EncodeU32(|d|);
    NumberDigits(v);
    U32Inside(pre, |d|, d + post);
    DigitsInside(pre + e, d, post, 0, |d|, v);
    assert pre + e + (d + post) == pre + EncodeNat(v) + post;
    assert pre + e + d + post == pre + EncodeNat(v) + post;
  }

  lemma SignedInside(pre: seq<byte>, i: int, post: seq<byte>)
    ensures SignedAt(pre + EncodeInt(i) + post, |pre|, i, |BytesOf(Magnitude(i))|)
    ensures |EncodeInt(i)| == 5 + |BytesOf(Magnitude(i))|
  {
    hide NumberAt, EncodeNat;
    var sign, m := [SignByte(i)], Magnitude(i);
    NumberInside(pre + sign, m, post);
    assert pre + sign + EncodeNat(m) + post == pre + EncodeInt(i) + post;
    assert (pre + EncodeInt(i) + post)[|pre|] == SignByte(i);
  }

  // ---------- operators ----------

  // The operators in the order of their tags; parameters stand as zero or nothing.

  const LOGIC: seq<Op> := [Op.True, Op.False, Var([]), Not, And, Or, Xor, Implies, Ite, Eq, Distinct]
  const WORDS: seq<Op> := [BvConst(0, 0), BvNot, BvAnd, BvOr, BvXor, BvAdd, BvSub, BvMul, BvUdiv, BvUrem, BvShl, BvLshr, BvAshr]
  const COMPARISONS: seq<Op> := [BvUlt, BvUle, BvUgt, BvUge, BvSlt, BvSle, BvSgt, BvSge, BvNeg, BvConcat, BvExtract(0, 0)]
  const NUMBERS: seq<Op> := [IntConst(0), RealConst(0, 0), Add, Sub, Mul, Div, Mod, Lt, Le, Gt, Ge]
  const OTHERS: seq<Op> := [Select, Store, Apply([]), BvSdiv, BvSrem, BvSmod, BvNand, BvNor, BvXnor]
  const COUNTS: seq<Op> := [BvRotateLeft(0), BvRotateRight(0), BvSignExtend(0), BvZeroExtend(0), BvRepeat(0), Rem, Neg, ToReal, ToInt, IsInt, ConstArray(0)]

  function OperatorAt(tag: nat): Op
    requires tag < 66
  {
    if tag < 11 then LOGIC[tag] else if tag < 24 then WORDS[tag - 11] else if tag < 35 then COMPARISONS[tag - 24]
    else if tag < 46 then NUMBERS[tag - 35] else if tag < 55 then OTHERS[tag - 46] else COUNTS[tag - 55]
  }

  /** The operator without its parameters. */
  function Plain(op: Op): Op {
    match op
    case Var(_) => Var([])
    case Apply(_) => Apply([])
    case BvConst(_, _) => BvConst(0, 0)
    case BvExtract(_, _) => BvExtract(0, 0)
    case IntConst(_) => IntConst(0)
    case RealConst(_, _) => RealConst(0, 0)
    case BvRotateLeft(_) => BvRotateLeft(0)
    case BvRotateRight(_) => BvRotateRight(0)
    case BvSignExtend(_) => BvSignExtend(0)
    case BvZeroExtend(_) => BvZeroExtend(0)
    case BvRepeat(_) => BvRepeat(0)
    case ConstArray(_) => ConstArray(0)
    case _ => op
  }

  lemma LogicTags(op: Op)
    ensures 0 <= TagOf(op) < 11 ==> LOGIC[TagOf(op)] == Plain(op)
  {
  }

  lemma WordsTags(op: Op)
    ensures 11 <= TagOf(op) < 24 ==> WORDS[TagOf(op) - 11] == Plain(op)
  {
  }

  lemma ComparisonsTags(op: Op)
    ensures 24 <= TagOf(op) < 35 ==> COMPARISONS[TagOf(op) - 24] == Plain(op)
  {
  }

  lemma NumbersTags(op: Op)
    ensures 35 <= TagOf(op) < 46 ==> NUMBERS[TagOf(op) - 35] == Plain(op)
  {
  }

  lemma OthersTags(op: Op)
    ensures 46 <= TagOf(op) < 55 ==> OTHERS[TagOf(op) - 46] == Plain(op)
  {
  }

  lemma CountsTags(op: Op)
    ensures 55 <= TagOf(op) < 66 ==> COUNTS[TagOf(op) - 55] == Plain(op)
  {
  }

  lemma TagsListed(op: Op)
    ensures OperatorAt(TagOf(op)) == Plain(op)
  {
    hide TagOf, Plain;
    LogicTags(op);
    WordsTags(op);
    ComparisonsTags(op);
    NumbersTags(op);
    OthersTags(op);
    CountsTags(op);
  }

  /** The first byte of an operator is its place in the list. */
  lemma OperatorTag(op: Op)
    ensures |EncodeOp(op)| > 0 && EncodeOp(op)[0] < 66 && OperatorAt(EncodeOp(op)[0]) == Plain(op)
  {
    hide TagOf, Plain, Payload, OperatorAt;
    TagsListed(op);
  }

  /** What follows the tag. */
  ghost predicate ParametersAt(b: seq<byte>, op: Op) {
    match op
    case Var(name) => StringAt(b, 1, name) && |b| == 5 + |name|
    case Apply(name) => StringAt(b, 1, name) && |b| == 5 + |name|
    case BvConst(width, value) => DigitsAt(b, 1, 4, width) && NumberAt(b, 5, value, |b| - 9)
    case BvExtract(high, low) => DigitsAt(b, 1, 4, high) && DigitsAt(b, 5, 4, low) && |b| == 9
    case IntConst(i) => SignedAt(b, 1, i, |b| - 6)
    case RealConst(numer, denom) => exists n: nat :: n + 11 <= |b| && SignedAt(b, 1, numer, n) && SignedAt(b, 6 + n, denom, |b| - n - 11)
    case BvRotateLeft(n) => DigitsAt(b, 1, 4, n) && |b| == 5
    case BvRotateRight(n) => DigitsAt(b, 1, 4, n) && |b| == 5
    case BvSignExtend(n) => DigitsAt(b, 1, 4, n) && |b| == 5
    case BvZeroExtend(n) => DigitsAt(b, 1, 4, n) && |b| == 5
    case BvRepeat(n) => DigitsAt(b, 1, 4, n) && |b| == 5
    case ConstArray(n) => DigitsAt(b, 1, 4, n) && |b| == 5
    case _ => |b| == 1
  }

  /** An operator stands as the table says: its place in the list, then its parameters in order. */
  lemma OperatorLayout(op: Op)
    ensures |EncodeOp(op)| > 0 && EncodeOp(op)[0] < 66 && OperatorAt(EncodeOp(op)[0]) == Plain(op)
    ensures ParametersAt(EncodeOp(op), op)
  {
    hide OperatorAt, Plain, TagOf, EncodeU32, EncodeNat, EncodeInt, EncodeString, DigitsAt, NumberAt, SignedAt, StringAt;
    OperatorTag(op);
    var b, tag := EncodeOp(op), [TagOf(op)];
    if op.Var? || op.Apply? {
      NameLayout(tag, op.name);
    } else if op.BvConst? {
      ConstLayout(tag, op.width, op.value);
    } else if op.BvExtract? {
      TwoLayout(tag, op.high, op.low);
    } else if op.IntConst? {
      SignedInside(tag, op.int_, []);
      assert tag + EncodeInt(op.int_) + [] == b;
    } else if op.RealConst? {
      RationalLayout(tag, op.numer, op.denom);
    } else if Counted(op) {
      CountOf(op);
      U32Inside(tag, op.n, []);
      assert tag + EncodeU32(op.n) + [] == b;
    } else {
      PayloadOf(op);
    }
  }

  lemma NameLayout(tag: seq<byte>, name: seq<byte>)
    requires |tag| == 1
    ensures var b := tag + EncodeString(name); StringAt(b, 1, name) && |b| == 5 + |name|
  {
    hide StringAt;
    StringInside(tag, name, []);
    assert tag + EncodeString(name) + [] == tag + EncodeString(name);
  }

  lemma ConstLayout(tag: seq<byte>, width: nat, value: nat)
    requires |tag| == 1
    ensures var b := tag + (EncodeU32(width) + EncodeNat(value)); DigitsAt(b, 1, 4, width) && NumberAt(b, 5, value, |b| - 9)
  {
    hide EncodeU32, EncodeNat, DigitsAt, NumberAt;
    var w, v := EncodeU32(width), EncodeNat(value);
    U32Inside(tag, width, v);
    NumberInside(tag + w, value, []);
    assert tag + w + v == tag + (w + v);
    assert tag + w + v + [] == tag + (w + v);
  }

  lemma TwoLayout(tag: seq<byte>, x: nat, y: nat)
    requires |tag| == 1
    ensures var b := tag + (EncodeU32(x) + EncodeU32(y)); DigitsAt(b, 1, 4, x) && DigitsAt(b, 5, 4, y) && |b| == 9
  {
    hide EncodeU32, DigitsAt;
    var a, c := EncodeU32(x), EncodeU32(y);
    U32Inside(tag, x, c);
    U32Inside(tag + a, y, []);
    assert tag + a + c == tag + (a + c);
    assert tag + a + c + [] == tag + (a + c);
  }

  lemma RationalLayout(tag: seq<byte>, numer: int, denom: int)
    requires |tag| == 1
    ensures var b := tag + (EncodeInt(numer) + EncodeInt(denom));
            exists n: nat :: n + 11 <= |b| && SignedAt(b, 1, numer, n) && SignedAt(b, 6 + n, denom, |b| - n - 11)
  {
    hide EncodeInt, SignedAt;
    var a, c := EncodeInt(numer), EncodeInt(denom);
    SignedInside(tag, numer, c);
    SignedInside(tag + a, denom, []);
    assert tag + a + c == tag + (a + c);
    assert tag + a + c + [] == tag + (a + c);
  }

  // ---------- sorts and commands ----------

  /** Tags of sorts, and their parameters. */
  ghost predicate SortAt(b: seq<byte>, s: Sort) {
    match s
    case Bool => b == [0]
    case BitVec(width) => |b| == 5 && b[0] == 1 && DigitsAt(b, 1, 4, width)
    case Int => b == [2]
    case Real => b == [3]
    case Array(index, element) => |b| == 9 && b[0] == 4 && DigitsAt(b, 1, 4, index) && DigitsAt(b, 5, 4, element)
    case Uninterpreted(name) => |b| == 5 + |name| && b[0] == 5 && StringAt(b, 1, name)
  }

  lemma SortLayout(s: Sort)
    ensures SortAt(EncodeSort(s), s)
  {
    hide EncodeU32, EncodeString, DigitsAt, StringAt;
    match s
    case BitVec(width) =>
      U32Inside([1], width, []);
      assert [1] + EncodeU32(width) + [] == EncodeSort(s);
    case Array(index, element) =>
      TwoLayout([4], index, element);
      assert [4] + (EncodeU32(index) + EncodeU32(element)) == EncodeSort(s);
    case Uninterpreted(name) => NameLayout([5], name);
    case _ =>
  }

  /** Four bytes for each number of the list. */
  ghost predicate ListAt(b: seq<byte>, at: nat, list: seq<nat>) {
    forall k :: 0 <= k < |list| ==> DigitsAt(b, at + 4 * k, 4, list[k])
  }

  lemma {:induction false} ListInside(pre: seq<byte>, list: seq<nat>, post: seq<byte>)
    ensures ListAt(pre + U32s(list) + post, |pre|, list) && |U32s(list)| == 4 * |list|
    decreases |list|
  {
    hide EncodeU32, DigitsAt;
    if list != [] {
      var e, rest := EncodeU32(list[0]), U32s(list[1..]);
      var b := pre + U32s(list) + post;
      U32Inside(pre, list[0], rest + post);
      ListInside(pre + e, list[1..], post);
      assert pre + e + (rest + post) == b && pre + e + rest + post == b;
      forall k | 0 <= k < |list| ensures DigitsAt(b, |pre| + 4 * k, 4, list[k]) {
        if k > 0 { assert DigitsAt(b, |pre + e| + 4 * (k - 1), 4, list[1..][k - 1]); }
      }
    }
  }

  /** Tags of commands, and their parameters. */
  ghost predicate CommandAt(b: seq<byte>, c: Command) {
    match c
    case OtherCommand => b == [0]
    case SetLogic(logic) => |b| == 5 + |logic| && b[0] == 1 && StringAt(b, 1, logic)
    case DeclareConst(name, sort) => |b| == 9 + |name| && b[0] == 2 && StringAt(b, 1, name) && DigitsAt(b, 5 + |name|, 4, sort)
    case Assert(term) => |b| == 5 && b[0] == 3 && DigitsAt(b, 1, 4, term)
    case CheckSat => b == [4]
    case GetModel => b == [5]
    case Exit => b == [6]
    case DeclareFun(name, args, ret) =>
      && |b| == 13 + |name| + 4 * |args| && b[0] == 7 && StringAt(b, 1, name) && DigitsAt(b, 5 + |name|, 4, |args|)
      && ListAt(b, 9 + |name|, args) && DigitsAt(b, 9 + |name| + 4 * |args|, 4, ret)
    case DeclareSort(name, arity) => |b| == 9 + |name| && b[0] == 8 && StringAt(b, 1, name) && DigitsAt(b, 5 + |name|, 4, arity)
  }

  lemma CommandLayout(c: Command)
    ensures CommandAt(CommandBytes(c), c)
  {
    hide EncodeU32, EncodeString, DigitsAt, StringAt, ListAt, U32s;
    match c
    case SetLogic(logic) => NameLayout([1], logic);
    case DeclareConst(name, sort) => NamedLayout([2], name, sort);
    case Assert(term) =>
      U32Inside([3], term, []);
      assert [3] + EncodeU32(term) + [] == CommandBytes(c);
    case DeclareFun(name, args, ret) => FunctionLayout(name, args, ret);
    case DeclareSort(name, arity) => NamedLayout([8], name, arity);
    case _ =>
  }

  lemma NamedLayout(tag: seq<byte>, name: seq<byte>, x: nat)
    requires |tag| == 1
    ensures var b := tag + (EncodeString(name) + EncodeU32(x));
            |b| == 9 + |name| && StringAt(b, 1, name) && DigitsAt(b, 5 + |name|, 4, x)
  {
    hide EncodeU32, DigitsAt, StringAt;
    var s, e := EncodeString(name), EncodeU32(x);
    StringInside(tag, name, e);
    U32Inside(tag + s, x, []);
    assert tag + s + e == tag + (s + e);
    assert tag + s + e + [] == tag + (s + e);
  }

  lemma FunctionLayout(name: seq<byte>, args: seq<nat>, ret: nat)
    ensures CommandAt(CommandBytes(DeclareFun(name, args, ret)), DeclareFun(name, args, ret))
  {
    hide EncodeU32, DigitsAt, StringAt, ListAt, U32s;
    var s, n, l, e := EncodeString(name), EncodeU32(|args|), U32s(args), EncodeU32(ret);
    var b := [7] + (s + (n + (l + e)));
    StringInside([7], name, n + (l + e));
    assert [7] + s + (n + (l + e)) == b;
    U32Inside([7] + s, |args|, l + e);
    assert [7] + s + n + (l + e) == b;
    ListInside([7] + s + n, args, e);
    assert [7] + s + n + l + e == b;
    U32Inside([7] + s + n + l, ret, []);
    assert [7] + s + n + l + e + [] == b;
  }

  // ---------- terms and the file ----------

  /** A term: its sort, the number of its arguments, the arguments, the operator. */
  lemma TermLayout(t: TermData)
    ensures var b := TermBytes(t);
            && DigitsAt(b, 0, 4, t.sort) && DigitsAt(b, 4, 4, |t.args|) && ListAt(b, 8, t.args)
            && At(b, 8 + 4 * |t.args|, EncodeOp(t.op)) && |b| == 8 + 4 * |t.args| + |EncodeOp(t.op)|
  {
    hide EncodeU32, DigitsAt, ListAt, U32s, EncodeOp, At;
    var s, n, l, o := EncodeU32(t.sort), EncodeU32(|t.args|), U32s(t.args), EncodeOp(t.op);
    var b := TermBytes(t);
    U32Inside([], t.sort, n + (l + o));
    assert [] + s + (n + (l + o)) == b;
    U32Inside(s, |t.args|, l + o);
    assert s + n + (l + o) == b;
    ListInside(s + n, t.args, o);
    assert s + n + l + o == b;
    Inside(s + n + l, o, []);
    assert s + n + l + o + [] == b;
  }

  /** The file: the letters SMTB, version 1, and three sections, each the count of its entries in four
      bytes and then the entries. The sorts start with the fourth and the terms with the third. */
  lemma FileLayout(sorts: seq<Sort>, terms: seq<TermData>, cmds: seq<Command>)
    requires |sorts| >= 3 && |terms| >= 2
    ensures var b, s, t := Image(sorts, terms, cmds), |SortsFrom(sorts, 3)|, |TermsFrom(terms, 2)|;
            && |b| == 17 + s + t + |CommandsFrom(cmds, 0)| && b[..5] == [0x53, 0x4D, 0x54, 0x42, 1]
            && DigitsAt(b, 5, 4, |sorts| - 3) && At(b, 9, SortsFrom(sorts, 3))
            && DigitsAt(b, 9 + s, 4, |terms| - 2) && At(b, 13 + s, TermsFrom(terms, 2))
            && DigitsAt(b, 13 + s + t, 4, |cmds|) && At(b, 17 + s + t, CommandsFrom(cmds, 0))
  {
    hide EncodeU32, DigitsAt, At, SortsFrom, TermsFrom, CommandsFrom;
    var h := MAGIC + [VERSION];
    var a, s := EncodeU32(|sorts| - 3), SortsFrom(sorts, 3);
    var c, t := EncodeU32(|terms| - 2), TermsFrom(terms, 2);
    var e, l := EncodeU32(|cmds|), CommandsFrom(cmds, 0);
    var b := Image(sorts, terms, cmds);
    U32Inside(h, |sorts| - 3, s + (c + (t + (e + l))));
    assert h + a + (s + (c + (t + (e + l)))) == b;
    Inside(h + a, s, c + (t + (e + l)));
    assert h + a + s + (c + (t + (e + l))) == b;
    U32Inside(h + a + s, |terms| - 2, t + (e + l));
    assert h + a + s + c + (t + (e + l)) == b;
    Inside(h + a + s + c, t, e + l);
    assert h + a + s + c + t + (e + l) == b;
    U32Inside(h + a + s + c + t, |cmds|, l);
    assert h + a + s + c + t + e + l == b;
    Inside(h + a + s + c + t + e, l, []);
    assert h + a + s + c + t + e + l + [] == b;
  }
}
