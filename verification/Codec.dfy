/** The binary format of formulas: bytes of integers, strings, sorts, operators and commands, and
    the proof that reading undoes writing. */
module BinaryFormat {
  import opened Lits

  type byte = b: int | 0 <= b < 256

  const U32_LIMIT: nat := 0x1_0000_0000
  const MAGIC: seq<byte> := [0x53, 0x4D, 0x54, 0x42]
  const VERSION: byte := 1

  datatype ParseError = BadHeader | BadVersion(version: byte) | UnexpectedEnd | UnknownTag(tag: byte) | ZeroDenominator

  datatype Parsed<+T> = Ok(value: T, next: nat) | Err(error: ParseError)

  /** The bytes stand in the data from the offset on. */
  ghost predicate At(data: seq<byte>, offset: nat, bytes: seq<byte>) {
    offset + |bytes| <= |data| && data[offset..offset + |bytes|] == bytes
  }

  lemma AtSplit(data: seq<byte>, offset: nat, a: seq<byte>, b: seq<byte>)
    ensures At(data, offset, a + b) <==> At(data, offset, a) && At(data, offset + |a|, b)
  {
    if At(data, offset, a + b) {
      assert data[offset..offset + |a|] == (a + b)[..|a|];
      assert data[offset + |a|..offset + |a| + |b|] == (a + b)[|a|..];
    }
    if At(data, offset, a) && At(data, offset + |a|, b) {
      assert data[offset..offset + |a + b|] == data[offset..offset + |a|] + data[offset + |a|..offset + |a| + |b|];
    }
  }

  // ---------- 32-bit integers ----------

  function LowByte(x: nat): byte { x % 256 }

  /** Little-endian bytes of the low 32 bits. */
  function EncodeU32(x: nat): (r: seq<byte>)
    ensures |r| == 4
  {
    [LowByte(x), LowByte(x / 256), LowByte(x / 65536), LowByte(x / 16777216)]
  }

  function DecodeU32(data: seq<byte>, offset: nat): (r: Parsed<nat>)
    ensures r.Ok? ==> r.value < U32_LIMIT && r.next == offset + 4 <= |data|
  {
    if offset + 4 > |data| then Err(UnexpectedEnd)
    else Ok(data[offset] as nat + 256 * (data[offset + 1] as nat) + 65536 * (data[offset + 2] as nat) + 16777216 * (data[offset + 3] as nat), offset + 4)
  }

  lemma DigitsOfU32(x: nat)
    requires x < U32_LIMIT
    ensures x == x % 256 + 256 * ((x / 256) % 256) + 65536 * ((x / 65536) % 256) + 16777216 * ((x / 16777216) % 256)
  {
    var a, b, c := x / 256, x / 65536, x / 16777216;
    assert x == 256 * a + x % 256;
    assert a == 256 * b + a % 256;
    assert b == 256 * c + b % 256;
    assert c < 256;
  }

  lemma U32RoundTrip(data: seq<byte>, offset: nat, x: nat)
    requires x < U32_LIMIT && At(data, offset, EncodeU32(x))
    ensures DecodeU32(data, offset) == Ok(x, offset + 4)
  {
    var e := EncodeU32(x);
    forall k: nat | k < 4 ensures data[offset + k] == e[k] { assert data[offset..offset + 4][k] == e[k]; }
    assert data[offset] == e[0] && data[offset + 1] == e[1] && data[offset + 2] == e[2] && data[offset + 3] == e[3];
    DigitsOfU32(x);
  }

  // ---------- byte strings and integers of any size ----------

  function EncodeString(s: seq<byte>): seq<byte> { EncodeU32(|s|) + s }

  function DecodeString(data: seq<byte>, offset: nat): (r: Parsed<seq<byte>>)
    ensures r.Ok? ==> offset < r.next <= |data|
  {
    match DecodeU32(data, offset)
    case Err(e) => Err(e)
    case Ok(len, next) =>
      if next + len > |data| then Err(UnexpectedEnd) else Ok(data[next..next + len], next + len)
  }

  lemma StringRoundTrip(data: seq<byte>, offset: nat, s: seq<byte>)
    requires |s| < U32_LIMIT && At(data, offset, EncodeString(s))
    ensures DecodeString(data, offset) == Ok(s, offset + |EncodeString(s)|)
  {
    hide EncodeU32, DecodeU32;
    AtSplit(data, offset, EncodeU32(|s|), s);
    U32RoundTrip(data, offset, |s|);
  }

  /** Little-endian base 256 without leading zeros; zero is one zero byte. */
  function BytesOf(v: nat): (r: seq<byte>)
    ensures |r| > 0
  {
    if v < 256 then [v] else [v % 256] + BytesOf(v / 256)
  }

  function ValueOf(bytes: seq<byte>): nat {
    if bytes == [] then 0 else bytes[0] + 256 * ValueOf(bytes[1..])
  }

  lemma {:induction false} BytesRoundTrip(v: nat)
    ensures ValueOf(BytesOf(v)) == v
    decreases v
  {
    if v < 256 {
      assert BytesOf(v)[1..] == [];
    } else {
      BytesRoundTrip(v / 256);
      assert BytesOf(v)[1..] == BytesOf(v / 256);
    }
  }

  /** The last byte is zero only for the number zero: no shorter form exists. */
  lemma {:induction false} BytesMinimal(v: nat)
    ensures v > 0 ==> BytesOf(v)[|BytesOf(v)| - 1] != 0
    decreases v
  {
    if v >= 256 { BytesMinimal(v / 256); }
  }

  function EncodeNat(v: nat): seq<byte> { EncodeString(BytesOf(v)) }

  function DecodeNat(data: seq<byte>, offset: nat): (r: Parsed<nat>)
    ensures r.Ok? ==> offset < r.next <= |data|
  {
    match DecodeString(data, offset)
    case Err(e) => Err(e)
    case Ok(bytes, next) => Ok(ValueOf(bytes), next)
  }

  lemma NatRoundTrip(data: seq<byte>, offset: nat, v: nat)
    requires |BytesOf(v)| < U32_LIMIT && At(data, offset, EncodeNat(v))
    ensures DecodeNat(data, offset) == Ok(v, offset + |EncodeNat(v)|)
  {
    StringRoundTrip(data, offset, BytesOf(v));
    BytesRoundTrip(v);
  }

  function SignByte(v: int): byte { if v < 0 then 0 else if v == 0 then 1 else 2 }

  function Magnitude(v: int): nat { if v < 0 then -v else v }

  function EncodeInt(v: int): seq<byte> { [SignByte(v)] + EncodeNat(Magnitude(v)) }

  function WithSign(sign: byte, m: nat): int { if sign == 0 then 0 - (m as int) else if sign == 1 then 0 else m }

  /** A zero sign gives zero whatever the bytes; every other sign byte but 0 is positive. */
  function DecodeInt(data: seq<byte>, offset: nat): (r: Parsed<int>)
    ensures r.Ok? ==> offset < r.next <= |data|
  {
    if offset >= |data| then Err(UnexpectedEnd)
    else
      match DecodeNat(data, offset + 1)
      case Err(e) => Err(e)
      case Ok(m, next) => Ok(WithSign(data[offset], m), next)
  }

  lemma IntRoundTrip(data: seq<byte>, offset: nat, v: int)
    requires |BytesOf(Magnitude(v))| < U32_LIMIT && At(data, offset, EncodeInt(v))
    ensures DecodeInt(data, offset) == Ok(v, offset + |EncodeInt(v)|)
  {
    hide EncodeNat, DecodeNat;
    AtSplit(data, offset, [SignByte(v)], EncodeNat(Magnitude(v)));
    NatRoundTrip(data, offset + 1, Magnitude(v));
    assert data[offset] == data[offset..offset + 1][0];
  }

  // ---------- rationals ----------

  function Gcd(a: nat, b: nat): (g: nat)
    ensures a + b > 0 ==> g > 0
    decreases b
  {
    ModNatural(a, b);
    if b == 0 then a else Gcd(b, a % b)
  }

  lemma ModNatural(a: nat, b: nat)
    ensures b > 0 ==> 0 <= a % b < b
  {
  }

  /** The lowest terms with a positive denominator, as the constructor of rationals makes them. */
  function Reduce(numer: int, denom: int): (int, int)
    requires denom != 0
  {
    var g := Gcd(Magnitude(numer), Magnitude(denom));
    var s := if denom < 0 then -1 else 1;
    (s * (if numer < 0 then -(Magnitude(numer) / g) else Magnitude(numer) / g), Magnitude(denom) / g)
  }

  ghost predicate Reduced(numer: int, denom: int) { denom > 0 && Gcd(Magnitude(numer), denom) == 1 }

  lemma ReduceReduced(numer: int, denom: int)
    requires Reduced(numer, denom)
    ensures Reduce(numer, denom) == (numer, denom)
  {
    assert Magnitude(numer) / 1 == Magnitude(numer) && denom / 1 == denom;
  }

  // ---------- sorts ----------

  datatype Sort = Bool | BitVec(width: nat) | Int | Real | Array(index: nat, element: nat) | Uninterpreted(name: seq<byte>)

  function EncodeSort(s: Sort): (r: seq<byte>)
    ensures |r| > 0
  {
    match s
    case Bool => [0]
    case BitVec(w) => [1] + EncodeU32(w)
    case Int => [2]
    case Real => [3]
    case Array(i, e) => [4] + EncodeU32(i) + EncodeU32(e)
    case Uninterpreted(name) => [5] + EncodeString(name)
  }

  function DecodeSort(data: seq<byte>, offset: nat): (r: Parsed<Sort>)
    ensures r.Ok? ==> offset < r.next <= |data|
  {
    if offset >= |data| then Err(UnexpectedEnd)
    else
      match data[offset]
      case 0 => Ok(Bool, offset + 1)
      case 1 =>
        (match DecodeU32(data, offset + 1)
         case Err(e) => Err(e)
         case Ok(w, next) => Ok(BitVec(w), next))
      case 2 => Ok(Int, offset + 1)
      case 3 => Ok(Real, offset + 1)
      case 4 =>
        (match DecodeTwo(data, offset + 1)
         case Err(e) => Err(e)
         case Ok(p, next) => Ok(Array(p.0, p.1), next))
      case 5 =>
        (match DecodeString(data, offset + 1)
         case Err(e) => Err(e)
         case Ok(name, next) => Ok(Uninterpreted(name), next))
      case tag => Err(UnknownTag(tag))
  }

  function DecodeTwo(data: seq<byte>, offset: nat): (r: Parsed<(nat, nat)>)
    ensures r.Ok? ==> r.next == offset + 8 <= |data|
  {
    match DecodeU32(data, offset)
    case Err(e) => Err(e)
    case Ok(x, next) =>
      match DecodeU32(data, next)
      case Err(e) => Err(e)
      case Ok(y, last) => Ok((x, y), last)
  }

  lemma TwoRoundTrip(data: seq<byte>, offset: nat, x: nat, y: nat)
    requires x < U32_LIMIT && y < U32_LIMIT && At(data, offset, EncodeU32(x) + EncodeU32(y))
    ensures DecodeTwo(data, offset) == Ok((x, y), offset + 8)
  {
    hide EncodeU32, DecodeU32;
    AtSplit(data, offset, EncodeU32(x), EncodeU32(y));
    U32RoundTrip(data, offset, x);
    U32RoundTrip(data, offset + 4, y);
  }

  ghost predicate SortFits(s: Sort) {
    match s
    case BitVec(w) => w < U32_LIMIT
    case Array(i, e) => i < U32_LIMIT && e < U32_LIMIT
    case Uninterpreted(name) => |name| < U32_LIMIT
    case _ => true
  }

  /** The tag byte and what follows it. */
  lemma TagAt(data: seq<byte>, offset: nat, tag: byte, rest: seq<byte>)
    requires At(data, offset, [tag] + rest)
    ensures offset < |data| && data[offset] == tag && At(data, offset + 1, rest)
  {
    AtSplit(data, offset, [tag], rest);
    assert data[offset..offset + 1][0] == tag;
  }

  lemma SortRoundTrip(data: seq<byte>, offset: nat, s: Sort)
    requires SortFits(s) && At(data, offset, EncodeSort(s))
    ensures DecodeSort(data, offset) == Ok(s, offset + |EncodeSort(s)|)
  {
    hide EncodeU32, DecodeU32, EncodeString, DecodeString, DecodeTwo, At;
    match s
    case Bool => assert [0] == [0] + []; TagAt(data, offset, 0, []);
    case BitVec(w) =>
      TagAt(data, offset, 1, EncodeU32(w));
      U32RoundTrip(data, offset + 1, w);
    case Int => assert [2] == [2] + []; TagAt(data, offset, 2, []);
    case Real => assert [3] == [3] + []; TagAt(data, offset, 3, []);
    case Array(i, e) =>
      assert [4] + EncodeU32(i) + EncodeU32(e) == [4] + (EncodeU32(i) + EncodeU32(e));
      TagAt(data, offset, 4, EncodeU32(i) + EncodeU32(e));
      TwoRoundTrip(data, offset + 1, i, e);
    case Uninterpreted(name) =>
      TagAt(data, offset, 5, EncodeString(name));
      StringRoundTrip(data, offset + 1, name);
  }

  // ---------- operators ----------

  datatype Op =
    | True | False | Var(name: seq<byte>) | Not | And | Or | Xor | Implies | Ite | Eq | Distinct
    | BvConst(width: nat, value: nat) | BvNot | BvAnd | BvOr | BvXor | BvAdd | BvSub | BvMul | BvUdiv | BvUrem
    | BvShl | BvLshr | BvAshr | BvUlt | BvUle | BvUgt | BvUge | BvSlt | BvSle | BvSgt | BvSge | BvNeg | BvConcat
    | BvExtract(high: nat, low: nat) | IntConst(int_: int) | RealConst(numer: int, denom: int) | Add | Sub | Mul
    | Div | Mod | Lt | Le | Gt | Ge | Select | Store | Apply(name: seq<byte>) | BvSdiv | BvSrem | BvSmod | BvNand
    | BvNor | BvXnor | BvRotateLeft(n: nat) | BvRotateRight(n: nat) | BvSignExtend(n: nat) | BvZeroExtend(n: nat)
    | BvRepeat(n: nat) | Rem | Neg | ToReal | ToInt | IsInt | ConstArray(n: nat)

  function TagOf(op: Op): (tag: byte)
    ensures tag <= 65
  {
    match op
    case True => 0
    case False => 1
    case Var(_) => 2
    case Not => 3
    case And => 4
    case Or => 5
    case Xor => 6
    case Implies => 7
    case Ite => 8
    case Eq => 9
    case Distinct => 10
    case BvConst(_, _) => 11
    case BvNot => 12
    case BvAnd => 13
    case BvOr => 14
    case BvXor => 15
    case BvAdd => 16
    case BvSub => 17
    case BvMul => 18
    case BvUdiv => 19
    case BvUrem => 20
    case BvShl => 21
    case BvLshr => 22
    case BvAshr => 23
    case BvUlt => 24
    case BvUle => 25
    case BvUgt => 26
    case BvUge => 27
    case BvSlt => 28
    case BvSle => 29
    case BvSgt => 30
    case BvSge => 31
    case BvNeg => 32
    case BvConcat => 33
    case BvExtract(_, _) => 34
    case IntConst(_) => 35
    case RealConst(_, _) => 36
    case Add => 37
    case Sub => 38
    case Mul => 39
    case Div => 40
    case Mod => 41
    case Lt => 42
    case Le => 43
    case Gt => 44
    case Ge => 45
    case Select => 46
    case Store => 47
    case Apply(_) => 48
    case BvSdiv => 49
    case BvSrem => 50
    case BvSmod => 51
    case BvNand => 52
    case BvNor => 53
    case BvXnor => 54
    case BvRotateLeft(_) => 55
    case BvRotateRight(_) => 56
    case BvSignExtend(_) => 57
    case BvZeroExtend(_) => 58
    case BvRepeat(_) => 59
    case Rem => 60
    case Neg => 61
    case ToReal => 62
    case ToInt => 63
    case IsInt => 64
    case ConstArray(_) => 65
  }

  /** Operators without parameters are their tag. */
  function PlainOp(tag: byte): Option<Op> {
    if tag < 16 then PlainOp0(tag) else if tag < 32 then PlainOp1(tag) else if tag < 48 then PlainOp2(tag) else PlainOp3(tag)
  }

  function PlainOp0(tag: byte): Option<Op> {
    match tag
    case 0 => Some(Op.True)
    case 1 => Some(Op.False)
    case 3 => Some(Not)
    case 4 => Some(And)
    case 5 => Some(Or)
    case 6 => Some(Xor)
    case 7 => Some(Implies)
    case 8 => Some(Ite)
    case 9 => Some(Eq)
    case 10 => Some(Distinct)
    case 12 => Some(BvNot)
    case 13 => Some(BvAnd)
    case 14 => Some(BvOr)
    case 15 => Some(BvXor)
    case _ => None
  }

  function PlainOp1(tag: byte): Option<Op> {
    match tag
    case 16 => Some(BvAdd)
    case 17 => Some(BvSub)
    case 18 => Some(BvMul)
    case 19 => Some(BvUdiv)
    case 20 => Some(BvUrem)
    case 21 => Some(BvShl)
    case 22 => Some(BvLshr)
    case 23 => Some(BvAshr)
    case 24 => Some(BvUlt)
    case 25 => Some(BvUle)
    case 26 => Some(BvUgt)
    case 27 => Some(BvUge)
    case 28 => Some(BvSlt)
    case 29 => Some(BvSle)
    case 30 => Some(BvSgt)
    case 31 => Some(BvSge)
    case _ => None
  }

  function PlainOp2(tag: byte): Option<Op> {
    match tag
    case 32 => Some(BvNeg)
    case 33 => Some(BvConcat)
    case 37 => Some(Add)
    case 38 => Some(Sub)
    case 39 => Some(Mul)
    case 40 => Some(Div)
    case 41 => Some(Mod)
    case 42 => Some(Lt)
    case 43 => Some(Le)
    case 44 => Some(Gt)
    case 45 => Some(Ge)
    case 46 => Some(Select)
    case 47 => Some(Store)
    case _ => None
  }

  function PlainOp3(tag: byte): Option<Op> {
    match tag
    case 49 => Some(BvSdiv)
    case 50 => Some(BvSrem)
    case 51 => Some(BvSmod)
    case 52 => Some(BvNand)
    case 53 => Some(BvNor)
    case 54 => Some(BvXnor)
    case 60 => Some(Rem)
    case 61 => Some(Neg)
    case 62 => Some(ToReal)
    case 63 => Some(ToInt)
    case 64 => Some(IsInt)
    case _ => None
  }

  function Payload(op: Op): seq<byte> {
    match op
    case Var(name) => EncodeString(name)
    case Apply(name) => EncodeString(name)
    case BvConst(width, value) => EncodeU32(width) + EncodeNat(value)
    case BvExtract(high, low) => EncodeU32(high) + EncodeU32(low)
    case IntConst(i) => EncodeInt(i)
    case RealConst(numer, denom) => EncodeInt(numer) + EncodeInt(denom)
    case BvRotateLeft(n) => EncodeU32(n)
    case BvRotateRight(n) => EncodeU32(n)
    case BvSignExtend(n) => EncodeU32(n)
    case BvZeroExtend(n) => EncodeU32(n)
    case BvRepeat(n) => EncodeU32(n)
    case ConstArray(n) => EncodeU32(n)
    case _ => []
  }

  function EncodeOp(op: Op): seq<byte> { [TagOf(op)] + Payload(op) }

  function DecodeConst(data: seq<byte>, offset: nat): (r: Parsed<Op>)
    ensures r.Ok? ==> offset < r.next <= |data|
  {
    match DecodeU32(data, offset)
    case Err(e) => Err(e)
    case Ok(width, next) =>
      match DecodeNat(data, next)
      case Err(e) => Err(e)
      case Ok(value, last) => Ok(BvConst(width, value), last)
  }

  /** Both parts of a rational. A zero denominator, on which the constructor of rationals panics, is an
      error value here. */
  function DecodeRational(data: seq<byte>, offset: nat): (r: Parsed<Op>)
    ensures r.Ok? ==> offset < r.next <= |data|
  {
    match DecodeInt(data, offset)
    case Err(e) => Err(e)
    case Ok(numer, next) =>
      match DecodeInt(data, next)
      case Err(e) => Err(e)
      case Ok(denom, last) =>
        if denom == 0 then Err(ZeroDenominator)
        else
          var q := Reduce(numer, denom);
          Ok(RealConst(q.0, q.1), last)
  }

  function WithCount(tag: byte, n: nat): Option<Op> {
    match tag
    case 55 => Some(BvRotateLeft(n))
    case 56 => Some(BvRotateRight(n))
    case 57 => Some(BvSignExtend(n))
    case 58 => Some(BvZeroExtend(n))
    case 59 => Some(BvRepeat(n))
    case 65 => Some(ConstArray(n))
    case _ => None
  }

  function DecodeParameters(tag: byte, data: seq<byte>, offset: nat): (r: Parsed<Op>)
    ensures r.Ok? ==> offset < r.next <= |data|
  {
    if tag == 2 || tag == 48 then
      match DecodeString(data, offset)
      case Err(e) => Err(e)
      case Ok(name, next) => Ok(if tag == 2 then Var(name) else Apply(name), next)
    else if tag == 11 then DecodeConst(data, offset)
    else if tag == 34 then
      match DecodeTwo(data, offset)
      case Err(e) => Err(e)
      case Ok(p, next) => Ok(BvExtract(p.0, p.1), next)
    else if tag == 35 then
      match DecodeInt(data, offset)
      case Err(e) => Err(e)
      case Ok(i, next) => Ok(IntConst(i), next)
    else if tag == 36 then DecodeRational(data, offset)
    else if WithCount(tag, 0).Some? then
      match DecodeU32(data, offset)
      case Err(e) => Err(e)
      case Ok(n, next) => Ok(WithCount(tag, n).value, next)
    else Err(UnknownTag(tag))
  }

  function DecodeOp(data: seq<byte>, offset: nat): (r: Parsed<Op>)
    ensures r.Ok? ==> offset < r.next <= |data|
  {
    if offset >= |data| then Err(UnexpectedEnd)
    else
      var tag := data[offset];
      if PlainOp(tag).Some? then Ok(PlainOp(tag).value, offset + 1) else DecodeParameters(tag, data, offset + 1)
  }

  ghost predicate OpFits(op: Op) {
    match op
    case Var(name) => |name| < U32_LIMIT
    case Apply(name) => |name| < U32_LIMIT
    case BvConst(width, value) => width < U32_LIMIT && |BytesOf(value)| < U32_LIMIT
    case BvExtract(high, low) => high < U32_LIMIT && low < U32_LIMIT
    case IntConst(i) => |BytesOf(Magnitude(i))| < U32_LIMIT
    case RealConst(numer, denom) =>
      Reduced(numer, denom) && |BytesOf(Magnitude(numer))| < U32_LIMIT && |BytesOf(Magnitude(denom))| < U32_LIMIT
    case BvRotateLeft(n) => n < U32_LIMIT
    case BvRotateRight(n) => n < U32_LIMIT
    case BvSignExtend(n) => n < U32_LIMIT
    case BvZeroExtend(n) => n < U32_LIMIT
    case BvRepeat(n) => n < U32_LIMIT
    case ConstArray(n) => n < U32_LIMIT
    case _ => true
  }

  predicate Parametric(op: Op) {
    op.Var? || op.Apply? || op.BvConst? || op.BvExtract? || op.IntConst? || op.RealConst? || Counted(op)
  }

  predicate Counted(op: Op) {
    op.BvRotateLeft? || op.BvRotateRight? || op.BvSignExtend? || op.BvZeroExtend? || op.BvRepeat? || op.ConstArray?
  }

  /** The tag of an operator names it: no two operators without parameters share one, nor does one
      share it with an operator that has parameters. */
  lemma TagsIdentify(op: Op)
    ensures PlainOp(TagOf(op)) == if Parametric(op) then None else Some(op)
    ensures !Parametric(op) ==> Payload(op) == []
    ensures Counted(op) ==> WithCount(TagOf(op), op.n) == Some(op)
  {
    hide Payload, WithCount, TagOf, PlainOp0, PlainOp1, PlainOp2, PlainOp3;
    PayloadOf(op);
    CountOf(op);
    TagsIdentify0(op);
    TagsIdentify1(op);
    TagsIdentify2(op);
    TagsIdentify3(op);
  }

  lemma TagsIdentify0(op: Op)
    ensures TagOf(op) < 16 ==> PlainOp0(TagOf(op)) == if Parametric(op) then None else Some(op)
  {
  }

  lemma TagsIdentify1(op: Op)
    ensures 16 <= TagOf(op) < 32 ==> PlainOp1(TagOf(op)) == if Parametric(op) then None else Some(op)
  {
  }

  lemma TagsIdentify2(op: Op)
    ensures 32 <= TagOf(op) < 48 ==> PlainOp2(TagOf(op)) == if Parametric(op) then None else Some(op)
  {
  }

  lemma TagsIdentify3(op: Op)
    ensures 48 <= TagOf(op) ==> PlainOp3(TagOf(op)) == if Parametric(op) then None else Some(op)
  {
  }

  lemma PayloadOf(op: Op)
    ensures !Parametric(op) ==> Payload(op) == []
  {
  }

  lemma CountOf(op: Op)
    ensures Counted(op) ==> WithCount(TagOf(op), op.n) == Some(op)
  {
    hide PlainOp;
  }

  lemma ConstRoundTrip(data: seq<byte>, offset: nat, width: nat, value: nat)
    requires OpFits(BvConst(width, value)) && At(data, offset, EncodeU32(width) + EncodeNat(value))
    ensures DecodeConst(data, offset) == Ok(BvConst(width, value), offset + 4 + |EncodeNat(value)|)
  {
    hide EncodeU32, DecodeU32, EncodeNat, DecodeNat, At;
    AtSplit(data, offset, EncodeU32(width), EncodeNat(value));
    U32RoundTrip(data, offset, width);
    NatRoundTrip(data, offset + 4, value);
  }

  lemma RationalRoundTrip(data: seq<byte>, offset: nat, numer: int, denom: int)
    requires OpFits(RealConst(numer, denom)) && At(data, offset, EncodeInt(numer) + EncodeInt(denom))
    ensures DecodeRational(data, offset) == Ok(RealConst(numer, denom), offset + |EncodeInt(numer)| + |EncodeInt(denom)|)
  {
    hide EncodeInt, DecodeInt, At, Reduce;
    AtSplit(data, offset, EncodeInt(numer), EncodeInt(denom));
    IntRoundTrip(data, offset, numer);
    IntRoundTrip(data, offset + |EncodeInt(numer)|, denom);
    ReduceReduced(numer, denom);
  }

  lemma CountRoundTrip(data: seq<byte>, offset: nat, op: Op)
    requires Counted(op) && OpFits(op) && At(data, offset, Payload(op))
    ensures DecodeParameters(TagOf(op), data, offset) == Ok(op, offset + |Payload(op)|)
  {
    hide EncodeU32, DecodeU32, At;
    TagsIdentify(op);
    assert Payload(op) == EncodeU32(op.n);
    U32RoundTrip(data, offset, op.n);
  }

  lemma ParametersRoundTrip(data: seq<byte>, offset: nat, op: Op)
    requires Parametric(op) && OpFits(op) && At(data, offset, Payload(op))
    ensures DecodeParameters(TagOf(op), data, offset) == Ok(op, offset + |Payload(op)|)
  {
    hide EncodeU32, DecodeU32, EncodeString, DecodeString, EncodeNat, EncodeInt, DecodeInt, DecodeTwo, DecodeConst, DecodeRational, At;
    if op.Var? || op.Apply? {
      StringRoundTrip(data, offset, op.name);
    } else if op.BvConst? {
      ConstRoundTrip(data, offset, op.width, op.value);
    } else if op.BvExtract? {
      TwoRoundTrip(data, offset, op.high, op.low);
    } else if op.IntConst? {
      IntRoundTrip(data, offset, op.int_);
    } else if op.RealConst? {
      RationalRoundTrip(data, offset, op.numer, op.denom);
    } else {
      CountRoundTrip(data, offset, op);
    }
  }

  /** Reading an operator back. */
  lemma OpRoundTrip(data: seq<byte>, offset: nat, op: Op)
    requires OpFits(op) && At(data, offset, EncodeOp(op))
    ensures DecodeOp(data, offset) == Ok(op, offset + |EncodeOp(op)|)
  {
    hide TagOf, Payload, PlainOp, DecodeParameters, OpFits, At, WithCount;
    TagAt(data, offset, TagOf(op), Payload(op));
    TagsIdentify(op);
    if Parametric(op) { ParametersRoundTrip(data, offset + 1, op); }
  }
}
