/** Whole files of the binary format: the tables of sorts and terms, then the commands. */
module BinaryCodec {
  import opened Lits
  import opened BinaryFormat
  import opened Arenas

  /** Commands the format has a tag for; every other kind is written as a tag that is skipped. */
  datatype Command =
    | SetLogic(logic: seq<byte>)
    | DeclareConst(name: seq<byte>, sort: nat)
    | Assert(term: nat)
    | CheckSat
    | GetModel
    | Exit
    | DeclareFun(name: seq<byte>, args: seq<nat>, ret: nat)
    | DeclareSort(name: seq<byte>, arity: nat)
    | OtherCommand

  // ---------- what is written ----------

  function U32s(list: seq<nat>): seq<byte>
    decreases |list|
  {
    if list == [] then [] else EncodeU32(list[0]) + U32s(list[1..])
  }

  function CommandBytes(c: Command): (r: seq<byte>)
    ensures |r| > 0
  {
    match c
    case SetLogic(l) => [1] + EncodeString(l)
    case DeclareConst(name, sort) => [2] + (EncodeString(name) + EncodeU32(sort))
    case Assert(term) => [3] + EncodeU32(term)
    case CheckSat => [4]
    case GetModel => [5]
    case Exit => [6]
    case DeclareFun(name, args, ret) => [7] + (EncodeString(name) + (EncodeU32(|args|) + (U32s(args) + EncodeU32(ret))))
    case DeclareSort(name, arity) => [8] + (EncodeString(name) + EncodeU32(arity))
    case OtherCommand => [0]
  }

  function TermBytes(t: TermData): seq<byte> {
    EncodeU32(t.sort) + (EncodeU32(|t.args|) + (U32s(t.args) + EncodeOp(t.op)))
  }

  function SortsFrom(sorts: seq<Sort>, k: nat): seq<byte>
    requires k <= |sorts|
    decreases |sorts| - k
  {
    if k == |sorts| then [] else EncodeSort(sorts[k]) + SortsFrom(sorts, k + 1)
  }

  function TermsFrom(terms: seq<TermData>, k: nat): seq<byte>
    requires k <= |terms|
    decreases |terms| - k
  {
    if k == |terms| then [] else TermBytes(terms[k]) + TermsFrom(terms, k + 1)
  }

  function CommandsFrom(cmds: seq<Command>, k: nat): seq<byte>
    requires k <= |cmds|
    decreases |cmds| - k
  {
    if k == |cmds| then [] else CommandBytes(cmds[k]) + CommandsFrom(cmds, k + 1)
  }

  /** The file: header, sorts from the fourth on, terms from the third on, commands. */
  function Image(sorts: seq<Sort>, terms: seq<TermData>, cmds: seq<Command>): seq<byte>
    requires |sorts| >= 3 && |terms| >= 2
  {
    (MAGIC + [VERSION]) + (EncodeU32(|sorts| - 3) + (SortsFrom(sorts, 3)
      + (EncodeU32(|terms| - 2) + (TermsFrom(terms, 2) + (EncodeU32(|cmds|) + CommandsFrom(cmds, 0))))))
  }

  // ---------- writing ----------

  method WriteU32s(buf0: seq<byte>, list: seq<nat>) returns (buf: seq<byte>)
    ensures buf == buf0 + U32s(list)
  {
    buf := buf0;
    var i := 0;
    while i < |list|
      invariant i <= |list| && buf + U32s(list[i..]) == buf0 + U32s(list)
    {
      assert list[i..][1..] == list[i + 1..];
      buf := buf + EncodeU32(list[i]);
      i := i + 1;
    }
    assert list[i..] == [];
  }

  method WriteCommand(buf0: seq<byte>, c: Command) returns (buf: seq<byte>)
    ensures buf == buf0 + CommandBytes(c)
  {
    hide EncodeU32, EncodeString, U32s;
    match c {
      case SetLogic(l) =>
        buf := buf0 + [1] + EncodeString(l);
        Regroup(buf0, [1], EncodeString(l), [], []);
      case DeclareConst(name, sort) =>
        buf := buf0 + [2] + EncodeString(name) + EncodeU32(sort);
        Regroup(buf0, [2], EncodeString(name), EncodeU32(sort), []);
      case Assert(term) =>
        buf := buf0 + [3] + EncodeU32(term);
        Regroup(buf0, [3], EncodeU32(term), [], []);
      case CheckSat => buf := buf0 + [4];
      case GetModel => buf := buf0 + [5];
      case Exit => buf := buf0 + [6];
      case DeclareFun(name, args, ret) => buf := WriteFunction(buf0, name, args, ret);
      case DeclareSort(name, arity) =>
        buf := buf0 + [8] + EncodeString(name) + EncodeU32(arity);
        Regroup(buf0, [8], EncodeString(name), EncodeU32(arity), []);
      case OtherCommand => buf := buf0 + [0];
    }
  }

  method WriteFunction(buf0: seq<byte>, name: seq<byte>, args: seq<nat>, ret: nat) returns (buf: seq<byte>)
    ensures buf == buf0 + CommandBytes(DeclareFun(name, args, ret))
  {
    hide EncodeU32, EncodeString, U32s;
    buf := buf0 + [7] + EncodeString(name) + EncodeU32(|args|);
    buf := WriteU32s(buf, args);
    buf := buf + EncodeU32(ret);
    Regroup(buf0 + [7], EncodeString(name), EncodeU32(|args|), U32s(args), EncodeU32(ret));
    Regroup(buf0, [7], EncodeString(name) + (EncodeU32(|args|) + (U32s(args) + EncodeU32(ret))), [], []);
  }

  /** Pushing one after another is concatenation. */
  lemma Regroup(a: seq<byte>, b: seq<byte>, c: seq<byte>, d: seq<byte>, e: seq<byte>)
    ensures a + b + c + d + e == a + (b + (c + (d + e)))
    ensures d == [] && e == [] ==> a + b + c == a + (b + c)
    ensures e == [] ==> a + b + c + d == a + (b + (c + d))
  {
    assert d == [] && e == [] ==> c + (d + e) == c;
    assert e == [] ==> d + e == d;
  }

  /** Writes the arenas and the commands. */
  method EncodeCommands(sorts: SortArena, terms: TermArena, cmds: seq<Command>) returns (buf: seq<byte>)
    requires |sorts.sorts| >= 3 && |terms.terms| >= 2
    ensures buf == Image(sorts.sorts, terms.terms, cmds)
  {
    hide EncodeU32, EncodeSort, EncodeOp, CommandBytes, U32s;
    var ss, ts := sorts.sorts, terms.terms;
    buf := MAGIC + [VERSION] + EncodeU32(|ss| - 3);
    ghost var start := buf;
    var s := 3;
    while s < |ss|
      invariant 3 <= s <= |ss| && buf + SortsFrom(ss, s) == start + SortsFrom(ss, 3)
    {
      buf := buf + EncodeSort(ss[s]);
      s := s + 1;
    }
    assert buf == start + SortsFrom(ss, 3);
    buf := buf + EncodeU32(|ts| - 2);
    ghost var middle := buf;
    var t := 2;
    while t < |ts|
      invariant 2 <= t <= |ts| && buf + TermsFrom(ts, t) == middle + TermsFrom(ts, 2)
    {
      var term := ts[t];
      ghost var before := buf;
      buf := buf + EncodeU32(term.sort) + EncodeU32(|term.args|);
      buf := WriteU32s(buf, term.args);
      buf := buf + EncodeOp(term.op);
      assert buf == before + TermBytes(term);
      t := t + 1;
    }
    assert buf == middle + TermsFrom(ts, 2);
    buf := buf + EncodeU32(|cmds|);
    ghost var last := buf;
    var c := 0;
    while c < |cmds|
      invariant c <= |cmds| && buf + CommandsFrom(cmds, c) == last + CommandsFrom(cmds, 0)
    {
      buf := WriteCommand(buf, cmds[c]);
      c := c + 1;
    }
    assert buf == last + CommandsFrom(cmds, 0);
    Regroup(middle, TermsFrom(ts, 2), EncodeU32(|cmds|), CommandsFrom(cmds, 0), []);
    Regroup(MAGIC + [VERSION], EncodeU32(|ss| - 3), SortsFrom(ss, 3), EncodeU32(|ts| - 2),
            TermsFrom(ts, 2) + (EncodeU32(|cmds|) + CommandsFrom(cmds, 0)));
  }

  // ---------- what can be read back ----------

  ghost predicate AllFit(list: seq<nat>) { |list| < U32_LIMIT && forall k :: 0 <= k < |list| ==> list[k] < U32_LIMIT }

  ghost predicate CommandFits(c: Command) {
    match c
    case SetLogic(l) => |l| < U32_LIMIT
    case DeclareConst(name, sort) => |name| < U32_LIMIT && sort < U32_LIMIT
    case Assert(term) => term < U32_LIMIT
    case DeclareFun(name, args, ret) => |name| < U32_LIMIT && AllFit(args) && ret < U32_LIMIT
    case DeclareSort(name, arity) => |name| < U32_LIMIT && arity < U32_LIMIT
    case _ => true
  }

  ghost predicate TermFits(t: TermData) { t.sort < U32_LIMIT && AllFit(t.args) && OpFits(t.op) }

  /** Tables as hash-consing makes them, every number within 32 bits. */
  ghost predicate SortsOk(sorts: seq<Sort>) {
    && 3 <= |sorts| < U32_LIMIT && sorts[..3] == [Bool, Int, Real]
    && (forall i, j :: 0 <= i < j < |sorts| ==> sorts[i] != sorts[j])
    && (forall i :: 0 <= i < |sorts| ==> SortFits(sorts[i]))
  }

  ghost predicate TermsOk(terms: seq<TermData>) {
    && 2 <= |terms| < U32_LIMIT && terms[..2] == [TermData(Op.True, [], 0), TermData(Op.False, [], 0)]
    && (forall i, j :: 0 <= i < j < |terms| ==> terms[i].op != terms[j].op || terms[i].args != terms[j].args)
    && (forall i :: 0 <= i < |terms| ==> TermFits(terms[i]))
  }

  ghost predicate CommandsOk(cmds: seq<Command>) {
    |cmds| < U32_LIMIT && forall i :: 0 <= i < |cmds| ==> CommandFits(cmds[i])
  }

  /** The commands that have a tag. */
  ghost function Kept(cmds: seq<Command>): seq<Command>
    decreases |cmds|
  {
    if cmds == [] then []
    else
      var n := |cmds| - 1;
      Kept(cmds[..n]) + if cmds[n].OtherCommand? then [] else [cmds[n]]
  }

  // ---------- reading ----------

  /** Reads `count` numbers. */
  method ReadU32s(data: seq<byte>, offset0: nat, count: nat, ghost list: seq<nat>) returns (r: Parsed<seq<nat>>)
    ensures r.Ok? ==> offset0 <= r.next && (r.next <= |data| || count == 0)
    ensures count == |list| && AllFit(list) && At(data, offset0, U32s(list)) ==> r == Ok(list, offset0 + |U32s(list)|)
  {
    hide EncodeU32, DecodeU32, At;
    var args: seq<nat> := [];
    var offset := offset0;
    ghost var good := count == |list| && AllFit(list) && At(data, offset0, U32s(list));
    assert list[0..] == list;
    while |args| < count
      invariant |args| <= count && offset0 <= offset && (offset <= |data| || args == [])
      invariant good ==> args == list[..|args|] && At(data, offset, U32s(list[|args|..]))
                         && offset + |U32s(list[|args|..])| == offset0 + |U32s(list)|
      decreases count - |args|
    {
      ghost var k := |args|;
      if good {
        assert list[k..][1..] == list[k + 1..];
        AtSplit(data, offset, EncodeU32(list[k]), U32s(list[k + 1..]));
        U32RoundTrip(data, offset, list[k]);
      }
      var x := DecodeU32(data, offset);
      if x.Err? { return Err(x.error); }
      args := args + [x.value];
      offset := x.next;
    }
    assert good ==> list[|args|..] == [] && list[..|args|] == list && U32s([]) == [];
    r := Ok(args, offset);
  }

  /** One command; a tag without meaning is skipped. */
  method ReadCommand(data: seq<byte>, offset: nat, ghost c: Command) returns (r: Parsed<Option<Command>>)
    requires offset < |data|
    ensures r.Ok? ==> offset < r.next <= |data|
    ensures CommandFits(c) && At(data, offset, CommandBytes(c)) ==>
      r == Ok(if c.OtherCommand? then None else Some(c), offset + |CommandBytes(c)|)
  {
    hide EncodeU32, DecodeU32, EncodeString, DecodeString, At, U32s;
    var tag := data[offset];
    ghost var good := CommandFits(c) && At(data, offset, CommandBytes(c));
    if good { CommandTagAt(data, offset, c); }
    if tag == 1 {
      if good { StringRoundTrip(data, offset + 1, c.logic); }
      var l := DecodeString(data, offset + 1);
      r := if l.Err? then Err(l.error) else Ok(Some(SetLogic(l.value)), l.next);
    } else if tag == 2 {
      r := ReadNamed(data, offset + 1, false, if good then c else CheckSat);
    } else if tag == 3 {
      if good { U32RoundTrip(data, offset + 1, c.term); }
      var x := DecodeU32(data, offset + 1);
      r := if x.Err? then Err(x.error) else Ok(Some(Assert(x.value)), x.next);
    } else if tag == 4 {
      r := Ok(Some(CheckSat), offset + 1);
    } else if tag == 5 {
      r := Ok(Some(GetModel), offset + 1);
    } else if tag == 6 {
      r := Ok(Some(Exit), offset + 1);
    } else if tag == 7 {
      r := ReadFunction(data, offset + 1, if good then c else CheckSat);
    } else if tag == 8 {
      r := ReadNamed(data, offset + 1, true, if good then c else CheckSat);
    } else {
      r := Ok(None, offset + 1);
    }
  }

  function CommandTag(c: Command): byte {
    match c
    case SetLogic(_) => 1
    case DeclareConst(_, _) => 2
    case Assert(_) => 3
    case CheckSat => 4
    case GetModel => 5
    case Exit => 6
    case DeclareFun(_, _, _) => 7
    case DeclareSort(_, _) => 8
    case OtherCommand => 0
  }

  /** What follows the tag. */
  function CommandRest(c: Command): seq<byte> {
    match c
    case SetLogic(l) => EncodeString(l)
    case DeclareConst(name, sort) => EncodeString(name) + EncodeU32(sort)
    case Assert(term) => EncodeU32(term)
    case DeclareFun(name, args, ret) => EncodeString(name) + (EncodeU32(|args|) + (U32s(args) + EncodeU32(ret)))
    case DeclareSort(name, arity) => EncodeString(name) + EncodeU32(arity)
    case _ => []
  }

  lemma CommandTagAt(data: seq<byte>, offset: nat, c: Command)
    requires At(data, offset, CommandBytes(c))
    ensures offset < |data| && data[offset] == CommandTag(c) && At(data, offset + 1, CommandRest(c))
    ensures |CommandBytes(c)| == 1 + |CommandRest(c)|
    ensures offset + |CommandBytes(c)| <= |data|
  {
    hide EncodeU32, EncodeString, U32s;
    assert CommandBytes(c) == [CommandTag(c)] + CommandRest(c);
    TagAt(data, offset, CommandTag(c), CommandRest(c));
  }

  /** A name and a number: a constant with its sort, or a sort with its arity. */
  method ReadNamed(data: seq<byte>, offset: nat, isSort: bool, ghost c: Command) returns (r: Parsed<Option<Command>>)
    ensures r.Ok? ==> offset < r.next <= |data|
    ensures CommandFits(c) && (if isSort then c.DeclareSort? else c.DeclareConst?) && At(data, offset, CommandRest(c)) ==>
      r == Ok(Some(c), offset + |CommandRest(c)|)
  {
    hide EncodeU32, DecodeU32, EncodeString, DecodeString, At;
    ghost var good := CommandFits(c) && (if isSort then c.DeclareSort? else c.DeclareConst?) && At(data, offset, CommandRest(c));
    if good {
      ghost var n := if isSort then c.arity else c.sort;
      AtSplit(data, offset, EncodeString(c.name), EncodeU32(n));
      StringRoundTrip(data, offset, c.name);
      U32RoundTrip(data, offset + |EncodeString(c.name)|, n);
    }
    var name := DecodeString(data, offset);
    if name.Err? { return Err(name.error); }
    var x := DecodeU32(data, name.next);
    if x.Err? { return Err(x.error); }
    r := Ok(Some(if isSort then DeclareSort(name.value, x.value) else DeclareConst(name.value, x.value)), x.next);
  }

  method ReadFunction(data: seq<byte>, offset: nat, ghost c: Command) returns (r: Parsed<Option<Command>>)
    ensures r.Ok? ==> offset < r.next <= |data|
    ensures CommandFits(c) && c.DeclareFun? && At(data, offset, CommandRest(c)) ==> r == Ok(Some(c), offset + |CommandRest(c)|)
  {
    hide EncodeU32, DecodeU32, EncodeString, DecodeString, At, U32s;
    ghost var good := CommandFits(c) && c.DeclareFun? && At(data, offset, CommandRest(c));
    ghost var args := if good then c.args else [];
    if good {
      ghost var o1 := offset + |EncodeString(c.name)|;
      AtSplit(data, offset, EncodeString(c.name), EncodeU32(|args|) + (U32s(args) + EncodeU32(c.ret)));
      AtSplit(data, o1, EncodeU32(|args|), U32s(args) + EncodeU32(c.ret));
      AtSplit(data, o1 + 4, U32s(args), EncodeU32(c.ret));
      StringRoundTrip(data, offset, c.name);
      U32RoundTrip(data, o1, |args|);
      U32RoundTrip(data, o1 + 4 + |U32s(args)|, c.ret);
    }
    var name := DecodeString(data, offset);
    if name.Err? { return Err(name.error); }
    var count := DecodeU32(data, name.next);
    if count.Err? { return Err(count.error); }
    var list := ReadU32s(data, count.next, count.value, args);
    if list.Err? { return Err(list.error); }
    var ret := DecodeU32(data, list.next);
    if ret.Err? { return Err(ret.error); }
    r := Ok(Some(DeclareFun(name.value, list.value, ret.value)), ret.next);
  }

  /** One term: its sort, its arguments and its operator. */
  method ReadTerm(data: seq<byte>, offset: nat, ghost t: TermData) returns (r: Parsed<TermData>)
    ensures r.Ok? ==> offset < r.next <= |data|
    ensures TermFits(t) && At(data, offset, TermBytes(t)) ==> r == Ok(t, offset + |TermBytes(t)|)
  {
    hide EncodeU32, DecodeU32, EncodeOp, DecodeOp, At, U32s, OpFits;
    ghost var good := TermFits(t) && At(data, offset, TermBytes(t));
    if good {
      AtSplit(data, offset, EncodeU32(t.sort), EncodeU32(|t.args|) + (U32s(t.args) + EncodeOp(t.op)));
      AtSplit(data, offset + 4, EncodeU32(|t.args|), U32s(t.args) + EncodeOp(t.op));
      AtSplit(data, offset + 8, U32s(t.args), EncodeOp(t.op));
      U32RoundTrip(data, offset, t.sort);
      U32RoundTrip(data, offset + 4, |t.args|);
      OpRoundTrip(data, offset + 8 + |U32s(t.args)|, t.op);
    }
    var sort := DecodeU32(data, offset);
    if sort.Err? { return Err(sort.error); }
    var count := DecodeU32(data, sort.next);
    if count.Err? { return Err(count.error); }
    var args := ReadU32s(data, count.next, count.value, if good then t.args else []);
    if args.Err? { return Err(args.error); }
    var op := DecodeOp(data, args.next);
    if op.Err? { return Err(op.error); }
    r := Ok(TermData(op.value, args.value, sort.value), op.next);
  }

  /** A file to be read: tables and commands, and where its sections start. */
  datatype File = File(sorts: seq<Sort>, terms: seq<TermData>, cmds: seq<Command>)

  ghost predicate FileOk(f: File) { SortsOk(f.sorts) && TermsOk(f.terms) && CommandsOk(f.cmds) }

  class BinaryDecoder {
    const sorts: SortArena
    const terms: TermArena

    constructor (sorts: SortArena, terms: TermArena)
      ensures this.sorts == sorts && this.terms == terms
    {
      this.sorts := sorts;
      this.terms := terms;
    }

    /** The section of sorts, interned in order: fresh sorts get the ids they had. */
    method DecodeSorts(data: seq<byte>, offset0: nat, ghost f: File) returns (r: Parsed<()>)
      requires sorts.Valid()
      modifies sorts
      ensures sorts.Valid() && old(sorts.sorts) <= sorts.sorts
      ensures r.Ok? ==> offset0 < r.next <= |data|
      ensures FileOk(f) && old(sorts.sorts) == f.sorts[..3] && At(data, offset0, EncodeU32(|f.sorts| - 3) + SortsFrom(f.sorts, 3)) ==>
        r == Ok((), offset0 + 4 + |SortsFrom(f.sorts, 3)|) && sorts.sorts == f.sorts
    {
      hide EncodeU32, DecodeU32, EncodeSort, DecodeSort, At, TermsOk, CommandsOk, SortFits, SortArena.Valid;
      ghost var good := FileOk(f) && old(sorts.sorts) == f.sorts[..3] && At(data, offset0, EncodeU32(|f.sorts| - 3) + SortsFrom(f.sorts, 3));
      if good {
        AtSplit(data, offset0, EncodeU32(|f.sorts| - 3), SortsFrom(f.sorts, 3));
        U32RoundTrip(data, offset0, |f.sorts| - 3);
      }
      var count := DecodeU32(data, offset0);
      if count.Err? { return Err(count.error); }
      var offset := count.next;
      var k := 0;
      while k < count.value
        invariant k <= count.value && sorts.Valid() && old(sorts.sorts) <= sorts.sorts && offset0 < offset <= |data|
        invariant good ==> count.value == |f.sorts| - 3 && sorts.sorts == f.sorts[..3 + k]
        invariant good ==> At(data, offset, SortsFrom(f.sorts, 3 + k))
        invariant good ==> offset + |SortsFrom(f.sorts, 3 + k)| == offset0 + 4 + |SortsFrom(f.sorts, 3)|
      {
        if good {
          AtSplit(data, offset, EncodeSort(f.sorts[3 + k]), SortsFrom(f.sorts, 4 + k));
          SortRoundTrip(data, offset, f.sorts[3 + k]);
          NewSort(f.sorts, 3 + k);
        }
        var s := DecodeSort(data, offset);
        if s.Err? { return Err(s.error); }
        var id := sorts.Intern(s.value);
        offset := s.next;
        k := k + 1;
      }
      r := Ok((), offset);
      assert good ==> f.sorts[..3 + k] == f.sorts;
    }

    method DecodeTerms(data: seq<byte>, offset0: nat, ghost f: File) returns (r: Parsed<()>)
      requires terms.Valid()
      modifies terms
      ensures terms.Valid() && old(terms.terms) <= terms.terms
      ensures r.Ok? ==> offset0 < r.next <= |data|
      ensures FileOk(f) && old(terms.terms) == f.terms[..2] && At(data, offset0, EncodeU32(|f.terms| - 2) + TermsFrom(f.terms, 2)) ==>
        r == Ok((), offset0 + 4 + |TermsFrom(f.terms, 2)|) && terms.terms == f.terms
    {
      hide EncodeU32, DecodeU32, TermBytes, At, SortsOk, CommandsOk, TermFits, TermArena.Valid;
      ghost var good := FileOk(f) && old(terms.terms) == f.terms[..2] && At(data, offset0, EncodeU32(|f.terms| - 2) + TermsFrom(f.terms, 2));
      if good {
        AtSplit(data, offset0, EncodeU32(|f.terms| - 2), TermsFrom(f.terms, 2));
        U32RoundTrip(data, offset0, |f.terms| - 2);
      }
      var count := DecodeU32(data, offset0);
      if count.Err? { return Err(count.error); }
      var offset := count.next;
      var k := 0;
      while k < count.value
        invariant k <= count.value && terms.Valid() && old(terms.terms) <= terms.terms && offset0 < offset <= |data|
        invariant good ==> count.value == |f.terms| - 2 && terms.terms == f.terms[..2 + k]
        invariant good ==> At(data, offset, TermsFrom(f.terms, 2 + k))
        invariant good ==> offset + |TermsFrom(f.terms, 2 + k)| == offset0 + 4 + |TermsFrom(f.terms, 2)|
      {
        if good {
          AtSplit(data, offset, TermBytes(f.terms[2 + k]), TermsFrom(f.terms, 3 + k));
          NewTerm(f.terms, 2 + k);
        }
        var t := ReadTerm(data, offset, if good then f.terms[2 + k] else TermData(Op.True, [], 0));
        if t.Err? { return Err(t.error); }
        var id := terms.Intern(t.value.op, t.value.args, t.value.sort);
        offset := t.next;
        k := k + 1;
      }
      r := Ok((), offset);
      assert good ==> f.terms[..2 + k] == f.terms;
    }

    /** Reads a file. Whatever the bytes, the arenas stay hash-consed and only grow. The bytes of a
        file give its tables back with every id unchanged, and the commands that have a tag. */
    method DecodeCommands(data: seq<byte>, ghost f: File) returns (r: Parsed<seq<Command>>)
      requires sorts.Valid() && terms.Valid()
      modifies sorts, terms
      ensures sorts.Valid() && terms.Valid() && old(sorts.sorts) <= sorts.sorts && old(terms.terms) <= terms.terms
      ensures FileOk(f) && data == Image(f.sorts, f.terms, f.cmds) && old(sorts.sorts) == f.sorts[..3] && old(terms.terms) == f.terms[..2] ==>
        r == Ok(Kept(f.cmds), |data|) && sorts.sorts == f.sorts && terms.terms == f.terms
      ensures |data| < 5 || data[..4] != MAGIC ==> r == Err(BadHeader)
      ensures |data| >= 5 && data[..4] == MAGIC && data[4] != VERSION ==> r == Err(BadVersion(data[4]))
    {
      hide EncodeU32, DecodeU32, At, SortsOk, TermsOk, SortArena.Valid, TermArena.Valid, SortsFrom, TermsFrom, CommandsFrom;
      if FileOk(f) { FileSizes(f); }
      ghost var good := FileOk(f) && data == Image(f.sorts, f.terms, f.cmds) && old(sorts.sorts) == f.sorts[..3] && old(terms.terms) == f.terms[..2];
      if |data| < 5 || data[..4] != MAGIC { return Err(BadHeader); }
      if data[4] != VERSION { return Err(BadVersion(data[4])); }
      if good { Sections(data, f); }
      var sorted := DecodeSorts(data, 5, f);
      if sorted.Err? { return Err(sorted.error); }
      var termed := DecodeTerms(data, sorted.next, f);
      if termed.Err? { return Err(termed.error); }
      var count := DecodeU32(data, termed.next);
      if count.Err? { return Err(count.error); }
      r := ReadCommands(data, count.next, count.value, if good then f.cmds else []);
    }
  }

  lemma FileSizes(f: File)
    requires FileOk(f)
    ensures |f.sorts| >= 3 && |f.terms| >= 2
  {
  }

  lemma NewSort(sorts: seq<Sort>, k: nat)
    requires SortsOk(sorts) && k < |sorts|
    ensures sorts[k] !in sorts[..k] && sorts[..k] + [sorts[k]] == sorts[..k + 1] && SortFits(sorts[k])
  {
  }

  lemma NewTerm(terms: seq<TermData>, k: nat)
    requires TermsOk(terms) && k < |terms|
    ensures !HasKey(terms[..k], terms[k].op, terms[k].args) && TermFits(terms[k])
    ensures terms[..k] + [TermData(terms[k].op, terms[k].args, terms[k].sort)] == terms[..k + 1]
  {
    forall i | 0 <= i < |terms[..k]| ensures !(terms[..k][i].op == terms[k].op && terms[..k][i].args == terms[k].args) {
      assert terms[..k][i] == terms[i];
    }
  }

  /** Where the sections of a file stand. */
  lemma Sections(data: seq<byte>, f: File)
    requires FileOk(f) && data == Image(f.sorts, f.terms, f.cmds)
    ensures |data| >= 5 && data[..4] == MAGIC && data[4] == VERSION && |f.sorts| >= 3 && |f.terms| >= 2
    ensures At(data, 5, EncodeU32(|f.sorts| - 3) + SortsFrom(f.sorts, 3))
    ensures At(data, 9 + |SortsFrom(f.sorts, 3)|, EncodeU32(|f.terms| - 2) + TermsFrom(f.terms, 2))
    ensures var o := 13 + |SortsFrom(f.sorts, 3)| + |TermsFrom(f.terms, 2)|;
            DecodeU32(data, o) == Ok(|f.cmds|, o + 4) && At(data, o + 4, CommandsFrom(f.cmds, 0))
            && o + 4 + |CommandsFrom(f.cmds, 0)| == |data|
  {
    hide EncodeU32, DecodeU32, At, SortsFrom, TermsFrom, CommandsFrom;
    var a, b := EncodeU32(|f.sorts| - 3), SortsFrom(f.sorts, 3);
    var c, d := EncodeU32(|f.terms| - 2), TermsFrom(f.terms, 2);
    var e, g := EncodeU32(|f.cmds|), CommandsFrom(f.cmds, 0);
    var head := MAGIC + [VERSION];
    WholeAt(data);
    AtSplit(data, 0, head, a + (b + (c + (d + (e + g)))));
    HeadAt(data, head);
    AtSplit(data, 5, a, b + (c + (d + (e + g))));
    AtSplit(data, 9, b, c + (d + (e + g)));
    AtSplit(data, 5, a, b);
    var o := 9 + |b|;
    AtSplit(data, o, c, d + (e + g));
    AtSplit(data, o + 4, d, e + g);
    AtSplit(data, o, c, d);
    AtSplit(data, o + 4 + |d|, e, g);
    U32RoundTrip(data, o + 4 + |d|, |f.cmds|);
  }

  lemma WholeAt(data: seq<byte>)
    ensures At(data, 0, data)
  {
  }

  lemma HeadAt(data: seq<byte>, head: seq<byte>)
    requires head == MAGIC + [VERSION] && At(data, 0, head)
    ensures |data| >= 5 && data[..4] == MAGIC && data[4] == VERSION
  {
    assert data[..5] == head;
    assert data[..4] == data[..5][..4] && data[4] == data[..5][4];
  }

  /** The commands, as many as announced or as many as the data holds. */
  method ReadCommands(data: seq<byte>, offset0: nat, count: nat, ghost cmds: seq<Command>) returns (r: Parsed<seq<Command>>)
    ensures r.Ok? ==> offset0 <= r.next
    ensures count == |cmds| && CommandsOk(cmds) && At(data, offset0, CommandsFrom(cmds, 0)) ==>
      r == Ok(Kept(cmds), offset0 + |CommandsFrom(cmds, 0)|)
  {
    hide CommandBytes, At, CommandFits;
    ghost var good := count == |cmds| && CommandsOk(cmds) && At(data, offset0, CommandsFrom(cmds, 0));
    var commands: seq<Command> := [];
    var offset := offset0;
    var k := 0;
    assert cmds[..0] == [];
    while k < count
      invariant k <= count && offset0 <= offset
      invariant good ==> commands == Kept(cmds[..k]) && At(data, offset, CommandsFrom(cmds, k))
                         && offset + |CommandsFrom(cmds, k)| == offset0 + |CommandsFrom(cmds, 0)|
    {
      if good {
        AtSplit(data, offset, CommandBytes(cmds[k]), CommandsFrom(cmds, k + 1));
        AtInside(data, offset, CommandBytes(cmds[k]));
        assert cmds[..k + 1][..k] == cmds[..k];
      }
      if offset >= |data| { break; }
      var c := ReadCommand(data, offset, if good then cmds[k] else CheckSat);
      if c.Err? { return Err(c.error); }
      if c.value.Some? { commands := commands + [c.value.value]; }
      offset := c.next;
      k := k + 1;
    }
    assert good ==> cmds[..k] == cmds;
    r := Ok(commands, offset);
  }

  lemma AtInside(data: seq<byte>, offset: nat, bytes: seq<byte>)
    requires At(data, offset, bytes) && |bytes| > 0
    ensures offset < |data|
  {
  }

  /** Writing hash-consed arenas and commands and reading the bytes into fresh arenas reproduces both
      tables, id for id, and every command that has a tag, to the last byte. */
  method RoundTrip(sorts: SortArena, terms: TermArena, cmds: seq<Command>)
    returns (sorts': SortArena, terms': TermArena, r: Parsed<seq<Command>>)
    requires SortsOk(sorts.sorts) && TermsOk(terms.terms) && CommandsOk(cmds)
    ensures fresh(sorts') && fresh(terms') && sorts'.Valid() && terms'.Valid()
    ensures sorts'.sorts == sorts.sorts && terms'.terms == terms.terms
    ensures r.Ok? && r.value == Kept(cmds) && r.next == |Image(sorts.sorts, terms.terms, cmds)|
    ensures (forall k :: 0 <= k < |cmds| ==> !cmds[k].OtherCommand?) ==> r.value == cmds
  {
    hide Image, SortArena.Valid, TermArena.Valid;
    var buf := EncodeCommands(sorts, terms, cmds);
    sorts' := new SortArena();
    terms' := new TermArena();
    var decoder := new BinaryDecoder(sorts', terms');
    r := decoder.DecodeCommands(buf, File(sorts.sorts, terms.terms, cmds));
    if forall k :: 0 <= k < |cmds| ==> !cmds[k].OtherCommand? { AllKept(cmds); }
  }

  lemma {:induction false} AllKept(cmds: seq<Command>)
    requires forall k :: 0 <= k < |cmds| ==> !cmds[k].OtherCommand?
    ensures Kept(cmds) == cmds
    decreases |cmds|
  {
    if cmds != [] {
      var n := |cmds| - 1;
      AllKept(cmds[..n]);
      assert cmds[..n] + [cmds[n]] == cmds;
    }
  }
}
