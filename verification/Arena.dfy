/** Hash-consing arenas: every sort, and every operator with its arguments, is stored once. */
module Arenas {
  import opened BinaryFormat

  datatype TermData = TermData(op: Op, args: seq<nat>, sort: nat)

  class SortArena {
    var sorts: seq<Sort>
    var lookup: map<Sort, nat>

    ghost predicate Valid()
      reads this
    {
      && (forall s :: s in lookup ==> lookup[s] < |sorts| && sorts[lookup[s]] == s)
      && (forall i :: 0 <= i < |sorts| ==> sorts[i] in lookup && lookup[sorts[i]] == i)
    }

    constructor ()
      ensures Valid() && sorts == [Bool, Int, Real]
    {
      sorts := [Bool, Int, Real];
      lookup := map[Bool := 0, Int := 1, Real := 2];
    }

    /** The id of the sort; a sort that was not there is appended. */
    method Intern(s: Sort) returns (id: nat)
      requires Valid()
      modifies this
      ensures Valid() && id < |sorts| && sorts[id] == s
      ensures sorts == if s in old(sorts) then old(sorts) else old(sorts) + [s]
    {
      if s in lookup {
        id := lookup[s];
        assert s in sorts;
        return;
      }
      assert forall i :: 0 <= i < |sorts| ==> sorts[i] != s;
      id := |sorts|;
      sorts := sorts + [s];
      lookup := lookup[s := id];
    }

    /** Equal sorts have equal ids. */
    lemma Unique(i: nat, j: nat)
      requires Valid() && i < |sorts| && j < |sorts|
      ensures sorts[i] == sorts[j] <==> i == j
    {
      assert sorts[i] in lookup && sorts[j] in lookup;
    }
  }

  ghost predicate HasKey(terms: seq<TermData>, op: Op, args: seq<nat>) {
    exists i :: 0 <= i < |terms| && terms[i].op == op && terms[i].args == args
  }

  /** The table takes every operator with its arguments to its id. */
  ghost predicate Indexed(terms: seq<TermData>, lookup: map<(Op, seq<nat>), nat>) {
    && (forall k :: k in lookup ==> lookup[k] < |terms| && terms[lookup[k]].op == k.0 && terms[lookup[k]].args == k.1)
    && (forall i {:trigger terms[i]} :: 0 <= i < |terms| ==>
        (terms[i].op, terms[i].args) in lookup && lookup[(terms[i].op, terms[i].args)] == i)
  }

  lemma IndexedMore(terms: seq<TermData>, lookup: map<(Op, seq<nat>), nat>, t: TermData)
    requires Indexed(terms, lookup) && (t.op, t.args) !in lookup
    ensures Indexed(terms + [t], lookup[(t.op, t.args) := |terms|])
  {
  }

  lemma StartIndexed()
    ensures Indexed([], map[])
  {
  }

  class TermArena {
    var terms: seq<TermData>
    var lookup: map<(Op, seq<nat>), nat>

    ghost predicate Valid()
      reads this
    {
      Indexed(terms, lookup)
    }

    constructor ()
      ensures Valid() && terms == [TermData(Op.True, [], 0), TermData(Op.False, [], 0)]
    {
      hide Indexed;
      var yes, no := TermData(Op.True, [], 0), TermData(Op.False, [], 0);
      terms := [yes, no];
      lookup := map[(Op.True, []) := 0][(Op.False, []) := 1];
      StartIndexed();
      IndexedMore([], map[], yes);
      IndexedMore([yes], map[(Op.True, []) := 0], no);
      assert [yes] + [no] == [yes, no];
    }

    /** The id of the operator with these arguments. The sort only matters when the pair is new. */
    method Intern(op: Op, args: seq<nat>, sort: nat) returns (id: nat)
      requires Valid()
      modifies this
      ensures Valid() && id < |terms| && terms[id].op == op && terms[id].args == args
      ensures terms == if HasKey(old(terms), op, args) then old(terms) else old(terms) + [TermData(op, args, sort)]
    {
      var key := (op, args);
      if key in lookup {
        id := lookup[key];
        return;
      }
      forall i | 0 <= i < |terms| ensures !(terms[i].op == op && terms[i].args == args) {
        assert (terms[i].op, terms[i].args) in lookup;
      }
      id := |terms|;
      terms := terms + [TermData(op, args, sort)];
      lookup := lookup[key := id];
    }

    /** No two terms have one operator and the same arguments. */
    lemma Unique(i: nat, j: nat)
      requires Valid() && i < |terms| && j < |terms|
      ensures terms[i].op == terms[j].op && terms[i].args == terms[j].args <==> i == j
    {
      assert lookup[(terms[i].op, terms[i].args)] == i && lookup[(terms[j].op, terms[j].args)] == j;
    }
  }
}
