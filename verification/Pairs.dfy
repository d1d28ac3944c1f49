/** Pairs of different argument positions, in the order in which two nested loops meet them. */
module ArgumentPairs {

  /** The pairs of different positions up to position `i` paired with those before `j`. */
  ghost predicate Paired(args: seq<nat>, pairs: seq<(nat, nat)>, i: nat, j: nat) {
    && (forall k :: 0 <= k < |pairs| ==> IsPair(args, pairs[k]))
    && forall x, y :: 0 <= x < y < |args| && (x < i || (x == i && y < j)) ==> (args[x], args[y]) in pairs
  }

  ghost predicate IsPair(args: seq<nat>, p: (nat, nat)) {
    exists x, y :: 0 <= x < y < |args| && p == (args[x], args[y])
  }

  lemma PairedNext(args: seq<nat>, pairs: seq<(nat, nat)>, i: nat, j: nat)
    requires Paired(args, pairs, i, j) && i < j < |args|
    ensures Paired(args, pairs + [(args[i], args[j])], i, j + 1)
  {
    var more := pairs + [(args[i], args[j])];
    assert more[|pairs|] == (args[i], args[j]);
    assert forall k :: 0 <= k < |pairs| ==> more[k] == pairs[k];
    forall x, y | 0 <= x < y < |args| && (x < i || (x == i && y < j + 1)) ensures (args[x], args[y]) in more {
      if !(x == i && y == j) { assert (args[x], args[y]) in pairs; }
    }
  }

  lemma PairedStart(args: seq<nat>, pairs: seq<(nat, nat)>, i: nat)
    requires Paired(args, pairs, i, 0)
    ensures Paired(args, pairs, i, i + 1)
  {
  }

  lemma PairedRow(args: seq<nat>, pairs: seq<(nat, nat)>, i: nat)
    requires i < |args| && Paired(args, pairs, i, |args|)
    ensures Paired(args, pairs, i + 1, 0)
  {
  }

  lemma PairsExist(args: seq<nat>, pairs: seq<(nat, nat)>)
    requires |args| > 1 && Paired(args, pairs, |args|, 0)
    ensures pairs != []
  {
    assert (args[0], args[1]) in pairs;
  }

  lemma PairsCover(args: seq<nat>, pairs: seq<(nat, nat)>, p: ((nat, nat)) -> bool)
    requires Paired(args, pairs, |args|, 0)
    ensures (forall k :: 0 <= k < |pairs| ==> p(pairs[k])) <==> (forall x, y :: 0 <= x < y < |args| ==> p((args[x], args[y])))
  {
    if forall k :: 0 <= k < |pairs| ==> p(pairs[k]) {
      forall x, y | 0 <= x < y < |args| ensures p((args[x], args[y])) {
        assert (args[x], args[y]) in pairs;
        var k :| 0 <= k < |pairs| && pairs[k] == (args[x], args[y]);
      }
    }
    if forall x, y :: 0 <= x < y < |args| ==> p((args[x], args[y])) {
      forall k | 0 <= k < |pairs| ensures p(pairs[k]) {
        assert IsPair(args, pairs[k]);
        var x, y :| 0 <= x < y < |args| && pairs[k] == (args[x], args[y]);
      }
    }
  }
}
