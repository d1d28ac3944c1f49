/** Termination of the search: the per-level trail lengths, read as the digits of a number,
    grow with every decision and every backjump that asserts a literal. */
module SearchProgress {
  import opened Trails

  /** Every level holds at least its decision. */
  ghost predicate LevelsFilled(t: TrailState) {
    && (forall j, k :: 0 <= j < k < |t.lims| ==> t.lims[j] < t.lims[k])
    && (forall k :: 0 <= k < |t.lims| ==> t.lims[k] < |t.lits|)
  }

  lemma LevelsStayFilled(t: TrailState, u: TrailState)
    requires LevelsFilled(t) && u.lims == t.lims && t.lits <= u.lits
    ensures LevelsFilled(u)
  {
  }

  /** The number of literals of level `k`. */
  ghost function Digit(t: TrailState, k: nat): int {
    if k > |t.lims| then 0 else t.End(k) - (if k == 0 then 0 else t.lims[k - 1])
  }

  /** The first `k` digits, most significant first, in base `b`. */
  ghost function Value(t: TrailState, k: nat, b: nat): int {
    if k == 0 then 0 else Value(t, k - 1, b) * b + Digit(t, k - 1)
  }

  ghost function Power(b: nat, k: nat): nat {
    if k == 0 then 1 else Power(b, k - 1) * b
  }

  /** What is left to run, for `n` variables. */
  ghost function Slack(t: TrailState, n: nat): int {
    Power(n + 1, n + 1) - Value(t, n + 1, n + 1)
  }

  /** No variable is assigned twice, so the trail is no longer than the variable count. */
  lemma TrailFits(t: TrailState, n: nat)
    requires t.Wf(n)
    ensures |t.lits| <= n
  {
    var s := VarsUpTo(t, n, |t.lits|);
    RangeSize(s, n);
  }

  lemma {:induction false} VarsUpTo(t: TrailState, n: nat, k: nat) returns (s: set<nat>)
    requires t.Wf(n) && k <= |t.lits|
    ensures |s| == k && forall v :: v in s ==> v < n && exists i :: 0 <= i < k && t.lits[i].v == v
  {
    if k == 0 {
      s := {};
    } else {
      var r := VarsUpTo(t, n, k - 1);
      assert t.lits[k - 1] in t.lits;
      assert t.lits[k - 1].v !in r;
      s := r + {t.lits[k - 1].v};
    }
  }

  lemma {:induction false} RangeSize(s: set<nat>, n: nat)
    requires forall v :: v in s ==> v < n
    ensures |s| <= n
  {
    if n == 0 {
      assert s == {};
    } else {
      RangeSize(s - {n - 1}, n - 1);
    }
  }

  lemma DigitRange(t: TrailState, n: nat, k: nat)
    requires t.Wf(n)
    ensures 0 <= Digit(t, k) <= n
  {
    TrailFits(t, n);
  }

  lemma {:induction false} LevelCount(t: TrailState, n: nat, k: nat)
    requires t.Wf(n) && LevelsFilled(t) && k < |t.lims|
    ensures t.lims[k] >= k && |t.lims| <= n
    decreases k
  {
    TrailFits(t, n);
    if k > 0 { LevelCount(t, n, k - 1); }
    LimsGrow(t, |t.lims| - 1);
  }

  lemma {:induction false} LimsGrow(t: TrailState, k: nat)
    requires LevelsFilled(t) && k < |t.lims|
    ensures t.lims[k] >= k
  {
    if k > 0 { LimsGrow(t, k - 1); }
  }

  lemma {:induction false} ValueRange(t: TrailState, n: nat, k: nat)
    requires t.Wf(n)
    ensures 0 <= Value(t, k, n + 1) < Power(n + 1, k)
  {
    hide TrailState.Wf, Digit;
    if k > 0 {
      ValueRange(t, n, k - 1);
      DigitRange(t, n, k - 1);
      BelowNext(Value(t, k - 1, n + 1), Power(n + 1, k - 1), n);
    }
  }

  lemma BelowNext(v: nat, p: nat, n: nat)
    requires v < p
    ensures v * (n + 1) + n < p * (n + 1)
  {
    MulMono(v + 1, p, n + 1);
    OneMoreTimes(v, n + 1);
  }

  lemma OneMoreTimes(v: nat, m: nat)
    ensures (v + 1) * m == v * m + m
  {
  }

  lemma MulMono(x: int, y: int, z: nat)
    requires x <= y
    ensures x * z <= y * z
  {
  }

  /** Equal digits below `j` and a larger digit at `j` make a larger number. */
  lemma {:induction false} Larger(t: TrailState, u: TrailState, n: nat, j: nat, k: nat)
    requires t.Wf(n) && u.Wf(n) && j < k
    requires forall i :: 0 <= i < j ==> Digit(u, i) == Digit(t, i)
    requires Digit(u, j) > Digit(t, j)
    ensures Value(u, k, n + 1) > Value(t, k, n + 1)
    decreases k
  {
    hide TrailState.Wf, Digit;
    if k == j + 1 {
      SamePrefix(t, u, n, j);
    } else {
      Larger(t, u, n, j, k - 1);
      DigitRange(t, n, k - 1);
      DigitRange(u, n, k - 1);
      NextDigit(Value(t, k - 1, n + 1), Value(u, k - 1, n + 1), Digit(t, k - 1), Digit(u, k - 1), n);
    }
  }

  lemma NextDigit(x: int, y: int, d: int, e: int, n: nat)
    requires x < y && d <= n && 0 <= e
    ensures x * (n + 1) + d < y * (n + 1) + e
  {
    MulMono(x + 1, y, n + 1);
    assert (x + 1) * (n + 1) == x * (n + 1) + n + 1;
  }

  lemma {:induction false} SamePrefix(t: TrailState, u: TrailState, n: nat, k: nat)
    requires forall i :: 0 <= i < k ==> Digit(u, i) == Digit(t, i)
    ensures Value(u, k, n + 1) == Value(t, k, n + 1)
  {
    if k > 0 { SamePrefix(t, u, n, k - 1); }
  }

  /** `u` has jumped back from `t` below its current level and asserted one literal there. */
  ghost predicate Backjumped(t: TrailState, u: TrailState) {
    exists bl: nat :: bl < |t.lims| && u.lims == t.lims[..bl] && |u.lits| == t.lims[bl] + 1
  }

  /** Backjumping below the current level and asserting one literal. */
  lemma BackjumpProgress(t: TrailState, t1: TrailState, u: TrailState, n: nat, bl: nat)
    requires t.Wf(n) && t1.Wf(n) && u.Wf(n) && LevelsFilled(t) && LevelsFilled(t1)
    requires t1.lims == t.lims && t.lits <= t1.lits && bl < |t.lims|
    requires u.lims == t1.lims[..bl] && |u.lits| == t1.lims[bl] + 1
    ensures 0 <= Slack(u, n) < Slack(t, n)
  {
    LevelCount(t, n, bl);
    forall i | 0 <= i < bl ensures Digit(u, i) == Digit(t, i) {}
    Larger(t, u, n, bl, n + 1);
    ValueRange(u, n, n + 1);
  }

  lemma JumpProgress(t: TrailState, t1: TrailState, u: TrailState, n: nat)
    requires t.Wf(n) && t1.Wf(n) && u.Wf(n) && LevelsFilled(t)
    requires t1.lims == t.lims && t.lits <= t1.lits && Backjumped(t1, u)
    ensures 0 <= Slack(u, n) < Slack(t, n)
  {
    var bl: nat :| bl < |t1.lims| && u.lims == t1.lims[..bl] && |u.lits| == t1.lims[bl] + 1;
    BackjumpProgress(t, t1, u, n, bl);
  }

  /** Propagating and then opening a level with a decision. */
  lemma DecisionProgress(t: TrailState, t1: TrailState, u: TrailState, n: nat)
    requires t.Wf(n) && t1.Wf(n) && u.Wf(n) && LevelsFilled(u)
    requires t1.lims == t.lims && t.lits <= t1.lits
    requires u.lims == t1.lims + [|t1.lits|] && |u.lits| == |t1.lits| + 1
    ensures 0 <= Slack(u, n) < Slack(t, n)
  {
    LevelCount(u, n, |t.lims|);
    forall i | 0 <= i < |t.lims| ensures Digit(u, i) == Digit(t, i) {}
    if |t1.lits| > |t.lits| {
      Larger(t, u, n, |t.lims|, n + 1);
    } else {
      Larger(t, u, n, |t.lims| + 1, n + 1);
    }
    ValueRange(u, n, n + 1);
  }
}
