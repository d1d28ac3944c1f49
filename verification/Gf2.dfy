/** Matrices over GF(2) packed into 64-bit words, changed in place. */
module Gf2 {
  import opened Lits
  import opened Words
  import opened Gf2Linear

  // ---------- packing ----------

  function WordsPerRow(cols: nat): nat { (cols + 63) / 64 }

  lemma WordInRow(cols: nat, c: nat)
    requires c < cols
    ensures c / 64 < WordsPerRow(cols)
  {
  }

  lemma OneMore(x: nat, per: nat)
    ensures (x + 1) * per == x * per + per
  {
  }

  lemma {:induction false} MulStep(x: nat, y: nat, per: nat)
    requires x < y
    ensures x * per + per <= y * per
    decreases y
  {
    OneMore(y - 1, per);
    if x + 1 < y { MulStep(x, y - 1, per); }
  }

  lemma IndexBound(row: nat, rows: nat, per: nat, w: nat)
    requires row < rows && w < per
    ensures row * per + w < rows * per && row * per + per <= rows * per
  {
    MulStep(row, rows, per);
  }

  /** Different rows use different words. */
  lemma IndexDistinct(r1: nat, w1: nat, r2: nat, w2: nat, per: nat)
    requires w1 < per && w2 < per && r1 * per + w1 == r2 * per + w2
    ensures r1 == r2 && w1 == w2
  {
    if r1 < r2 { MulStep(r1, r2, per); } else if r2 < r1 { MulStep(r2, r1, per); }
  }

  ghost predicate Fits(data: seq<bv64>, rows: nat, cols: nat) { |data| == rows * WordsPerRow(cols) }

  ghost function EntryOf(data: seq<bv64>, rows: nat, cols: nat, r: nat, c: nat): bool
    requires Fits(data, rows, cols) && r < rows && c < cols
  {
    WordInRow(cols, c);
    IndexBound(r, rows, WordsPerRow(cols), c / 64);
    Bit(data[r * WordsPerRow(cols) + c / 64], c % 64)
  }

  /** The matrix of truth values that the words stand for. */
  ghost function Decode(data: seq<bv64>, rows: nat, cols: nat): (m: Matrix)
    requires Fits(data, rows, cols)
    ensures |m| == rows && Rectangular(m, cols)
  {
    seq(rows, r requires 0 <= r < rows => seq(cols, c requires 0 <= c < cols => EntryOf(data, rows, cols, r, c)))
  }

  lemma DecodeAt(data: seq<bv64>, rows: nat, cols: nat, r: nat, c: nat)
    requires Fits(data, rows, cols) && r < rows && c < cols
    ensures Decode(data, rows, cols)[r][c] == EntryOf(data, rows, cols, r, c)
    ensures r * WordsPerRow(cols) + c / 64 < |data|
    ensures EntryOf(data, rows, cols, r, c) == Bit(data[r * WordsPerRow(cols) + c / 64], c % 64)
  {
    hide Bit;
    WordInRow(cols, c);
    IndexBound(r, rows, WordsPerRow(cols), c / 64);
  }

  lemma SameMatrix(m: Matrix, k: Matrix, cols: nat)
    requires |m| == |k| && Rectangular(m, cols) && Rectangular(k, cols)
    requires forall r, c :: 0 <= r < |m| && 0 <= c < cols ==> m[r][c] == k[r][c]
    ensures m == k
  {
    forall r | 0 <= r < |m| ensures m[r] == k[r] {}
  }

  lemma SetEntry(data: seq<bv64>, data': seq<bv64>, rows: nat, cols: nat, r: nat, c: nat, val: bool, i: nat, s: nat, d: nat)
    requires Fits(data, rows, cols) && r < rows && c < cols && s < rows && d < cols
    requires i == r * WordsPerRow(cols) + c / 64 < |data|
    requires data' == data[i := if val then With(data[i], c % 64) else Without(data[i], c % 64)]
    ensures EntryOf(data', rows, cols, s, d) == if s == r && d == c then val else EntryOf(data, rows, cols, s, d)
  {
    hide Bit, With, Without, Decode, WordsPerRow, EntryOf;
    var per, k := WordsPerRow(cols), s * WordsPerRow(cols) + d / 64;
    DecodeAt(data, rows, cols, s, d);
    DecodeAt(data', rows, cols, s, d);
    if k == i {
      WordInRow(cols, c);
      WordInRow(cols, d);
      IndexDistinct(s, d / 64, r, c / 64, per);
      SetBit(data[i], d % 64, c % 64);
      SplitIndex(c, d);
    }
  }

  lemma SplitIndex(c: nat, d: nat)
    ensures c == d <==> c / 64 == d / 64 && c % 64 == d % 64
  {
  }

  /** Changing one bit of one word changes one entry. */
  lemma DecodeSet(data: seq<bv64>, rows: nat, cols: nat, r: nat, c: nat, val: bool)
    requires Fits(data, rows, cols) && r < rows && c < cols
    ensures r * WordsPerRow(cols) + c / 64 < |data|
    ensures var i := r * WordsPerRow(cols) + c / 64;
            var data' := data[i := if val then With(data[i], c % 64) else Without(data[i], c % 64)];
            Fits(data', rows, cols) && Decode(data', rows, cols) == Decode(data, rows, cols)[r := Decode(data, rows, cols)[r][c := val]]
  {
    hide EntryOf, With, Without, Decode, WordsPerRow;
    var per := WordsPerRow(cols);
    WordInRow(cols, c);
    IndexBound(r, rows, per, c / 64);
    var i := r * per + c / 64;
    var data' := data[i := if val then With(data[i], c % 64) else Without(data[i], c % 64)];
    var m, m' := Decode(data, rows, cols), Decode(data', rows, cols);
    forall s, d | 0 <= s < rows && 0 <= d < cols ensures m'[s][d] == m[r := m[r][c := val]][s][d] {
      DecodeAt(data, rows, cols, s, d);
      DecodeAt(data', rows, cols, s, d);
      SetEntry(data, data', rows, cols, r, c, val, i, s, d);
    }
    SameMatrix(m', m[r := m[r][c := val]], cols);
  }

  // ---------- whole rows of words ----------

  /** `n` words from `target` on are XORed with those from `source` on. */
  ghost predicate WordsXored(data: seq<bv64>, data': seq<bv64>, target: nat, source: nat, n: nat)
    requires target + n <= |data| && source + n <= |data|
  {
    && |data'| == |data|
    && (forall i :: target <= i < target + n ==> data'[i] == Xor(data[i], data[source + (i - target)]))
    && (forall i :: 0 <= i < |data| && !(target <= i < target + n) ==> data'[i] == data[i])
  }

  lemma XorStep(data: seq<bv64>, cur: seq<bv64>, target: nat, source: nat, n: nat)
    requires target + n < |data| && source + n < |data| && WordsXored(data, cur, target, source, n)
    requires target == source || target + n < source || source + n < target
    ensures |cur| == |data|
    ensures WordsXored(data, cur[target + n := Xor(cur[target + n], cur[source + n])], target, source, n + 1)
  {
    hide Xor;
  }

  lemma XoredAt(data: seq<bv64>, data': seq<bv64>, target: nat, source: nat, n: nat, i: nat)
    requires target + n <= |data| && source + n <= |data| && WordsXored(data, data', target, source, n) && i < |data|
    ensures |data'| == |data|
    ensures data'[i] == if target <= i < target + n then Xor(data[i], data[source + (i - target)]) else data[i]
  {
    hide Xor;
  }

  lemma XoredNone(data: seq<bv64>, target: nat, source: nat)
    requires target <= |data| && source <= |data|
    ensures WordsXored(data, data, target, source, 0)
  {
  }

  lemma XoredEntry(data: seq<bv64>, data': seq<bv64>, rows: nat, cols: nat, target: nat, source: nat, s: nat, d: nat)
    requires Fits(data, rows, cols) && Fits(data', rows, cols) && target < rows && source < rows && s < rows && d < cols
    requires target * WordsPerRow(cols) + WordsPerRow(cols) <= |data| && source * WordsPerRow(cols) + WordsPerRow(cols) <= |data|
    requires WordsXored(data, data', target * WordsPerRow(cols), source * WordsPerRow(cols), WordsPerRow(cols))
    ensures EntryOf(data', rows, cols, s, d) ==
            if s == target then EntryOf(data, rows, cols, s, d) != EntryOf(data, rows, cols, source, d) else EntryOf(data, rows, cols, s, d)
  {
    hide Bit, Decode, Xor, WordsPerRow, WordsXored, EntryOf, Fits;
    var per, w := WordsPerRow(cols), d / 64;
    DecodeAt(data, rows, cols, s, d);
    DecodeAt(data', rows, cols, s, d);
    WordInRow(cols, d);
    XoredWord(data, data', per, target, source, s, w);
    if s == target {
      DecodeAt(data, rows, cols, source, d);
      XorBit(data[s * per + w], data[source * per + w], d % 64);
    }
  }

  lemma XoredWord(data: seq<bv64>, data': seq<bv64>, per: nat, target: nat, source: nat, s: nat, w: nat)
    requires w < per && target * per + per <= |data| && source * per + per <= |data| && s * per + w < |data|
    requires WordsXored(data, data', target * per, source * per, per)
    ensures |data'| == |data|
    ensures data'[s * per + w] == if s == target then Xor(data[s * per + w], data[source * per + w]) else data[s * per + w]
  {
    hide WordsXored, Xor;
    XoredAt(data, data', target * per, source * per, per, s * per + w);
    if s != target { OtherRow(s, w, target, per); }
  }

  lemma XoredSize(data: seq<bv64>, data': seq<bv64>, target: nat, source: nat, n: nat)
    requires target + n <= |data| && source + n <= |data| && WordsXored(data, data', target, source, n)
    ensures |data'| == |data|
  {
  }

  lemma DecodeXored(data: seq<bv64>, data': seq<bv64>, rows: nat, cols: nat, target: nat, source: nat)
    requires Fits(data, rows, cols) && target < rows && source < rows
    requires target * WordsPerRow(cols) + WordsPerRow(cols) <= |data| && source * WordsPerRow(cols) + WordsPerRow(cols) <= |data|
    requires WordsXored(data, data', target * WordsPerRow(cols), source * WordsPerRow(cols), WordsPerRow(cols))
    ensures Fits(data', rows, cols)
    ensures Decode(data', rows, cols) == AddRow(Decode(data, rows, cols), target, source)
  {
    hide EntryOf, Decode, WordsPerRow, WordsXored;
    var per := WordsPerRow(cols);
    XoredSize(data, data', target * per, source * per, per);
    var m, m' := Decode(data, rows, cols), Decode(data', rows, cols);
    forall s, d | 0 <= s < rows && 0 <= d < cols ensures m'[s][d] == AddRow(m, target, source)[s][d] {
      DecodeAt(data, rows, cols, s, d);
      DecodeAt(data', rows, cols, s, d);
      DecodeAt(data, rows, cols, source, d);
      XoredEntry(data, data', rows, cols, target, source, s, d);
    }
    SameMatrix(m', AddRow(m, target, source), cols);
  }

  /** A word of one row is not among those of another. */
  lemma OtherRow(s: nat, w: nat, r: nat, per: nat)
    requires s != r && w < per
    ensures !(r * per <= s * per + w < r * per + per)
  {
    if s < r { MulStep(s, r, per); } else { MulStep(r, s, per); }
  }

  /** `n` words from `a` on and from `b` on have changed places. */
  ghost predicate WordsSwapped(data: seq<bv64>, data': seq<bv64>, a: nat, b: nat, n: nat)
    requires a + n <= |data| && b + n <= |data|
  {
    && |data'| == |data|
    && (forall i :: a <= i < a + n ==> data'[i] == data[b + (i - a)])
    && (forall i :: b <= i < b + n ==> data'[i] == data[a + (i - b)])
    && (forall i :: 0 <= i < |data| && !(a <= i < a + n) && !(b <= i < b + n) ==> data'[i] == data[i])
  }

  lemma SwapStep(data: seq<bv64>, cur: seq<bv64>, a: nat, b: nat, n: nat)
    requires a + n < |data| && b + n < |data| && WordsSwapped(data, cur, a, b, n) && (a + n < b || b + n < a)
    ensures |cur| == |data|
    ensures WordsSwapped(data, cur[a + n := cur[b + n]][b + n := cur[a + n]], a, b, n + 1)
  {
  }

  lemma SwappedAt(data: seq<bv64>, data': seq<bv64>, a: nat, b: nat, n: nat, i: nat)
    requires a + n <= |data| && b + n <= |data| && WordsSwapped(data, data', a, b, n) && i < |data|
    ensures |data'| == |data|
    ensures a <= i < a + n ==> data'[i] == data[b + (i - a)]
    ensures b <= i < b + n ==> data'[i] == data[a + (i - b)]
    ensures !(a <= i < a + n) && !(b <= i < b + n) ==> data'[i] == data[i]
  {
  }

  lemma SwappedNone(data: seq<bv64>, a: nat, b: nat)
    requires a <= |data| && b <= |data|
    ensures WordsSwapped(data, data, a, b, 0)
  {
  }

  lemma SwappedSize(data: seq<bv64>, data': seq<bv64>, a: nat, b: nat, n: nat)
    requires a + n <= |data| && b + n <= |data| && WordsSwapped(data, data', a, b, n)
    ensures |data'| == |data|
  {
  }

  lemma SwappedEntry(data: seq<bv64>, data': seq<bv64>, rows: nat, cols: nat, r1: nat, r2: nat, s: nat, d: nat)
    requires Fits(data, rows, cols) && Fits(data', rows, cols) && r1 < rows && r2 < rows && r1 != r2 && s < rows && d < cols
    requires r1 * WordsPerRow(cols) + WordsPerRow(cols) <= |data| && r2 * WordsPerRow(cols) + WordsPerRow(cols) <= |data|
    requires WordsSwapped(data, data', r1 * WordsPerRow(cols), r2 * WordsPerRow(cols), WordsPerRow(cols))
    ensures EntryOf(data', rows, cols, s, d) == EntryOf(data, rows, cols, if s == r1 then r2 else if s == r2 then r1 else s, d)
  {
    hide Bit, Decode, WordsPerRow, WordsSwapped, EntryOf, Fits;
    var per, w := WordsPerRow(cols), d / 64;
    var from := if s == r1 then r2 else if s == r2 then r1 else s;
    DecodeAt(data, rows, cols, from, d);
    DecodeAt(data', rows, cols, s, d);
    WordInRow(cols, d);
    SwappedWord(data, data', per, r1, r2, s, w);
  }

  lemma SwappedWord(data: seq<bv64>, data': seq<bv64>, per: nat, r1: nat, r2: nat, s: nat, w: nat)
    requires r1 != r2 && w < per && r1 * per + per <= |data| && r2 * per + per <= |data| && s * per + w < |data|
    requires WordsSwapped(data, data', r1 * per, r2 * per, per)
    ensures |data'| == |data|
    ensures data'[s * per + w] == data[(if s == r1 then r2 else if s == r2 then r1 else s) * per + w]
  {
    hide WordsSwapped;
    SwappedAt(data, data', r1 * per, r2 * per, per, s * per + w);
    if s != r1 { OtherRow(s, w, r1, per); }
    if s != r2 { OtherRow(s, w, r2, per); }
  }

  lemma DecodeSwapped(data: seq<bv64>, data': seq<bv64>, rows: nat, cols: nat, r1: nat, r2: nat)
    requires Fits(data, rows, cols) && r1 < rows && r2 < rows && r1 != r2
    requires r1 * WordsPerRow(cols) + WordsPerRow(cols) <= |data| && r2 * WordsPerRow(cols) + WordsPerRow(cols) <= |data|
    requires WordsSwapped(data, data', r1 * WordsPerRow(cols), r2 * WordsPerRow(cols), WordsPerRow(cols))
    ensures Fits(data', rows, cols)
    ensures Decode(data', rows, cols) == SwapRows(Decode(data, rows, cols), r1, r2)
  {
    hide EntryOf, Decode, WordsPerRow, WordsSwapped;
    var per := WordsPerRow(cols);
    SwappedSize(data, data', r1 * per, r2 * per, per);
    var m, m' := Decode(data, rows, cols), Decode(data', rows, cols);
    forall s, d | 0 <= s < rows && 0 <= d < cols ensures m'[s][d] == SwapRows(m, r1, r2)[s][d] {
      DecodeAt(data, rows, cols, s, d);
      DecodeAt(data', rows, cols, s, d);
      DecodeAt(data, rows, cols, r1, d);
      DecodeAt(data, rows, cols, r2, d);
      SwappedEntry(data, data', rows, cols, r1, r2, s, d);
    }
    SameMatrix(m', SwapRows(m, r1, r2), cols);
  }

  lemma DecodeZero(data: seq<bv64>, rows: nat, cols: nat)
    requires Fits(data, rows, cols) && forall i :: 0 <= i < |data| ==> data[i] == 0
    ensures forall r, c :: 0 <= r < rows && 0 <= c < cols ==> !Decode(data, rows, cols)[r][c]
  {
    hide Bit, Decode;
    forall r, c | 0 <= r < rows && 0 <= c < cols ensures !Decode(data, rows, cols)[r][c] {
      DecodeAt(data, rows, cols, r, c);
      XorBit(0, 0, c % 64);
    }
  }

  class Gf2Matrix {
    const rows: nat
    const cols: nat
    const data: array<bv64>

    ghost predicate Valid()
      reads data
    {
      Fits(data[..], rows, cols)
    }

    ghost function Entries(): (m: Matrix)
      reads data
      requires Valid()
      ensures |m| == rows && Rectangular(m, cols)
    {
      Decode(data[..], rows, cols)
    }

    /** The zero matrix. */
    constructor (rows: nat, cols: nat)
      ensures Valid() && fresh(data) && this.rows == rows && this.cols == cols
      ensures forall r, c :: 0 <= r < rows && 0 <= c < cols ==> !Entries()[r][c]
    {
      this.rows := rows;
      this.cols := cols;
      var d := new bv64[rows * WordsPerRow(cols)](_ => 0);
      data := d;
      new;
      hide Decode, WordsPerRow;
      DecodeZero(data[..], rows, cols);
    }

    method Set(row: nat, col: nat, val: bool)
      requires Valid() && row < rows && col < cols
      modifies data
      ensures Valid() && Entries() == old(Entries())[row := old(Entries())[row][col := val]]
    {
      hide Bit, With, Without, Decode;
      DecodeSet(data[..], rows, cols, row, col, val);
      var i := row * WordsPerRow(cols) + col / 64;
      ghost var before := data[..];
      if val {
        data[i] := With(data[i], col % 64);
      } else {
        data[i] := Without(data[i], col % 64);
      }
      assert data[..] == before[i := if val then With(before[i], col % 64) else Without(before[i], col % 64)];
    }

    method Get(row: nat, col: nat) returns (val: bool)
      requires Valid() && row < rows && col < cols
      ensures val == Entries()[row][col]
    {
      hide Bit, Decode;
      DecodeAt(data[..], rows, cols, row, col);
      var i := row * WordsPerRow(cols) + col / 64;
      val := Bit(data[i], col % 64);
    }

    method XorWord(target: nat, source: nat)
      requires target < data.Length && source < data.Length
      modifies data
      ensures data[..] == old(data[..])[target := Xor(old(data[target]), old(data[source]))]
    {
      hide Xor;
      data[target] := Xor(data[target], data[source]);
    }

    /** XORs one row into another, or into itself, word by word. */
    method AddRows(target: nat, source: nat)
      requires Valid() && target < rows && source < rows
      modifies data
      ensures Valid() && Entries() == AddRow(old(Entries()), target, source)
    {
      hide Decode, Rectangular, Xor, WordsPerRow, WordsXored;
      var per := WordsPerRow(cols);
      ghost var before := data[..];
      var targetStart, sourceStart := target * per, source * per;
      RowsApart(target, source, per, rows);
      XoredNone(before, targetStart, sourceStart);
      var i := 0;
      while i < per
        invariant i <= per && WordsXored(before, data[..], targetStart, sourceStart, i)
      {
        XorStep(before, data[..], targetStart, sourceStart, i);
        XorWord(targetStart + i, sourceStart + i);
        i := i + 1;
      }
      DecodeXored(before, data[..], rows, cols, target, source);
    }

    method Swap(r1: nat, r2: nat)
      requires Valid() && r1 < rows && r2 < rows && r1 != r2
      modifies data
      ensures Valid() && Entries() == SwapRows(old(Entries()), r1, r2)
    {
      hide Decode, Rectangular, WordsPerRow, WordsSwapped;
      var per := WordsPerRow(cols);
      ghost var before := data[..];
      var start1, start2 := r1 * per, r2 * per;
      RowsApart(r1, r2, per, rows);
      SwappedNone(before, start1, start2);
      var w := 0;
      while w < per
        invariant w <= per && WordsSwapped(before, data[..], start1, start2, w)
      {
        ghost var cur := data[..];
        SwapStep(before, cur, start1, start2, w);
        data[start1 + w], data[start2 + w] := data[start2 + w], data[start1 + w];
        assert data[..] == cur[start1 + w := cur[start2 + w]][start2 + w := cur[start1 + w]];
        w := w + 1;
      }
      DecodeSwapped(before, data[..], rows, cols, r1, r2);
    }

    /** The first row from `from` on that has a 1 in the column. */
    method FindRow(from: nat, col: nat) returns (found: Option<nat>)
      requires Valid() && from <= rows && col < cols
      ensures found.None? ==> forall r :: from <= r < rows ==> !Entries()[r][col]
      ensures found.Some? ==> from <= found.value < rows && Entries()[found.value][col]
    {
      hide Decode;
      var r := from;
      while r < rows
        invariant from <= r <= rows && forall k :: from <= k < r ==> !Entries()[k][col]
      {
        var bit := Get(r, col);
        if bit { return Some(r); }
        r := r + 1;
      }
      return None;
    }

    /** Clears the column in all rows but the pivot row. */
    method Eliminate(col: nat, ghost pivots: seq<nat>, pivotRow: nat)
      requires Valid() && col < cols && pivotRow == |pivots| < rows && Clearing(Entries(), cols, pivots, col, 0)
      modifies data
      ensures Valid() && Reduced(Entries(), cols, pivots + [col], col + 1)
      ensures RowEquivalent(old(Entries()), Entries(), cols)
    {
      hide Decode, Clearing, RowEquivalent, Reduced, Rectangular;
      EntriesShape();
      RowEquivalentRefl(Entries(), cols);
      var r := 0;
      while r < rows
        invariant r <= rows && Valid() && Rectangular(Entries(), cols) && Clearing(Entries(), cols, pivots, col, r)
        invariant RowEquivalent(old(Entries()), Entries(), cols)
      {
        ghost var m := Entries();
        ClearingFacts(m, cols, pivots, col, r);
        if r != pivotRow {
          var bit := Get(r, col);
          if bit {
            ClearingAdd(m, cols, pivots, col, r);
            AddKeeps(m, cols, r, pivotRow);
            AddRows(r, pivotRow);
            RowEquivalentTrans(old(Entries()), m, Entries(), cols);
          }
        }
        r := r + 1;
      }
      ClearingDone(Entries(), cols, pivots, col);
    }

    lemma EntriesShape()
      requires Valid()
      ensures |Entries()| == rows && Rectangular(Entries(), cols)
    {
    }

    /** Gaussian elimination to reduced row echelon form; returns the pivot columns. */
    method Rref() returns (pivots: seq<nat>)
      requires Valid()
      modifies data
      ensures Valid() && IsRref(Entries(), cols, pivots) && RowEquivalent(old(Entries()), Entries(), cols)
    {
      hide Decode, Clearing, RowEquivalent, Reduced, Rectangular;
      EntriesShape();
      RowEquivalentRefl(Entries(), cols);
      pivots := [];
      var pivotRow := 0;
      var col := 0;
      ReducedStart(Entries(), cols);
      while col < cols
        invariant col <= cols && Valid() && Rectangular(Entries(), cols) && pivotRow == |pivots| <= rows
        invariant Reduced(Entries(), cols, pivots, col) && RowEquivalent(old(Entries()), Entries(), cols)
      {
        if pivotRow >= rows { break; }
        ghost var m := Entries();
        var found := FindRow(pivotRow, col);
        if found.Some? {
          var r := found.value;
          ClearingStart(m, cols, pivots, col, r);
          if r != pivotRow {
            SwapKeeps(m, cols, pivotRow, r);
            Swap(pivotRow, r);
            RowEquivalentTrans(old(Entries()), m, Entries(), cols);
          } else {
            assert SwapRows(m, pivotRow, r) == m;
          }
          ghost var swapped := Entries();
          Eliminate(col, pivots, pivotRow);
          RowEquivalentTrans(old(Entries()), swapped, Entries(), cols);
          EntriesShape();
          pivots := pivots + [col];
          pivotRow := pivotRow + 1;
        } else {
          EntriesShape();
          forall k | pivotRow <= k < |m| ensures !m[k][col] { assert !Entries()[k][col]; }
          ReducedSkip(m, cols, pivots, col);
        }
        col := col + 1;
      }
      ReducedFinish(Entries(), cols, pivots, col);
    }

    /** Solves `a * x = b`: a solution when there is one, and nothing only when there is none. */
    static method SolveSystem(a: Gf2Matrix, b: seq<bool>) returns (x: Option<seq<bool>>)
      requires a.Valid() && |b| == a.rows
      ensures x.Some? ==> Satisfies(a.Entries(), a.cols, x.value, b)
      ensures x.None? ==> forall y :: !Satisfies(a.Entries(), a.cols, y, b)
    {
      hide Decode, RowEquivalent, Reduced, IsRref, ReadOff, Satisfies, Solution;
      var n := a.cols;
      ghost var m := a.Entries();
      var aug := Augment(a, b);
      ghost var g0 := aug.Entries();
      var pivots := aug.Rref();
      ghost var g := aug.Entries();
      var bad := aug.FindInconsistent(n);
      if bad.Some? {
        forall y ensures !Satisfies(m, n, y, b) {
          if |y| == n {
            AugmentedSolution(m, n, y, b);
            InconsistentRow(g, n, bad.value, y);
            SameSolution(g0, g, n + 1, y + [true]);
          } else {
            SatisfiesSize(m, n, y, b);
          }
        }
        return None;
      }
      var sol := aug.ReadSolution(n, pivots);
      ReadOffSize(g, n, sol);
      ReadOffSolves(g, n, pivots, sol);
      SameSolution(g0, g, n + 1, sol + [true]);
      AugmentedSolution(m, n, sol, b);
      return Some(sol);
    }

    /** The matrix with the right-hand side as a last column. */
    static method Augment(a: Gf2Matrix, b: seq<bool>) returns (aug: Gf2Matrix)
      requires a.Valid() && |b| == a.rows
      ensures fresh(aug) && fresh(aug.data) && aug.Valid() && aug.rows == a.rows && aug.cols == a.cols + 1
      ensures aug.Entries() == Augmented(a.Entries(), b)
    {
      hide Decode;
      aug := new Gf2Matrix(a.rows, a.cols + 1);
      var r := 0;
      while r < a.rows
        invariant r <= a.rows && aug.Valid() && fresh(aug.data)
        invariant forall k, c :: 0 <= k < r && 0 <= c < a.cols ==> aug.Entries()[k][c] == a.Entries()[k][c]
        invariant forall k :: 0 <= k < r ==> aug.Entries()[k][a.cols] == b[k]
      {
        var c := 0;
        while c < a.cols
          invariant c <= a.cols && aug.Valid() && fresh(aug.data)
          invariant forall k, d :: 0 <= k < r && 0 <= d < a.cols ==> aug.Entries()[k][d] == a.Entries()[k][d]
          invariant forall k :: 0 <= k < r ==> aug.Entries()[k][a.cols] == b[k]
          invariant forall d :: 0 <= d < c ==> aug.Entries()[r][d] == a.Entries()[r][d]
        {
          var bit := a.Get(r, c);
          aug.Set(r, c, bit);
          c := c + 1;
        }
        aug.Set(r, a.cols, b[r]);
        r := r + 1;
      }
      forall k, c | 0 <= k < a.rows && 0 <= c < a.cols + 1 ensures aug.Entries()[k][c] == Augmented(a.Entries(), b)[k][c] {}
      SameMatrix(aug.Entries(), Augmented(a.Entries(), b), a.cols + 1);
    }

    /** A row that is zero up to column `n` and 1 there. */
    method FindInconsistent(n: nat) returns (bad: Option<nat>)
      requires Valid() && n + 1 == cols
      ensures bad.Some? ==> bad.value < rows && (forall c :: 0 <= c < n ==> !Entries()[bad.value][c]) && Entries()[bad.value][n]
      ensures bad.None? ==> forall r :: 0 <= r < rows && (forall c :: 0 <= c < n ==> !Entries()[r][c]) ==> !Entries()[r][n]
    {
      hide Decode;
      var r := 0;
      while r < rows
        invariant r <= rows
        invariant forall k :: 0 <= k < r && (forall c :: 0 <= c < n ==> !Entries()[k][c]) ==> !Entries()[k][n]
      {
        var first := FirstOneOf(r, n);
        var rhs := Get(r, n);
        if first.None? && rhs { return Some(r); }
        r := r + 1;
      }
      return None;
    }

    /** The first 1 of a row before column `n`. */
    method FirstOneOf(r: nat, n: nat) returns (first: Option<nat>)
      requires Valid() && r < rows && n + 1 == cols
      ensures first.None? ==> forall c :: 0 <= c < n ==> !Entries()[r][c]
      ensures first.Some? ==> FirstOne(Entries(), n, r, first.value)
    {
      hide Decode;
      var c := 0;
      while c < n
        invariant c <= n && forall d :: 0 <= d < c ==> !Entries()[r][d]
      {
        var bit := Get(r, c);
        if bit { return Some(c); }
        c := c + 1;
      }
      return None;
    }

    /** Reads the right-hand side of each row off at the row's first 1. */
    method ReadSolution(n: nat, ghost pivots: seq<nat>) returns (x: seq<bool>)
      requires Valid() && n + 1 == cols && IsRref(Entries(), cols, pivots)
      ensures ReadOff(Entries(), n, rows, x)
    {
      hide Decode, FirstOne, IsRref;
      x := seq(n, _ => false);
      var r := 0;
      while r < rows
        invariant r <= rows && ReadOff(Entries(), n, r, x)
      {
        var first := FirstOneOf(r, n);
        var rhs := Get(r, n);
        ghost var before := x;
        if first.Some? {
          FirstOneFacts(Entries(), n, r, first.value);
          x := x[first.value := rhs];
        }
        ReadOffStep(Entries(), n, pivots, r, before, first, rhs);
        r := r + 1;
      }
    }
  }

  lemma ClearingFacts(m: Matrix, cols: nat, pivots: seq<nat>, col: nat, r: nat)
    requires Rectangular(m, cols) && Clearing(m, cols, pivots, col, r) && r < |m|
    ensures r == |pivots| || !m[r][col] ==> Clearing(m, cols, pivots, col, r + 1)
    ensures |m[r]| == cols
  {
  }

  lemma ReducedStart(m: Matrix, cols: nat)
    requires Rectangular(m, cols)
    ensures Reduced(m, cols, [], 0)
  {
  }

  lemma ReducedFinish(m: Matrix, cols: nat, pivots: seq<nat>, col: nat)
    requires Rectangular(m, cols) && col <= cols && Reduced(m, cols, pivots, col) && (col == cols || |pivots| >= |m|)
    ensures IsRref(m, cols, pivots)
  {
    if col != cols { ReducedEarly(m, cols, pivots, col); }
  }

  lemma SameSolution(m: Matrix, k: Matrix, cols: nat, x: Row)
    requires RowEquivalent(m, k, cols)
    ensures Rectangular(m, cols) && Rectangular(k, cols) && (Solution(m, cols, x) <==> Solution(k, cols, x))
  {
  }

  lemma SatisfiesSize(m: Matrix, cols: nat, x: Row, b: Row)
    requires Rectangular(m, cols) && |b| == |m| && |x| != cols
    ensures !Satisfies(m, cols, x, b)
  {
  }

  lemma ReadOffSize(g: Matrix, cols: nat, x: Row)
    requires Rectangular(g, cols + 1) && ReadOff(g, cols, |g|, x)
    ensures |x| == cols
  {
  }

  lemma FirstOneFacts(g: Matrix, cols: nat, r: nat, c: nat)
    requires Rectangular(g, cols + 1) && FirstOne(g, cols, r, c)
    ensures c < cols && r < |g|
    ensures forall d: nat :: FirstOne(g, cols, r, d) ==> d == c
  {
  }

  /** In reduced form no two rows have their first 1 in one column. */
  lemma FirstOnesDiffer(g: Matrix, cols: nat, pivots: seq<nat>, r: nat, s: nat, c: nat)
    requires Rectangular(g, cols + 1) && IsRref(g, cols + 1, pivots) && FirstOne(g, cols, r, c) && FirstOne(g, cols, s, c)
    ensures r == s
  {
    assert r < |pivots| && LeadsAt(g, cols + 1, r, pivots[r]);
    assert s < |pivots| && LeadsAt(g, cols + 1, s, pivots[s]);
    assert pivots[r] == c;
  }

  lemma ReadOffStep(g: Matrix, cols: nat, pivots: seq<nat>, r: nat, x: Row, first: Option<nat>, rhs: bool)
    requires Rectangular(g, cols + 1) && r < |g| && ReadOff(g, cols, r, x) && rhs == g[r][cols]
    requires IsRref(g, cols + 1, pivots)
    requires first.None? ==> forall c :: 0 <= c < cols ==> !g[r][c]
    requires first.Some? ==> first.value < cols && FirstOne(g, cols, r, first.value)
    ensures |x| == cols
    ensures ReadOff(g, cols, r + 1, if first.Some? then x[first.value := rhs] else x)
  {
    hide IsRref;
    var x' := if first.Some? then x[first.value := rhs] else x;
    forall s, c | 0 <= s < r + 1 && FirstOne(g, cols, s, c) ensures x'[c] == g[s][cols] {
      if s < r {
        if first.Some? && first.value == c { FirstOnesDiffer(g, cols, pivots, r, s, c); }
      }
    }
    forall c | 0 <= c < cols && x'[c] ensures exists s :: 0 <= s < r + 1 && FirstOne(g, cols, s, c) {
      if first.Some? && first.value == c { assert FirstOne(g, cols, r, c); } else { assert x[c]; }
    }
  }

  /** The word ranges of two rows lie within the data and do not meet. */
  lemma RowsApart(r1: nat, r2: nat, per: nat, rows: nat)
    requires r1 < rows && r2 < rows
    ensures r1 * per + per <= rows * per && r2 * per + per <= rows * per
    ensures r1 == r2 || r1 * per + per <= r2 * per || r2 * per + per <= r1 * per
  {
    MulStep(r1, rows, per);
    MulStep(r2, rows, per);
    if r1 < r2 { MulStep(r1, r2, per); } else if r2 < r1 { MulStep(r2, r1, per); }
  }
}
