/** Small facts about numbers and sequences, kept away from everything else.

  Shifts are written as repeated doubling and halving, which is what they are
  and keeps the arithmetic linear.
*/
module Basics {

  type byte = x: int | 0 <= x < 256

  datatype Option<+T> = None | Some(value: T)

  function Min(a: int, b: int): int {
    if a < b then a else b
  }

  function Max(a: int, b: int): int {
    if a < b then b else a
  }

  function Pow2(n: nat): (r: nat)
    ensures r >= 1
  {
    if n == 0 then 1 else 2 * Pow2(n - 1)
  }

  /** `v << n`, before any truncation to a machine word. */
  function Shl(v: nat, n: nat): nat {
    if n == 0 then v else 2 * Shl(v, n - 1)
  }

  /** `v >> n`. */
  function Shr(v: nat, n: nat): nat {
    if n == 0 then v else Shr(v / 2, n - 1)
  }

  /** The low `n` bits of `v`, that is `v & ((1 << n) - 1)`. */
  function Low(v: nat, n: nat): (r: nat)
    ensures r < Pow2(n)
  {
    if n == 0 then 0 else 2 * Low(v / 2, n - 1) + v % 2
  }

  lemma {:induction false} Pow2Monotone(a: nat, b: nat)
    requires a <= b
    ensures Pow2(a) <= Pow2(b)
  {
    if a < b {
      Pow2Monotone(a, b - 1);
    }
  }

  lemma Pow2Byte()
    ensures Pow2(5) == 0x20 && Pow2(8) == 0x100
  {
    assert Pow2(3) == 8;
    assert Pow2(5) == 4 * Pow2(3);
    assert Pow2(7) == 4 * Pow2(5);
  }

  lemma Pow2Word()
    ensures Pow2(31) == 0x8000_0000 && Pow2(32) == 0x1_0000_0000
  {
    Pow2Byte();
    Pow2Step(8);
    Pow2Step(12);
    Pow2Step(16);
    Pow2Step(20);
    Pow2Step(24);
    Pow2Step(27);
  }

  lemma Pow2Step(n: nat)
    ensures Pow2(n + 4) == 16 * Pow2(n)
  {
    assert Pow2(n + 2) == 4 * Pow2(n);
  }

  /** A value below 2^a, shifted left by b, stays below 2^(a+b). */
  lemma {:induction false} ShlBound(v: nat, a: nat, b: nat)
    requires v < Pow2(a)
    ensures Shl(v, b) + Pow2(b) <= Pow2(a + b)
  {
    if b > 0 {
      ShlBound(v, a, b - 1);
    }
  }

  /** Splitting a value at bit `n` and putting it together again. */
  lemma {:induction false} ShlShrLow(v: nat, n: nat)
    ensures Shl(Shr(v, n), n) + Low(v, n) == v
  {
    if n > 0 {
      ShlShrLow(v / 2, n - 1);
    }
  }

  lemma {:induction false} ShrLowOfShl(q: nat, r: nat, n: nat)
    requires r < Pow2(n)
    ensures Shr(Shl(q, n) + r, n) == q && Low(Shl(q, n) + r, n) == r
  {
    if n > 0 {
      assert (Shl(q, n) + r) / 2 == Shl(q, n - 1) + r / 2;
      ShrLowOfShl(q, r / 2, n - 1);
    }
  }

  lemma {:induction false} ShlMonotone(a: nat, b: nat, n: nat)
    requires a <= b
    ensures Shl(a, n) <= Shl(b, n)
  {
    if n > 0 {
      ShlMonotone(a, b, n - 1);
    }
  }

  lemma {:induction false} ShlSuccessor(a: nat, n: nat)
    ensures Shl(a + 1, n) == Shl(a, n) + Pow2(n)
  {
    if n > 0 {
      ShlSuccessor(a, n - 1);
    }
  }

  lemma SliceOfSlice<T>(s: seq<T>, a: nat, b: nat, i: nat, j: nat)
    requires i <= j && a + j <= b <= |s|
    ensures s[a..b][i..j] == s[a + i..a + j]
  {
    var x := s[a..b][i..j];
    var y := s[a + i..a + j];
    forall k | 0 <= k < |x|
      ensures x[k] == y[k]
    {
      assert x[k] == s[a..b][i + k];
    }
    assert x == y;
  }

  lemma SliceConcat<T>(s: seq<T>, a: nat, b: nat, c: nat)
    requires a <= b <= c <= |s|
    ensures s[a..b] + s[b..c] == s[a..c]
  {
  }

  lemma {:induction false} SubsetSize(a: set<nat>, b: set<nat>)
    requires a <= b
    ensures |a| <= |b|
  {
    if a != {} {
      var x :| x in a;
      SubsetSize(a - {x}, b - {x});
    }
  }

  // ---------------------------------------------------------------------------
  // Rows of equal length in a flat buffer
  // ---------------------------------------------------------------------------

  function Flatten<T>(rows: seq<seq<T>>): seq<T> {
    if rows == [] then [] else rows[0] + Flatten(rows[1..])
  }

  predicate Even<T>(rows: seq<seq<T>>, width: nat) {
    forall i :: 0 <= i < |rows| ==> |rows[i]| == width
  }

  lemma {:induction false} FlattenAppend<T>(a: seq<seq<T>>, b: seq<seq<T>>)
    ensures Flatten(a + b) == Flatten(a) + Flatten(b)
  {
    if a == [] {
      assert a + b == b;
    } else {
      assert (a + b)[1..] == a[1..] + b;
      FlattenAppend(a[1..], b);
    }
  }

  lemma FlattenPush<T>(rows: seq<seq<T>>, row: seq<T>)
    ensures Flatten(rows + [row]) == Flatten(rows) + row
  {
    FlattenAppend(rows, [row]);
    assert Flatten([row]) == row;
  }

  lemma {:induction false} FlattenLength<T>(rows: seq<seq<T>>, width: nat)
    requires Even(rows, width)
    ensures |Flatten(rows)| == |rows| * width
  {
    if rows != [] {
      FlattenLength(rows[1..], width);
    }
  }

  /** The row at an index lies at that multiple of the row width. */
  lemma FlattenAt<T>(rows: seq<seq<T>>, i: nat, start: nat, width: nat)
    requires Even(rows, width) && i < |rows| && start == i * width
    ensures start + width <= |Flatten(rows)|
    ensures Flatten(rows)[..start] == Flatten(rows[..i])
    ensures Flatten(rows)[start..start + width] == rows[i]
    ensures Flatten(rows)[start + width..] == Flatten(rows[i + 1..])
  {
    hide Flatten;
    var before, after := rows[..i], rows[i + 1..];
    FlattenLength(before, width);
    FlattenPush(before, rows[i]);
    FlattenAppend(before + [rows[i]], after);
    assert before + [rows[i]] + after == rows;
    assert Flatten(rows) == Flatten(before) + rows[i] + Flatten(after);
  }

  /** Replacing a row is replacing its stretch of the buffer. */
  lemma FlattenReplace<T>(rows: seq<seq<T>>, i: nat, start: nat, row: seq<T>, width: nat)
    requires Even(rows, width) && i < |rows| && |row| == width && start == i * width
    ensures start + width <= |Flatten(rows)|
    ensures Flatten(rows[i := row]) == Flatten(rows)[..start] + row + Flatten(rows)[start + width..]
  {
    hide Flatten;
    FlattenAt(rows, i, start, width);
    var rows' := rows[i := row];
    FlattenAt(rows', i, start, width);
    assert rows'[..i] == rows[..i] && rows'[i + 1..] == rows[i + 1..];
    var flat := Flatten(rows');
    assert flat == flat[..start] + flat[start..start + width] + flat[start + width..];
  }
}
