/** Display surfaces and the in-place region copy.

  `CopyBits` moves a rectangle of a surface onto another, possibly overlapping,
  rectangle of the same surface. Without a clip it moves whole rows in place in
  a direction chosen so that no row is overwritten before it is read; the result
  is proved to be that of copying from a snapshot.
*/
module Surface {
  import opened Basics

  /** One RGBA word; a copy never looks inside it. */
  type Pixel = int

  /** Rows of pixels, top down. */
  type Grid = seq<seq<Pixel>>

  datatype Rect = Rect(top: int, left: int, bottom: int, right: int)

  datatype Bounds = Bounds(x: nat, y: nat, width: nat, height: nat)

  /** A well-formed rectangle within a surface; it may be empty. */
  predicate Inside(rect: Rect, width: nat, height: nat) {
    0 <= rect.left <= rect.right <= width && 0 <= rect.top <= rect.bottom <= height
  }

  predicate Covers(rect: Rect, x: int, y: int) {
    rect.left <= x < rect.right && rect.top <= y < rect.bottom
  }

  /** A signed rectangle as checked surface coordinates. */
  function RectBounds(rect: Rect, width: nat, height: nat): (r: Option<Bounds>)
    ensures r.Some? <==> Inside(rect, width, height)
    ensures r.Some? ==> forall x: nat, y: nat ::
      Covers(rect, x, y)
      <==> r.value.x <= x < r.value.x + r.value.width && r.value.y <= y < r.value.y + r.value.height
  {
    if rect.left < 0 || rect.top < 0 || rect.right < rect.left || rect.bottom < rect.top then None
    else if rect.right > width || rect.bottom > height then None
    else Some(Bounds(rect.left, rect.top, rect.right - rect.left, rect.bottom - rect.top))
  }

  /** Where a clip lets a copy write. */
  type Clip = (nat, nat) -> bool

  /** Whether a pixel may be written; no clip allows all. */
  predicate Allows(clip: Option<Clip>, x: nat, y: nat) {
    clip.Some? ==> clip.value(x, y)
  }

  function NoClip(): Clip {
    (_: nat, _: nat) => true
  }

  /** A region of `width` by `height` pixels moved between two corners. */
  datatype Move = Move(fromX: nat, fromY: nat, toX: nat, toY: nat, width: nat, height: nat)

  function MoveOf(source: Bounds, destination: Bounds): Move {
    Move(source.x, source.y, destination.x, destination.y, destination.width, destination.height)
  }

  predicate Fits(m: Move, g: Grid, width: nat) {
    && Even(g, width)
    && m.fromX + m.width <= width && m.toX + m.width <= width
    && m.fromY + m.height <= |g| && m.toY + m.height <= |g|
  }

  // ---------------------------------------------------------------------------
  // The snapshot copy
  // ---------------------------------------------------------------------------

  predicate Targets(m: Move, x: int, y: int) {
    m.toX <= x < m.toX + m.width && m.toY <= y < m.toY + m.height
  }

  /** The pixel a snapshot copy leaves at (x, y). */
  ghost function Expected(before: Grid, m: Move, width: nat, clip: Clip, x: nat, y: nat): Pixel
    requires Fits(m, before, width) && x < width && y < |before|
  {
    if Targets(m, x, y) && clip(x, y) then before[y - m.toY + m.fromY][x - m.toX + m.fromX] else before[y][x]
  }

  /** Every destination pixel from a snapshot of its source pixel; everything else as it was. */
  ghost predicate IsSnapshotCopy(before: Grid, after: Grid, m: Move, width: nat, clip: Clip)
    requires Fits(m, before, width)
  {
    && |after| == |before| && Even(after, width)
    && forall x: nat, y: nat :: y < |before| && x < width ==> after[y][x] == Expected(before, m, width, clip, x, y)
  }

  /** There is only one snapshot copy. */
  lemma SnapshotUnique(before: Grid, a: Grid, b: Grid, m: Move, width: nat, clip: Clip)
    requires Fits(m, before, width)
    requires IsSnapshotCopy(before, a, m, width, clip) && IsSnapshotCopy(before, b, m, width, clip)
    ensures a == b
  {
    hide Expected;
    forall y: nat | y < |before|
      ensures a[y] == b[y]
    {
      forall x: nat | x < width
        ensures a[y][x] == b[y][x]
      {
        assert a[y][x] == Expected(before, m, width, clip, x, y);
      }
    }
  }

  // ---------------------------------------------------------------------------
  // Copying rows
  // ---------------------------------------------------------------------------

  /** A row or flat buffer with `piece` laid over it from `at` on. */
  function Splice(row: seq<Pixel>, at: nat, piece: seq<Pixel>): (r: seq<Pixel>)
    requires at + |piece| <= |row|
    ensures |r| == |row|
  {
    row[..at] + piece + row[at + |piece|..]
  }

  /** Row `row` of the copy as the grid stands. */
  function RowOf(g: Grid, m: Move, width: nat, row: nat): (r: seq<Pixel>)
    requires Fits(m, g, width) && row < m.height
    ensures |r| == width
  {
    Splice(g[m.toY + row], m.toX, g[m.fromY + row][m.fromX..m.fromX + m.width])
  }

  /** The grid once the destination rows from `lo` up to `hi` have been copied. */
  ghost function RowsCopied(before: Grid, m: Move, width: nat, lo: nat, hi: nat): (g: Grid)
    requires Fits(m, before, width) && lo <= hi <= m.height
    ensures |g| == |before| && Even(g, width)
  {
    seq(|before|, (y: nat) requires y < |before| => CopiedRow(before, m, width, lo, hi, y))
  }

  /** Row `y` of a partly copied grid. */
  function CopiedRow(before: Grid, m: Move, width: nat, lo: nat, hi: nat, y: nat): (r: seq<Pixel>)
    requires Fits(m, before, width) && lo <= hi <= m.height && y < |before|
    ensures |r| == width
  {
    if m.toY + lo <= y < m.toY + hi then RowOf(before, m, width, y - m.toY) else before[y]
  }

  lemma RowsCopiedNone(before: Grid, m: Move, width: nat, lo: nat)
    requires Fits(m, before, width) && lo <= m.height
    ensures RowsCopied(before, m, width, lo, lo) == before
  {
  }

  /** Rows still to be copied can be read from the changed grid when it changed below them only. */
  lemma NextRowAbove(before: Grid, m: Move, width: nat, row: nat)
    requires Fits(m, before, width) && m.toY > m.fromY && row < m.height
    ensures var g := RowsCopied(before, m, width, row + 1, m.height);
      Fits(m, g, width) && g[m.toY + row := RowOf(g, m, width, row)] == RowsCopied(before, m, width, row, m.height)
  {
    hide Splice;
    var g := RowsCopied(before, m, width, row + 1, m.height);
    assert g[m.fromY + row] == CopiedRow(before, m, width, row + 1, m.height, m.fromY + row);
    assert g[m.toY + row] == CopiedRow(before, m, width, row + 1, m.height, m.toY + row);
  }

  lemma NextRowBelow(before: Grid, m: Move, width: nat, row: nat)
    requires Fits(m, before, width) && m.toY <= m.fromY && row < m.height
    ensures var g := RowsCopied(before, m, width, 0, row);
      Fits(m, g, width) && g[m.toY + row := RowOf(g, m, width, row)] == RowsCopied(before, m, width, 0, row + 1)
  {
    hide Splice;
    var g := RowsCopied(before, m, width, 0, row);
    assert g[m.fromY + row] == CopiedRow(before, m, width, 0, row, m.fromY + row);
    assert g[m.toY + row] == CopiedRow(before, m, width, 0, row, m.toY + row);
  }

  /** Copying every row is a snapshot copy. */
  lemma AllRowsAreSnapshot(before: Grid, m: Move, width: nat)
    requires Fits(m, before, width)
    ensures IsSnapshotCopy(before, RowsCopied(before, m, width, 0, m.height), m, width, NoClip())
  {
    var after := RowsCopied(before, m, width, 0, m.height);
    forall x: nat, y: nat | y < |before| && x < width
      ensures after[y][x] == Expected(before, m, width, NoClip(), x, y)
    {
      if m.toY <= y < m.toY + m.height {
        SpliceAt(before[y], m.toX, before[y - m.toY + m.fromY][m.fromX..m.fromX + m.width], x);
      }
    }
  }

  lemma SpliceAt(row: seq<Pixel>, at: nat, piece: seq<Pixel>, x: nat)
    requires at + |piece| <= |row| && x < |row|
    ensures Splice(row, at, piece)[x] == if at <= x < at + |piece| then piece[x - at] else row[x]
  {
  }

  // ---------------------------------------------------------------------------
  // Rows in the flat buffer
  // ---------------------------------------------------------------------------

  /** The position of a pixel in the buffer. */
  function PixelOffset(width: nat, x: nat, y: nat): nat {
    y * width + x
  }

  /** A stretch of a row, found in the buffer. */
  lemma StretchOf(g: Grid, y: nat, width: nat, x: nat, n: nat)
    requires Even(g, width) && y < |g| && x + n <= width
    ensures var start := PixelOffset(width, x, y);
      start + n <= |Flatten(g)| && Flatten(g)[start..start + n] == g[y][x..x + n]
  {
    hide Flatten;
    StretchBase(g, y, width, y * width, x, n);
  }

  lemma StretchBase(g: Grid, y: nat, width: nat, base: nat, x: nat, n: nat)
    requires Even(g, width) && y < |g| && base == y * width && x + n <= width
    ensures base + x + n <= |Flatten(g)|
    ensures Flatten(g)[base + x..base + x + n] == g[y][x..x + n]
  {
    hide *;
    FlattenAt(g, y, base, width);
    SliceOfSlice(Flatten(g), base, base + width, x, x + n);
  }

  /** Laying a piece over a row is laying it over the row's stretch of the buffer. */
  lemma SpliceFlat(g: Grid, y: nat, width: nat, x: nat, piece: seq<Pixel>)
    requires Even(g, width) && y < |g| && x + |piece| <= width
    ensures PixelOffset(width, x, y) + |piece| <= |Flatten(g)|
    ensures Flatten(g[y := Splice(g[y], x, piece)]) == Splice(Flatten(g), PixelOffset(width, x, y), piece)
  {
    hide Flatten, Splice;
    SpliceBase(g, y, width, y * width, x, piece);
  }

  lemma SpliceBase(g: Grid, y: nat, width: nat, base: nat, x: nat, piece: seq<Pixel>)
    requires Even(g, width) && y < |g| && base == y * width && x + |piece| <= width
    ensures base + x + |piece| <= |Flatten(g)|
    ensures Flatten(g[y := Splice(g[y], x, piece)]) == Splice(Flatten(g), base + x, piece)
  {
    assert |g[y]| == width;
    hide *;
    var flat := Flatten(g);
    FlattenReplace(g, y, base, Splice(g[y], x, piece), width);
    FlattenAt(g, y, base, width);
    SpliceSlices(flat, base, width, x, piece);
  }

  /** One row of the copy, seen in the buffer. */
  lemma RowMoveFlat(g: Grid, m: Move, width: nat, row: nat, from: nat, to: nat)
    requires Fits(m, g, width) && row < m.height
    requires from == PixelOffset(width, m.fromX, m.fromY + row) && to == PixelOffset(width, m.toX, m.toY + row)
    ensures from + m.width <= |Flatten(g)| && to + m.width <= |Flatten(g)|
    ensures Flatten(g[m.toY + row := RowOf(g, m, width, row)])
         == Splice(Flatten(g), to, Flatten(g)[from..from + m.width])
  {
    hide Flatten, Splice, PixelOffset;
    StretchOf(g, m.fromY + row, width, m.fromX, m.width);
    SpliceFlat(g, m.toY + row, width, m.toX, g[m.fromY + row][m.fromX..m.fromX + m.width]);
  }

  lemma SpliceSlices(flat: seq<Pixel>, start: nat, width: nat, x: nat, piece: seq<Pixel>)
    requires start + width <= |flat| && x + |piece| <= width
    ensures flat[..start] + Splice(flat[start..start + width], x, piece) + flat[start + width..]
         == Splice(flat, start + x, piece)
  {
    var row := flat[start..start + width];
    assert row[..x] == flat[start..start + x];
    assert row[x + |piece|..] == flat[start + x + |piece|..start + width];
  }

  /** A move that reads everything before it writes anything. */
  method CopyWithin(a: array<Pixel>, from: nat, to: nat, n: nat)
    requires from + n <= a.Length && to + n <= a.Length
    modifies a
    ensures a[..] == Splice(old(a[..]), to, old(a[..])[from..from + n])
  {
    forall i | 0 <= i < n {
      a[to + i] := a[from + i];
    }
  }

  method WriteAt(a: array<Pixel>, at: nat, value: Pixel)
    requires at < a.Length
    modifies a
    ensures a[..] == Splice(old(a[..]), at, [value])
  {
    a[at] := value;
  }

  lemma SpliceOne(row: seq<Pixel>, x: nat, value: Pixel)
    requires x < |row|
    ensures Splice(row, x, [value]) == row[x := value]
  {
  }

  // ---------------------------------------------------------------------------
  // The surface
  // ---------------------------------------------------------------------------

  function BlankRows(width: nat, height: nat): (g: Grid)
    ensures |g| == height && Even(g, width)
  {
    seq(height, _ => seq(width, _ => 0))
  }

  lemma {:induction false} BlankFlat(width: nat, height: nat, n: nat)
    requires n == height * width
    ensures Flatten(BlankRows(width, height)) == seq(n, _ => 0)
  {
    if height > 0 {
      assert n - width == (height - 1) * width;
      BlankFlat(width, height - 1, n - width);
      assert BlankRows(width, height)[1..] == BlankRows(width, height - 1);
    }
  }

  class SurfaceData {
    const width: nat
    const height: nat
    const pixels: array<Pixel>
    ghost var rows: Grid

    ghost predicate Valid()
      reads this, pixels
    {
      |rows| == height && Even(rows, width) && pixels[..] == Flatten(rows)
    }

    /** A blank surface. */
    constructor (width: nat, height: nat)
      ensures Valid() && fresh(pixels) && this.width == width && this.height == height
      ensures rows == BlankRows(width, height)
    {
      this.width, this.height := width, height;
      rows := BlankRows(width, height);
      pixels := new Pixel[height * width](_ => 0);
      new;
      BlankFlat(width, height, height * width);
      assert pixels[..] == seq(height * width, _ => 0);
    }

    /** Moves one row in place; the two stretches may overlap. */
    method CopySurfaceRow(m: Move, row: nat)
      requires Valid() && Fits(m, rows, width) && row < m.height
      modifies this`rows, pixels
      ensures Valid() && rows == old(rows)[m.toY + row := RowOf(old(rows), m, width, row)]
    {
      hide Flatten, Splice, RowOf, PixelOffset;
      var sourceStart := PixelOffset(width, m.fromX, m.fromY + row);
      var destinationStart := PixelOffset(width, m.toX, m.toY + row);
      RowMoveFlat(rows, m, width, row, sourceStart, destinationStart);
      CopyWithin(pixels, sourceStart, destinationStart, m.width);
      rows := rows[m.toY + row := RowOf(rows, m, width, row)];
    }

    /** Bottom row first, when the destination lies below its source. */
    method CopyUpward(m: Move)
      requires Valid() && Fits(m, rows, width) && m.toY > m.fromY
      modifies this`rows, pixels
      ensures Valid() && rows == RowsCopied(old(rows), m, width, 0, m.height)
    {
      hide Flatten, Splice, RowOf, RowsCopied;
      ghost var before := rows;
      var row: nat := m.height;
      RowsCopiedNone(before, m, width, row);
      while row > 0
        invariant row <= m.height && Valid()
        invariant rows == RowsCopied(before, m, width, row, m.height)
      {
        row := row - 1;
        NextRowAbove(before, m, width, row);
        CopySurfaceRow(m, row);
      }
    }

    /** Top row first, when the destination does not lie below its source. */
    method CopyDownward(m: Move)
      requires Valid() && Fits(m, rows, width) && m.toY <= m.fromY
      modifies this`rows, pixels
      ensures Valid() && rows == RowsCopied(old(rows), m, width, 0, m.height)
    {
      hide Flatten, Splice, RowOf, RowsCopied;
      ghost var before := rows;
      var row: nat := 0;
      RowsCopiedNone(before, m, width, row);
      while row < m.height
        invariant row <= m.height && Valid()
        invariant rows == RowsCopied(before, m, width, 0, row)
      {
        NextRowBelow(before, m, width, row);
        CopySurfaceRow(m, row);
        row := row + 1;
      }
    }

    /** Writes one pixel. */
    method Put(x: nat, y: nat, value: Pixel)
      requires Valid() && x < width && y < height
      modifies this`rows, pixels
      ensures Valid() && rows == old(rows)[y := old(rows)[y][x := value]]
    {
      hide Flatten, Splice, PixelOffset;
      SpliceFlat(rows, y, width, x, [value]);
      SpliceOne(rows[y], x, value);
      WriteAt(pixels, PixelOffset(width, x, y), value);
      rows := rows[y := rows[y][x := value]];
    }

    /** A copy of the source region, row by row. */
    method Snapshot(m: Move) returns (r: seq<seq<Pixel>>)
      requires Valid() && Fits(m, rows, width)
      ensures |r| == m.height
      ensures forall i :: 0 <= i < m.height ==> r[i] == rows[m.fromY + i][m.fromX..m.fromX + m.width]
    {
      hide Flatten, PixelOffset;
      r := [];
      var row := 0;
      while row < m.height
        invariant row <= m.height && |r| == row
        invariant forall i :: 0 <= i < row ==> r[i] == rows[m.fromY + i][m.fromX..m.fromX + m.width]
      {
        StretchOf(rows, m.fromY + row, width, m.fromX, m.width);
        var start := PixelOffset(width, m.fromX, m.fromY + row);
        r := r + [pixels[start..start + m.width]];
        row := row + 1;
      }
    }

    /** Copies through a clip, by way of a copy of the source region. */
    method CopyClipped(m: Move, clip: Clip)
      requires Valid() && Fits(m, rows, width)
      modifies this`rows, pixels
      ensures Valid() && IsSnapshotCopy(old(rows), rows, m, width, clip)
    {
      hide Flatten;
      ghost var before := rows;
      var source := Snapshot(m);
      var row := 0;
      while row < m.height
        invariant row <= m.height && Valid()
        invariant Partly(before, rows, m, width, clip, row, 0)
      {
        var column := 0;
        while column < m.width
          invariant column <= m.width && Valid()
          invariant Partly(before, rows, m, width, clip, row, column)
        {
          var x, y := m.toX + column, m.toY + row;
          ghost var g := rows;
          if clip(x, y) {
            Put(x, y, source[row][column]);
          }
          PartlyNext(before, g, rows, m, width, clip, row, column, source[row][column]);
          column := column + 1;
        }
        PartlyRow(before, rows, m, width, clip, row);
        row := row + 1;
      }
      PartlyDone(before, rows, m, width, clip);
    }

    /** Copies a region of the surface onto another region of it. */
    method CopyBits(rect: Rect, sourceX: int, sourceY: int, clip: Option<Clip>) returns (ok: bool)
      requires Valid()
      modifies this`rows, pixels
      ensures Valid()
      ensures ok <==>
        && Inside(rect, width, height)
        && 0 <= sourceX && sourceX + (rect.right - rect.left) <= width
        && 0 <= sourceY && sourceY + (rect.bottom - rect.top) <= height
      ensures forall x: nat, y: nat :: x < width && y < height && ok && Covers(rect, x, y) && Allows(clip, x, y) ==>
        rows[y][x] == old(rows)[sourceY + (y - rect.top)][sourceX + (x - rect.left)]
      ensures forall x: nat, y: nat ::
        x < width && y < height && !(ok && Covers(rect, x, y) && Allows(clip, x, y)) ==>
          rows[y][x] == old(rows)[y][x]
    {
      hide Flatten, RowsCopied;
      var target := RectBounds(rect, width, height);
      if target.None? {
        return false;
      }
      var d := target.value;
      var origin := RectBounds(Rect(sourceY, sourceX, sourceY + d.height, sourceX + d.width), width, height);
      if origin.None? {
        return false;
      }
      var m := MoveOf(origin.value, d);
      if clip.Some? {
        CopyClipped(m, clip.value);
        return true;
      }
      AllRowsAreSnapshot(rows, m, width);
      if m.toY > m.fromY {
        CopyUpward(m);
      } else {
        CopyDownward(m);
      }
      return true;
    }
  }

  // ---------------------------------------------------------------------------
  // The clipped copy, pixel by pixel
  // ---------------------------------------------------------------------------

  /** The clip cut down to `row` whole rows and `column` pixels of the next. */
  function Upto(m: Move, clip: Clip, row: nat, column: nat): Clip {
    (x: nat, y: nat) => clip(x, y) && (y < m.toY + row || (y == m.toY + row && x < m.toX + column))
  }

  ghost predicate Partly(before: Grid, after: Grid, m: Move, width: nat, clip: Clip, row: nat, column: nat)
    requires Fits(m, before, width)
  {
    IsSnapshotCopy(before, after, m, width, Upto(m, clip, row, column))
  }

  lemma PartlyNext(before: Grid, g: Grid, g': Grid, m: Move, width: nat, clip: Clip, row: nat, column: nat,
                   value: Pixel)
    requires Fits(m, before, width) && row < m.height && column < m.width
    requires Partly(before, g, m, width, clip, row, column)
    requires value == before[m.fromY + row][m.fromX + column]
    requires var x, y := m.toX + column, m.toY + row;
      g' == if clip(x, y) then g[y := g[y][x := value]] else g
    ensures Partly(before, g', m, width, clip, row, column + 1)
  {
  }

  lemma PartlyRow(before: Grid, g: Grid, m: Move, width: nat, clip: Clip, row: nat)
    requires Fits(m, before, width) && Partly(before, g, m, width, clip, row, m.width)
    ensures Partly(before, g, m, width, clip, row + 1, 0)
  {
    forall x: nat, y: nat | y < |before| && x < width
      ensures Expected(before, m, width, Upto(m, clip, row + 1, 0), x, y)
           == Expected(before, m, width, Upto(m, clip, row, m.width), x, y)
    {
    }
  }

  lemma PartlyDone(before: Grid, g: Grid, m: Move, width: nat, clip: Clip)
    requires Fits(m, before, width) && Partly(before, g, m, width, clip, m.height, 0)
    ensures IsSnapshotCopy(before, g, m, width, clip)
  {
    forall x: nat, y: nat | y < |before| && x < width
      ensures Expected(before, m, width, clip, x, y) == Expected(before, m, width, Upto(m, clip, m.height, 0), x, y)
    {
    }
  }

  /** A new surface under the shared byte budget, of which `used` bytes are taken: blank, or refused exactly
      when it has no pixels or does not fit, and then nothing is taken. */
  method Create(width: nat, height: nat, used: nat, maximum: nat) returns (surface: Option<SurfaceData>, used': nat)
    ensures surface.Some? <==> width > 0 && height > 0 && used + 4 * (height * width) <= maximum
    ensures used' == if surface.Some? then used + 4 * (height * width) else used
    ensures surface.Some? ==>
      && fresh(surface.value) && surface.value.Valid()
      && surface.value.width == width && surface.value.rows == BlankRows(width, height)
  {
    if width == 0 || height == 0 || used + 4 * (height * width) > maximum {
      return None, used;
    }
    var s := new SurfaceData(width, height);
    return Some(s), used + 4 * (height * width);
  }

  /** With a clip that is always true the two paths of the copy leave the same pixels. */
  lemma ClippedAgrees(before: Grid, fast: Grid, clipped: Grid, m: Move, width: nat)
    requires Fits(m, before, width)
    requires fast == RowsCopied(before, m, width, 0, m.height)
    requires IsSnapshotCopy(before, clipped, m, width, NoClip())
    ensures fast == clipped
  {
    hide RowsCopied, IsSnapshotCopy;
    AllRowsAreSnapshot(before, m, width);
    SnapshotUnique(before, fast, clipped, m, width, NoClip());
  }
}
