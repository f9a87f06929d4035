/**
 * The two board layers, Field (a byte per cell) and BitField (a bit per
 * cell), held as sequences of 1024 values indexed by the packed cell
 * `y << 5 | x`, and their common `transform(from, to)`.
 */
module Fields {
  import opened Geometry
  import opened Transform

  /** The cell whose contents land on packed cell k when moving from `from` to `to`. */
  function Source(from: int, to: int, k: int): (q: Point)
    requires IsOrientation(from) && IsOrientation(to) && 0 <= k < CellCount
    ensures InField(q)
  {
    Trans(to, from, From1d(k))
  }

  /** r holds, at each cell whose source comes before packed cell n, that source's value; zero elsewhere. */
  ghost predicate Filled<T>(f: seq<T>, zero: T, from: int, to: int, n: int, r: seq<T>)
    requires |f| == CellCount && IsOrientation(from) && IsOrientation(to)
  {
    |r| == CellCount
    && forall k | 0 <= k < CellCount ::
         r[k] == if To1d(Source(from, to, k)) < n then f[To1d(Source(from, to, k))] else zero
  }

  /** Writing the value of cell (x, y) at its image fills one more cell. */
  lemma FilledStep<T>(f: seq<T>, zero: T, from: int, to: int, x: int, y: int, r: seq<T>)
    requires |f| == CellCount && IsOrientation(from) && IsOrientation(to)
    requires 0 <= x < Size && 0 <= y < Size && Filled(f, zero, from, to, y * Size + x, r)
    ensures Filled(f, zero, from, to, y * Size + x + 1, r[To1d(Trans(from, to, Point(x, y))) := f[y * Size + x]])
  {
    var q := Point(x, y);
    var r' := r[To1d(Trans(from, to, q)) := f[y * Size + x]];
    forall k | 0 <= k < CellCount
      ensures r'[k] == if To1d(Source(from, to, k)) < y * Size + x + 1 then f[To1d(Source(from, to, k))] else zero
    {
      SourceAt(from, to, k, q);
      To1dInjective(Source(from, to, k), q);
    }
  }

  /** Packed cell k receives the contents of q exactly when k is the image of q. */
  lemma SourceAt(from: int, to: int, k: int, q: Point)
    requires IsOrientation(from) && IsOrientation(to) && 0 <= k < CellCount && InField(q)
    ensures Source(from, to, k) == q <==> k == To1d(Trans(from, to, q))
  {
    TransCompose(from, to, from, q);
    TransIdentity(from, q);
    TransCompose(to, from, to, From1d(k));
    TransIdentity(to, From1d(k));
    From1dTo1d(Trans(from, to, q));
  }

  /** Once every cell is filled, each cell p lands at its image. */
  lemma FilledAll<T>(f: seq<T>, zero: T, from: int, to: int, r: seq<T>)
    requires |f| == CellCount && IsOrientation(from) && IsOrientation(to)
    requires Filled(f, zero, from, to, CellCount, r)
    ensures |r| == CellCount
    ensures forall y, x | 0 <= y < Size && 0 <= x < Size ::
      r[To1d(Trans(from, to, Point(x, y)))] == f[To1d(Point(x, y))]
    ensures forall k | 0 <= k < CellCount :: r[k] == f[To1d(Source(from, to, k))]
  {
    forall y, x | 0 <= y < Size && 0 <= x < Size
      ensures r[To1d(Trans(from, to, Point(x, y)))] == f[To1d(Point(x, y))]
    {
      From1dTo1d(Trans(from, to, Point(x, y)));
      TransCompose(from, to, from, Point(x, y));
    }
  }

  /**
   * Field::transform and BitField::transform: a fresh layer (all `zero`)
   * receives, at trans(from, to, p), the value of every cell p.
   */
  method TransformLayer<T>(tt: Table, f: seq<T>, zero: T, from: int, to: int) returns (r: seq<T>)
    requires tt.Valid() && tt.built
    requires |f| == CellCount && IsOrientation(from) && IsOrientation(to)
    ensures |r| == CellCount
    ensures forall y, x | 0 <= y < Size && 0 <= x < Size ::
      r[To1d(Trans(from, to, Point(x, y)))] == f[To1d(Point(x, y))]
    ensures forall k | 0 <= k < CellCount :: r[k] == f[To1d(Source(from, to, k))]
  {
    r := seq(CellCount, _ => zero);
    for y := 0 to Size
      invariant Filled(f, zero, from, to, y * Size, r)
    {
      for x := 0 to Size
        invariant Filled(f, zero, from, to, y * Size + x, r)
      {
        var p := tt.Lookup(from, to, Point(x, y));
        FilledStep(f, zero, from, to, x, y, r);
        r := r[To1d(p):= f[y * Size + x]];
      }
    }
    FilledAll(f, zero, from, to, r);
  }
}
