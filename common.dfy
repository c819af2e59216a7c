/** Values shared by the client's batching, dispatch and assembly code. */
module Common {

  datatype Option<+T> = None | Some(value: T)

  datatype Result<+R, +E> = Success(value: R) | Failure(error: E)

  /** One band of one raster cell: the float32 NaN that the client uses as
      "nodata", or a number. */
  datatype Cell = Nodata | Value(v: real)

  /** One raster cell: band 0 holds the interpolated maximum, band 1 the
      interpolated mean of the non-zero values. */
  datatype Pixel = Pixel(maxBand: Cell, meanBand: Cell)

  const NodataPixel := Pixel(Nodata, Nodata)

  /** A row of a coordinate grid (longitudes or latitudes). */
  type GridRow = seq<real>

  /** A per-batch result as returned by a compute server: rows x cols x 2. */
  type Block = seq<seq<Pixel>>

  /** The observation stations, as parallel arrays. */
  datatype KnownData = KnownData(lons: seq<real>, lats: seq<real>, maxValues: seq<real>, meanValues: seq<real>)

  /** One batch as built by the client: a row range of the grid, the shared
      station data, the IDW power and the matching slice of the optional mask. */
  datatype Batch = Batch(
    startRow: nat,
    endRow: nat,
    lonsGrid: seq<GridRow>,
    latsGrid: seq<GridRow>,
    knownData: KnownData,
    power: real,
    polygonMask: Option<seq<seq<bool>>>)

  function Min(a: nat, b: nat): nat { if a <= b then a else b }

  /** Python's `s[i:j]` for non-negative bounds: both ends are clamped to the
      length of `s`, and an empty slice results when `j <= i`. */
  function Slice<T>(s: seq<T>, i: nat, j: nat): (r: seq<T>)
    ensures i <= j <= |s| ==> r == s[i..j]
    ensures i <= |s| <= j ==> r == s[i..]
    ensures |s| <= i ==> r == []
    ensures |r| <= |s|
  {
    var lo := Min(i, |s|);
    var hi := Min(j, |s|);
    if hi <= lo then [] else s[lo..hi]
  }

  // ---------------------------------------------------------------------
  // Arithmetic on natural numbers

  lemma MulMonotone(a: nat, b: nat, d: nat)
    requires a <= b
    ensures a * d <= b * d
  {
    assert b * d == a * d + (b - a) * d;
  }

  /** Division and remainder are determined by the bracketing multiples. */
  lemma DivIsUnique(x: nat, d: nat, q: nat)
    requires d >= 1
    requires q * d <= x < q * d + d
    ensures x / d == q
    ensures x % d == x - q * d
  {
    var q' := x / d;
    assert x == q' * d + x % d;
    if q' < q {
      MulMonotone(q' + 1, q, d);
    } else if q' > q {
      MulMonotone(q + 1, q', d);
    }
  }
}
