/** The 3-d weight store of a grid (applgridphoton/appl_grid/SparseMatrix3d.h):
    the bounds-checked `fill`, the linearised fast index, the axis
    comparison, and the fast-index lifetime. Binning a coordinate is done
    by the axis class (axis.h, not part of this model): `fill` receives the
    bin indices. */
module SparseMatrix {
  /** An axis: number of bins and range. Equality is field-wise. */
  datatype Axis = Axis(n: int, lo: real, hi: real)

  /** Bin index triple. */
  datatype Bin = Bin(i: int, j: int, k: int)

  /** The matrix: three axes, the stored weights, and whether the fast
      index into the untrimmed array exists. */
  datatype Matrix3d = Matrix3d(x: Axis, y: Axis, z: Axis, cells: map<Bin, real>, fast: bool)
  {
    predicate InRange(b: Bin)
    {
      0 <= b.i < x.n && 0 <= b.j < y.n && 0 <= b.k < z.n
    }

    function At(b: Bin): real
    {
      if b in cells then cells[b] else 0.0
    }
  }

  /** `fill` with the bins already found: out of range does nothing;
      otherwise the weight is added to that one cell. When the fast index
      exists the source goes through `fill_fast`, taken here to reach the
      same cell. */
  function Fill(m: Matrix3d, b: Bin, w: real): (r: Matrix3d)
    ensures r.x == m.x && r.y == m.y && r.z == m.z && r.fast == m.fast
    ensures !m.InRange(b) ==> r == m
    ensures m.InRange(b) ==> r.At(b) == m.At(b) + w
    ensures forall c :: c != b ==> r.At(c) == m.At(c)
  {
    if !m.InRange(b) then m
    else m.(cells := m.cells[b := m.At(b) + w])
  }

  /** Fills of distinct bins commute. */
  lemma FillCommutes(m: Matrix3d, b1: Bin, w1: real, b2: Bin, w2: real)
    requires b1 != b2
    ensures Fill(Fill(m, b1, w1), b2, w2) == Fill(Fill(m, b2, w2), b1, w1)
  {
    if m.InRange(b1) && m.InRange(b2) {
      assert Fill(Fill(m, b1, w1), b2, w2).cells == Fill(Fill(m, b2, w2), b1, w1).cells;
    }
  }

  // ---------------------------------------------------------------------
  // The fast index

  /** `fill_fast`'s offset: x slowest, z fastest. */
  function FastIndex(i: int, j: int, k: int, ny: int, nz: int): int
  {
    (i * ny + j) * nz + k
  }

  lemma MulMono(a: int, b: int, c: int)
    requires 0 <= a <= b && c >= 0
    ensures a * c <= b * c
  {
  }

  /** For an in-range bin the offset lies inside the `nx*ny*nz` array. */
  lemma FastIndexInRange(i: int, j: int, k: int, nx: int, ny: int, nz: int)
    requires 0 <= i < nx && 0 <= j < ny && 0 <= k < nz
    ensures 0 <= FastIndex(i, j, k, ny, nz) < nx * ny * nz
  {
    assert 0 <= i * ny + j <= (nx - 1) * ny + (ny - 1) by {
      MulMono(i, nx - 1, ny);
    }
    assert (nx - 1) * ny + (ny - 1) == nx * ny - 1;
    MulMono(i * ny + j, nx * ny - 1, nz);
    assert (nx * ny - 1) * nz + (nz - 1) == nx * ny * nz - 1;
  }

  /** The offset decoded: the remainders by `nz` and then `ny` give back k
      and j, and the quotient i. */
  lemma FastIndexDecode(i: int, j: int, k: int, ny: int, nz: int)
    requires 0 <= i && 0 <= j < ny && 0 <= k < nz
    ensures FastIndex(i, j, k, ny, nz) % nz == k
    ensures FastIndex(i, j, k, ny, nz) / nz == i * ny + j
    ensures (i * ny + j) % ny == j && (i * ny + j) / ny == i
  {
    DivMod(i * ny + j, k, nz);
    DivMod(i, j, ny);
  }

  /** `(q*d + r) / d == q` and `% d == r` for `0 <= r < d`. */
  lemma DivMod(q: int, r: int, d: int)
    requires 0 <= r < d
    ensures (q * d + r) / d == q && (q * d + r) % d == r
  {
    var n := q * d + r;
    var q' := n / d;
    var r' := n % d;
    assert n == q' * d + r' && 0 <= r' < d;
    assert (q - q') * d == r' - r;
    if q > q' {
      MulMono(1, q - q', d);
    } else if q < q' {
      MulMono(1, q' - q, d);
    }
  }

  /** Distinct in-range bins never share an offset. */
  lemma FastIndexInjective(i1: int, j1: int, k1: int, i2: int, j2: int, k2: int, nx: int, ny: int, nz: int)
    requires 0 <= i1 < nx && 0 <= j1 < ny && 0 <= k1 < nz
    requires 0 <= i2 < nx && 0 <= j2 < ny && 0 <= k2 < nz
    requires FastIndex(i1, j1, k1, ny, nz) == FastIndex(i2, j2, k2, ny, nz)
    ensures i1 == i2 && j1 == j2 && k1 == k2
  {
    FastIndexDecode(i1, j1, k1, ny, nz);
    FastIndexDecode(i2, j2, k2, ny, nz);
  }

  // ---------------------------------------------------------------------
  // Comparison and the fast-index lifetime

  /** `compare_axes`: the same three axes. */
  predicate CompareAxes(a: Matrix3d, b: Matrix3d)
  {
    a.x == b.x && a.y == b.y && a.z == b.z
  }

  /** Axis comparison is an equivalence, and filling never changes it. */
  lemma CompareAxesEquivalence(a: Matrix3d, b: Matrix3d, c: Matrix3d, bin: Bin, w: real)
    ensures CompareAxes(a, a)
    ensures CompareAxes(a, b) ==> CompareAxes(b, a)
    ensures CompareAxes(a, b) && CompareAxes(b, c) ==> CompareAxes(a, c)
    ensures CompareAxes(Fill(a, bin, w), a)
  {
  }

  /** `operator!=` is the negation of `operator==`, which compares
      contents and is defined outside this header: it is a parameter.
      The two operators disagree on every pair, and `!=` is symmetric
      whenever `==` is. */
  function NotEqual(eq: (Matrix3d, Matrix3d) -> bool, a: Matrix3d, b: Matrix3d): (r: bool)
    ensures r != eq(a, b)
    ensures eq(a, b) == eq(b, a) ==> r == !eq(b, a)
  {
    !eq(a, b)
  }

  /** `empty_fast`: the fast index is released; nothing else changes. */
  function EmptyFast(m: Matrix3d): (r: Matrix3d)
    ensures !r.fast
    ensures CompareAxes(r, m) && forall b :: r.At(b) == m.At(b)
  {
    m.(fast := false)
  }

  lemma EmptyFastIdempotent(m: Matrix3d)
    ensures EmptyFast(EmptyFast(m)) == EmptyFast(m)
    ensures !m.fast ==> EmptyFast(m) == m
  {
  }

  /** Filling does not depend on the fast index: filling and then
      releasing the index is releasing it and then filling. */
  lemma FillWithoutFastIndex(m: Matrix3d, b: Bin, w: real)
    ensures Fill(EmptyFast(m), b, w) == EmptyFast(Fill(m, b, w))
  {
  }

  /** A compaction in the sense of the sparse base class: it changes only
      how the cells are stored, so it keeps the axes, the fast-index flag
      and the weight of every bin (it may drop cells that hold 0). */
  ghost predicate Compacts(compact: Matrix3d -> Matrix3d, n: Matrix3d)
  {
    CompareAxes(compact(n), n) && compact(n).fast == n.fast
    && forall b :: compact(n).At(b) == n.At(b)
  }

  /** `trim`: release the fast index first (it would dangle), then compact
      the storage. The compaction is the base class's, a parameter here.
      When it is a compaction, trimming keeps the axes and every weight and
      leaves no fast index. */
  function Trim(m: Matrix3d, compact: Matrix3d -> Matrix3d): (r: Matrix3d)
    ensures Compacts(compact, EmptyFast(m)) ==>
      !r.fast && CompareAxes(r, m) && forall b :: r.At(b) == m.At(b)
  {
    compact(EmptyFast(m))
  }

  /** Whether the matrix had a fast index before makes no difference to
      what `trim` produces. */
  lemma TrimIgnoresFastIndex(m: Matrix3d, compact: Matrix3d -> Matrix3d)
    ensures Trim(m, compact) == Trim(EmptyFast(m), compact)
    ensures Trim(m, compact) == Trim(m.(fast := !m.fast), compact)
  {
  }

  /** With a compaction, filling a trimmed matrix gives the weights that
      trimming the filled matrix gives. */
  lemma FillAfterTrim(m: Matrix3d, compact: Matrix3d -> Matrix3d, b: Bin, w: real, c: Bin)
    requires Compacts(compact, EmptyFast(m)) && Compacts(compact, EmptyFast(Fill(m, b, w)))
    ensures Fill(Trim(m, compact), b, w).At(c) == Trim(Fill(m, b, w), compact).At(c)
    ensures CompareAxes(Fill(Trim(m, compact), b, w), Trim(Fill(m, b, w), compact))
  {
    var t := Trim(m, compact);
    assert t.At(b) == m.At(b) && t.At(c) == m.At(c);
    assert t.InRange(b) == m.InRange(b);
  }
}
