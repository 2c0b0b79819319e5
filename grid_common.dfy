/** What the three storage layouts of the 3D grid share: the exceptions they throw, the
    bounds test of operator() and set, and the row-major flattening of the 1D layout. */
module GridCommon {

  /** The exceptions the grid classes throw. BadArrayNewLength is what `new double[n]`
      throws when the requested length is negative. */
  datatype GridError = OutOfRange | InvalidArgument | BadArrayNewLength

  /** Bytes per cell: sizeof(double). */
  const DoubleSize: int := 8

  /** The indices that operator() and set accept: the negation of their throw condition. */
  predicate InBounds(i: int, j: int, k: int, nx: int, ny: int, nz: int) {
    0 <= i < nx && 0 <= j < ny && 0 <= k < nz
  }

  /** The row-major position of cell (i, j, k) in a buffer of nx*ny*nz cells. */
  function FlatIndex(i: int, j: int, k: int, ny: int, nz: int): int {
    i * (ny * nz) + j * nz + k
  }

  lemma MulLeq(a: int, b: int, c: int)
    requires a <= b && 0 <= c
    ensures a * c <= b * c
  {
    assert b * c - a * c == (b - a) * c;
  }

  /** The flat index of an in-range cell addresses the buffer: it lies in [0, nx*ny*nz). */
  lemma FlatIndexInRange(i: int, j: int, k: int, nx: int, ny: int, nz: int)
    requires InBounds(i, j, k, nx, ny, nz)
    ensures 0 <= FlatIndex(i, j, k, ny, nz) < nx * ny * nz
  {
    MulLeq(j, ny - 1, nz);
    assert j * nz + k < ny * nz by {
      assert (ny - 1) * nz == ny * nz - nz;
    }
    MulLeq(i, nx - 1, ny * nz);
    assert (nx - 1) * (ny * nz) == nx * ny * nz - ny * nz;
    assert 0 <= j * nz && 0 <= i * (ny * nz);
  }

  /** Within one plane i, the flat index lies in [i*ny*nz, (i+1)*ny*nz). */
  lemma PlaneBounds(i: int, j: int, k: int, ny: int, nz: int)
    requires 0 <= j < ny && 0 <= k < nz
    ensures i * (ny * nz) <= FlatIndex(i, j, k, ny, nz) < (i + 1) * (ny * nz)
  {
    MulLeq(j, ny - 1, nz);
    assert (ny - 1) * nz == ny * nz - nz;
    assert (i + 1) * (ny * nz) == i * (ny * nz) + ny * nz;
    assert 0 <= j * nz;
  }

  /** Two different in-range cells never share a flat index. */
  lemma FlatIndexInjective(i: int, j: int, k: int, i': int, j': int, k': int, nx: int, ny: int, nz: int)
    requires InBounds(i, j, k, nx, ny, nz) && InBounds(i', j', k', nx, ny, nz)
    requires FlatIndex(i, j, k, ny, nz) == FlatIndex(i', j', k', ny, nz)
    ensures i == i' && j == j' && k == k'
  {
    PlaneBounds(i, j, k, ny, nz);
    PlaneBounds(i', j', k', ny, nz);
    if i < i' {
      MulLeq(i + 1, i', ny * nz);
    } else if i' < i {
      MulLeq(i' + 1, i, ny * nz);
    }
    assert i == i';
    if j < j' {
      MulLeq(j + 1, j', nz);
    } else if j' < j {
      MulLeq(j' + 1, j, nz);
    }
  }
}
