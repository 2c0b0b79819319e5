/** Grid1: a 3D grid of doubles stored in one flat buffer of nx*ny*nz cells, addressed in
    row-major order. Unlike the other two layouts it does not reject non-positive sizes. */
module Grid1DArray {
  import opened Wrappers
  import opened GridCommon

  class Grid1 {
    const nx: int
    const ny: int
    const nz: int
    /** The heap buffer `data = new double[nx * ny * nz]`. */
    const data: array<real>

    ghost predicate Valid()
      reads this
    {
      data.Length == nx * ny * nz
    }

    /** Allocates the buffer and zero-fills it cell by cell. */
    constructor (nx_: int, ny_: int, nz_: int)
      requires nx_ * ny_ * nz_ >= 0
      ensures nx == nx_ && ny == ny_ && nz == nz_
      ensures Valid() && fresh(data)
      ensures forall p :: 0 <= p < data.Length ==> data[p] == 0.0
    {
      nx, ny, nz := nx_, ny_, nz_;
      var buffer := new real[nx_ * ny_ * nz_];
      var i := 0;
      while i < nx_ * ny_ * nz_
        invariant 0 <= i <= buffer.Length
        invariant forall p :: 0 <= p < i ==> buffer[p] == 0.0
      {
        buffer[i] := 0.0;
        i := i + 1;
      }
      data := buffer;
    }

    /** `Grid1 g(nx, ny, nz)`: the allocation throws when the product is negative; the
        constructor itself checks nothing. */
    static method Create(nx: int, ny: int, nz: int) returns (r: Result<Grid1, GridError>)
      ensures r.Failure? <==> nx * ny * nz < 0
      ensures r.Failure? ==> r.error == BadArrayNewLength
      ensures r.Success? ==> fresh(r.value) && fresh(r.value.data) && r.value.Valid()
      ensures r.Success? ==> r.value.nx == nx && r.value.ny == ny && r.value.nz == nz
      ensures r.Success? ==> forall i, j, k :: InBounds(i, j, k, nx, ny, nz) ==> r.value.Get(i, j, k) == Success(0.0)
    {
      if nx * ny * nz < 0 {
        return Failure(BadArrayNewLength);
      }
      var g := new Grid1(nx, ny, nz);
      forall i, j, k | InBounds(i, j, k, nx, ny, nz)
        ensures g.Get(i, j, k) == Success(0.0)
      {
        FlatIndexInRange(i, j, k, nx, ny, nz);
      }
      r := Success(g);
    }

    /** getSize: the number of cells in the buffer. */
    function Size(): (n: int)
      requires Valid()
      reads this
      ensures n == data.Length
    {
      nx * ny * nz
    }

    /** getMemory: sizeof(double) bytes per cell. */
    function Memory(): (bytes: int)
      requires Valid()
      reads this
      ensures bytes == DoubleSize * data.Length
    {
      DoubleSize * Size()
    }

    /** operator(): throws out_of_range exactly when an index is outside its dimension,
        otherwise reads the cell at the row-major flat index. */
    function Get(i: int, j: int, k: int): (r: Result<real, GridError>)
      requires Valid()
      reads this, data
      ensures r.Failure? <==> !InBounds(i, j, k, nx, ny, nz)
      ensures r.Failure? ==> r.error == OutOfRange
      ensures r.Success? ==> (0 <= FlatIndex(i, j, k, ny, nz) < data.Length
                              && r.value == data[FlatIndex(i, j, k, ny, nz)])
    {
      if i >= nx || j >= ny || k >= nz || i < 0 || j < 0 || k < 0 then
        Failure(OutOfRange)
      else
        FlatIndexInRange(i, j, k, nx, ny, nz);
        Success(data[FlatIndex(i, j, k, ny, nz)])
    }

    /** set: throws out_of_range on a bad index and changes nothing; otherwise afterwards
        (i, j, k) reads v and every other cell reads what it read before. */
    method Set(i: int, j: int, k: int, v: real) returns (o: Outcome<GridError>)
      requires Valid()
      modifies data
      ensures Valid()
      ensures o.Fail? <==> !InBounds(i, j, k, nx, ny, nz)
      ensures o.Fail? ==> o.error == OutOfRange && data[..] == old(data[..])
      ensures o.Pass? ==> Get(i, j, k) == Success(v)
      ensures o.Pass? ==> forall i', j', k' :: InBounds(i', j', k', nx, ny, nz) && (i', j', k') != (i, j, k)
                            ==> Get(i', j', k') == old(Get(i', j', k'))
    {
      if i >= nx || j >= ny || k >= nz || i < 0 || j < 0 || k < 0 {
        return Fail(OutOfRange);
      }
      FlatIndexInRange(i, j, k, nx, ny, nz);
      var index := FlatIndex(i, j, k, ny, nz);
      data[index] := v;
      o := Pass;
      forall i', j', k' | InBounds(i', j', k', nx, ny, nz) && (i', j', k') != (i, j, k)
        ensures Get(i', j', k') == old(Get(i', j', k'))
      {
        FlatIndexInRange(i', j', k', nx, ny, nz);
        if FlatIndex(i', j', k', ny, nz) == index {
          FlatIndexInjective(i, j, k, i', j', k', nx, ny, nz);
        }
      }
    }

    /** operator+: throws invalid_argument unless all three dimensions agree; otherwise a
        fresh grid whose every cell is the sum of the operands' cells. Neither operand is
        modified (the method has no modifies clause). */
    method Add(other: Grid1) returns (r: Result<Grid1, GridError>)
      requires Valid() && other.Valid()
      ensures r.Failure? <==> (nx != other.nx || ny != other.ny || nz != other.nz)
      ensures r.Failure? ==> r.error == InvalidArgument
      ensures r.Success? ==> fresh(r.value) && fresh(r.value.data) && r.value.Valid()
      ensures r.Success? ==> r.value.nx == nx && r.value.ny == ny && r.value.nz == nz
      ensures r.Success? ==> forall i, j, k :: InBounds(i, j, k, nx, ny, nz) ==>
                r.value.Get(i, j, k) == Success(Get(i, j, k).value + other.Get(i, j, k).value)
    {
      if nx != other.nx || ny != other.ny || nz != other.nz {
        return Failure(InvalidArgument);
      }
      var result := new Grid1(nx, ny, nz);
      var i := 0;
      while i < nx * ny * nz
        invariant 0 <= i <= result.data.Length
        invariant forall p :: 0 <= p < i ==> result.data[p] == data[p] + other.data[p]
      {
        result.data[i] := data[i] + other.data[i];
        i := i + 1;
      }
      forall i, j, k | InBounds(i, j, k, nx, ny, nz)
        ensures result.Get(i, j, k) == Success(Get(i, j, k).value + other.Get(i, j, k).value)
      {
        FlatIndexInRange(i, j, k, nx, ny, nz);
      }
      r := Success(result);
    }
  }
}
