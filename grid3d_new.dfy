/** Grid3: a 3D grid allocated with `new` as nx blocks of ny rows of nz cells and
    zero-filled by nested loops; `data[i][j][k]` is a three-dimensional array here. */
module GridNew {
  import opened Wrappers
  import opened GridCommon

  class Grid3 {
    const nx: int
    const ny: int
    const nz: int
    const data: array3<real>

    ghost predicate Valid()
      reads this
    {
      nx > 0 && ny > 0 && nz > 0
      && data.Length0 == nx && data.Length1 == ny && data.Length2 == nz
    }

    /** The body after the dimension check: allocate, then write 0.0 into every cell. */
    constructor (nx_: int, ny_: int, nz_: int)
      requires nx_ > 0 && ny_ > 0 && nz_ > 0
      ensures nx == nx_ && ny == ny_ && nz == nz_ && Valid() && fresh(data)
      ensures forall i, j, k :: InBounds(i, j, k, nx, ny, nz) ==> data[i, j, k] == 0.0
    {
      nx, ny, nz := nx_, ny_, nz_;
      var cells := new real[nx_, ny_, nz_];
      for i := 0 to nx_
        invariant forall i', j', k' :: InBounds(i', j', k', i, ny_, nz_) ==> cells[i', j', k'] == 0.0
      {
        for j := 0 to ny_
          invariant forall i', j', k' :: InBounds(i', j', k', i, ny_, nz_) ==> cells[i', j', k'] == 0.0
          invariant forall j', k' :: 0 <= j' < j && 0 <= k' < nz_ ==> cells[i, j', k'] == 0.0
        {
          for k := 0 to nz_
            invariant forall i', j', k' :: InBounds(i', j', k', i, ny_, nz_) ==> cells[i', j', k'] == 0.0
            invariant forall j', k' :: 0 <= j' < j && 0 <= k' < nz_ ==> cells[i, j', k'] == 0.0
            invariant forall k' :: 0 <= k' < k ==> cells[i, j, k'] == 0.0
          {
            cells[i, j, k] := 0.0;
          }
        }
      }
      data := cells;
    }

    /** `Grid3 g(nx, ny, nz)`: throws invalid_argument when any size is <= 0. */
    static method Create(nx: int, ny: int, nz: int) returns (r: Result<Grid3, GridError>)
      ensures r.Failure? <==> (nx <= 0 || ny <= 0 || nz <= 0)
      ensures r.Failure? ==> r.error == InvalidArgument
      ensures r.Success? ==> fresh(r.value) && fresh(r.value.data) && r.value.Valid()
      ensures r.Success? ==> r.value.nx == nx && r.value.ny == ny && r.value.nz == nz
      ensures r.Success? ==> forall i, j, k :: InBounds(i, j, k, nx, ny, nz) ==> r.value.Get(i, j, k) == Success(0.0)
    {
      if nx <= 0 || ny <= 0 || nz <= 0 {
        return Failure(InvalidArgument);
      }
      var g := new Grid3(nx, ny, nz);
      r := Success(g);
    }

    /** getSize: the number of allocated cells. */
    function Size(): (n: int)
      requires Valid()
      reads this
      ensures n == data.Length0 * data.Length1 * data.Length2
    {
      nx * ny * nz
    }

    /** getMemory: sizeof(double) bytes per cell. */
    function Memory(): (bytes: int)
      requires Valid()
      reads this
      ensures bytes == DoubleSize * (data.Length0 * data.Length1 * data.Length2)
    {
      DoubleSize * Size()
    }

    /** operator(): throws out_of_range exactly when an index is outside its dimension. */
    function Get(i: int, j: int, k: int): (r: Result<real, GridError>)
      requires Valid()
      reads this, data
      ensures r.Failure? <==> !InBounds(i, j, k, nx, ny, nz)
      ensures r.Failure? ==> r.error == OutOfRange
      ensures r.Success? ==> r.value == data[i, j, k]
    {
      if i >= nx || j >= ny || k >= nz || i < 0 || j < 0 || k < 0 then
        Failure(OutOfRange)
      else
        Success(data[i, j, k])
    }

    /** set: throws out_of_range on a bad index and changes nothing; otherwise only cell
        (i, j, k) changes, to v. */
    method Set(i: int, j: int, k: int, v: real) returns (o: Outcome<GridError>)
      requires Valid()
      modifies data
      ensures Valid()
      ensures o.Fail? <==> !InBounds(i, j, k, nx, ny, nz)
      ensures o.Fail? ==> o.error == OutOfRange && unchanged(data)
      ensures o.Pass? ==> Get(i, j, k) == Success(v)
      ensures o.Pass? ==> forall i', j', k' :: InBounds(i', j', k', nx, ny, nz) && (i', j', k') != (i, j, k)
                            ==> Get(i', j', k') == old(Get(i', j', k'))
    {
      if i >= nx || j >= ny || k >= nz || i < 0 || j < 0 || k < 0 {
        return Fail(OutOfRange);
      }
      data[i, j, k] := v;
      o := Pass;
    }

    /** operator+: throws invalid_argument unless the dimensions agree; otherwise a fresh grid
        holding the cell-by-cell sums, filled by a triple loop. The operands are not modified. */
    method Add(other: Grid3) returns (r: Result<Grid3, GridError>)
      requires Valid() && other.Valid()
      ensures r.Failure? <==> (nx != other.nx || ny != other.ny || nz != other.nz)
      ensures r.Failure? ==> r.error == InvalidArgument
      ensures r.Success? ==> fresh(r.value) && fresh(r.value.data) && r.value.Valid()
      ensures r.Success? ==> r.value.nx == nx && r.value.ny == ny && r.value.nz == nz
      ensures r.Success? ==> forall i, j, k :: InBounds(i, j, k, nx, ny, nz) ==>
                r.value.Get(i, j, k) == Success(Get(i, j, k).value + other.Get(i, j, k).value)
    {
      if nx != other.nx || ny != other.ny || nz != other.nz {
        return Failure(InvalidArgument);
      }
      var result := new Grid3(nx, ny, nz);
      var sum := result.data;
      for i := 0 to nx
        invariant forall i', j', k' :: InBounds(i', j', k', i, ny, nz) ==>
                    sum[i', j', k'] == data[i', j', k'] + other.data[i', j', k']
      {
        for j := 0 to ny
          invariant forall i', j', k' :: InBounds(i', j', k', i, ny, nz) ==>
                      sum[i', j', k'] == data[i', j', k'] + other.data[i', j', k']
          invariant forall j', k' :: 0 <= j' < j && 0 <= k' < nz ==>
                      sum[i, j', k'] == data[i, j', k'] + other.data[i, j', k']
        {
          for k := 0 to nz
            invariant forall i', j', k' :: InBounds(i', j', k', i, ny, nz) ==>
                        sum[i', j', k'] == data[i', j', k'] + other.data[i', j', k']
            invariant forall j', k' :: 0 <= j' < j && 0 <= k' < nz ==>
                        sum[i, j', k'] == data[i, j', k'] + other.data[i, j', k']
            invariant forall k' :: 0 <= k' < k ==>
                        sum[i, j, k'] == data[i, j, k'] + other.data[i, j, k']
          {
            sum[i, j, k] := data[i, j, k] + other.data[i, j, k];
          }
        }
      }
      r := Success(result);
    }
  }
}
