/** Grid2: a 3D grid stored as nested std::vector rows, `data[i][j][k]`. The constructor
    rejects non-positive sizes before sizing the rows. */
module GridVector {
  import opened Wrappers
  import opened GridCommon

  /** data has nx planes of ny rows of nz cells each. */
  ghost predicate Shaped(data: seq<seq<seq<real>>>, nx: int, ny: int, nz: int) {
    && |data| == nx
    && (forall i :: 0 <= i < |data| ==> |data[i]| == ny)
    && (forall i, j :: 0 <= i < |data| && 0 <= j < |data[i]| ==> |data[i][j]| == nz)
  }

  /** The nested vector `resize` builds: every cell 0.0. */
  function Zeros(nx: nat, ny: nat, nz: nat): (z: seq<seq<seq<real>>>)
    ensures Shaped(z, nx, ny, nz)
    ensures forall i, j, k :: InBounds(i, j, k, nx, ny, nz) ==> z[i][j][k] == 0.0
  {
    seq(nx, _ => seq(ny, _ => seq(nz, _ => 0.0)))
  }

  class Grid2 {
    const nx: int
    const ny: int
    const nz: int
    var data: seq<seq<seq<real>>>

    ghost predicate Valid()
      reads this
    {
      nx > 0 && ny > 0 && nz > 0 && Shaped(data, nx, ny, nz)
    }

    /** The body after the dimension check: every cell starts at 0.0. */
    constructor (nx_: int, ny_: int, nz_: int)
      requires nx_ > 0 && ny_ > 0 && nz_ > 0
      ensures nx == nx_ && ny == ny_ && nz == nz_ && Valid()
      ensures forall i, j, k :: InBounds(i, j, k, nx, ny, nz) ==> Get(i, j, k) == Success(0.0)
    {
      nx, ny, nz := nx_, ny_, nz_;
      data := Zeros(nx_, ny_, nz_);
    }

    /** `Grid2 g(nx, ny, nz)`: throws invalid_argument when any size is <= 0. */
    static method Create(nx: int, ny: int, nz: int) returns (r: Result<Grid2, GridError>)
      ensures r.Failure? <==> (nx <= 0 || ny <= 0 || nz <= 0)
      ensures r.Failure? ==> r.error == InvalidArgument
      ensures r.Success? ==> fresh(r.value) && r.value.Valid()
      ensures r.Success? ==> r.value.nx == nx && r.value.ny == ny && r.value.nz == nz
      ensures r.Success? ==> forall i, j, k :: InBounds(i, j, k, nx, ny, nz) ==> r.value.Get(i, j, k) == Success(0.0)
    {
      if nx <= 0 || ny <= 0 || nz <= 0 {
        return Failure(InvalidArgument);
      }
      var g := new Grid2(nx, ny, nz);
      r := Success(g);
    }

    /** getSize: the number of cells, as many as the nested vectors hold. */
    function Size(): (n: int)
      requires Valid()
      reads this
      ensures n == |data| * |data[0]| * |data[0][0]|
    {
      nx * ny * nz
    }

    /** getMemory: sizeof(double) bytes per cell. */
    function Memory(): (bytes: int)
      requires Valid()
      reads this
      ensures bytes == DoubleSize * nx * ny * nz
    {
      DoubleSize * Size()
    }

    /** operator(): throws out_of_range exactly when an index is outside its dimension. */
    function Get(i: int, j: int, k: int): (r: Result<real, GridError>)
      requires Valid()
      reads this
      ensures r.Failure? <==> !InBounds(i, j, k, nx, ny, nz)
      ensures r.Failure? ==> r.error == OutOfRange
      ensures r.Success? ==> r.value == data[i][j][k]
    {
      if i >= nx || j >= ny || k >= nz || i < 0 || j < 0 || k < 0 then
        Failure(OutOfRange)
      else
        Success(data[i][j][k])
    }

    /** set: throws out_of_range on a bad index and changes nothing; otherwise only cell
        (i, j, k) changes, to v. */
    method Set(i: int, j: int, k: int, v: real) returns (o: Outcome<GridError>)
      requires Valid()
      modifies this
      ensures Valid()
      ensures o.Fail? <==> !InBounds(i, j, k, nx, ny, nz)
      ensures o.Fail? ==> o.error == OutOfRange && data == old(data)
      ensures o.Pass? ==> Get(i, j, k) == Success(v)
      ensures o.Pass? ==> forall i', j', k' :: InBounds(i', j', k', nx, ny, nz) && (i', j', k') != (i, j, k)
                            ==> Get(i', j', k') == old(Get(i', j', k'))
    {
      if i >= nx || j >= ny || k >= nz || i < 0 || j < 0 || k < 0 {
        return Fail(OutOfRange);
      }
      data := data[i := data[i][j := data[i][j][k := v]]];
      o := Pass;
    }

    /** operator+: throws invalid_argument unless the dimensions agree; otherwise a fresh grid
        holding the cell-by-cell sums, filled by a triple loop. The operands are not modified. */
    method Add(other: Grid2) returns (r: Result<Grid2, GridError>)
      requires Valid() && other.Valid()
      ensures r.Failure? <==> (nx != other.nx || ny != other.ny || nz != other.nz)
      ensures r.Failure? ==> r.error == InvalidArgument
      ensures r.Success? ==> fresh(r.value) && r.value.Valid()
      ensures r.Success? ==> r.value.nx == nx && r.value.ny == ny && r.value.nz == nz
      ensures r.Success? ==> forall i, j, k :: InBounds(i, j, k, nx, ny, nz) ==>
                r.value.Get(i, j, k) == Success(Get(i, j, k).value + other.Get(i, j, k).value)
    {
      if nx != other.nx || ny != other.ny || nz != other.nz {
        return Failure(InvalidArgument);
      }
      var result := new Grid2(nx, ny, nz);
      var sums := result.data;
      for i := 0 to nx
        invariant Shaped(sums, nx, ny, nz)
        invariant forall i', j', k' :: InBounds(i', j', k', i, ny, nz) ==>
                    sums[i'][j'][k'] == data[i'][j'][k'] + other.data[i'][j'][k']
      {
        for j := 0 to ny
          invariant Shaped(sums, nx, ny, nz)
          invariant forall i', j', k' :: InBounds(i', j', k', i, ny, nz) ==>
                      sums[i'][j'][k'] == data[i'][j'][k'] + other.data[i'][j'][k']
          invariant forall j', k' :: 0 <= j' < j && 0 <= k' < nz ==>
                      sums[i][j'][k'] == data[i][j'][k'] + other.data[i][j'][k']
        {
          var row := sums[i][j];
          for k := 0 to nz
            invariant |row| == nz
            invariant forall k' :: 0 <= k' < k ==> row[k'] == data[i][j][k'] + other.data[i][j][k']
          {
            row := row[k := data[i][j][k] + other.data[i][j][k]];
          }
          sums := sums[i := sums[i][j := row]];
        }
      }
      result.data := sums;
      r := Success(result);
    }
  }
}
